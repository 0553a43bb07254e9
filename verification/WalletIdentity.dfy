/** The WalletIdentity contract: group membership, the shared group attestation and the registry of
    KYC nullifiers.  `Step` is the storage-level meaning of each entry point; the class below it
    performs the same reads and writes key by key. */
module WalletIdentity {
  import opened Common

  /** The identity-proof check of `register_wallet`: key, proof blob, commitment, caller. */
  type Gate = (Bytes, Bytes, Commitment, Address) -> Verdict

  datatype Store = Store(
    admin: Address,
    registryWired: bool,
    vk: Option<Bytes>,
    commitmentOf: map<Address, Commitment>,
    memberCount: map<Commitment, nat>,
    attestations: map<Commitment, AttestationData>,
    nullifiers: map<Nullifier, Commitment>,
    kycVerified: map<Commitment, bool>)

  function Empty(admin: Address): Store {
    Store(admin, false, None, map[], map[], map[], map[], map[])
  }

  datatype Call =
    | SetAttestorRegistry
    | SetIdentityVk(vk: Bytes)
    | RegisterWallet(wallet: Address, commitment: Commitment, proof: Bytes)
    | UpdateGroupScore(attestor: Address, commitment: Commitment, attestation: AttestationData)
    | BindKyc(attestor: Address, commitment: Commitment, nullifier: Nullifier)
    | GetGroupAttestation(commitment: Commitment)
    | IsKycVerified(commitment: Commitment)
    | LeaveGroup(wallet: Address)

  datatype Reply = Done | Attestation(att: Option<AttestationData>) | Flag(b: bool)

  // ----- Entry points -----

  function Get<K, V>(m: map<K, V>, k: K, default: V): V {
    if k in m then m[k] else default
  }

  /** The gate in front of every attestor-signed write. */
  function AttestorCheck(s: Store, ctx: Context, attestor: Address): Outcome<Reply> {
    if !s.registryWired then Fail(AttestorNotRegistered)
    else if attestor !in ctx.attestors then Fail(UnauthorizedAttestor)
    else if attestor !in ctx.signers then Trap
    else Return(Done)
  }

  function Register(gate: Gate, ctx: Context, s: Store, wallet: Address, c: Commitment, proof: Bytes): (Store, Outcome<Reply>) {
    if wallet !in ctx.signers then (s, Trap)
    else
      var verdict := if s.vk.Some? then gate(s.vk.value, proof, c, wallet) else Accept;
      if verdict == Panic then (s, Trap)
      else if verdict == Reject then (s, Fail(InvalidProof))
      else if wallet in s.commitmentOf then
        (s, Fail(if s.commitmentOf[wallet] == c then AlreadyInGroup else CommitmentConflict))
      else
        var count := Get(s.memberCount, c, 0);
        if count >= U32_MAX then (s, Trap)
        else (s.(commitmentOf := s.commitmentOf[wallet := c], memberCount := s.memberCount[c := count + 1]), Return(Done))
  }

  function UpdateScore(ctx: Context, s: Store, attestor: Address, c: Commitment, att: AttestationData): (Store, Outcome<Reply>) {
    var check := AttestorCheck(s, ctx, attestor);
    if !check.Return? then (s, check)
    else if Get(s.memberCount, c, 0) == 0 then (s, Fail(AttestationNotFound))
    else (s.(attestations := s.attestations[c := att]), Return(Done))
  }

  /** `eager` is the shipped code, which also rewrites the stored attestation; without it the write
      in the last branch is dropped. */
  function Bind(eager: bool, ctx: Context, s: Store, attestor: Address, c: Commitment, n: Nullifier): (Store, Outcome<Reply>) {
    var check := AttestorCheck(s, ctx, attestor);
    if !check.Return? then (s, check)
    else if n in s.nullifiers then
      (s, if s.nullifiers[n] != c then Fail(NullifierAlreadyBound) else Return(Done))
    else
      var bound := s.(nullifiers := s.nullifiers[n := c], kycVerified := s.kycVerified[c := true]);
      if eager && c in s.attestations then
        (bound.(attestations := s.attestations[c := s.attestations[c].(kycVerified := true)]), Return(Done))
      else (bound, Return(Done))
  }

  /** The stored attestation with the group's KYC status laid over it. */
  function Read(s: Store, c: Commitment): Option<AttestationData> {
    if c !in s.attestations then None
    else if Get(s.kycVerified, c, false) then Some(s.attestations[c].(kycVerified := true))
    else Some(s.attestations[c])
  }

  function Leave(ctx: Context, s: Store, wallet: Address): (Store, Outcome<Reply>) {
    if wallet !in ctx.signers then (s, Trap)
    else if wallet !in s.commitmentOf then (s, Fail(AttestationNotFound))
    else
      var c := s.commitmentOf[wallet];
      var left := s.(commitmentOf := s.commitmentOf - {wallet});
      var count := Get(s.memberCount, c, 1);
      if count <= 1 then
        (left.(memberCount := s.memberCount - {c}, attestations := s.attestations - {c}), Return(Done))
      else (left.(memberCount := s.memberCount[c := count - 1]), Return(Done))
  }

  function Step(eager: bool, gate: Gate, ctx: Context, s: Store, call: Call): (Store, Outcome<Reply>) {
    match call
    case SetAttestorRegistry =>
      if s.admin in ctx.signers then (s.(registryWired := true), Return(Done)) else (s, Trap)
    case SetIdentityVk(vk) =>
      if s.admin in ctx.signers then (s.(vk := Some(vk)), Return(Done)) else (s, Trap)
    case RegisterWallet(w, c, proof) => Register(gate, ctx, s, w, c, proof)
    case UpdateGroupScore(a, c, att) => UpdateScore(ctx, s, a, c, att)
    case BindKyc(a, c, n) => Bind(eager, ctx, s, a, c, n)
    case GetGroupAttestation(c) => (s, Return(Attestation(Read(s, c))))
    case IsKycVerified(c) => (s, Return(Flag(Get(s.kycVerified, c, false))))
    case LeaveGroup(w) => Leave(ctx, s, w)
  }

  /** A run is a sequence of calls, each with what it sees of the outside; it ends in a store and
      one outcome per call. */
  datatype Event = Event(ctx: Context, call: Call)

  function Run(eager: bool, gate: Gate, s: Store, run: seq<Event>): (r: (Store, seq<Outcome<Reply>>))
    ensures |r.1| == |run|
  {
    if run == [] then (s, [])
    else
      var (s', replies) := Run(eager, gate, s, run[..|run| - 1]);
      var (s'', reply) := Step(eager, gate, run[|run| - 1].ctx, s', run[|run| - 1].call);
      (s'', replies + [reply])
  }

  // ----- What every reachable store satisfies -----

  function Members(commitmentOf: map<Address, Commitment>, c: Commitment): set<Address> {
    set w | w in commitmentOf && commitmentOf[w] == c
  }

  function Size(commitmentOf: map<Address, Commitment>, c: Commitment): nat {
    |Members(commitmentOf, c)|
  }

  ghost predicate Bound(nullifiers: map<Nullifier, Commitment>, c: Commitment) {
    c in nullifiers.Values
  }

  ghost predicate Inv(s: Store) {
    && (forall c :: Get(s.memberCount, c, 0) == Size(s.commitmentOf, c) <= U32_MAX)
    && (forall c :: c in s.memberCount ==> s.memberCount[c] > 0)
    && (forall c :: c in s.attestations ==> c in s.memberCount)
    && (forall c :: c in s.kycVerified ==> s.kycVerified[c])
    && s.kycVerified.Keys == s.nullifiers.Values
  }

  lemma SizeAfterJoin(m: map<Address, Commitment>, w: Address, c: Commitment, d: Commitment)
    requires w !in m
    ensures Size(m[w := c], d) == Size(m, d) + if d == c then 1 else 0
  {
    assert Members(m[w := c], d) == if d == c then Members(m, c) + {w} else Members(m, d);
  }

  lemma SizeAfterLeave(m: map<Address, Commitment>, w: Address, d: Commitment)
    requires w in m
    ensures Size(m - {w}, d) == Size(m, d) - if d == m[w] then 1 else 0
  {
    assert Members(m - {w}, d) == if d == m[w] then Members(m, d) - {w} else Members(m, d);
    assert d == m[w] ==> w in Members(m, d);
  }

  lemma SizePositive(m: map<Address, Commitment>, w: Address)
    requires w in m
    ensures Size(m, m[w]) > 0
  {
    assert w in Members(m, m[w]);
  }

  lemma RegisterKeepsInv(gate: Gate, ctx: Context, s: Store, w: Address, c: Commitment, proof: Bytes)
    requires Inv(s)
    ensures Inv(Register(gate, ctx, s, w, c, proof).0)
  {
    var s' := Register(gate, ctx, s, w, c, proof).0;
    if s' != s {
      assert s'.commitmentOf == s.commitmentOf[w := c];
      assert Get(s.memberCount, c, 0) < U32_MAX;
      forall d ensures Size(s'.commitmentOf, d) == Size(s.commitmentOf, d) + if d == c then 1 else 0 {
        SizeAfterJoin(s.commitmentOf, w, c, d);
      }
    }
  }

  lemma LeaveKeepsInv(ctx: Context, s: Store, w: Address)
    requires Inv(s)
    ensures Inv(Leave(ctx, s, w).0)
  {
    if w in s.commitmentOf {
      var m, c := s.commitmentOf, s.commitmentOf[w];
      SizePositive(m, w);
      assert Get(s.memberCount, c, 0) == Size(m, c);
      forall d ensures Size(m - {w}, d) == Size(m, d) - if d == c then 1 else 0 {
        SizeAfterLeave(m, w, d);
      }
    }
  }

  lemma BindKeepsInv(eager: bool, ctx: Context, s: Store, a: Address, c: Commitment, n: Nullifier)
    requires Inv(s)
    ensures Inv(Bind(eager, ctx, s, a, c, n).0)
  {
    if n !in s.nullifiers {
      ValuesAfterInsert(s.nullifiers, n, c);
    }
  }

  lemma ValuesAfterInsert<K, V>(m: map<K, V>, k: K, v: V)
    requires k !in m
    ensures m[k := v].Values == m.Values + {v}
  {
    var m' := m[k := v];
    forall x | x in m.Values + {v}
      ensures x in m'.Values
    {
      if x in m.Values {
        var j :| j in m && m[j] == x;
        assert m'[j] == x;
      } else {
        assert m'[k] == x;
      }
    }
  }

  lemma StepKeepsInv(eager: bool, gate: Gate, ctx: Context, s: Store, call: Call)
    requires Inv(s)
    ensures Inv(Step(eager, gate, ctx, s, call).0)
  {
    match call
    case RegisterWallet(w, c, proof) => RegisterKeepsInv(gate, ctx, s, w, c, proof);
    case BindKyc(a, c, n) => BindKeepsInv(eager, ctx, s, a, c, n);
    case LeaveGroup(w) => LeaveKeepsInv(ctx, s, w);
    case _ =>
  }

  lemma {:induction false} RunKeepsInv(eager: bool, gate: Gate, s: Store, run: seq<Event>)
    requires Inv(s)
    ensures Inv(Run(eager, gate, s, run).0)
  {
    if run != [] {
      var front := run[..|run| - 1];
      RunKeepsInv(eager, gate, s, front);
      StepKeepsInv(eager, gate, run[|run| - 1].ctx, Run(eager, gate, s, front).0, run[|run| - 1].call);
    }
  }

  /** In every reachable store the count of a commitment is the number of wallets mapped to it and
      its key is absent exactly when nobody is; a group attestation exists only for a group with
      members; and a group is KYC-verified exactly when some nullifier is bound to it. */
  lemma ReachableStore(eager: bool, gate: Gate, admin: Address, run: seq<Event>, c: Commitment)
    ensures var s := Run(eager, gate, Empty(admin), run).0;
            && (c in s.memberCount <==> Members(s.commitmentOf, c) != {})
            && Get(s.memberCount, c, 0) == |Members(s.commitmentOf, c)|
            && (c in s.attestations ==> exists w :: w in s.commitmentOf && s.commitmentOf[w] == c)
            && (Get(s.kycVerified, c, false) <==> exists n :: n in s.nullifiers && s.nullifiers[n] == c)
            && |s.kycVerified| <= |s.nullifiers|
  {
    RunKeepsInv(eager, gate, Empty(admin), run);
    var s := Run(eager, gate, Empty(admin), run).0;
    ValuesAtMostKeys(s.nullifiers);
    if c in s.attestations {
      assert Get(s.memberCount, c, 0) == Size(s.commitmentOf, c) > 0;
      var w :| w in Members(s.commitmentOf, c);
    }
  }

  /** A map has at most as many values as keys. */
  lemma {:induction false} ValuesAtMostKeys<K, V>(m: map<K, V>)
    ensures |m.Values| <= |m.Keys|
    decreases |m|
  {
    if m != map[] {
      var k :| k in m;
      var rest := m - {k};
      ValuesAtMostKeys(rest);
      assert m == rest[k := m[k]];
      ValuesAfterInsert(rest, k, m[k]);
    } else {
      assert m.Values == {};
    }
  }

  // ----- Joining and leaving -----

  /** Joining and then leaving puts every storage key back. */
  lemma JoinThenLeaveRestores(gate: Gate, ctx: Context, ctx': Context, s: Store, w: Address, c: Commitment, proof: Bytes)
    requires Inv(s)
    requires Register(gate, ctx, s, w, c, proof).1.Return? && w in ctx'.signers
    ensures Leave(ctx', Register(gate, ctx, s, w, c, proof).0, w) == (s, Return(Done))
  {
    var joined := Register(gate, ctx, s, w, c, proof).0;
    var left := Leave(ctx', joined, w).0;
    assert left.commitmentOf == s.commitmentOf;
    if c !in s.memberCount {
      assert left.memberCount == s.memberCount;
      assert left.attestations == s.attestations;
    } else {
      assert left.memberCount == s.memberCount;
    }
  }

  /** Leaving and rejoining loses exactly one thing, the group's score, and exactly when the wallet
      was the last member of a group that had one. */
  lemma LeaveThenRejoin(gate: Gate, ctx: Context, ctx': Context, s: Store, w: Address, proof: Bytes)
    requires Inv(s)
    requires w in s.commitmentOf && w in ctx.signers && w in ctx'.signers
    requires s.vk.Some? ==> gate(s.vk.value, proof, s.commitmentOf[w], w) == Accept
    ensures var c := s.commitmentOf[w];
            var back := Register(gate, ctx', Leave(ctx, s, w).0, w, c, proof);
            back == (if Get(s.memberCount, c, 0) == 1 then s.(attestations := s.attestations - {c}) else s, Return(Done))
  {
    var c := s.commitmentOf[w];
    SizePositive(s.commitmentOf, w);
    assert Get(s.memberCount, c, 0) == Size(s.commitmentOf, c);
    var left := Leave(ctx, s, w).0;
    var gone := s.commitmentOf - {w};
    assert gone[w := c] == s.commitmentOf;
    if s.memberCount[c] == 1 {
      var none := s.memberCount - {c};
      assert left == s.(commitmentOf := gone, memberCount := none, attestations := s.attestations - {c});
      assert none[c := 1] == s.memberCount;
    } else {
      var fewer := s.memberCount[c := s.memberCount[c] - 1];
      assert left == s.(commitmentOf := gone, memberCount := fewer);
      assert fewer[c := s.memberCount[c]] == s.memberCount;
    }
  }

  lemma LeaveThenRejoinRestores(gate: Gate, ctx: Context, ctx': Context, s: Store, w: Address, proof: Bytes)
    requires Inv(s)
    requires w in s.commitmentOf && w in ctx.signers && w in ctx'.signers
    requires s.vk.Some? ==> gate(s.vk.value, proof, s.commitmentOf[w], w) == Accept
    ensures var c := s.commitmentOf[w];
            Register(gate, ctx', Leave(ctx, s, w).0, w, c, proof).0 == s <==> !(Get(s.memberCount, c, 0) == 1 && c in s.attestations)
  {
    var c := s.commitmentOf[w];
    LeaveThenRejoin(gate, ctx, ctx', s, w, proof);
    assert s.attestations - {c} == s.attestations <==> c !in s.attestations;
  }

  // ----- Nullifiers over whole runs -----

  lemma StepKeepsBindings(eager: bool, gate: Gate, ctx: Context, s: Store, call: Call)
    ensures var s' := Step(eager, gate, ctx, s, call).0;
            && (forall n :: n in s.nullifiers ==> n in s'.nullifiers && s'.nullifiers[n] == s.nullifiers[n])
            && (forall c :: Get(s.kycVerified, c, false) ==> Get(s'.kycVerified, c, false))
  {
  }

  /** No later call changes or drops a binding, and no call takes a group's KYC away. */
  lemma {:induction false} RunKeepsBindings(eager: bool, gate: Gate, s: Store, run: seq<Event>)
    requires Inv(s)
    ensures var s' := Run(eager, gate, s, run).0;
            && (forall n :: n in s.nullifiers ==> n in s'.nullifiers && s'.nullifiers[n] == s.nullifiers[n])
            && (forall c :: Get(s.kycVerified, c, false) ==> Get(s'.kycVerified, c, false))
  {
    if run != [] {
      var last := run[|run| - 1];
      RunKeepsBindings(eager, gate, s, run[..|run| - 1]);
      StepKeepsBindings(eager, gate, last.ctx, Run(eager, gate, s, run[..|run| - 1]).0, last.call);
    }
  }

  lemma {:induction false} RunSplit(eager: bool, gate: Gate, s: Store, run: seq<Event>, k: nat)
    requires k <= |run|
    ensures var mid := Run(eager, gate, s, run[..k]);
            var end := Run(eager, gate, mid.0, run[k..]);
            Run(eager, gate, s, run) == (end.0, mid.1 + end.1)
    decreases |run|
  {
    if k == |run| {
      var mid := Run(eager, gate, s, run);
      assert run[..k] == run && run[k..] == [];
      assert mid.1 + [] == mid.1;
    } else {
      var front := run[..|run| - 1];
      RunSplit(eager, gate, s, front, k);
      assert front[..k] == run[..k];
      var tail := run[k..];
      assert tail[..|tail| - 1] == front[k..] && tail[|tail| - 1] == run[|run| - 1];
      var mid := Run(eager, gate, s, run[..k]);
      var end := Run(eager, gate, mid.0, front[k..]);
      var (s'', reply) := Step(eager, gate, run[|run| - 1].ctx, end.0, run[|run| - 1].call);
      assert Run(eager, gate, mid.0, tail) == (s'', end.1 + [reply]);
      assert (mid.1 + end.1) + [reply] == mid.1 + (end.1 + [reply]);
    }
  }

  ghost predicate Binds(run: seq<Event>, replies: seq<Outcome<Reply>>, i: nat, c: Commitment, n: Nullifier)
    requires |run| == |replies|
  {
    && i < |run|
    && run[i].call.BindKyc? && run[i].call.commitment == c && run[i].call.nullifier == n
    && replies[i].Return?
  }

  lemma {:induction false} BindIsRecorded(eager: bool, gate: Gate, s: Store, run: seq<Event>, i: nat, c: Commitment, n: Nullifier)
    requires Inv(s)
    requires Binds(run, Run(eager, gate, s, run).1, i, c, n)
    ensures var s' := Run(eager, gate, s, run).0; n in s'.nullifiers && s'.nullifiers[n] == c
  {
    RunSplit(eager, gate, s, run, i + 1);
    var mid := Run(eager, gate, s, run[..i + 1]);
    RunKeepsInv(eager, gate, s, run[..i + 1]);
    RunKeepsBindings(eager, gate, mid.0, run[i + 1..]);
    assert run[..i + 1][..i] == run[..i];
    assert mid.1[i] == Run(eager, gate, s, run).1[i];
    BoundByStep(eager, gate, run[i].ctx, Run(eager, gate, s, run[..i]).0, run[i].call);
  }

  lemma BoundByStep(eager: bool, gate: Gate, ctx: Context, s: Store, call: Call)
    ensures var (s', reply) := Step(eager, gate, ctx, s, call);
            call.BindKyc? && reply.Return? ==> call.nullifier in s'.nullifiers && s'.nullifiers[call.nullifier] == call.commitment
  {
  }

  /** The Sybil rule over a whole run: all successful binds of one nullifier name one group. */
  lemma OneHumanOneGroup(eager: bool, gate: Gate, admin: Address, run: seq<Event>, i: nat, j: nat, c: Commitment, d: Commitment, n: Nullifier)
    requires Binds(run, Run(eager, gate, Empty(admin), run).1, i, c, n)
    requires Binds(run, Run(eager, gate, Empty(admin), run).1, j, d, n)
    ensures c == d
  {
    BindIsRecorded(eager, gate, Empty(admin), run, i, c, n);
    BindIsRecorded(eager, gate, Empty(admin), run, j, d, n);
  }

  lemma OnlyBindVerifies(eager: bool, gate: Gate, ctx: Context, s: Store, call: Call, c: Commitment)
    ensures var (s', reply) := Step(eager, gate, ctx, s, call);
            c in s'.kycVerified && c !in s.kycVerified ==> call.BindKyc? && call.commitment == c && reply.Return?
  {
  }

  /** A verified group traces back to a call of the run that bound a nullifier to it. */
  lemma {:induction false} VerifiedHasBind(eager: bool, gate: Gate, admin: Address, run: seq<Event>, c: Commitment)
    returns (i: nat, n: Nullifier)
    requires c in Run(eager, gate, Empty(admin), run).0.kycVerified
    ensures Binds(run, Run(eager, gate, Empty(admin), run).1, i, c, n)
  {
    var last := |run| - 1;
    var front := run[..last];
    var (s', replies') := Run(eager, gate, Empty(admin), front);
    if c in s'.kycVerified {
      i, n := VerifiedHasBind(eager, gate, admin, front, c);
    } else {
      var (s'', reply) := Step(eager, gate, run[last].ctx, s', run[last].call);
      assert Run(eager, gate, Empty(admin), run) == (s'', replies' + [reply]);
      OnlyBindVerifies(eager, gate, run[last].ctx, s', run[last].call, c);
      i, n := last, run[last].call.nullifier;
    }
  }

  /** A group is verified after a run exactly when some call of the run bound a nullifier to it. */
  lemma VerifiedIffBound(eager: bool, gate: Gate, admin: Address, run: seq<Event>, c: Commitment)
    ensures var (s, replies) := Run(eager, gate, Empty(admin), run);
            Get(s.kycVerified, c, false) <==> exists i, n :: Binds(run, replies, i, c, n)
  {
    var (s, replies) := Run(eager, gate, Empty(admin), run);
    RunKeepsInv(eager, gate, Empty(admin), run);
    if i, n :| Binds(run, replies, i, c, n) {
      BindIsRecorded(eager, gate, Empty(admin), run, i, c, n);
      assert s.nullifiers[n] in s.nullifiers.Values;
    }
    if c in s.kycVerified {
      var i, n := VerifiedHasBind(eager, gate, admin, run, c);
    }
  }

  // ----- Who wrote what is stored -----

  /** The call is signed by the attestor it names, who is listed when it runs. */
  ghost predicate Attested(e: Event) {
    && (e.call.UpdateGroupScore? || e.call.BindKyc?)
    && e.call.attestor in e.ctx.attestors && e.call.attestor in e.ctx.signers
  }

  lemma ReturnedIsAttested(eager: bool, gate: Gate, s: Store, run: seq<Event>, i: nat)
    requires i < |run| && (run[i].call.UpdateGroupScore? || run[i].call.BindKyc?)
    requires Run(eager, gate, s, run).1[i].Return?
    ensures Attested(run[i])
  {
    RunSplit(eager, gate, s, run, i + 1);
    var mid := Run(eager, gate, s, run[..i + 1]);
    assert run[..i + 1][..i] == run[..i];
    assert mid.1[i] == Run(eager, gate, s, run).1[i];
  }

  /** Call `i` set the group's score to what is stored now, up to the KYC flag. */
  ghost predicate Scores(run: seq<Event>, replies: seq<Outcome<Reply>>, i: nat, c: Commitment, stored: AttestationData)
    requires |run| == |replies|
  {
    && i < |run|
    && run[i].call.UpdateGroupScore? && run[i].call.commitment == c && replies[i].Return?
    && stored == run[i].call.attestation.(kycVerified := stored.kycVerified)
  }

  lemma StepKeepsScore(eager: bool, gate: Gate, ctx: Context, s: Store, call: Call, c: Commitment)
    ensures var (s', reply) := Step(eager, gate, ctx, s, call);
            c in s'.attestations ==>
              || (c in s.attestations && s'.attestations[c] == s.attestations[c].(kycVerified := s'.attestations[c].kycVerified))
              || (reply.Return? && call.UpdateGroupScore? && call.commitment == c && s'.attestations[c] == call.attestation)
  {
  }

  /** A stored score traces back to the call that submitted it. */
  lemma {:induction false} ScoreHasCall(eager: bool, gate: Gate, admin: Address, run: seq<Event>, c: Commitment) returns (i: nat)
    requires c in Run(eager, gate, Empty(admin), run).0.attestations
    ensures var (s, replies) := Run(eager, gate, Empty(admin), run); Scores(run, replies, i, c, s.attestations[c])
  {
    var last := |run| - 1;
    var front := run[..last];
    var (s', replies') := Run(eager, gate, Empty(admin), front);
    var (s'', reply) := Step(eager, gate, run[last].ctx, s', run[last].call);
    assert Run(eager, gate, Empty(admin), run) == (s'', replies' + [reply]);
    StepKeepsScore(eager, gate, run[last].ctx, s', run[last].call, c);
    if reply.Return? && run[last].call.UpdateGroupScore? && run[last].call.commitment == c && s''.attestations[c] == run[last].call.attestation {
      i := last;
    } else {
      i := ScoreHasCall(eager, gate, admin, front, c);
    }
  }

  /** After any run, every stored score and every KYC mark comes from a call signed by an attestor who
      was listed when it ran, and the score is what that attestor submitted, up to the KYC flag. */
  lemma StoredIsAttested(eager: bool, gate: Gate, admin: Address, run: seq<Event>, c: Commitment)
    ensures var (s, replies) := Run(eager, gate, Empty(admin), run);
            && (c in s.attestations ==> exists i: nat :: Scores(run, replies, i, c, s.attestations[c]) && Attested(run[i]))
            && (c in s.kycVerified ==> exists i: nat, n: Nullifier :: Binds(run, replies, i, c, n) && Attested(run[i]))
  {
    var (s, replies) := Run(eager, gate, Empty(admin), run);
    if c in s.attestations {
      var i := ScoreHasCall(eager, gate, admin, run, c);
      ReturnedIsAttested(eager, gate, Empty(admin), run, i);
    }
    if c in s.kycVerified {
      var i, n := VerifiedHasBind(eager, gate, admin, run, c);
      ReturnedIsAttested(eager, gate, Empty(admin), run, i);
    }
  }

  /** Call `i` registered the wallet for the commitment with a proof its key's gate accepted. */
  ghost predicate JoinedWithProof(eager: bool, gate: Gate, s: Store, run: seq<Event>, i: nat, w: Address, c: Commitment) {
    && i < |run|
    && run[i].call.RegisterWallet? && run[i].call.wallet == w && run[i].call.commitment == c && w in run[i].ctx.signers
    && var key := Run(eager, gate, s, run[..i]).0.vk;
       key.Some? && gate(key.value, run[i].call.proof, c, w) == Accept
  }

  lemma StepKeepsMembership(eager: bool, gate: Gate, ctx: Context, s: Store, call: Call, w: Address)
    requires s.vk.Some?
    ensures var s' := Step(eager, gate, ctx, s, call).0;
            && s'.vk.Some?
            && (w in s'.commitmentOf ==>
                  || (w in s.commitmentOf && s.commitmentOf[w] == s'.commitmentOf[w])
                  || (&& call.RegisterWallet? && call.wallet == w && call.commitment == s'.commitmentOf[w] && w in ctx.signers
                      && gate(s.vk.value, call.proof, call.commitment, w) == Accept))
  {
  }

  /** From the moment an identity key is set, every later member joined with its own signature and an
      accepted proof for that commitment and that wallet. */
  lemma {:induction false} MembershipHasProof(eager: bool, gate: Gate, s: Store, run: seq<Event>, w: Address) returns (i: nat)
    requires s.vk.Some?
    ensures var s' := Run(eager, gate, s, run).0;
            && s'.vk.Some?
            && (w in s'.commitmentOf ==>
                  || (w in s.commitmentOf && s.commitmentOf[w] == s'.commitmentOf[w])
                  || JoinedWithProof(eager, gate, s, run, i, w, s'.commitmentOf[w]))
  {
    i := 0;
    if run != [] {
      var last, front := |run| - 1, run[..|run| - 1];
      i := MembershipHasProof(eager, gate, s, front, w);
      var before := Run(eager, gate, s, front).0;
      StepKeepsMembership(eager, gate, run[last].ctx, before, run[last].call, w);
      var after := Run(eager, gate, s, run).0;
      if w in after.commitmentOf && !(w in before.commitmentOf && before.commitmentOf[w] == after.commitmentOf[w]) {
        i := last;
      } else if i < last {
        assert front[..i] == run[..i];
      }
    }
  }

  // ----- The ledger readers see -----

  /** What the contract is for, without counts, flags or stored copies: who is in which group, which
      nullifier belongs to whom, and the attestation readers are shown. */
  datatype Ledger = Ledger(
    admin: Address,
    registryWired: bool,
    vk: Option<Bytes>,
    group: map<Address, Commitment>,
    owner: map<Nullifier, Commitment>,
    published: map<Commitment, AttestationData>)

  ghost predicate HasMember(g: map<Address, Commitment>, c: Commitment) {
    exists w :: w in g && g[w] == c
  }

  ghost function Certified(l: Ledger, c: Commitment, att: AttestationData): AttestationData {
    att.(kycVerified := att.kycVerified || Bound(l.owner, c))
  }

  ghost function LedgerCheck(l: Ledger, ctx: Context, attestor: Address): Outcome<Reply> {
    if !l.registryWired then Fail(AttestorNotRegistered)
    else if attestor !in ctx.attestors then Fail(UnauthorizedAttestor)
    else if attestor !in ctx.signers then Trap
    else Return(Done)
  }

  ghost function LedgerRegister(gate: Gate, ctx: Context, l: Ledger, w: Address, c: Commitment, proof: Bytes): (Ledger, Outcome<Reply>) {
    if w !in ctx.signers || (l.vk.Some? && gate(l.vk.value, proof, c, w) == Panic) then (l, Trap)
    else if l.vk.Some? && gate(l.vk.value, proof, c, w) == Reject then (l, Fail(InvalidProof))
    else if w in l.group then (l, Fail(if l.group[w] == c then AlreadyInGroup else CommitmentConflict))
    else if Size(l.group, c) == U32_MAX then (l, Trap)
    else (l.(group := l.group[w := c]), Return(Done))
  }

  ghost function LedgerLeave(ctx: Context, l: Ledger, w: Address): (Ledger, Outcome<Reply>) {
    if w !in ctx.signers then (l, Trap)
    else if w !in l.group then (l, Fail(AttestationNotFound))
    else
      var g := l.group - {w};
      (l.(group := g, published := map c | c in l.published && HasMember(g, c) :: l.published[c]), Return(Done))
  }

  ghost function LedgerStep(gate: Gate, ctx: Context, l: Ledger, call: Call): (Ledger, Outcome<Reply>) {
    match call
    case SetAttestorRegistry =>
      if l.admin in ctx.signers then (l.(registryWired := true), Return(Done)) else (l, Trap)
    case SetIdentityVk(vk) =>
      if l.admin in ctx.signers then (l.(vk := Some(vk)), Return(Done)) else (l, Trap)
    case RegisterWallet(w, c, proof) => LedgerRegister(gate, ctx, l, w, c, proof)
    case UpdateGroupScore(a, c, att) =>
      if !LedgerCheck(l, ctx, a).Return? then (l, LedgerCheck(l, ctx, a))
      else if !HasMember(l.group, c) then (l, Fail(AttestationNotFound))
      else (l.(published := l.published[c := Certified(l, c, att)]), Return(Done))
    case BindKyc(a, c, n) =>
      if !LedgerCheck(l, ctx, a).Return? then (l, LedgerCheck(l, ctx, a))
      else if n in l.owner && l.owner[n] != c then (l, Fail(NullifierAlreadyBound))
      else
        var l' := l.(owner := l.owner[n := c]);
        (l'.(published := map d | d in l.published :: Certified(l', d, l.published[d])), Return(Done))
    case GetGroupAttestation(c) => (l, Return(Attestation(if c in l.published then Some(l.published[c]) else None)))
    case IsKycVerified(c) => (l, Return(Flag(Bound(l.owner, c))))
    case LeaveGroup(w) => LedgerLeave(ctx, l, w)
  }

  ghost function View(s: Store): Ledger {
    Ledger(s.admin, s.registryWired, s.vk, s.commitmentOf, s.nullifiers,
           Published(s.attestations, s.kycVerified))
  }

  ghost function Published(attestations: map<Commitment, AttestationData>, kyc: map<Commitment, bool>): map<Commitment, AttestationData> {
    map c | c in attestations ::
      if Get(kyc, c, false) then attestations[c].(kycVerified := true) else attestations[c]
  }

  lemma RegisterRefines(gate: Gate, ctx: Context, s: Store, w: Address, c: Commitment, proof: Bytes)
    requires Inv(s)
    ensures var (s', r) := Register(gate, ctx, s, w, c, proof);
            (View(s'), r) == LedgerRegister(gate, ctx, View(s), w, c, proof)
  {
  }

  lemma HasMemberIffSize(g: map<Address, Commitment>, c: Commitment)
    ensures HasMember(g, c) <==> Size(g, c) > 0
  {
    if HasMember(g, c) {
      var w :| w in g && g[w] == c;
      assert w in Members(g, c);
    }
    if w :| w in Members(g, c) {
      assert HasMember(g, c);
    }
  }

  lemma LeaveRefines(ctx: Context, s: Store, w: Address)
    requires Inv(s)
    ensures var (s', r) := Leave(ctx, s, w); (View(s'), r) == LedgerLeave(ctx, View(s), w)
  {
    if w in ctx.signers && w in s.commitmentOf {
      var s' := Leave(ctx, s, w).0;
      LeaveKeepsInv(ctx, s, w);
      var c := s.commitmentOf[w];
      SizePositive(s.commitmentOf, w);
      assert Get(s.memberCount, c, 0) == Size(s.commitmentOf, c);
      forall d ensures d in s'.attestations <==> d in s.attestations && d in s'.memberCount {
        assert d in s.attestations ==> d in s.memberCount;
      }
      PublishedAfterLeave(s, s');
    }
  }

  lemma PublishedAfterLeave(s: Store, s': Store)
    requires Inv(s')
    requires s'.kycVerified == s.kycVerified
    requires forall d :: d in s'.attestations <==> d in s.attestations && d in s'.memberCount
    requires forall d :: d in s'.attestations ==> s'.attestations[d] == s.attestations[d]
    ensures var p := Published(s.attestations, s.kycVerified);
            Published(s'.attestations, s'.kycVerified) == map d | d in p && HasMember(s'.commitmentOf, d) :: p[d]
  {
    forall d ensures HasMember(s'.commitmentOf, d) <==> d in s'.memberCount {
      HasMemberIffSize(s'.commitmentOf, d);
    }
  }

  lemma PublishedAfterBind(s: Store, l: Ledger, l': Ledger, c: Commitment, kyc: map<Commitment, bool>, stored: map<Commitment, AttestationData>)
    requires Inv(s) && l == View(s)
    requires forall d :: Bound(l'.owner, d) <==> d == c || Bound(s.nullifiers, d)
    requires forall d :: Get(kyc, d, false) <==> d == c || Get(s.kycVerified, d, false)
    requires stored.Keys == s.attestations.Keys
    requires forall d :: d in stored ==> stored[d] == s.attestations[d] || (d == c && stored[d] == s.attestations[d].(kycVerified := true))
    ensures Published(stored, kyc) == map d | d in l.published :: Certified(l', d, l.published[d])
  {
  }

  lemma BindRefines(eager: bool, gate: Gate, ctx: Context, s: Store, a: Address, c: Commitment, n: Nullifier)
    requires Inv(s)
    ensures var (s', r) := Bind(eager, ctx, s, a, c, n);
            (View(s'), r) == LedgerStep(gate, ctx, View(s), BindKyc(a, c, n))
  {
    if AttestorCheck(s, ctx, a).Return? && (n in s.nullifiers ==> s.nullifiers[n] == c) {
      var s' := Bind(eager, ctx, s, a, c, n).0;
      var l := View(s);
      var l' := l.(owner := l.owner[n := c]);
      if n in s.nullifiers {
        assert l'.owner == s.nullifiers;
        assert c in s.nullifiers.Values;
      } else {
        ValuesAfterInsert(s.nullifiers, n, c);
      }
      PublishedAfterBind(s, l, l', c, s'.kycVerified, s'.attestations);
    }
  }

  lemma UpdateRefines(gate: Gate, ctx: Context, s: Store, a: Address, c: Commitment, att: AttestationData)
    requires Inv(s)
    ensures var (s', r) := UpdateScore(ctx, s, a, c, att);
            (View(s'), r) == LedgerStep(gate, ctx, View(s), UpdateGroupScore(a, c, att))
  {
    var s' := UpdateScore(ctx, s, a, c, att).0;
    HasMemberIffSize(s.commitmentOf, c);
    assert View(s').published == LedgerStep(gate, ctx, View(s), UpdateGroupScore(a, c, att)).0.published;
  }

  lemma StepRefines(eager: bool, gate: Gate, ctx: Context, s: Store, call: Call)
    requires Inv(s)
    ensures var (s', r) := Step(eager, gate, ctx, s, call);
            (View(s'), r) == LedgerStep(gate, ctx, View(s), call)
  {
    match call
    case RegisterWallet(w, c, proof) => RegisterRefines(gate, ctx, s, w, c, proof);
    case UpdateGroupScore(a, c, att) => UpdateRefines(gate, ctx, s, a, c, att);
    case BindKyc(a, c, n) => BindRefines(eager, gate, ctx, s, a, c, n);
    case LeaveGroup(w) => LeaveRefines(ctx, s, w);
    case _ =>
  }

  ghost function LedgerRun(gate: Gate, l: Ledger, run: seq<Event>): (Ledger, seq<Outcome<Reply>>) {
    if run == [] then (l, [])
    else
      var (l', replies) := LedgerRun(gate, l, run[..|run| - 1]);
      var (l'', reply) := LedgerStep(gate, run[|run| - 1].ctx, l', run[|run| - 1].call);
      (l'', replies + [reply])
  }

  /** Every run of the contract answers each call as the ledger does and ends in the same view. */
  lemma {:induction false} RunRefinesLedger(eager: bool, gate: Gate, s: Store, run: seq<Event>)
    requires Inv(s)
    ensures var (s', replies) := Run(eager, gate, s, run);
            (View(s'), replies) == LedgerRun(gate, View(s), run)
  {
    if run != [] {
      var front := run[..|run| - 1];
      RunKeepsInv(eager, gate, s, front);
      RunRefinesLedger(eager, gate, s, front);
      StepRefines(eager, gate, run[|run| - 1].ctx, Run(eager, gate, s, front).0, run[|run| - 1].call);
    }
  }

  /** Dropping the rewrite of the stored attestation from `bind_kyc` changes no outcome of any call
      of any run: what readers see does not depend on it. */
  lemma EagerRewriteIsRedundant(gate: Gate, admin: Address, run: seq<Event>)
    ensures Run(true, gate, Empty(admin), run).1 == Run(false, gate, Empty(admin), run).1
    ensures View(Run(true, gate, Empty(admin), run).0) == View(Run(false, gate, Empty(admin), run).0)
  {
    RunRefinesLedger(true, gate, Empty(admin), run);
    RunRefinesLedger(false, gate, Empty(admin), run);
  }

  // ----- The contract object -----

  /** The contract with one field per family of storage keys; each method reads and writes the keys
      in the order the entry point does, and restores what it wrote before a trap, as the host does. */
  class Contract {
    const admin: Address
    var registryWired: bool
    var vk: Option<Bytes>
    var commitmentOf: map<Address, Commitment>
    var memberCount: map<Commitment, nat>
    var attestations: map<Commitment, AttestationData>
    var nullifiers: map<Nullifier, Commitment>
    var kycVerified: map<Commitment, bool>

    ghost function Snapshot(): Store
      reads this
    {
      Store(admin, registryWired, vk, commitmentOf, memberCount, attestations, nullifiers, kycVerified)
    }

    constructor (admin: Address)
      ensures Snapshot() == Empty(admin) && Inv(Snapshot())
    {
      this.admin := admin;
      registryWired, vk := false, None;
      commitmentOf, memberCount, attestations := map[], map[], map[];
      nullifiers, kycVerified := map[], map[];
    }

    method RequireRegisteredAttestor(ctx: Context, attestor: Address) returns (out: Outcome<Reply>)
      ensures out == AttestorCheck(Snapshot(), ctx, attestor)
      ensures out == Return(Done) <==> registryWired && attestor in ctx.attestors && attestor in ctx.signers
      ensures out == Fail(AttestorNotRegistered) <==> !registryWired
      ensures out == Fail(UnauthorizedAttestor) <==> registryWired && attestor !in ctx.attestors
    {
      if !registryWired { return Fail(AttestorNotRegistered); }
      if attestor !in ctx.attestors { return Fail(UnauthorizedAttestor); }
      if attestor !in ctx.signers { return Trap; }
      return Return(Done);
    }

    method RegisterWallet(gate: Gate, ctx: Context, wallet: Address, commitment: Commitment, proof: Bytes) returns (out: Outcome<Reply>)
      requires Inv(Snapshot())
      modifies this
      ensures (Snapshot(), out) == Register(gate, ctx, old(Snapshot()), wallet, commitment, proof)
      ensures Inv(Snapshot())
    {
      RegisterKeepsInv(gate, ctx, Snapshot(), wallet, commitment, proof);
      if wallet !in ctx.signers { return Trap; }
      if vk.Some? {
        match gate(vk.value, proof, commitment, wallet) {
          case Panic => return Trap;
          case Reject => return Fail(InvalidProof);
          case Accept =>
        }
      }
      if wallet in commitmentOf {
        if commitmentOf[wallet] == commitment { return Fail(AlreadyInGroup); }
        return Fail(CommitmentConflict);
      }
      var before := commitmentOf;
      commitmentOf := commitmentOf[wallet := commitment];
      var count := Get(memberCount, commitment, 0);
      if count >= U32_MAX {
        commitmentOf := before;
        return Trap;
      }
      memberCount := memberCount[commitment := count + 1];
      return Return(Done);
    }

    method UpdateGroupScore(ctx: Context, attestor: Address, commitment: Commitment, attestation: AttestationData) returns (out: Outcome<Reply>)
      requires Inv(Snapshot())
      modifies this
      ensures (Snapshot(), out) == UpdateScore(ctx, old(Snapshot()), attestor, commitment, attestation)
      ensures Inv(Snapshot())
    {
      out := RequireRegisteredAttestor(ctx, attestor);
      if !out.Return? { return; }
      if Get(memberCount, commitment, 0) == 0 { return Fail(AttestationNotFound); }
      attestations := attestations[commitment := attestation];
    }

    method BindKyc(ctx: Context, attestor: Address, commitment: Commitment, nullifier: Nullifier) returns (out: Outcome<Reply>)
      requires Inv(Snapshot())
      modifies this
      ensures (Snapshot(), out) == Bind(true, ctx, old(Snapshot()), attestor, commitment, nullifier)
      ensures Inv(Snapshot())
    {
      BindKeepsInv(true, ctx, Snapshot(), attestor, commitment, nullifier);
      out := RequireRegisteredAttestor(ctx, attestor);
      if !out.Return? { return; }
      if nullifier in nullifiers {
        if nullifiers[nullifier] != commitment { return Fail(NullifierAlreadyBound); }
        return Return(Done);
      }
      nullifiers := nullifiers[nullifier := commitment];
      kycVerified := kycVerified[commitment := true];
      if commitment in attestations {
        var att := attestations[commitment].(kycVerified := true);
        attestations := attestations[commitment := att];
      }
    }

    method GetGroupAttestation(commitment: Commitment) returns (att: Option<AttestationData>)
      requires Inv(Snapshot())
      ensures att == if commitment in View(Snapshot()).published then Some(View(Snapshot()).published[commitment]) else None
    {
      if commitment !in attestations { return None; }
      var stored := attestations[commitment];
      if Get(kycVerified, commitment, false) {
        stored := stored.(kycVerified := true);
      }
      return Some(stored);
    }

    method LeaveGroup(ctx: Context, wallet: Address) returns (out: Outcome<Reply>)
      requires Inv(Snapshot())
      modifies this
      ensures (Snapshot(), out) == Leave(ctx, old(Snapshot()), wallet)
      ensures Inv(Snapshot())
    {
      LeaveKeepsInv(ctx, Snapshot(), wallet);
      if wallet !in ctx.signers { return Trap; }
      if wallet !in commitmentOf { return Fail(AttestationNotFound); }
      var commitment := commitmentOf[wallet];
      commitmentOf := commitmentOf - {wallet};
      var count := Get(memberCount, commitment, 1);
      if count <= 1 {
        memberCount := memberCount - {commitment};
        attestations := attestations - {commitment};
      } else {
        memberCount := memberCount[commitment := count - 1];
      }
      return Return(Done);
    }
  }
}
