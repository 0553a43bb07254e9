/** What each call of the credit contracts does to offers and to the rule that credit means a bound
    group, over single calls and whole runs; in particular leaving a group and wiring the identity
    contract, which change who answers for a wallet. */
module CreditGate {
  import opened Common
  import opened CreditChain
  import WI = WalletIdentity

  // ----- Leaving a group -----

  /** The call removes the group's score: the leaver signs and is its only member. */
  ghost predicate DropsScore(w: World, signers: set<Address>, leaver: Address) {
    leaver in signers && leaver in w.identity.commitmentOf
    && WI.Members(w.identity.commitmentOf, w.identity.commitmentOf[leaver]) == {leaver}
  }

  lemma OneMemberIffCounted(s: WI.Store, leaver: Address)
    requires WI.Inv(s) && leaver in s.commitmentOf
    ensures var c := s.commitmentOf[leaver];
            WI.Get(s.memberCount, c, 1) <= 1 <==> WI.Members(s.commitmentOf, c) == {leaver}
  {
    var c := s.commitmentOf[leaver];
    var members := WI.Members(s.commitmentOf, c);
    WI.SizePositive(s.commitmentOf, leaver);
    assert leaver in members && WI.Get(s.memberCount, c, 0) == |members|;
    if |members| == 1 {
      SingleElement(members, leaver);
    }
  }

  lemma SingleElement(s: set<Address>, a: Address)
    requires a in s && |s| == 1
    ensures s == {a}
  {
    assert |s - {a}| == 0;
  }

  /** All a leave does to what readers see. */
  lemma LeaveEffect(checks: Checks, signers: set<Address>, w: World, leaver: Address)
    requires WI.Inv(w.identity)
    ensures var w' := Step(checks, signers, w, Identity(WI.LeaveGroup(leaver)));
            && w'.risk == w.risk && w'.identity.nullifiers == w.identity.nullifiers && w'.identity.kycVerified == w.identity.kycVerified
            && w'.identity.attestations == if DropsScore(w, signers, leaver) then w.identity.attestations - {w.identity.commitmentOf[leaver]}
                                           else w.identity.attestations
  {
    if leaver in w.identity.commitmentOf {
      OneMemberIffCounted(w.identity, leaver);
    }
  }

  /** The wallet is answered for by the group the leaver empties. */
  ghost predicate LosesAnswer(w: World, signers: set<Address>, leaver: Address, wallet: Address) {
    && DropsScore(w, signers, leaver)
    && wallet in w.risk.records && AnsweringGroup(w, wallet) == Some(w.identity.commitmentOf[leaver])
  }

  /** After a leave a wallet is answered as before, or by its own record if its group was emptied. */
  lemma AnswerAfterLeave(checks: Checks, signers: set<Address>, w: World, leaver: Address, wallet: Address)
    requires WI.Inv(w.identity) && wallet in w.risk.records
    ensures var w' := Step(checks, signers, w, Identity(WI.LeaveGroup(leaver)));
            && wallet in w'.risk.records
            && AnswerTo(w', w'.risk.records[wallet])
               == if LosesAnswer(w, signers, leaver, wallet) then w.risk.records[wallet] else AnswerTo(w, w.risk.records[wallet])
  {
    LeaveEffect(checks, signers, w, leaver);
  }

  /** A leave changes a wallet's offer exactly when the leaver signs and is the only member of the group
      that answers for the wallet, and the wallet's own record gets other terms than the group's score. */
  lemma LeaveChangesOfferIff(checks: Checks, signers: set<Address>, w: World, leaver: Address, wallet: Address)
    requires WI.Inv(w.identity)
    ensures var w' := Step(checks, signers, w, Identity(WI.LeaveGroup(leaver)));
            (exists now: nat :: Offer(w', wallet, now) != Offer(w, wallet, now))
            <==> LosesAnswer(w, signers, leaver, wallet) && !Alike(AnswerTo(w, w.risk.records[wallet]), w.risk.records[wallet])
  {
    var w' := Step(checks, signers, w, Identity(WI.LeaveGroup(leaver)));
    LeaveEffect(checks, signers, w, leaver);
    if wallet in w.risk.records {
      AnswerAfterLeave(checks, signers, w, leaver, wallet);
      var before, after := AnswerTo(w, w.risk.records[wallet]), AnswerTo(w', w'.risk.records[wallet]);
      AlikeIff(before, after);
      assert forall now: nat :: Offer(w, wallet, now) == TermsAt(before, now) && Offer(w', wallet, now) == TermsAt(after, now);
    }
  }

  // ----- Which calls keep credit bound -----

  ghost predicate Backed(w: World, own: AttestationData) {
    AnswerTo(w, own).kycVerified ==> NamesBound(w, own)
  }

  lemma BackedIff(w: World, wallet: Address)
    ensures CreditIsBound(w, wallet) <==> (wallet in w.risk.records ==> Backed(w, w.risk.records[wallet]))
  {
    CreditIsBoundIff(w, wallet);
  }

  /** A wallet whose own flag would come to answer for an unbound group. */
  ghost predicate UncoversUnbound(w: World, signers: set<Address>, leaver: Address, wallet: Address) {
    LosesAnswer(w, signers, leaver, wallet) && w.risk.records[wallet].kycVerified && !NamesBound(w, w.risk.records[wallet])
  }

  /** A leave keeps credit bound exactly when it uncovers no such wallet. */
  lemma LeaveKeepsIff(checks: Checks, signers: set<Address>, w: World, leaver: Address)
    requires WI.Inv(w.identity) && AllCreditIsBound(w)
    ensures AllCreditIsBound(Step(checks, signers, w, Identity(WI.LeaveGroup(leaver))))
            <==> forall wallet :: !UncoversUnbound(w, signers, leaver, wallet)
  {
    var w' := Step(checks, signers, w, Identity(WI.LeaveGroup(leaver)));
    LeaveEffect(checks, signers, w, leaver);
    forall wallet ensures CreditIsBound(w', wallet) <==> !UncoversUnbound(w, signers, leaver, wallet) {
      assert CreditIsBound(w, wallet);
      BackedIff(w, wallet);
      BackedIff(w', wallet);
      if wallet in w.risk.records {
        AnswerAfterLeave(checks, signers, w, leaver, wallet);
        assert NamesBound(w', w.risk.records[wallet]) <==> NamesBound(w, w.risk.records[wallet]);
      }
    }
  }

  /** A record whose group has a flagged score and no bound nullifier. */
  ghost predicate ScoredUnbound(w: World, own: AttestationData) {
    own.identityCommitment.Some? && own.identityCommitment.value in w.identity.attestations
    && w.identity.attestations[own.identityCommitment.value].kycVerified && !Bound(w, own.identityCommitment.value)
  }

  /** Wiring the identity contract keeps credit bound exactly when no record names such a group, or
      nothing is wired anew. */
  lemma WireKeepsIff(checks: Checks, signers: set<Address>, w: World)
    requires WI.Inv(w.identity) && AllCreditIsBound(w)
    ensures AllCreditIsBound(Step(checks, signers, w, Risk(SetWalletIdentity)))
            <==> (w.risk.admin in signers && !w.risk.identityWired ==>
                    forall wallet :: wallet in w.risk.records ==> !ScoredUnbound(w, w.risk.records[wallet]))
  {
    var w' := Step(checks, signers, w, Risk(SetWalletIdentity));
    if w.risk.admin in signers && !w.risk.identityWired {
      assert w' == w.(risk := w.risk.(identityWired := true));
      forall wallet ensures CreditIsBound(w', wallet) <==> (wallet in w.risk.records ==> !ScoredUnbound(w, w.risk.records[wallet])) {
        assert CreditIsBound(w, wallet);
        BackedIff(w, wallet);
        BackedIff(w', wallet);
        if wallet in w.risk.records {
          WiredAnswer(w, w', w.risk.records[wallet]);
        }
      }
    } else {
      assert w' == w;
    }
  }

  lemma WiredAnswer(w: World, w': World, own: AttestationData)
    requires WI.Inv(w.identity) && !w.risk.identityWired && Backed(w, own)
    requires w' == w.(risk := w.risk.(identityWired := true))
    ensures Backed(w', own) <==> !ScoredUnbound(w, own)
  {
    assert NamesBound(w', own) <==> NamesBound(w, own);
    if own.identityCommitment.Some? {
      var c := own.identityCommitment.value;
      assert WI.Get(w.identity.kycVerified, c, false) <==> c in w.identity.nullifiers.Values;
      assert Bound(w, c) <==> c in w.identity.nullifiers.Values;
    }
  }

  /** Binding never unbinds. */
  lemma BindKeeps(checks: Checks, signers: set<Address>, w: World, attestor: Address, c: Commitment, n: Nullifier)
    requires WI.Inv(w.identity) && AllCreditIsBound(w)
    ensures AllCreditIsBound(Step(checks, signers, w, Identity(WI.BindKyc(attestor, c, n))))
  {
    var tx := Tx(signers, Identity(WI.BindKyc(attestor, c, n)));
    var w' := Step(checks, signers, w, tx.call);
    forall wallet ensures CreditIsBound(w', wallet) {
      assert CreditIsBound(w, wallet);
      BackedIff(w, wallet);
      BackedIff(w', wallet);
      if wallet in w.risk.records {
        var own := w.risk.records[wallet];
        if NamesBound(w, own) {
          BindingsStay(checks, tx, w, own.identityCommitment.value);
        } else {
          BindAnswer(checks, signers, w, attestor, c, n, own);
        }
      }
    }
  }

  lemma BindAnswer(checks: Checks, signers: set<Address>, w: World, attestor: Address, c: Commitment, n: Nullifier, own: AttestationData)
    requires Backed(w, own)
    ensures Backed(Step(checks, signers, w, Identity(WI.BindKyc(attestor, c, n))), own) || NamesBound(w, own)
  {
    var ctx := Context(signers, Attestors(w.registry));
    var w' := Step(checks, signers, w, Identity(WI.BindKyc(attestor, c, n)));
    if own.identityCommitment.Some? && own.identityCommitment.value in w.identity.attestations {
      BindRead(ctx, w.identity, attestor, c, n, own.identityCommitment.value);
    }
    if n in w'.identity.nullifiers && n !in w.identity.nullifiers {
      assert w'.identity.nullifiers[n] == c;
      assert Bound(w', c);
    }
  }

  /** The calls that touch neither scores, bindings, records nor the wiring. */
  ghost predicate Idle(checks: Checks, tx: Tx, w: World) {
    match tx.call
    case Identity(wi) => !wi.UpdateGroupScore? && !wi.BindKyc? && !wi.LeaveGroup?
    case Risk(ra) => !ra.SetWalletIdentity? && Written(checks, tx, w) == []
    case _ => true
  }

  lemma IdleKeeps(checks: Checks, tx: Tx, w: World)
    requires AllCreditIsBound(w) && Idle(checks, tx, w)
    ensures AllCreditIsBound(Step(checks, tx.signers, w, tx.call))
  {
    var w' := Step(checks, tx.signers, w, tx.call);
    IdleEffect(checks, tx, w);
    forall wallet ensures CreditIsBound(w', wallet) {
      assert CreditIsBound(w, wallet);
      BackedIff(w, wallet);
      BackedIff(w', wallet);
      if wallet in w.risk.records {
        assert NamesBound(w', w.risk.records[wallet]) <==> NamesBound(w, w.risk.records[wallet]);
      }
    }
  }

  lemma IdleEffect(checks: Checks, tx: Tx, w: World)
    requires Idle(checks, tx, w)
    ensures var w' := Step(checks, tx.signers, w, tx.call);
            && w'.risk.records == w.risk.records && w'.risk.identityWired == w.risk.identityWired
            && w'.identity.attestations == w.identity.attestations && w'.identity.nullifiers == w.identity.nullifiers
            && w'.identity.kycVerified == w.identity.kycVerified
  {
    match tx.call
    case Identity(wi) => OtherCallsLeaveScores(checks.identity, Context(tx.signers, Attestors(w.registry)), w.identity, wi);
    case Risk(ra) =>
      WrittenShape(checks, tx, w);
      WiringStays(checks, Context(tx.signers, Attestors(w.registry)), w.risk, ra);
    case _ =>
  }

  lemma WiringStays(checks: Checks, ctx: Context, s: Store, ra: RiskCall)
    requires !ra.SetWalletIdentity?
    ensures RiskStep(checks, ctx, s, ra).0.identityWired == s.identityWired
  {
  }

  /** The call breaks the rule: it stores or uncovers a flag that answers for an unbound group. */
  ghost predicate Unbinds(checks: Checks, tx: Tx, w: World) {
    || (exists e :: e in Written(checks, tx, w) && !Backed(w, e.data))
    || ScoreUnbinds(tx, w)
    || (tx.call.Identity? && tx.call.wi.LeaveGroup? && exists wallet :: UncoversUnbound(w, tx.signers, tx.call.wi.wallet, wallet))
    || (tx.call == Risk(SetWalletIdentity) && w.risk.admin in tx.signers && !w.risk.identityWired
        && exists wallet :: wallet in w.risk.records && ScoredUnbound(w, w.risk.records[wallet]))
  }

  ghost predicate ScoreUnbinds(tx: Tx, w: World) {
    && tx.call.Identity? && tx.call.wi.UpdateGroupScore?
    && WI.UpdateScore(Context(tx.signers, Attestors(w.registry)), w.identity, tx.call.wi.attestor, tx.call.wi.commitment, tx.call.wi.attestation).1.Return?
    && tx.call.wi.attestation.kycVerified && (exists wallet :: AnswersFor(w, tx.call.wi.commitment, wallet)) && !Bound(w, tx.call.wi.commitment)
  }

  lemma WriteUnbindsIff(checks: Checks, tx: Tx, w: World)
    requires AllCreditIsBound(w) && tx.call.Risk? && !tx.call.ra.SetWalletIdentity?
    ensures AllCreditIsBound(Step(checks, tx.signers, w, tx.call)) <==> !Unbinds(checks, tx, w)
  {
    WrittenShape(checks, tx, w);
    if Written(checks, tx, w) == [] {
      IdleKeeps(checks, tx, w);
    } else {
      var e := Written(checks, tx, w)[0];
      var w' := Step(checks, tx.signers, w, tx.call);
      assert Written(checks, tx, w) == [e];
      AttestKeepsIff(checks, tx, w, e);
      WriteLeavesRest(checks, tx, w);
      assert w'.risk.records[e.wallet] == e.data;
      assert AnswerTo(w', e.data) == AnswerTo(w, e.data) && (NamesBound(w', e.data) <==> NamesBound(w, e.data));
    }
  }

  lemma ScoreUnbindsIff(checks: Checks, tx: Tx, w: World)
    requires WI.Inv(w.identity) && AllCreditIsBound(w) && tx.call.Identity? && tx.call.wi.UpdateGroupScore?
    ensures AllCreditIsBound(Step(checks, tx.signers, w, tx.call)) <==> !Unbinds(checks, tx, w)
  {
    var wi := tx.call.wi;
    if WI.UpdateScore(Context(tx.signers, Attestors(w.registry)), w.identity, wi.attestor, wi.commitment, wi.attestation).1.Return? {
      ScoreKeepsIff(checks, tx.signers, w, wi.attestor, wi.commitment, wi.attestation);
    } else {
      assert Step(checks, tx.signers, w, tx.call) == w;
    }
  }

  /** Any call of any contract keeps "credit means a bound group" for all wallets, except exactly those. */
  lemma CreditStaysBoundIff(checks: Checks, tx: Tx, w: World)
    requires WI.Inv(w.identity) && AllCreditIsBound(w)
    ensures AllCreditIsBound(Step(checks, tx.signers, w, tx.call)) <==> !Unbinds(checks, tx, w)
  {
    match tx.call
    case Identity(UpdateGroupScore(_, _, _)) => ScoreUnbindsIff(checks, tx, w);
    case Identity(BindKyc(a, c, n)) => BindKeeps(checks, tx.signers, w, a, c, n);
    case Identity(LeaveGroup(leaver)) => LeaveKeepsIff(checks, tx.signers, w, leaver);
    case Risk(SetWalletIdentity) => WireKeepsIff(checks, tx.signers, w);
    case Risk(_) => WriteUnbindsIff(checks, tx, w);
    case _ => IdleKeeps(checks, tx, w);
  }

  ghost predicate BoundAt(checks: Checks, w: World, txs: seq<Tx>, k: nat)
    requires k <= |txs|
  {
    AllCreditIsBound(Run(checks, w, txs[..k]).0)
  }

  ghost predicate UnbindsAt(checks: Checks, w: World, txs: seq<Tx>, k: nat)
    requires k < |txs|
  {
    Unbinds(checks, txs[k], Run(checks, w, txs[..k]).0)
  }

  lemma BoundNextIff(checks: Checks, w: World, txs: seq<Tx>, k: nat)
    requires WI.Inv(w.identity) && k < |txs| && BoundAt(checks, w, txs, k)
    ensures BoundAt(checks, w, txs, k + 1) <==> !UnbindsAt(checks, w, txs, k)
  {
    RunKeepsIdentityInv(checks, w, txs[..k]);
    CreditStaysBoundIff(checks, txs[k], Run(checks, w, txs[..k]).0);
    assert txs[..k + 1][..k] == txs[..k];
  }

  lemma {:induction false} BoundUpTo(checks: Checks, w: World, txs: seq<Tx>, k: nat)
    requires WI.Inv(w.identity) && AllCreditIsBound(w) && k <= |txs|
    requires forall j :: 0 <= j < |txs| ==> !UnbindsAt(checks, w, txs, j)
    ensures BoundAt(checks, w, txs, k)
  {
    if k == 0 {
      assert txs[..0] == [];
    } else {
      BoundUpTo(checks, w, txs, k - 1);
      BoundNextIff(checks, w, txs, k - 1);
      assert !UnbindsAt(checks, w, txs, k - 1);
    }
  }

  /** Over every run: credit means a bound group all along exactly when no call breaks the rule. */
  lemma CreditBoundThroughIff(checks: Checks, w: World, txs: seq<Tx>)
    requires WI.Inv(w.identity) && AllCreditIsBound(w)
    ensures (forall k :: 0 <= k <= |txs| ==> BoundAt(checks, w, txs, k)) <==> (forall k :: 0 <= k < |txs| ==> !UnbindsAt(checks, w, txs, k))
  {
    if forall k :: 0 <= k < |txs| ==> !UnbindsAt(checks, w, txs, k) {
      forall k | 0 <= k <= |txs| ensures BoundAt(checks, w, txs, k) {
        BoundUpTo(checks, w, txs, k);
      }
    }
    if forall k :: 0 <= k <= |txs| ==> BoundAt(checks, w, txs, k) {
      forall k | 0 <= k < |txs| ensures !UnbindsAt(checks, w, txs, k) {
        assert BoundAt(checks, w, txs, k) && BoundAt(checks, w, txs, k + 1);
        BoundNextIff(checks, w, txs, k);
      }
    }
  }

  // ----- A run that keeps every flag bound and still lets a wallet swap its group's score for its own -----

  lemma QuietCall(checks: Checks, tx: Tx, w: World)
    requires !Certifies(tx.call)
    ensures !CertifiesUnbound(checks, tx, w)
  {
    if tx.call.Risk? {
      QuietWrite(checks, tx, w);
    }
  }

  lemma QuietWrite(checks: Checks, tx: Tx, w: World)
    requires tx.call.Risk? && !Certifies(tx.call)
    ensures forall e :: e in Written(checks, tx, w) ==> !e.data.kycVerified
  {
  }

  lemma OneMoreCall(checks: Checks, w: World, txs: seq<Tx>, tx: Tx)
    requires NeverCertifiesUnbound(checks, w, txs) && !CertifiesUnbound(checks, tx, Run(checks, w, txs).0)
    ensures NeverCertifiesUnbound(checks, w, txs + [tx])
    ensures Run(checks, w, txs + [tx]).0 == Step(checks, tx.signers, Run(checks, w, txs).0, tx.call)
  {
    RunOneMore(checks, w, txs, tx);
    forall k | 0 <= k < |txs + [tx]| ensures !CertifiesUnbound(checks, (txs + [tx])[k], Run(checks, w, (txs + [tx])[..k]).0) {
      assert (txs + [tx])[..k] == txs[..k];
      assert k == |txs| ==> txs[..k] == txs;
    }
  }

  lemma QuietOneMore(checks: Checks, w: World, txs: seq<Tx>, tx: Tx)
    requires NeverCertifiesUnbound(checks, w, txs) && !Certifies(tx.call)
    ensures NeverCertifiesUnbound(checks, w, txs + [tx])
    ensures Run(checks, w, txs + [tx]).0 == Step(checks, tx.signers, Run(checks, w, txs).0, tx.call)
  {
    QuietCall(checks, tx, Run(checks, w, txs).0);
    OneMoreCall(checks, w, txs, tx);
  }

  function SetUp(admin: Address): seq<Tx> {
    [Tx({admin}, Authorize(admin)), Tx({admin}, Risk(SetAttestorRegistry)), Tx({admin}, Risk(SetWalletIdentity)),
     Tx({admin}, Identity(WI.SetAttestorRegistry))]
  }

  function Ready(admin: Address): World {
    World(admin, map[admin := true], WI.Empty(admin).(registryWired := true), Store(admin, true, true, None, map[], map[]))
  }

  lemma SetUpRun(checks: Checks, admin: Address)
    ensures Run(checks, Genesis(admin, admin, admin), SetUp(admin)).0 == Ready(admin)
    ensures NeverCertifiesUnbound(checks, Genesis(admin, admin, admin), SetUp(admin))
  {
    var g, t := Genesis(admin, admin, admin), SetUp(admin);
    QuietOneMore(checks, g, [], t[0]);
    QuietOneMore(checks, g, [] + [t[0]], t[1]);
    var w := Run(checks, g, [] + [t[0]] + [t[1]]).0;
    assert w == g.(registry := map[admin := true], risk := g.risk.(registryWired := true));
    QuietOneMore(checks, g, [] + [t[0]] + [t[1]], t[2]);
    QuietOneMore(checks, g, [] + [t[0]] + [t[1]] + [t[2]], t[3]);
    assert [] + [t[0]] + [t[1]] + [t[2]] + [t[3]] == t;
  }

  /** One member, with what was bound and scored so far. */
  function Joined(admin: Address, wallet: Address, c: Commitment, scores: map<Commitment, AttestationData>, bound: map<Nullifier, Commitment>): World {
    Ready(admin).(identity := WI.Store(admin, true, None, map[wallet := c], map[c := 1], scores, bound, map d | d in bound.Values :: true))
  }

  lemma JoinStep(checks: Checks, admin: Address, wallet: Address, c: Commitment, proof: Bytes)
    ensures Step(checks, {wallet}, Ready(admin), Identity(WI.RegisterWallet(wallet, c, proof))) == Joined(admin, wallet, c, map[], map[])
  {
  }

  lemma SingleValue(n: Nullifier, c: Commitment)
    ensures map[n := c].Values == {c}
  {
    assert map[n := c][n] == c;
  }

  lemma BindStep(checks: Checks, admin: Address, wallet: Address, c: Commitment, n: Nullifier)
    ensures Step(checks, {admin}, Joined(admin, wallet, c, map[], map[]), Identity(WI.BindKyc(admin, c, n)))
            == Joined(admin, wallet, c, map[], map[n := c])
  {
    assert admin in Attestors(Ready(admin).registry);
    SingleValue(n, c);
  }

  lemma RateStep(checks: Checks, admin: Address, wallet: Address, c: Commitment, bound: map<Nullifier, Commitment>, score: AttestationData)
    ensures Step(checks, {admin}, Joined(admin, wallet, c, map[], bound), Identity(WI.UpdateGroupScore(admin, c, score)))
            == Joined(admin, wallet, c, map[c := score], bound)
  {
    assert admin in Attestors(Ready(admin).registry);
  }

  lemma AttestStep(checks: Checks, admin: Address, wallet: Address, own: AttestationData, w: World)
    requires own.attestor == admin && w.risk == Ready(admin).risk && w.registry == Ready(admin).registry
    ensures Step(checks, {admin, wallet}, w, Risk(AttestWithHash(wallet, own)))
            == w.(risk := w.risk.(records := map[wallet := own.(zkVerified := false)]))
  {
    assert admin in Attestors(w.registry);
  }

  function Scored(admin: Address, wallet: Address, c: Commitment, proof: Bytes, n: Nullifier, score: AttestationData): seq<Tx> {
    SetUp(admin) + [Tx({wallet}, Identity(WI.RegisterWallet(wallet, c, proof)))] + [Tx({admin}, Identity(WI.BindKyc(admin, c, n)))]
    + [Tx({admin}, Identity(WI.UpdateGroupScore(admin, c, score)))]
  }

  lemma ScoredRun(checks: Checks, admin: Address, wallet: Address, c: Commitment, proof: Bytes, n: Nullifier, score: AttestationData)
    requires !score.kycVerified
    ensures var g, t := Genesis(admin, admin, admin), Scored(admin, wallet, c, proof, n, score);
            Run(checks, g, t).0 == Joined(admin, wallet, c, map[c := score], map[n := c]) && NeverCertifiesUnbound(checks, g, t)
  {
    var g, t := Genesis(admin, admin, admin), SetUp(admin);
    SetUpRun(checks, admin);
    var join := Tx({wallet}, Identity(WI.RegisterWallet(wallet, c, proof)));
    var bind := Tx({admin}, Identity(WI.BindKyc(admin, c, n)));
    QuietOneMore(checks, g, t, join);
    JoinStep(checks, admin, wallet, c, proof);
    QuietOneMore(checks, g, t + [join], bind);
    BindStep(checks, admin, wallet, c, n);
    QuietOneMore(checks, g, t + [join] + [bind], Tx({admin}, Identity(WI.UpdateGroupScore(admin, c, score))));
    RateStep(checks, admin, wallet, c, map[n := c], score);
  }

  lemma OffersAroundLeave(checks: Checks, admin: Address, wallet: Address, c: Commitment, n: Nullifier,
                          score: AttestationData, own: AttestationData, now: nat)
    requires !score.kycVerified && score.riskBucket == 4 && !score.zkVerified && now <= score.expiresAt
    requires own.kycVerified && own.riskBucket == 0 && own.identityCommitment == Some(c) && now <= own.expiresAt
    ensures var w := Joined(admin, wallet, c, map[c := score], map[n := c]);
            var w1 := w.(risk := w.risk.(records := map[wallet := own.(zkVerified := false)]));
            && Offer(w1, wallet, now) == LoanOffer(1000, 20000, 3200)
            && Offer(Step(checks, {wallet}, w1, Identity(WI.LeaveGroup(wallet))), wallet, now) == LoanOffer(1000, 12000, 1000)
  {
    SingleValue(n, c);
  }

  /** A wallet of a bound group with a VERY_HIGH score attests a VERY_LOW record of its own that names the
      group, and leaves as its last member: no flag was ever unbound, and its offer improves. */
  lemma LastLeaveImprovesOffer(checks: Checks, admin: Address, wallet: Address, c: Commitment, proof: Bytes, n: Nullifier,
                               score: AttestationData, own: AttestationData, now: nat)
    requires !score.kycVerified && score.riskBucket == 4 && !score.zkVerified && now <= score.expiresAt
    requires own.kycVerified && own.riskBucket == 0 && own.attestor == admin && own.identityCommitment == Some(c) && now <= own.expiresAt
    ensures var g := Genesis(admin, admin, admin);
            var txs := Scored(admin, wallet, c, proof, n, score) + [Tx({admin, wallet}, Risk(AttestWithHash(wallet, own)))];
            var left := txs + [Tx({wallet}, Identity(WI.LeaveGroup(wallet)))];
            && NeverCertifiesUnbound(checks, g, left)
            && Offer(Run(checks, g, txs).0, wallet, now) == LoanOffer(1000, 20000, 3200)
            && Offer(Run(checks, g, left).0, wallet, now) == LoanOffer(1000, 12000, 1000)
  {
    var g, t := Genesis(admin, admin, admin), Scored(admin, wallet, c, proof, n, score);
    var attest := Tx({admin, wallet}, Risk(AttestWithHash(wallet, own)));
    ScoredRun(checks, admin, wallet, c, proof, n, score);
    var w := Joined(admin, wallet, c, map[c := score], map[n := c]);
    assert n in w.identity.nullifiers && Bound(w, c);
    OwnRecordIsQuiet(checks, admin, wallet, own, w);
    OneMoreCall(checks, g, t, attest);
    AttestStep(checks, admin, wallet, own, w);
    QuietOneMore(checks, g, t + [attest], Tx({wallet}, Identity(WI.LeaveGroup(wallet))));
    OffersAroundLeave(checks, admin, wallet, c, n, score, own, now);
  }

  lemma OwnRecordIsQuiet(checks: Checks, admin: Address, wallet: Address, own: AttestationData, w: World)
    requires NamesBound(w, own)
    ensures !CertifiesUnbound(checks, Tx({admin, wallet}, Risk(AttestWithHash(wallet, own))), w)
  {
    forall e | e in Written(checks, Tx({admin, wallet}, Risk(AttestWithHash(wallet, own))), w) ensures NamesBound(w, e.data) {
      assert e.data == own.(zkVerified := false);
    }
  }

  /** A leave can also break the rule itself: the same calls without the bind, and the only member's own
      flag comes to answer. */
  lemma LastLeaveUncoversFlag(checks: Checks, admin: Address, wallet: Address, c: Commitment, proof: Bytes, score: AttestationData, own: AttestationData)
    requires !score.kycVerified && own.kycVerified && own.attestor == admin && own.identityCommitment == Some(c)
    ensures var g := Genesis(admin, admin, admin);
            var txs := SetUp(admin) + [Tx({wallet}, Identity(WI.RegisterWallet(wallet, c, proof)))]
                       + [Tx({admin}, Identity(WI.UpdateGroupScore(admin, c, score)))] + [Tx({admin, wallet}, Risk(AttestWithHash(wallet, own)))];
            && AllCreditIsBound(Run(checks, g, txs).0)
            && !AllCreditIsBound(Run(checks, g, txs + [Tx({wallet}, Identity(WI.LeaveGroup(wallet)))]).0)
  {
    var g, t := Genesis(admin, admin, admin), SetUp(admin);
    var join, rate := Tx({wallet}, Identity(WI.RegisterWallet(wallet, c, proof))), Tx({admin}, Identity(WI.UpdateGroupScore(admin, c, score)));
    var attest := Tx({admin, wallet}, Risk(AttestWithHash(wallet, own)));
    SetUpRun(checks, admin);
    RunOneMore(checks, g, t, join);
    JoinStep(checks, admin, wallet, c, proof);
    RunOneMore(checks, g, t + [join], rate);
    RateStep(checks, admin, wallet, c, map[], score);
    RunOneMore(checks, g, t + [join] + [rate], attest);
    var w := Joined(admin, wallet, c, map[c := score], map[]);
    AttestStep(checks, admin, wallet, own, w);
    RunOneMore(checks, g, t + [join] + [rate] + [attest], Tx({wallet}, Identity(WI.LeaveGroup(wallet))));
    RunKeepsIdentityInv(checks, g, t + [join] + [rate]);
    UncoveredByLeave(checks, wallet, c, score, own, w);
  }

  lemma UncoveredByLeave(checks: Checks, wallet: Address, c: Commitment, score: AttestationData, own: AttestationData, w: World)
    requires WI.Inv(w.identity) && w.risk.identityWired && !score.kycVerified && own.kycVerified && own.identityCommitment == Some(c)
    requires w.identity.attestations == map[c := score] && w.identity.nullifiers == map[] && w.identity.commitmentOf == map[wallet := c]
    ensures var w1 := w.(risk := w.risk.(records := map[wallet := own.(zkVerified := false)]));
            && AllCreditIsBound(w1)
            && !AllCreditIsBound(Step(checks, {wallet}, w1, Identity(WI.LeaveGroup(wallet))))
  {
    var w1 := w.(risk := w.risk.(records := map[wallet := own.(zkVerified := false)]));
    assert WI.Get(w1.identity.kycVerified, c, false) <==> c in w1.identity.nullifiers.Values;
    forall a ensures CreditIsBound(w1, a) {
      BackedIff(w1, a);
    }
    LeaveKeepsIff(checks, {wallet}, w1, wallet);
    assert UncoversUnbound(w1, {wallet}, wallet, wallet);
  }
}
