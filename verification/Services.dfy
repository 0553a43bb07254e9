/** The repository's own services beside all four contracts: webhook handlers bind, re-scores submit the
    flag they read from the KYC table some time before, and every other submission leaves the flag unset.
    Any of these, and any call of anybody else but a bind, may come between any two others. */
module Services {
  import opened Common
  import opened CreditChain
  import CreditGate
  import Kyc = KycProtocol
  import WI = WalletIdentity

  type Decode = Kyc.Text -> Option<Commitment>

  /** A re-score that has read the status of its commitment. */
  datatype Job = Job(commitment: Kyc.Text, flag: bool)

  datatype State = State(
    kyc: Kyc.System,
    registryAdmin: Address,
    registry: map<Address, bool>,
    risk: Store,
    jobs: map<nat, Job>)

  datatype Event =
    | Webhook(step: Kyc.Step)
    | ReadStatus(job: nat, commitment: Kyc.Text)
    | Rescore(job: nat, signers: set<Address>, attestor: Address, score: AttestationData)
    | Other(tx: Tx)

  function WorldOf(s: State): World {
    World(s.registryAdmin, s.registry, s.kyc.chain, s.risk)
  }

  /** The state after a transaction that left the contracts in `w`. */
  function Settled(s: State, w: World): State {
    s.(kyc := s.kyc.(chain := w.identity), registry := w.registry, risk := w.risk)
  }

  function EnvOf(checks: Checks, decode: Decode): Kyc.Env {
    Kyc.Env(checks.identity, decode)
  }

  /** A bind lands before the attestors the registry lists then. */
  function HandlerStep(checks: Checks, decode: Decode, s: State, step: Kyc.Step): State {
    if step.Elsewhere? || (step.Land? && step.ctx.attestors != Attestors(s.registry)) then s
    else s.(kyc := Kyc.Next(EnvOf(checks, decode), s.kyc, step))
  }

  function RescoreStep(checks: Checks, decode: Decode, s: State, job: nat, signers: set<Address>, attestor: Address, score: AttestationData): State {
    if job !in s.jobs || decode(s.jobs[job].commitment).None? then s
    else
      var call := WI.UpdateGroupScore(attestor, decode(s.jobs[job].commitment).value, score.(kycVerified := s.jobs[job].flag));
      Settled(s, Step(checks, signers, WorldOf(s), Identity(call)))
  }

  predicate ByHandlersOnly(call: Call) {
    call.Identity? && call.wi.BindKyc?
  }

  function Next(checks: Checks, decode: Decode, s: State, e: Event): State {
    match e
    case Webhook(step) => HandlerStep(checks, decode, s, step)
    case ReadStatus(job, c) => s.(jobs := s.jobs[job := Job(c, Kyc.Status(s.kyc.rows, c))])
    case Rescore(job, signers, attestor, score) => RescoreStep(checks, decode, s, job, signers, attestor, score)
    case Other(tx) =>
      if Certifies(tx.call) || ByHandlersOnly(tx.call) then s
      else Settled(s, Step(checks, tx.signers, WorldOf(s), tx.call))
  }

  function Start(registryAdmin: Address, identityAdmin: Address, riskAdmin: Address): State {
    State(Kyc.Start(identityAdmin), registryAdmin, map[], Genesis(registryAdmin, identityAdmin, riskAdmin).risk, map[])
  }

  function Run(checks: Checks, decode: Decode, s: State, events: seq<Event>): State {
    if events == [] then s
    else Next(checks, decode, Run(checks, decode, s, events[..|events| - 1]), events[|events| - 1])
  }

  // ----- What every run keeps -----

  /** A job that read a true status names a bound group. */
  ghost predicate JobIsBacked(decode: Decode, w: World, job: Job) {
    job.flag ==> decode(job.commitment).Some? && Bound(w, decode(job.commitment).value)
  }

  ghost predicate Inv(checks: Checks, decode: Decode, s: State) {
    && Kyc.Inv(EnvOf(checks, decode), s.kyc)
    && FlagsAreBound(WorldOf(s))
    && (forall a :: a in s.risk.records ==> !s.risk.records[a].kycVerified)
    && (forall job :: job in s.jobs ==> JobIsBacked(decode, WorldOf(s), s.jobs[job]))
  }

  lemma JobsStayBacked(checks: Checks, decode: Decode, w: World, tx: Tx, job: Job)
    requires JobIsBacked(decode, w, job)
    ensures JobIsBacked(decode, Step(checks, tx.signers, w, tx.call), job)
  {
    if job.flag {
      BindingsStay(checks, tx, w, decode(job.commitment).value);
    }
  }

  /** A transaction that stores no unbacked flag and no flagged record, and is no bind, keeps all of it. */
  lemma TransactionKeepsInv(checks: Checks, decode: Decode, s: State, tx: Tx)
    requires Inv(checks, decode, s) && !CertifiesUnbound(checks, tx, WorldOf(s)) && !ByHandlersOnly(tx.call)
    requires tx.call.Risk? ==> !Certifies(tx.call)
    ensures Inv(checks, decode, Settled(s, Step(checks, tx.signers, WorldOf(s), tx.call)))
  {
    var w := WorldOf(s);
    var w' := Step(checks, tx.signers, w, tx.call);
    var s' := Settled(s, w');
    assert WorldOf(s') == w';
    FlagsStayBoundIff(checks, tx, w);
    if tx.call.Risk? {
      RiskNeverCertifies(checks, tx, w);
    }
    forall job | job in s'.jobs ensures JobIsBacked(decode, w', s'.jobs[job]) {
      JobsStayBacked(checks, decode, w, tx, s.jobs[job]);
    }
    TransactionKeepsTable(checks, decode, s, tx);
  }

  lemma TransactionKeepsTable(checks: Checks, decode: Decode, s: State, tx: Tx)
    requires Kyc.Inv(EnvOf(checks, decode), s.kyc) && !ByHandlersOnly(tx.call)
    ensures Kyc.Inv(EnvOf(checks, decode), Settled(s, Step(checks, tx.signers, WorldOf(s), tx.call)).kyc)
  {
    var s' := Settled(s, Step(checks, tx.signers, WorldOf(s), tx.call));
    if tx.call.Identity? {
      var ctx := Context(tx.signers, Attestors(s.registry));
      Kyc.ElsewhereKeepsInv(EnvOf(checks, decode), s.kyc, ctx, tx.call.wi);
      assert s'.kyc == Kyc.Next(EnvOf(checks, decode), s.kyc, Kyc.Elsewhere(ctx, tx.call.wi));
    } else {
      assert s'.kyc == s.kyc;
    }
  }

  /** What a handler step does to the contracts is nothing, or a bind. */
  lemma HandlerStepBinds(checks: Checks, decode: Decode, s: State, step: Kyc.Step)
    ensures var w' := WorldOf(HandlerStep(checks, decode, s, step));
            w' == WorldOf(s) || (step.Land? && exists c, n :: w' == Step(checks, step.ctx.signers, WorldOf(s), Identity(WI.BindKyc(step.attestor, c, n))))
  {
    if step.Land? && HandlerStep(checks, decode, s, step) != s {
      var ev := s.kyc.handlers[step.h].ev;
      var c, n := decode(ev.commitment).value, Kyc.Wanted(ev).value;
      assert WorldOf(HandlerStep(checks, decode, s, step)) == Step(checks, step.ctx.signers, WorldOf(s), Identity(WI.BindKyc(step.attestor, c, n)));
    }
  }

  lemma HandlerKeepsInv(checks: Checks, decode: Decode, s: State, step: Kyc.Step)
    requires Inv(checks, decode, s)
    ensures Inv(checks, decode, HandlerStep(checks, decode, s, step))
  {
    var s' := HandlerStep(checks, decode, s, step);
    Kyc.NextKeepsInv(EnvOf(checks, decode), s.kyc, step);
    HandlerStepBinds(checks, decode, s, step);
    if WorldOf(s') != WorldOf(s) {
      var c, n :| WorldOf(s') == Step(checks, step.ctx.signers, WorldOf(s), Identity(WI.BindKyc(step.attestor, c, n)));
      var tx := Tx(step.ctx.signers, Identity(WI.BindKyc(step.attestor, c, n)));
      CreditGate.QuietCall(checks, tx, WorldOf(s));
      FlagsStayBoundIff(checks, tx, WorldOf(s));
      forall job | job in s'.jobs ensures JobIsBacked(decode, WorldOf(s'), s'.jobs[job]) {
        JobsStayBacked(checks, decode, WorldOf(s), tx, s.jobs[job]);
      }
    }
  }

  lemma ReadKeepsInv(checks: Checks, decode: Decode, s: State, job: nat, c: Kyc.Text)
    requires Inv(checks, decode, s)
    ensures Inv(checks, decode, Next(checks, decode, s, ReadStatus(job, c)))
  {
    var s' := Next(checks, decode, s, ReadStatus(job, c));
    assert WorldOf(s') == WorldOf(s);
    if Kyc.Status(s.kyc.rows, c) {
      var n := Kyc.StatusIsBound(EnvOf(checks, decode), s.kyc, c);
      assert n in WorldOf(s).identity.nullifiers;
    }
  }

  lemma RescoreKeepsInv(checks: Checks, decode: Decode, s: State, job: nat, signers: set<Address>, attestor: Address, score: AttestationData)
    requires Inv(checks, decode, s)
    ensures Inv(checks, decode, RescoreStep(checks, decode, s, job, signers, attestor, score))
  {
    if job in s.jobs && decode(s.jobs[job].commitment).Some? {
      var call := WI.UpdateGroupScore(attestor, decode(s.jobs[job].commitment).value, score.(kycVerified := s.jobs[job].flag));
      assert JobIsBacked(decode, WorldOf(s), s.jobs[job]);
      TransactionKeepsInv(checks, decode, s, Tx(signers, Identity(call)));
    }
  }

  lemma NextKeepsInv(checks: Checks, decode: Decode, s: State, e: Event)
    requires Inv(checks, decode, s)
    ensures Inv(checks, decode, Next(checks, decode, s, e))
  {
    match e
    case Webhook(step) => HandlerKeepsInv(checks, decode, s, step);
    case ReadStatus(job, c) => ReadKeepsInv(checks, decode, s, job, c);
    case Rescore(job, signers, attestor, score) => RescoreKeepsInv(checks, decode, s, job, signers, attestor, score);
    case Other(tx) =>
      if !Certifies(tx.call) && !ByHandlersOnly(tx.call) {
        CreditGate.QuietCall(checks, tx, WorldOf(s));
        TransactionKeepsInv(checks, decode, s, tx);
      }
  }

  /** Every interleaving of handlers, re-scores and other calls keeps all stored flags, and those the
      re-scores are about to submit, backed by bound nullifiers. */
  lemma {:induction false} RunKeepsInv(checks: Checks, decode: Decode, s: State, events: seq<Event>)
    requires Inv(checks, decode, s)
    ensures Inv(checks, decode, Run(checks, decode, s, events))
  {
    if events != [] {
      RunKeepsInv(checks, decode, s, events[..|events| - 1]);
      NextKeepsInv(checks, decode, Run(checks, decode, s, events[..|events| - 1]), events[|events| - 1]);
    }
  }

  /** A re-score never submits a flag that no bound nullifier backs, however long ago it read it. */
  lemma RescoreIsHonest(checks: Checks, decode: Decode, ra: Address, ia: Address, ka: Address, events: seq<Event>, job: nat)
    requires job in Run(checks, decode, Start(ra, ia, ka), events).jobs
    ensures JobIsBacked(decode, WorldOf(Run(checks, decode, Start(ra, ia, ka), events)), Run(checks, decode, Start(ra, ia, ka), events).jobs[job])
  {
    RunKeepsInv(checks, decode, Start(ra, ia, ka), events);
  }

  /** Some row of the table holds a nullifier bound to the group. */
  ghost predicate HasKycRow(checks: Checks, decode: Decode, s: State, c: Commitment) {
    exists i: nat, n :: Kyc.BoundAs(EnvOf(checks, decode), s.kyc.rows, s.kyc.chain.nullifiers, i, n) && decode(s.kyc.rows[i].commitment) == Some(c)
  }

  /** So over every run of the whole system a wallet gets credit beyond thin-file terms exactly when its
      record names a group with an unexpired score and a KYC row whose nullifier is bound to it. */
  lemma CreditIffKyc(checks: Checks, decode: Decode, ra: Address, ia: Address, ka: Address, events: seq<Event>, wallet: Address, now: nat)
    ensures var s := Run(checks, decode, Start(ra, ia, ka), events);
            var w := WorldOf(s);
            Offer(w, wallet, now) != ThinFile()
            <==> wallet in w.risk.records && AnsweringGroup(w, wallet).Some?
                 && now <= w.identity.attestations[AnsweringGroup(w, wallet).value].expiresAt
                 && HasKycRow(checks, decode, s, AnsweringGroup(w, wallet).value)
  {
    RunKeepsInv(checks, decode, Start(ra, ia, ka), events);
    var s := Run(checks, decode, Start(ra, ia, ka), events);
    OfferWhere(WorldOf(s), wallet, now);
    if wallet in s.risk.records && AnsweringGroup(WorldOf(s), wallet).Some? {
      BoundIffRow(checks, decode, s, AnsweringGroup(WorldOf(s), wallet).value);
    }
  }

  lemma BoundIffRow(checks: Checks, decode: Decode, s: State, c: Commitment)
    requires Inv(checks, decode, s)
    ensures Bound(WorldOf(s), c) <==> HasKycRow(checks, decode, s, c)
  {
    var bound := s.kyc.chain.nullifiers;
    if Bound(WorldOf(s), c) {
      var n :| n in bound && bound[n] == c;
      var i :| Kyc.BoundAs(EnvOf(checks, decode), s.kyc.rows, bound, i, n);
    }
    if HasKycRow(checks, decode, s, c) {
      var i: nat, n :| Kyc.BoundAs(EnvOf(checks, decode), s.kyc.rows, bound, i, n) && decode(s.kyc.rows[i].commitment) == Some(c);
      assert n in WorldOf(s).identity.nullifiers;
    }
  }

  /** And a wallet whose group the status endpoint calls verified has that credit while its score lives. */
  lemma StatusMeansCredit(checks: Checks, decode: Decode, ra: Address, ia: Address, ka: Address, events: seq<Event>, wallet: Address, c: Kyc.Text, now: nat)
    requires var s := Run(checks, decode, Start(ra, ia, ka), events);
             && Kyc.Status(s.kyc.rows, c) && wallet in s.risk.records
             && AnsweringGroup(WorldOf(s), wallet).Some? && AnsweringGroup(WorldOf(s), wallet) == decode(c)
             && now <= s.kyc.chain.attestations[decode(c).value].expiresAt
    ensures Offer(WorldOf(Run(checks, decode, Start(ra, ia, ka), events)), wallet, now) != ThinFile()
  {
    var s := Run(checks, decode, Start(ra, ia, ka), events);
    RunKeepsInv(checks, decode, Start(ra, ia, ka), events);
    var n := Kyc.StatusIsBound(EnvOf(checks, decode), s.kyc, c);
    OfferWhere(WorldOf(s), wallet, now);
  }

  // ----- What a re-score submits -----

  lemma {:induction false} JobKept(checks: Checks, decode: Decode, s: State, events: seq<Event>, job: nat)
    requires job in s.jobs && forall k :: 0 <= k < |events| ==> !(events[k].ReadStatus? && events[k].job == job)
    ensures job in Run(checks, decode, s, events).jobs && Run(checks, decode, s, events).jobs[job] == s.jobs[job]
  {
    if events != [] {
      JobKept(checks, decode, s, events[..|events| - 1], job);
    }
  }

  /** Whatever happens between a re-score's read and its submission, a submission that the contract accepts
      stores the score with the status that was read, and one that it refuses stores nothing. */
  lemma RescoreStoresStatus(checks: Checks, decode: Decode, s: State, job: nat, c: Kyc.Text, d: Commitment, between: seq<Event>,
                            signers: set<Address>, attestor: Address, score: AttestationData)
    requires decode(c) == Some(d) && forall k :: 0 <= k < |between| ==> !(between[k].ReadStatus? && between[k].job == job)
    ensures var s' := Run(checks, decode, Next(checks, decode, s, ReadStatus(job, c)), between);
            var s'' := Next(checks, decode, s', Rescore(job, signers, attestor, score));
            var accepted := && s'.kyc.chain.registryWired && attestor in Attestors(s'.registry) && attestor in signers
                            && WI.Get(s'.kyc.chain.memberCount, d, 0) > 0;
            s''.kyc.chain == if accepted then s'.kyc.chain.(attestations := s'.kyc.chain.attestations[d := score.(kycVerified := Kyc.Status(s.kyc.rows, c))])
                             else s'.kyc.chain
  {
    JobKept(checks, decode, Next(checks, decode, s, ReadStatus(job, c)), between, job);
    RescoreStores(checks, decode, Run(checks, decode, Next(checks, decode, s, ReadStatus(job, c)), between), job, d, signers, attestor, score);
  }

  lemma RescoreStores(checks: Checks, decode: Decode, s: State, job: nat, d: Commitment, signers: set<Address>, attestor: Address, score: AttestationData)
    requires job in s.jobs && decode(s.jobs[job].commitment) == Some(d)
    ensures var accepted := && s.kyc.chain.registryWired && attestor in Attestors(s.registry) && attestor in signers
                            && WI.Get(s.kyc.chain.memberCount, d, 0) > 0;
            RescoreStep(checks, decode, s, job, signers, attestor, score).kyc.chain
            == if accepted then s.kyc.chain.(attestations := s.kyc.chain.attestations[d := score.(kycVerified := s.jobs[job].flag)]) else s.kyc.chain
  {
  }

  // ----- A run to full credit -----

  lemma {:induction false} RunJoins(checks: Checks, decode: Decode, s: State, first: seq<Event>, more: seq<Event>)
    ensures Run(checks, decode, s, first + more) == Run(checks, decode, Run(checks, decode, s, first), more)
  {
    if more == [] {
      assert first + more == first;
    } else {
      RunJoins(checks, decode, s, first, more[..|more| - 1]);
      assert (first + more)[..|first + more| - 1] == first + more[..|more| - 1];
    }
  }

  lemma OneEvent(checks: Checks, decode: Decode, s: State, a: Event)
    ensures Run(checks, decode, s, [a]) == Next(checks, decode, s, a)
  {
    var events := [a];
    assert events[..|events| - 1] == [];
    assert Run(checks, decode, s, events[..|events| - 1]) == s;
  }

  lemma TwoEvents(checks: Checks, decode: Decode, s: State, a: Event, b: Event)
    ensures Run(checks, decode, s, [a, b]) == Next(checks, decode, Next(checks, decode, s, a), b)
  {
    OneEvent(checks, decode, s, a);
    assert [a, b][..1] == [a];
  }

  lemma ThreeEvents(checks: Checks, decode: Decode, s: State, a: Event, b: Event, c: Event)
    ensures Run(checks, decode, s, [a, b, c]) == Next(checks, decode, Next(checks, decode, Next(checks, decode, s, a), b), c)
  {
    TwoEvents(checks, decode, s, a, b);
    assert [a, b, c][..2] == [a, b];
  }

  function Wiring(admin: Address): seq<Event> {
    [Other(Tx({admin}, Authorize(admin))), Other(Tx({admin}, Risk(SetAttestorRegistry))), Other(Tx({admin}, Risk(SetWalletIdentity)))]
  }

  /** Everything wired, the admin an attestor, one wallet in group `d`, and the KYC side in the given state. */
  function Wired(admin: Address, kyc: Kyc.System): State {
    State(kyc, admin, map[admin := true], Store(admin, true, true, None, map[], map[]), map[])
  }

  lemma WiringRun(checks: Checks, decode: Decode, admin: Address)
    ensures Run(checks, decode, Start(admin, admin, admin), Wiring(admin)) == Wired(admin, Kyc.Start(admin))
  {
    ThreeEvents(checks, decode, Start(admin, admin, admin), Wiring(admin)[0], Wiring(admin)[1], Wiring(admin)[2]);
  }

  /** The identity contract with that group, and what was bound and scored so far. */
  function Chain(admin: Address, w: Address, d: Commitment, bound: map<Nullifier, Commitment>, scores: map<Commitment, AttestationData>): WI.Store {
    WI.Store(admin, true, None, map[w := d], map[d := 1], scores, bound, map e | e in bound.Values :: true)
  }

  function Joining(admin: Address, w: Address, d: Commitment, proof: Bytes): seq<Event> {
    [Other(Tx({admin}, Identity(WI.SetAttestorRegistry))), Other(Tx({w}, Identity(WI.RegisterWallet(w, d, proof))))]
  }

  lemma JoiningRun(checks: Checks, decode: Decode, admin: Address, w: Address, d: Commitment, proof: Bytes)
    ensures Run(checks, decode, Wired(admin, Kyc.Start(admin)), Joining(admin, w, d, proof)) == Wired(admin, Kyc.Untouched(Chain(admin, w, d, map[], map[])))
  {
    TwoEvents(checks, decode, Wired(admin, Kyc.Start(admin)), Joining(admin, w, d, proof)[0], Joining(admin, w, d, proof)[1]);
  }

  function Webhooks(steps: seq<Kyc.Step>): (events: seq<Event>)
    ensures |events| == |steps|
  {
    seq(|steps|, i requires 0 <= i < |steps| => Webhook(steps[i]))
  }

  /** Handlers on their own do in the whole system what they do in the KYC protocol, as long as their binds
      land before the listed attestors. */
  lemma {:induction false} WebhooksAreSteps(checks: Checks, decode: Decode, s: State, steps: seq<Kyc.Step>)
    requires forall step :: step in steps ==> !step.Elsewhere? && (step.Land? ==> step.ctx.attestors == Attestors(s.registry))
    ensures Run(checks, decode, s, Webhooks(steps)) == s.(kyc := Kyc.Run(EnvOf(checks, decode), s.kyc, steps))
  {
    if steps != [] {
      var front, last := steps[..|steps| - 1], steps[|steps| - 1];
      WebhooksAreSteps(checks, decode, s, front);
      assert Webhooks(steps)[..|steps| - 1] == Webhooks(front);
    }
  }

  lemma BindOnChain(admin: Address, w: Address, d: Commitment, n: Nullifier)
    ensures var open := Context({admin}, {admin});
            WI.Bind(true, open, Chain(admin, w, d, map[], map[]), admin, d, n) == (Chain(admin, w, d, map[n := d], map[]), Return(WI.Done))
  {
    var none: map<Nullifier, Commitment> := map[];
    var before, after := Chain(admin, w, d, none, map[]), Chain(admin, w, d, map[n := d], map[]);
    CreditGate.SingleValue(n, d);
    assert none.Values == {};
    assert before.kycVerified == map[] && after.kycVerified == map[d := true];
    assert before.kycVerified[d := true] == after.kycVerified && before.nullifiers[n := d] == after.nullifiers;
  }

  lemma HandlingRun(checks: Checks, decode: Decode, admin: Address, w: Address, d: Commitment, h: nat, c: Kyc.Text, n: Nullifier, now: nat, tx: nat)
    requires c != "" && decode(c) == Some(d)
    ensures var open := Context({admin}, {admin});
            Run(checks, decode, Wired(admin, Kyc.Untouched(Chain(admin, w, d, map[], map[]))), Webhooks(Kyc.HandlerRun(h, c, n, now, open, admin, tx)))
            == Wired(admin, Kyc.Handled(h, c, n, now, Some(tx), Kyc.Stopped, map[h := Return(WI.Done)], Chain(admin, w, d, map[n := d], map[])))
  {
    var open, chain := Context({admin}, {admin}), Chain(admin, w, d, map[], map[]);
    assert Attestors(map[admin := true]) == {admin};
    WebhooksAreSteps(checks, decode, Wired(admin, Kyc.Untouched(chain)), Kyc.HandlerRun(h, c, n, now, open, admin, tx));
    BindOnChain(admin, w, d, n);
    Kyc.HandlerRunRecords(EnvOf(checks, decode), h, c, n, now, chain, open, admin, tx, Chain(admin, w, d, map[n := d], map[]));
  }

  function Scoring(admin: Address, job: nat, c: Kyc.Text, score: AttestationData): seq<Event> {
    [ReadStatus(job, c), Rescore(job, {admin}, admin, score)]
  }

  lemma ScoringRun(checks: Checks, decode: Decode, admin: Address, w: Address, d: Commitment, h: nat, c: Kyc.Text, n: Nullifier, now: nat, tx: nat,
                   job: nat, score: AttestationData)
    requires decode(c) == Some(d)
    ensures var s := Wired(admin, Kyc.Handled(h, c, n, now, Some(tx), Kyc.Stopped, map[h := Return(WI.Done)], Chain(admin, w, d, map[n := d], map[])));
            var s' := Run(checks, decode, s, Scoring(admin, job, c, score));
            s'.kyc.chain == Chain(admin, w, d, map[n := d], map[d := score.(kycVerified := true)]) && s'.registry == s.registry && s'.risk == s.risk
  {
    var s := Wired(admin, Kyc.Handled(h, c, n, now, Some(tx), Kyc.Stopped, map[h := Return(WI.Done)], Chain(admin, w, d, map[n := d], map[])));
    TwoEvents(checks, decode, s, ReadStatus(job, c), Rescore(job, {admin}, admin, score));
    assert Kyc.Status(s.kyc.rows, c);
    assert admin in Attestors(s.registry);
    RescoreStoresStatus(checks, decode, s, job, c, d, [], {admin}, admin, score);
  }

  /** From the start to credit: wiring, joining a group, the webhook of an approved document with its bind,
      the re-score that reads the status, and a wallet's unflagged record naming the group. */
  function CreditRun(admin: Address, w: Address, d: Commitment, proof: Bytes, h: nat, c: Kyc.Text, n: Nullifier, now: nat, tx: nat, job: nat,
                     score: AttestationData, own: AttestationData): seq<Event> {
    Wiring(admin) + Joining(admin, w, d, proof) + Webhooks(Kyc.HandlerRun(h, c, n, now, Context({admin}, {admin}), admin, tx))
    + Scoring(admin, job, c, score) + [Other(Tx({admin, w}, Risk(AttestWithHash(w, own))))]
  }

  /** That run ends with the group's score pricing the wallet in full. */
  lemma CreditIsReached(checks: Checks, decode: Decode, admin: Address, w: Address, d: Commitment, proof: Bytes, h: nat, c: Kyc.Text, n: Nullifier,
                        now: nat, tx: nat, job: nat, score: AttestationData, own: AttestationData, time: nat)
    requires c != "" && decode(c) == Some(d) && time <= score.expiresAt
    requires !own.kycVerified && own.attestor == admin && own.identityCommitment == Some(d)
    ensures Offer(WorldOf(Run(checks, decode, Start(admin, admin, admin), CreditRun(admin, w, d, proof, h, c, n, now, tx, job, score, own))), w, time)
            == TermsFromBucket(score)
  {
    var s := Start(admin, admin, admin);
    var a, b, g := Wiring(admin), Joining(admin, w, d, proof), Scoring(admin, job, c, score);
    var e := Webhooks(Kyc.HandlerRun(h, c, n, now, Context({admin}, {admin}), admin, tx));
    WiringRun(checks, decode, admin);
    JoiningRun(checks, decode, admin, w, d, proof);
    HandlingRun(checks, decode, admin, w, d, h, c, n, now, tx);
    ScoringRun(checks, decode, admin, w, d, h, c, n, now, tx, job, score);
    RunJoins(checks, decode, s, a, b);
    RunJoins(checks, decode, s, a + b, e);
    RunJoins(checks, decode, s, a + b + e, g);
    LastAttest(checks, decode, Run(checks, decode, s, a + b + e + g), s, a + b + e + g, admin, w, d, n, score, own, time);
  }

  lemma LastAttest(checks: Checks, decode: Decode, scored: State, s: State, events: seq<Event>, admin: Address, w: Address, d: Commitment, n: Nullifier,
                   score: AttestationData, own: AttestationData, time: nat)
    requires scored == Run(checks, decode, s, events) && time <= score.expiresAt
    requires !own.kycVerified && own.attestor == admin && own.identityCommitment == Some(d)
    requires scored.registry == map[admin := true] && scored.risk == Store(admin, true, true, None, map[], map[])
    requires scored.kyc.chain == Chain(admin, w, d, map[n := d], map[d := score.(kycVerified := true)])
    ensures Offer(WorldOf(Run(checks, decode, s, events + [Other(Tx({admin, w}, Risk(AttestWithHash(w, own))))])), w, time) == TermsFromBucket(score)
  {
    var last := Other(Tx({admin, w}, Risk(AttestWithHash(w, own))));
    assert (events + [last])[..|events|] == events;
    CreditGate.AttestStep(checks, admin, w, own, WorldOf(scored));
    assert Run(checks, decode, s, events + [last]) == Next(checks, decode, scored, last);
    assert WorldOf(Next(checks, decode, scored, last)).risk.records == map[w := own.(zkVerified := false)];
  }
}
