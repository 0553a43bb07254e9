/** The four credit contracts as one state machine: AttestorRegistry, WalletIdentity,
    RiskAttestation and MockLendingPool, with every call of any of them as a step. */
module CreditChain {
  import opened Common
  import opened Receipt
  import WI = WalletIdentity

  // ----- RiskAttestation -----

  datatype Store = Store(
    admin: Address,
    registryWired: bool,
    identityWired: bool,
    imageId: Option<Bytes32>,
    keys: map<Bytes32, Bytes>,
    records: map<Address, AttestationData>)

  /** The proof checks of the contracts, left to the verifiers. */
  datatype Checks = Checks(
    identity: WI.Gate,
    receipt: (Bytes, Bytes32, Bytes) -> Verdict,
    proof: (Bytes, Bytes) -> Verdict)

  datatype RiskCall =
    | SetAttestorRegistry
    | SetWalletIdentity
    | SetImageId(imageId: Bytes32)
    | RegisterKey(modelHash: Bytes32, key: Bytes)
    | AttestWithRisc0(wallet: Address, data: AttestationData, seal: Bytes, journal: Bytes)
    | AttestWithHash(wallet: Address, data: AttestationData)
    | AttestWithProof(wallet: Address, data: AttestationData, proof: Bytes)

  function AttestorCheck(s: Store, ctx: Context, attestor: Address): Outcome<()> {
    if !s.registryWired then Fail(AttestorNotRegistered)
    else if attestor !in ctx.attestors then Fail(UnauthorizedAttestor)
    else if attestor !in ctx.signers then Trap
    else Return(())
  }

  /** The record a receipt attests: the caller's metadata under the journal's proven fields. */
  function Proven(data: AttestationData, j: Journal): AttestationData {
    data.(riskBucket := j.riskBucket, confidence := j.confidence, identityCommitment := Some(j.commitment),
          distilledModelHash := j.modelHash, zkVerified := true)
  }

  function AttestRisc0(checks: Checks, ctx: Context, s: Store, w: Address, data: AttestationData, seal: Bytes, journal: Bytes): (Store, Outcome<()>) {
    if w !in ctx.signers then (s, Trap)
    else if w in s.records && data.issuedAt <= s.records[w].issuedAt then (s, Fail(StaleAttestation))
    else if !AttestorCheck(s, ctx, data.attestor).Return? then (s, AttestorCheck(s, ctx, data.attestor))
    else if s.imageId.None? then (s, Fail(Risc0ImageNotSet))
    else
      match checks.receipt(seal, s.imageId.value, journal)
      case Panic => (s, Trap)
      case Reject => (s, Fail(InvalidProof))
      case Accept =>
        match Parse(journal)
        case None => (s, Fail(InvalidInputs))
        case Some(j) => (s.(records := s.records[w := Proven(data, j)]), Return(()))
  }

  function AttestHash(ctx: Context, s: Store, w: Address, data: AttestationData): (Store, Outcome<()>) {
    if w !in ctx.signers then (s, Trap)
    else if w in s.records then (s, Fail(AlreadyAttested))
    else if !AttestorCheck(s, ctx, data.attestor).Return? then (s, AttestorCheck(s, ctx, data.attestor))
    else (s.(records := s.records[w := data.(zkVerified := false)]), Return(()))
  }

  function AttestProof(checks: Checks, ctx: Context, s: Store, w: Address, data: AttestationData, proof: Bytes): (Store, Outcome<()>) {
    if w !in ctx.signers then (s, Trap)
    else if w in s.records then (s, Fail(AlreadyAttested))
    else if !AttestorCheck(s, ctx, data.attestor).Return? then (s, AttestorCheck(s, ctx, data.attestor))
    else if data.distilledModelHash !in s.keys then
      (s.(records := s.records[w := data.(zkVerified := false)]), Return(()))
    else
      match checks.proof(s.keys[data.distilledModelHash], proof)
      case Panic => (s, Trap)
      case Reject => (s, Fail(InvalidProof))
      case Accept => (s.(records := s.records[w := data.(zkVerified := true)]), Return(()))
  }

  function RiskStep(checks: Checks, ctx: Context, s: Store, call: RiskCall): (Store, Outcome<()>) {
    match call
    case AttestWithRisc0(w, data, seal, journal) => AttestRisc0(checks, ctx, s, w, data, seal, journal)
    case AttestWithHash(w, data) => AttestHash(ctx, s, w, data)
    case AttestWithProof(w, data, proof) => AttestProof(checks, ctx, s, w, data, proof)
    case _ =>
      if s.admin !in ctx.signers then (s, Trap)
      else (match call
            case SetAttestorRegistry => s.(registryWired := true)
            case SetWalletIdentity => s.(identityWired := true)
            case SetImageId(id) => s.(imageId := Some(id))
            case RegisterKey(h, k) => s.(keys := s.keys[h := k])
            case _ => s, Return(()))
  }

  /** The contract object; a trap happens before any write. */
  class RiskAttestation {
    const admin: Address
    var registryWired: bool
    var identityWired: bool
    var imageId: Option<Bytes32>
    var keys: map<Bytes32, Bytes>
    var records: map<Address, AttestationData>

    ghost function Snapshot(): Store
      reads this
    {
      Store(admin, registryWired, identityWired, imageId, keys, records)
    }

    constructor (admin: Address)
      ensures Snapshot() == Store(admin, false, false, None, map[], map[])
    {
      this.admin := admin;
      registryWired, identityWired, imageId, keys, records := false, false, None, map[], map[];
    }

    method RequireAttestor(ctx: Context, attestor: Address) returns (out: Outcome<()>)
      ensures out == AttestorCheck(Snapshot(), ctx, attestor)
    {
      if !registryWired { return Fail(AttestorNotRegistered); }
      if attestor !in ctx.attestors { return Fail(UnauthorizedAttestor); }
      if attestor !in ctx.signers { return Trap; }
      return Return(());
    }

    method AttestWithRisc0(checks: Checks, ctx: Context, wallet: Address, data0: AttestationData, seal: Bytes, journal: Bytes) returns (out: Outcome<()>)
      modifies this
      ensures (Snapshot(), out) == AttestRisc0(checks, ctx, old(Snapshot()), wallet, data0, seal, journal)
    {
      if wallet !in ctx.signers { return Trap; }
      if wallet in records {
        if data0.issuedAt <= records[wallet].issuedAt { return Fail(StaleAttestation); }
      }
      out := RequireAttestor(ctx, data0.attestor);
      if !out.Return? { return; }
      if imageId.None? { return Fail(Risc0ImageNotSet); }
      match checks.receipt(seal, imageId.value, journal) {
        case Panic => return Trap;
        case Reject => return Fail(InvalidProof);
        case Accept =>
      }
      var parsed := ParseJournal(journal);
      if parsed.None? { return Fail(InvalidInputs); }
      var data := data0.(riskBucket := parsed.value.riskBucket);
      data := data.(confidence := parsed.value.confidence);
      data := data.(identityCommitment := Some(parsed.value.commitment));
      data := data.(distilledModelHash := parsed.value.modelHash);
      data := data.(zkVerified := true);
      records := records[wallet := data];
    }

    method AttestWithHash(ctx: Context, wallet: Address, data0: AttestationData) returns (out: Outcome<()>)
      modifies this
      ensures (Snapshot(), out) == AttestHash(ctx, old(Snapshot()), wallet, data0)
    {
      if wallet !in ctx.signers { return Trap; }
      if wallet in records { return Fail(AlreadyAttested); }
      out := RequireAttestor(ctx, data0.attestor);
      if !out.Return? { return; }
      var data := data0.(zkVerified := false);
      records := records[wallet := data];
    }

    method AttestWithProof(checks: Checks, ctx: Context, wallet: Address, data0: AttestationData, proof: Bytes) returns (out: Outcome<()>)
      modifies this
      ensures (Snapshot(), out) == AttestProof(checks, ctx, old(Snapshot()), wallet, data0, proof)
    {
      if wallet !in ctx.signers { return Trap; }
      if wallet in records { return Fail(AlreadyAttested); }
      out := RequireAttestor(ctx, data0.attestor);
      if !out.Return? { return; }
      var data := data0;
      if data.distilledModelHash in keys {
        match checks.proof(keys[data.distilledModelHash], proof) {
          case Panic => return Trap;
          case Reject => return Fail(InvalidProof);
          case Accept =>
        }
        data := data.(zkVerified := true);
      } else {
        data := data.(zkVerified := false);
      }
      records := records[wallet := data];
    }
  }

  // ----- AttestorRegistry -----

  class AttestorRegistry {
    const admin: Address
    var attestor: map<Address, bool>

    constructor (admin: Address)
      ensures this.admin == admin && attestor == map[]
    {
      this.admin := admin;
      attestor := map[];
    }

    method Authorize(signers: set<Address>, a: Address) returns (out: Outcome<()>)
      modifies this
      ensures Attestors(attestor) == Attestors(old(attestor)) + if admin in signers then {a} else {}
      ensures out == if admin in signers then Return(()) else Trap
    {
      if admin !in signers { return Trap; }
      attestor := attestor[a := true];
      return Return(());
    }

    method Revoke(signers: set<Address>, a: Address) returns (out: Outcome<()>)
      modifies this
      ensures Attestors(attestor) == Attestors(old(attestor)) - if admin in signers then {a} else {}
      ensures out == if admin in signers then Return(()) else Trap
    {
      if admin !in signers { return Trap; }
      attestor := attestor[a := false];
      return Return(());
    }

    method IsAttestor(a: Address) returns (b: bool)
      ensures b <==> a in Attestors(attestor)
    {
      b := a in attestor && attestor[a];
    }
  }

  // ----- The world -----

  datatype World = World(registryAdmin: Address, registry: map<Address, bool>, identity: WI.Store, risk: Store)

  datatype Call =
    | Authorize(attestor: Address)
    | Revoke(attestor: Address)
    | Identity(wi: WI.Call)
    | Risk(ra: RiskCall)

  function Genesis(registryAdmin: Address, identityAdmin: Address, riskAdmin: Address): World {
    World(registryAdmin, map[], WI.Empty(identityAdmin), Store(riskAdmin, false, false, None, map[], map[]))
  }

  function Attestors(registry: map<Address, bool>): set<Address> {
    set a | a in registry && registry[a]
  }

  /** One transaction by `signers`; a registry call that is not the admin's traps. */
  function Step(checks: Checks, signers: set<Address>, w: World, call: Call): World {
    var ctx := Context(signers, Attestors(w.registry));
    match call
    case Authorize(a) => if w.registryAdmin in signers then w.(registry := w.registry[a := true]) else w
    case Revoke(a) => if w.registryAdmin in signers then w.(registry := w.registry[a := false]) else w
    case Identity(wi) => w.(identity := WI.Step(true, checks.identity, ctx, w.identity, wi).0)
    case Risk(ra) => w.(risk := RiskStep(checks, ctx, w.risk, ra).0)
  }

  datatype Tx = Tx(signers: set<Address>, call: Call)

  /** A record written by a run: under which wallet argument, what, by which path, and whether the
      registry listed its attestor at that moment. */
  datatype Path = ByReceipt | ByHash | ByProof
  datatype Write = Write(wallet: Address, data: AttestationData, path: Path, attestorListed: bool)

  /** What a transaction adds to the history of record writes. */
  function Written(checks: Checks, tx: Tx, w: World): seq<Write> {
    if !tx.call.Risk? then []
    else
      var ra := tx.call.ra;
      var (s', out) := RiskStep(checks, Context(tx.signers, Attestors(w.registry)), w.risk, ra);
      if !out.Return? then []
      else match ra
           case AttestWithRisc0(a, data, _, _) => [Write(a, s'.records[a], ByReceipt, data.attestor in Attestors(w.registry))]
           case AttestWithHash(a, data) => [Write(a, s'.records[a], ByHash, data.attestor in Attestors(w.registry))]
           case AttestWithProof(a, data, _) => [Write(a, s'.records[a], ByProof, data.attestor in Attestors(w.registry))]
           case _ => []
  }

  function Run(checks: Checks, w: World, txs: seq<Tx>): (World, seq<Write>) {
    if txs == [] then (w, [])
    else
      var last := txs[|txs| - 1];
      var (w', log) := Run(checks, w, txs[..|txs| - 1]);
      (Step(checks, last.signers, w', last.call), log + Written(checks, last, w'))
  }

  // ----- The history of each wallet's record -----

  /** One write may follow another of the same wallet only as a refresh by receipt, strictly newer. */
  ghost predicate Follows(early: Write, late: Write) {
    early.data.issuedAt < late.data.issuedAt && late.path == ByReceipt && late.data.zkVerified
  }

  ghost predicate WellWritten(e: Write) {
    && e.attestorListed
    && (e.path == ByReceipt ==> e.data.zkVerified && e.data.identityCommitment.Some?)
    && (e.path == ByHash ==> !e.data.zkVerified)
  }

  ghost predicate History(records: map<Address, AttestationData>, log: seq<Write>) {
    && (forall i :: 0 <= i < |log| ==> WellWritten(log[i]))
    && (forall i, j :: 0 <= i < j < |log| && log[i].wallet == log[j].wallet ==> Follows(log[i], log[j]))
    && (forall i :: 0 <= i < |log| ==> log[i].wallet in records && log[i].data.issuedAt <= records[log[i].wallet].issuedAt)
    && (forall w :: w in records ==> exists i :: 0 <= i < |log| && log[i].wallet == w && log[i].data == records[w])
  }

  lemma WriteKeepsHistory(records: map<Address, AttestationData>, log: seq<Write>, e: Write)
    requires History(records, log) && WellWritten(e)
    requires e.wallet in records ==> records[e.wallet].issuedAt < e.data.issuedAt && e.path == ByReceipt
    ensures History(records[e.wallet := e.data], log + [e])
  {
    var records', log' := records[e.wallet := e.data], log + [e];
    forall w | w in records'
      ensures exists i :: 0 <= i < |log'| && log'[i].wallet == w && log'[i].data == records'[w]
    {
      if w == e.wallet {
        assert log'[|log|] == e;
      } else {
        var i :| 0 <= i < |log| && log[i].wallet == w && log[i].data == records[w];
        assert log'[i] == log[i];
      }
    }
  }

  /** A transaction writes at most one record: a first one by any path, or a newer one by receipt. */
  lemma WrittenShape(checks: Checks, tx: Tx, w: World)
    ensures var written := Written(checks, tx, w);
            var records' := Step(checks, tx.signers, w, tx.call).risk.records;
            || (written == [] && records' == w.risk.records)
            || (&& |written| == 1 && WellWritten(written[0])
                && records' == w.risk.records[written[0].wallet := written[0].data]
                && (written[0].wallet in w.risk.records ==>
                    w.risk.records[written[0].wallet].issuedAt < written[0].data.issuedAt && written[0].path == ByReceipt))
  {
    if tx.call.Risk? {
      var ctx := Context(tx.signers, Attestors(w.registry));
      match tx.call.ra
      case AttestWithRisc0(a, data, seal, journal) =>
        var r := AttestRisc0(checks, ctx, w.risk, a, data, seal, journal);
        assert Written(checks, tx, w) == if r.1.Return? then [Write(a, r.0.records[a], ByReceipt, data.attestor in Attestors(w.registry))] else [];
      case AttestWithHash(a, data) =>
        var r := AttestHash(ctx, w.risk, a, data);
        assert Written(checks, tx, w) == if r.1.Return? then [Write(a, r.0.records[a], ByHash, data.attestor in Attestors(w.registry))] else [];
      case AttestWithProof(a, data, proof) =>
        var r := AttestProof(checks, ctx, w.risk, a, data, proof);
        assert Written(checks, tx, w) == if r.1.Return? then [Write(a, r.0.records[a], ByProof, data.attestor in Attestors(w.registry))] else [];
      case _ =>
    }
  }

  lemma StepKeepsHistory(checks: Checks, tx: Tx, w: World, log: seq<Write>)
    requires History(w.risk.records, log)
    ensures History(Step(checks, tx.signers, w, tx.call).risk.records, log + Written(checks, tx, w))
  {
    WrittenShape(checks, tx, w);
    var written := Written(checks, tx, w);
    if written == [] {
      assert log + written == log;
    } else {
      assert written == [written[0]];
      WriteKeepsHistory(w.risk.records, log, written[0]);
    }
  }

  /** Over every run, the writes under one wallet argument have strictly increasing `issued_at`; only
      the first may come from the hash or proof path; a receipt write is always zk-verified, so the
      flag never falls back; every attestor was listed when it wrote; and the stored record is the
      last one written. */
  lemma {:induction false} RecordHistory(checks: Checks, ra: Address, ia: Address, ka: Address, txs: seq<Tx>)
    ensures var (w, log) := Run(checks, Genesis(ra, ia, ka), txs); History(w.risk.records, log)
  {
    if txs != [] {
      var front := txs[..|txs| - 1];
      RecordHistory(checks, ra, ia, ka, front);
      var (w, log) := Run(checks, Genesis(ra, ia, ka), front);
      StepKeepsHistory(checks, txs[|txs| - 1], w, log);
    }
  }

  /** From any state, a record is never dropped, never gets older and never loses its zk flag. */
  lemma {:induction false} RecordOnlyAdvances(checks: Checks, w: World, txs: seq<Tx>, a: Address)
    requires a in w.risk.records
    ensures var w' := Run(checks, w, txs).0;
            && a in w'.risk.records
            && w.risk.records[a].issuedAt <= w'.risk.records[a].issuedAt
            && (w.risk.records[a].zkVerified ==> w'.risk.records[a].zkVerified)
            && (w'.risk.records[a] == w.risk.records[a] || w.risk.records[a].issuedAt < w'.risk.records[a].issuedAt)
  {
    if txs != [] {
      var last := txs[|txs| - 1];
      RecordOnlyAdvances(checks, w, txs[..|txs| - 1], a);
      WrittenShape(checks, last, Run(checks, w, txs[..|txs| - 1]).0);
    }
  }

  // ----- Who is listed, and what the admins set -----

  /** Transaction `k` lists or delists `a` with the registry admin's signature. */
  predicate Lists(tx: Tx, admin: Address, a: Address) { tx.call == Authorize(a) && admin in tx.signers }
  predicate Delists(tx: Tx, admin: Address, a: Address) { tx.call == Revoke(a) && admin in tx.signers }

  ghost predicate ListedBy(txs: seq<Tx>, admin: Address, a: Address, k: nat) {
    k < |txs| && Lists(txs[k], admin, a) && forall j :: k < j < |txs| ==> !Delists(txs[j], admin, a)
  }

  lemma StepLists(checks: Checks, tx: Tx, w: World, a: Address)
    ensures var w' := Step(checks, tx.signers, w, tx.call);
            && w'.registryAdmin == w.registryAdmin
            && (a in Attestors(w'.registry)
                <==> Lists(tx, w.registryAdmin, a) || (a in Attestors(w.registry) && !Delists(tx, w.registryAdmin, a)))
  {
  }

  lemma ListedByFront(txs: seq<Tx>, admin: Address, a: Address, k: nat)
    requires k < |txs| - 1
    ensures ListedBy(txs, admin, a, k) <==> ListedBy(txs[..|txs| - 1], admin, a, k) && !Delists(txs[|txs| - 1], admin, a)
  {
    var front := txs[..|txs| - 1];
    assert txs[k] == front[k];
    assert forall j :: k < j < |front| ==> txs[j] == front[j];
  }

  /** After any run an attestor is listed exactly when the admin listed it and did not delist it since. */
  lemma {:induction false} ListedIff(checks: Checks, ra: Address, ia: Address, ka: Address, txs: seq<Tx>, a: Address)
    ensures var w := Run(checks, Genesis(ra, ia, ka), txs).0;
            w.registryAdmin == ra && (a in Attestors(w.registry) <==> exists k :: ListedBy(txs, ra, a, k))
  {
    if txs != [] {
      var last, front := |txs| - 1, txs[..|txs| - 1];
      ListedIff(checks, ra, ia, ka, front, a);
      StepLists(checks, txs[last], Run(checks, Genesis(ra, ia, ka), front).0, a);
      assert Lists(txs[last], ra, a) ==> ListedBy(txs, ra, a, last);
      if !Lists(txs[last], ra, a) {
        forall k: nat | k < last ensures ListedBy(txs, ra, a, k) <==> ListedBy(front, ra, a, k) && !Delists(txs[last], ra, a) {
          ListedByFront(txs, ra, a, k);
        }
      }
    }
  }

  /** What a call does to the settings: each is the admin's alone, changes its own key and no other, and
      no attest call touches any. */
  lemma SettingsChange(checks: Checks, ctx: Context, s: Store, call: RiskCall)
    ensures var (s', out) := RiskStep(checks, ctx, s, call);
            var byAdmin := s.admin in ctx.signers;
            && s'.admin == s.admin
            && s'.registryWired == (s.registryWired || (byAdmin && call.SetAttestorRegistry?))
            && s'.identityWired == (s.identityWired || (byAdmin && call.SetWalletIdentity?))
            && s'.imageId == (if byAdmin && call.SetImageId? then Some(call.imageId) else s.imageId)
            && s'.keys == (if byAdmin && call.RegisterKey? then s.keys[call.modelHash := call.key] else s.keys)
            && (!(call.AttestWithRisc0? || call.AttestWithHash? || call.AttestWithProof?) ==> s'.records == s.records && out == if byAdmin then Return(()) else Trap)
  {
  }

  // ----- Resolution and loan offers -----

  /** What answers for a record: its group's attestation when it names a group that has one, otherwise
      the record itself. */
  function AnswerTo(w: World, own: AttestationData): AttestationData {
    if own.identityCommitment.Some? && w.risk.identityWired && own.identityCommitment.value in w.identity.attestations then
      WI.Read(w.identity, own.identityCommitment.value).value
    else own
  }

  /** The attestation a reader gets for a wallet. */
  function Resolve(w: World, wallet: Address): Option<AttestationData> {
    if wallet in w.risk.records then Some(AnswerTo(w, w.risk.records[wallet])) else None
  }

  datatype LoanOffer = LoanOffer(maxPrincipal: int, collateralBps: nat, aprBps: nat)

  function ThinFile(): LoanOffer {
    LoanOffer(100, 25000, 3500)
  }

  function TermsFromBucket(a: AttestationData): LoanOffer {
    var (collateral, base) :=
      if a.riskBucket == 0 then (12000, 800)
      else if a.riskBucket == 1 then (13500, 1000)
      else if a.riskBucket == 2 then (15000, 1500)
      else if a.riskBucket == 3 then (17500, 2200)
      else if a.riskBucket == 4 then (20000, 3000)
      else (15000, 1500);
    LoanOffer(1000, collateral, if a.zkVerified then base else base + 200)
  }

  function TermsAt(a: AttestationData, now: nat): LoanOffer {
    if a.kycVerified && now <= a.expiresAt then TermsFromBucket(a) else ThinFile()
  }

  /** The pool's answer at time `now`, with the RiskAttestation address configured. */
  function Offer(w: World, wallet: Address, now: nat): LoanOffer {
    match Resolve(w, wallet)
    case Some(a) => TermsAt(a, now)
    case None => ThinFile()
  }

  ghost predicate StrictlyBeats(better: LoanOffer, worse: LoanOffer) {
    better.maxPrincipal > worse.maxPrincipal && better.collateralBps < worse.collateralBps && better.aprBps < worse.aprBps
  }

  /** The price list: full terms by bucket for a proven score, 200 basis points more for an unproven one,
      MEDIUM's for a bucket that is none, and thin-file terms. */
  lemma PriceList(a: AttestationData)
    ensures a.zkVerified && a.riskBucket == 0 ==> TermsFromBucket(a) == LoanOffer(1000, 12000, 800)
    ensures a.zkVerified && a.riskBucket == 1 ==> TermsFromBucket(a) == LoanOffer(1000, 13500, 1000)
    ensures a.zkVerified && a.riskBucket == 2 ==> TermsFromBucket(a) == LoanOffer(1000, 15000, 1500)
    ensures a.zkVerified && a.riskBucket == 3 ==> TermsFromBucket(a) == LoanOffer(1000, 17500, 2200)
    ensures a.zkVerified && a.riskBucket == 4 ==> TermsFromBucket(a) == LoanOffer(1000, 20000, 3000)
    ensures a.riskBucket > 4 ==> TermsFromBucket(a) == TermsFromBucket(a.(riskBucket := 2))
    ensures var proven := TermsFromBucket(a.(zkVerified := true));
            !a.zkVerified ==> TermsFromBucket(a) == proven.(aprBps := proven.aprBps + 200)
    ensures ThinFile() == LoanOffer(100, 25000, 3500)
  {
  }

  lemma SaferIsCheaper(a: AttestationData, b: AttestationData)
    requires a.riskBucket < b.riskBucket <= 4 && a.zkVerified == b.zkVerified
    ensures var x, y := TermsFromBucket(a), TermsFromBucket(b);
            x.maxPrincipal == y.maxPrincipal && x.collateralBps < y.collateralBps && x.aprBps < y.aprBps
  {
  }

  /** Two wallets with credit and the same proof status: both offers rise strictly with the answering
      bucket, so they are equal exactly when the buckets are. */
  lemma OffersFollowBucket(w: World, a: Address, b: Address, now: nat)
    requires Offer(w, a, now) != ThinFile() && Offer(w, b, now) != ThinFile()
    requires Resolve(w, a).value.zkVerified == Resolve(w, b).value.zkVerified
    requires Resolve(w, a).value.riskBucket <= 4 && Resolve(w, b).value.riskBucket <= 4
    ensures var x, y, p, q := Resolve(w, a).value.riskBucket, Resolve(w, b).value.riskBucket, Offer(w, a, now), Offer(w, b, now);
            && (p.collateralBps < q.collateralBps <==> x < y)
            && (p.aprBps < q.aprBps <==> x < y)
            && (p == q <==> x == y)
  {
    var x, y := Resolve(w, a).value, Resolve(w, b).value;
    if x.riskBucket < y.riskBucket {
      SaferIsCheaper(x, y);
    } else if y.riskBucket < x.riskBucket {
      SaferIsCheaper(y, x);
    }
  }

  /** Proving a score on chain is worth exactly 200 basis points of any credit, at the same collateral. */
  lemma ProofIsWorth(w: World, a: Address, b: Address, now: nat)
    requires Offer(w, a, now) != ThinFile() && Offer(w, b, now) != ThinFile()
    requires Resolve(w, a).value.zkVerified && !Resolve(w, b).value.zkVerified
    requires Resolve(w, a).value.riskBucket == Resolve(w, b).value.riskBucket
    ensures Offer(w, b, now) == Offer(w, a, now).(aprBps := Offer(w, a, now).aprBps + 200)
  {
  }

  lemma BindRead(ctx: Context, s: WI.Store, attestor: Address, c: Commitment, n: Nullifier, d: Commitment)
    requires d in s.attestations
    ensures var s' := WI.Bind(true, ctx, s, attestor, c, n).0;
            && s'.attestations.Keys == s.attestations.Keys
            && (WI.Read(s', d) == WI.Read(s, d) || (d == c && WI.Read(s', d) == Some(WI.Read(s, d).value.(kycVerified := true))))
  {
  }

  lemma FlagLiftsOffer(a: AttestationData, now: nat)
    ensures StrictlyBeats(TermsFromBucket(a), ThinFile())
  {
  }

  /** Binding a nullifier, whoever calls it and whatever comes of it, worsens no wallet's offer; it
      can only lift a wallet of the bound group from thin-file terms to its bucket's. */
  lemma BindNeverWorsens(checks: Checks, signers: set<Address>, w: World, attestor: Address, c: Commitment, n: Nullifier, wallet: Address, now: nat)
    ensures var w' := Step(checks, signers, w, Identity(WI.BindKyc(attestor, c, n)));
            || Offer(w', wallet, now) == Offer(w, wallet, now)
            || (&& StrictlyBeats(Offer(w', wallet, now), Offer(w, wallet, now))
                && Offer(w, wallet, now) == ThinFile()
                && wallet in w.risk.records && w.risk.records[wallet].identityCommitment == Some(c))
  {
    var ctx := Context(signers, Attestors(w.registry));
    var s' := WI.Bind(true, ctx, w.identity, attestor, c, n).0;
    var w' := Step(checks, signers, w, Identity(WI.BindKyc(attestor, c, n)));
    assert w' == w.(identity := s');
    if wallet in w.risk.records && AnsweringGroup(w, wallet).Some? {
      var d := AnsweringGroup(w, wallet).value;
      BindRead(ctx, w.identity, attestor, c, n, d);
      assert Resolve(w, wallet) == WI.Read(w.identity, d) && Resolve(w', wallet) == WI.Read(s', d);
      FlagLiftsOffer(Resolve(w', wallet).value, now);
    } else {
      assert w'.identity.attestations.Keys == w.identity.attestations.Keys;
    }
  }

  /** Two attestations that get the same terms. */
  ghost predicate Alike(a: AttestationData, b: AttestationData) {
    a.kycVerified == b.kycVerified && (a.kycVerified ==> a.expiresAt == b.expiresAt && TermsFromBucket(a) == TermsFromBucket(b))
  }

  lemma AlikeIff(a: AttestationData, b: AttestationData)
    ensures (forall now: nat :: TermsAt(a, now) == TermsAt(b, now)) <==> Alike(a, b)
  {
    FlagLiftsOffer(a, 0);
    FlagLiftsOffer(b, 0);
    if forall now: nat :: TermsAt(a, now) == TermsAt(b, now) {
      assert TermsAt(a, 0) == TermsAt(b, 0);
      assert TermsAt(a, a.expiresAt) == TermsAt(b, a.expiresAt);
      assert TermsAt(a, b.expiresAt) == TermsAt(b, b.expiresAt);
    }
  }

  /** Two wallets get the same offer at all times exactly when what answers for them is alike. */
  lemma OffersAgreeIff(w: World, a: Address, b: Address)
    requires a in w.risk.records && b in w.risk.records
    ensures (forall now: nat :: Offer(w, a, now) == Offer(w, b, now))
            <==> Alike(AnswerTo(w, w.risk.records[a]), AnswerTo(w, w.risk.records[b]))
  {
    var x, y := AnswerTo(w, w.risk.records[a]), AnswerTo(w, w.risk.records[b]);
    AlikeIff(x, y);
    assert forall now: nat :: Offer(w, a, now) == TermsAt(x, now) && Offer(w, b, now) == TermsAt(y, now);
  }

  /** Wallets whose records name one group get the same offer at all times exactly when groups are wired and
      the group has a score, or their own records are alike. */
  lemma GroupSharesOfferIff(w: World, a: Address, b: Address, c: Commitment)
    requires a in w.risk.records && w.risk.records[a].identityCommitment == Some(c)
    requires b in w.risk.records && w.risk.records[b].identityCommitment == Some(c)
    ensures (forall now: nat :: Offer(w, a, now) == Offer(w, b, now))
            <==> (w.risk.identityWired && c in w.identity.attestations) || Alike(w.risk.records[a], w.risk.records[b])
    ensures w.risk.identityWired && c in w.identity.attestations ==> Resolve(w, a) == Resolve(w, b) == WI.Read(w.identity, c)
  {
    OffersAgreeIff(w, a, b);
  }

  /** The group whose attestation answers for a wallet, if any. */
  function AnsweringGroup(w: World, wallet: Address): Option<Commitment>
    requires wallet in w.risk.records
  {
    var own := w.risk.records[wallet];
    if own.identityCommitment.Some? && w.risk.identityWired && own.identityCommitment.value in w.identity.attestations
    then own.identityCommitment else None
  }

  lemma {:induction false} RunKeepsIdentityInv(checks: Checks, w: World, txs: seq<Tx>)
    requires WI.Inv(w.identity)
    ensures WI.Inv(Run(checks, w, txs).0.identity)
  {
    if txs != [] {
      var last := txs[|txs| - 1];
      var w' := Run(checks, w, txs[..|txs| - 1]).0;
      RunKeepsIdentityInv(checks, w, txs[..|txs| - 1]);
      if last.call.Identity? {
        WI.StepKeepsInv(true, checks.identity, Context(last.signers, Attestors(w'.registry)), w'.identity, last.call.wi);
      }
    }
  }

  /** In every reachable state an offer other than thin-file goes exactly to a wallet whose answering
      attestation is unexpired and either carries the KYC flag its attestor submitted or, for a
      group, has a nullifier bound to it; and every such offer beats thin-file terms in all three
      fields. */
  lemma NonThinIff(checks: Checks, ra: Address, ia: Address, ka: Address, txs: seq<Tx>, wallet: Address, now: nat)
    ensures var w := Run(checks, Genesis(ra, ia, ka), txs).0;
            var offer := Offer(w, wallet, now);
            && (offer != ThinFile() ==> StrictlyBeats(offer, ThinFile()))
            && (offer != ThinFile() <==>
                wallet in w.risk.records &&
                match AnsweringGroup(w, wallet)
                case None => w.risk.records[wallet].kycVerified && now <= w.risk.records[wallet].expiresAt
                case Some(c) =>
                  && now <= w.identity.attestations[c].expiresAt
                  && (w.identity.attestations[c].kycVerified || exists n :: n in w.identity.nullifiers && w.identity.nullifiers[n] == c))
  {
    RunKeepsIdentityInv(checks, Genesis(ra, ia, ka), txs);
    OfferWhere(Run(checks, Genesis(ra, ia, ka), txs).0, wallet, now);
  }

  lemma OfferWhere(w: World, wallet: Address, now: nat)
    requires WI.Inv(w.identity)
    ensures var offer := Offer(w, wallet, now);
            && (offer != ThinFile() ==> StrictlyBeats(offer, ThinFile()))
            && (offer != ThinFile() <==>
                wallet in w.risk.records &&
                match AnsweringGroup(w, wallet)
                case None => w.risk.records[wallet].kycVerified && now <= w.risk.records[wallet].expiresAt
                case Some(c) =>
                  && now <= w.identity.attestations[c].expiresAt
                  && (w.identity.attestations[c].kycVerified || exists n :: n in w.identity.nullifiers && w.identity.nullifiers[n] == c))
  {
    if wallet in w.risk.records {
      var group := AnsweringGroup(w, wallet);
      if group.Some? {
        assert group.value in w.identity.kycVerified <==> group.value in w.identity.nullifiers.Values;
      }
    }
  }

  // ----- When KYC really is the gate -----

  ghost predicate Bound(w: World, c: Commitment) {
    exists n :: n in w.identity.nullifiers && w.identity.nullifiers[n] == c
  }

  /** The record names a group with a bound nullifier. */
  ghost predicate NamesBound(w: World, data: AttestationData) {
    data.identityCommitment.Some? && Bound(w, data.identityCommitment.value)
  }

  /** Whatever the time, credit beyond thin-file terms means that the wallet's record names a bound group. */
  ghost predicate CreditIsBound(w: World, wallet: Address) {
    forall now: nat :: Offer(w, wallet, now) != ThinFile() ==> wallet in w.risk.records && NamesBound(w, w.risk.records[wallet])
  }

  /** A wallet's credit means a bound group exactly when its answering attestation, if it carries the
      flag, belongs to a record that names a bound group. */
  lemma CreditIsBoundIff(w: World, wallet: Address)
    ensures CreditIsBound(w, wallet)
            <==> (wallet in w.risk.records && Resolve(w, wallet).value.kycVerified ==> NamesBound(w, w.risk.records[wallet]))
  {
    if wallet in w.risk.records && Resolve(w, wallet).value.kycVerified {
      var a := Resolve(w, wallet).value;
      FlagLiftsOffer(a, a.expiresAt);
      assert Offer(w, wallet, a.expiresAt) == TermsFromBucket(a) != ThinFile();
    }
  }

  ghost predicate AllCreditIsBound(w: World) {
    forall wallet :: CreditIsBound(w, wallet)
  }

  /** A record write keeps the property exactly when it holds of the wallet written. */
  lemma AttestKeepsIff(checks: Checks, tx: Tx, w: World, e: Write)
    requires AllCreditIsBound(w) && Written(checks, tx, w) == [e]
    ensures var w' := Step(checks, tx.signers, w, tx.call);
            AllCreditIsBound(w') <==> (Resolve(w', e.wallet).value.kycVerified ==> NamesBound(w', e.data))
  {
    WrittenShape(checks, tx, w);
    var w' := Step(checks, tx.signers, w, tx.call);
    WriteLeavesRest(checks, tx, w);
    assert w'.risk.records == w.risk.records[e.wallet := e.data];
    CreditIsBoundIff(w', e.wallet);
    forall wallet | wallet != e.wallet ensures CreditIsBound(w', wallet) {
      assert CreditIsBound(w, wallet);
      CreditIsBoundIff(w, wallet);
      CreditIsBoundIff(w', wallet);
    }
  }

  lemma WriteLeavesRest(checks: Checks, tx: Tx, w: World)
    requires Written(checks, tx, w) != []
    ensures var w' := Step(checks, tx.signers, w, tx.call);
            w'.identity == w.identity && w'.risk.identityWired == w.risk.identityWired
  {
  }

  /** The wallets a group's score answers for. */
  ghost predicate AnswersFor(w: World, c: Commitment, wallet: Address) {
    w.risk.identityWired && wallet in w.risk.records && w.risk.records[wallet].identityCommitment == Some(c)
  }

  /** A score that is stored keeps the property exactly when it carries no flag, the group is bound, or
      it answers for nobody. */
  lemma ScoreKeepsIff(checks: Checks, signers: set<Address>, w: World, attestor: Address, c: Commitment, att: AttestationData)
    requires WI.Inv(w.identity) && AllCreditIsBound(w)
    requires WI.UpdateScore(Context(signers, Attestors(w.registry)), w.identity, attestor, c, att).1.Return?
    ensures AllCreditIsBound(Step(checks, signers, w, Identity(WI.UpdateGroupScore(attestor, c, att))))
            <==> (att.kycVerified && (exists wallet :: AnswersFor(w, c, wallet)) ==> Bound(w, c))
  {
    var w' := Step(checks, signers, w, Identity(WI.UpdateGroupScore(attestor, c, att)));
    ScoreStores(checks, signers, w, attestor, c, att);
    forall wallet ensures CreditIsBound(w', wallet) <==> (AnswersFor(w, c, wallet) && att.kycVerified ==> Bound(w, c)) {
      assert CreditIsBound(w, wallet);
      CreditIsBoundIff(w, wallet);
      CreditIsBoundIff(w', wallet);
      assert wallet in w.risk.records ==> (NamesBound(w', w.risk.records[wallet]) <==> NamesBound(w, w.risk.records[wallet]));
      if AnswersFor(w, c, wallet) {
        ScoredAnswer(w, w', c, att, wallet);
      } else {
        assert Resolve(w', wallet) == Resolve(w, wallet);
      }
    }
  }

  lemma ScoreStores(checks: Checks, signers: set<Address>, w: World, attestor: Address, c: Commitment, att: AttestationData)
    requires WI.UpdateScore(Context(signers, Attestors(w.registry)), w.identity, attestor, c, att).1.Return?
    ensures Step(checks, signers, w, Identity(WI.UpdateGroupScore(attestor, c, att)))
            == w.(identity := w.identity.(attestations := w.identity.attestations[c := att]))
  {
  }

  lemma ScoredAnswer(w: World, w': World, c: Commitment, att: AttestationData, wallet: Address)
    requires WI.Inv(w.identity) && AnswersFor(w, c, wallet)
    requires w' == w.(identity := w.identity.(attestations := w.identity.attestations[c := att]))
    ensures Resolve(w', wallet).value.kycVerified <==> att.kycVerified || Bound(w, c)
  {
    assert WI.Get(w.identity.kycVerified, c, false) <==> c in w.identity.nullifiers.Values;
  }

  /** A flag is only ever stored beside a bound nullifier. */
  ghost predicate FlagsAreBound(w: World) {
    && (forall a :: a in w.risk.records && w.risk.records[a].kycVerified ==> NamesBound(w, w.risk.records[a]))
    && (forall c :: c in w.identity.attestations && w.identity.attestations[c].kycVerified ==> Bound(w, c))
  }

  /** The transaction stores a flag that no bound nullifier backs. */
  ghost predicate CertifiesUnbound(checks: Checks, tx: Tx, w: World) {
    || (exists e :: e in Written(checks, tx, w) && e.data.kycVerified && !NamesBound(w, e.data))
    || (&& tx.call.Identity? && tx.call.wi.UpdateGroupScore?
        && WI.UpdateScore(Context(tx.signers, Attestors(w.registry)), w.identity, tx.call.wi.attestor, tx.call.wi.commitment, tx.call.wi.attestation).1.Return?
        && tx.call.wi.attestation.kycVerified && !Bound(w, tx.call.wi.commitment))
  }

  lemma BindingsStay(checks: Checks, tx: Tx, w: World, c: Commitment)
    requires Bound(w, c)
    ensures Bound(Step(checks, tx.signers, w, tx.call), c)
  {
    var n :| n in w.identity.nullifiers && w.identity.nullifiers[n] == c;
    var w' := Step(checks, tx.signers, w, tx.call);
    if tx.call.Identity? {
      WI.StepKeepsBindings(true, checks.identity, Context(tx.signers, Attestors(w.registry)), w.identity, tx.call.wi);
    }
    assert n in w'.identity.nullifiers && w'.identity.nullifiers[n] == c;
  }

  lemma BindFlagsOnlyItsGroup(checks: Checks, tx: Tx, w: World, c: Commitment)
    requires tx.call.Identity? && tx.call.wi.BindKyc?
    ensures var w' := Step(checks, tx.signers, w, tx.call);
            c in w'.identity.attestations ==>
              || (c in w.identity.attestations && w'.identity.attestations[c] == w.identity.attestations[c])
              || Bound(w', c)
  {
    var w', n := Step(checks, tx.signers, w, tx.call), tx.call.wi.nullifier;
    if tx.call.wi.commitment == c && n in w'.identity.nullifiers && n !in w.identity.nullifiers {
      assert w'.identity.nullifiers[n] == c;
    }
  }

  lemma OtherCallsLeaveScores(gate: WI.Gate, ctx: Context, s: WI.Store, call: WI.Call)
    requires !call.BindKyc? && !call.UpdateGroupScore? && !call.LeaveGroup?
    ensures var s' := WI.Step(true, gate, ctx, s, call).0;
            s'.attestations == s.attestations && s'.nullifiers == s.nullifiers && s'.kycVerified == s.kycVerified
  {
  }

  lemma OthersFlagNothing(checks: Checks, tx: Tx, w: World, c: Commitment)
    requires tx.call.Identity? && !tx.call.wi.BindKyc? && !tx.call.wi.UpdateGroupScore?
    ensures var w' := Step(checks, tx.signers, w, tx.call);
            c in w'.identity.attestations ==> c in w.identity.attestations && w'.identity.attestations[c] == w.identity.attestations[c]
  {
    if !tx.call.wi.LeaveGroup? {
      OtherCallsLeaveScores(checks.identity, Context(tx.signers, Attestors(w.registry)), w.identity, tx.call.wi);
    }
  }

  lemma IdentityKeepsFlags(checks: Checks, tx: Tx, w: World, c: Commitment)
    requires tx.call.Identity? && FlagsAreBound(w)
    ensures var w' := Step(checks, tx.signers, w, tx.call);
            c in w'.identity.attestations && w'.identity.attestations[c].kycVerified && !Bound(w', c) ==>
              tx.call.wi.UpdateGroupScore? && tx.call.wi.commitment == c && tx.call.wi.attestation.kycVerified
              && WI.UpdateScore(Context(tx.signers, Attestors(w.registry)), w.identity, tx.call.wi.attestor, c, tx.call.wi.attestation).1.Return?
  {
    if Bound(w, c) {
      BindingsStay(checks, tx, w, c);
    } else if tx.call.wi.BindKyc? {
      BindFlagsOnlyItsGroup(checks, tx, w, c);
    } else if !tx.call.wi.UpdateGroupScore? {
      OthersFlagNothing(checks, tx, w, c);
    }
  }

  lemma RiskLeavesBindings(checks: Checks, tx: Tx, w: World, c: Commitment)
    requires !tx.call.Identity?
    ensures Bound(Step(checks, tx.signers, w, tx.call), c) <==> Bound(w, c)
  {
    assert Step(checks, tx.signers, w, tx.call).identity == w.identity;
  }

  /** Any call of any contract keeps that, except exactly an attest or score call that stores a flag no
      bound nullifier backs. */
  lemma FlagsStayBoundIff(checks: Checks, tx: Tx, w: World)
    requires FlagsAreBound(w)
    ensures FlagsAreBound(Step(checks, tx.signers, w, tx.call)) <==> !CertifiesUnbound(checks, tx, w)
  {
    if tx.call.Identity? {
      ScoreFlagsIff(checks, tx, w);
    } else {
      RecordFlagsIff(checks, tx, w);
    }
  }

  lemma ScoreFlagsIff(checks: Checks, tx: Tx, w: World)
    requires FlagsAreBound(w) && tx.call.Identity?
    ensures FlagsAreBound(Step(checks, tx.signers, w, tx.call)) <==> !CertifiesUnbound(checks, tx, w)
  {
    var w' := Step(checks, tx.signers, w, tx.call);
    assert Written(checks, tx, w) == [] && w'.risk == w.risk;
    forall a | a in w.risk.records && w.risk.records[a].kycVerified ensures NamesBound(w', w.risk.records[a]) {
      BindingsStay(checks, tx, w, w.risk.records[a].identityCommitment.value);
    }
    if CertifiesUnbound(checks, tx, w) {
      var c := tx.call.wi.commitment;
      ScoreStores(checks, tx.signers, w, tx.call.wi.attestor, c, tx.call.wi.attestation);
      assert w'.identity.nullifiers == w.identity.nullifiers;
      assert !Bound(w', c) && w'.identity.attestations[c].kycVerified;
    } else {
      forall c | c in w'.identity.attestations && w'.identity.attestations[c].kycVerified ensures Bound(w', c) {
        IdentityKeepsFlags(checks, tx, w, c);
        if Bound(w, c) {
          BindingsStay(checks, tx, w, c);
        }
      }
    }
  }

  lemma RecordFlagsIff(checks: Checks, tx: Tx, w: World)
    requires FlagsAreBound(w) && !tx.call.Identity?
    ensures FlagsAreBound(Step(checks, tx.signers, w, tx.call)) <==> !CertifiesUnbound(checks, tx, w)
  {
    var w' := Step(checks, tx.signers, w, tx.call);
    WrittenShape(checks, tx, w);
    assert w'.identity == w.identity;
    forall c ensures Bound(w', c) <==> Bound(w, c) {
      RiskLeavesBindings(checks, tx, w, c);
    }
    if Written(checks, tx, w) != [] {
      var e := Written(checks, tx, w)[0];
      assert Written(checks, tx, w) == [e];
      assert w'.risk.records == w.risk.records[e.wallet := e.data];
    }
  }

  ghost predicate NeverCertifiesUnbound(checks: Checks, w: World, txs: seq<Tx>) {
    forall k :: 0 <= k < |txs| ==> !CertifiesUnbound(checks, txs[k], Run(checks, w, txs[..k]).0)
  }

  ghost predicate FlagsBoundAt(checks: Checks, w: World, txs: seq<Tx>, k: nat)
    requires k <= |txs|
  {
    FlagsAreBound(Run(checks, w, txs[..k]).0)
  }

  lemma FlagsAt(checks: Checks, w: World, txs: seq<Tx>, k: nat)
    requires k < |txs| && FlagsBoundAt(checks, w, txs, k)
    ensures FlagsBoundAt(checks, w, txs, k + 1) <==> !CertifiesUnbound(checks, txs[k], Run(checks, w, txs[..k]).0)
  {
    FlagsStayBoundIff(checks, txs[k], Run(checks, w, txs[..k]).0);
    assert txs[..k + 1][..k] == txs[..k];
  }

  /** Over every run: flags are bound all along exactly when no transaction stores an unbacked one. */
  lemma FlagsBoundThroughIff(checks: Checks, w: World, txs: seq<Tx>)
    requires FlagsAreBound(w)
    ensures (forall k :: 0 <= k <= |txs| ==> FlagsBoundAt(checks, w, txs, k)) <==> NeverCertifiesUnbound(checks, w, txs)
  {
    if NeverCertifiesUnbound(checks, w, txs) {
      forall k | 0 <= k <= |txs| ensures FlagsBoundAt(checks, w, txs, k) {
        FlagsBoundUpTo(checks, w, txs, k);
      }
    }
    if forall k :: 0 <= k <= |txs| ==> FlagsBoundAt(checks, w, txs, k) {
      forall k | 0 <= k < |txs| ensures !CertifiesUnbound(checks, txs[k], Run(checks, w, txs[..k]).0) {
        assert FlagsBoundAt(checks, w, txs, k) && FlagsBoundAt(checks, w, txs, k + 1);
        FlagsAt(checks, w, txs, k);
      }
    }
  }

  lemma {:induction false} FlagsBoundUpTo(checks: Checks, w: World, txs: seq<Tx>, k: nat)
    requires FlagsAreBound(w) && NeverCertifiesUnbound(checks, w, txs) && k <= |txs|
    ensures FlagsBoundAt(checks, w, txs, k)
  {
    if k == 0 {
      assert txs[..0] == [];
    } else {
      FlagsBoundUpTo(checks, w, txs, k - 1);
      FlagsAt(checks, w, txs, k - 1);
    }
  }

  lemma BoundFlagsBoundCredit(w: World)
    requires WI.Inv(w.identity) && FlagsAreBound(w)
    ensures AllCreditIsBound(w)
  {
    forall wallet ensures CreditIsBound(w, wallet) {
      CreditIsBoundIff(w, wallet);
      if wallet in w.risk.records && AnsweringGroup(w, wallet).Some? {
        var c := AnsweringGroup(w, wallet).value;
        assert WI.Get(w.identity.kycVerified, c, false) <==> c in w.identity.nullifiers.Values;
      }
    }
  }

  /** So credit means a bound group for every wallet after every run in which attestors set the flag only
      for groups that are already bound. */
  lemma BackedFlagsMeanBoundCredit(checks: Checks, ra: Address, ia: Address, ka: Address, txs: seq<Tx>)
    requires NeverCertifiesUnbound(checks, Genesis(ra, ia, ka), txs)
    ensures AllCreditIsBound(Run(checks, Genesis(ra, ia, ka), txs).0)
  {
    FlagsBoundUpTo(checks, Genesis(ra, ia, ka), txs, |txs|);
    assert txs[..|txs|] == txs;
    RunKeepsIdentityInv(checks, Genesis(ra, ia, ka), txs);
    BoundFlagsBoundCredit(Run(checks, Genesis(ra, ia, ka), txs).0);
  }

  /** No record and no group score is submitted with the KYC flag already set. */
  ghost predicate NeverSelfCertified(txs: seq<Tx>) {
    forall i :: 0 <= i < |txs| ==> !Certifies(txs[i].call)
  }

  predicate Certifies(call: Call) {
    match call
    case Identity(UpdateGroupScore(_, _, att)) => att.kycVerified
    case Risk(AttestWithRisc0(_, data, _, _)) => data.kycVerified
    case Risk(AttestWithHash(_, data)) => data.kycVerified
    case Risk(AttestWithProof(_, data, _)) => data.kycVerified
    case _ => false
  }

  ghost predicate OnlyBindingsCertify(w: World) {
    && (forall a :: a in w.risk.records ==> !w.risk.records[a].kycVerified)
    && (forall c :: c in w.identity.attestations && w.identity.attestations[c].kycVerified ==> c in w.identity.nullifiers.Values)
  }

  lemma StepOnlyBindingsCertify(checks: Checks, tx: Tx, w: World)
    requires WI.Inv(w.identity) && OnlyBindingsCertify(w) && !Certifies(tx.call)
    ensures OnlyBindingsCertify(Step(checks, tx.signers, w, tx.call))
  {
    match tx.call
    case Identity(wi) => IdentityOnlyBindingsCertify(checks, Context(tx.signers, Attestors(w.registry)), w.identity, wi);
    case Risk(_) => RiskNeverCertifies(checks, tx, w);
    case _ =>
  }

  lemma RiskNeverCertifies(checks: Checks, tx: Tx, w: World)
    requires tx.call.Risk? && !Certifies(tx.call)
    requires forall a :: a in w.risk.records ==> !w.risk.records[a].kycVerified
    ensures var records' := Step(checks, tx.signers, w, tx.call).risk.records;
            forall a :: a in records' ==> !records'[a].kycVerified
  {
  }

  lemma IdentityOnlyBindingsCertify(checks: Checks, ctx: Context, s: WI.Store, call: WI.Call)
    requires call.UpdateGroupScore? ==> !call.attestation.kycVerified
    requires forall c :: c in s.attestations && s.attestations[c].kycVerified ==> c in s.nullifiers.Values
    ensures var s' := WI.Step(true, checks.identity, ctx, s, call).0;
            forall c :: c in s'.attestations && s'.attestations[c].kycVerified ==> c in s'.nullifiers.Values
  {
    if call.BindKyc? && call.nullifier !in s.nullifiers {
      WI.ValuesAfterInsert(s.nullifiers, call.nullifier, call.commitment);
    }
  }

  lemma {:induction false} RunOnlyBindingsCertify(checks: Checks, ra: Address, ia: Address, ka: Address, txs: seq<Tx>)
    requires NeverSelfCertified(txs)
    ensures OnlyBindingsCertify(Run(checks, Genesis(ra, ia, ka), txs).0)
  {
    if txs != [] {
      var front := txs[..|txs| - 1];
      RunOnlyBindingsCertify(checks, ra, ia, ka, front);
      RunKeepsIdentityInv(checks, Genesis(ra, ia, ka), front);
      StepOnlyBindingsCertify(checks, txs[|txs| - 1], Run(checks, Genesis(ra, ia, ka), front).0);
    }
  }

  /** When attestors never set the flag themselves, credit beyond thin-file terms exists only for
      wallets whose record names a group with a bound nullifier. */
  lemma CreditNeedsBoundNullifier(checks: Checks, ra: Address, ia: Address, ka: Address, txs: seq<Tx>, wallet: Address, now: nat)
    requires NeverSelfCertified(txs)
    requires Offer(Run(checks, Genesis(ra, ia, ka), txs).0, wallet, now) != ThinFile()
    ensures var w := Run(checks, Genesis(ra, ia, ka), txs).0;
            && wallet in w.risk.records && w.risk.records[wallet].identityCommitment.Some?
            && exists n :: n in w.identity.nullifiers && w.identity.nullifiers[n] == w.risk.records[wallet].identityCommitment.value
  {
    RunOnlyBindingsCertify(checks, ra, ia, ka, txs);
    NonThinIff(checks, ra, ia, ka, txs, wallet, now);
    var w := Run(checks, Genesis(ra, ia, ka), txs).0;
    var c := AnsweringGroup(w, wallet).value;
    if c in w.identity.nullifiers.Values {
      var n :| n in w.identity.nullifiers && w.identity.nullifiers[n] == c;
    }
  }

  /** Without that condition the claim fails: one hash attestation submitted with the flag set gets
      full terms although no nullifier was ever bound. */
  lemma FlagAloneOpensTheGate(checks: Checks, admin: Address, wallet: Address, data: AttestationData)
    requires data.kycVerified && data.identityCommitment == None && data.attestor == admin
    ensures var txs := [Tx({admin}, Authorize(admin)), Tx({admin}, Risk(SetAttestorRegistry)), Tx({admin, wallet}, Risk(AttestWithHash(wallet, data)))];
            var w := Run(checks, Genesis(admin, admin, admin), txs).0;
            w.identity.nullifiers == map[] && Offer(w, wallet, data.expiresAt) != ThinFile()
  {
    var t1, t2, t3 := Tx({admin}, Authorize(admin)), Tx({admin}, Risk(SetAttestorRegistry)), Tx({admin, wallet}, Risk(AttestWithHash(wallet, data)));
    var g := Genesis(admin, admin, admin);
    RunOneMore(checks, g, [], t1);
    RunOneMore(checks, g, [t1], t2);
    RunOneMore(checks, g, [t1, t2], t3);
    assert [] + [t1] == [t1] && [t1] + [t2] == [t1, t2] && [t1, t2] + [t3] == [t1, t2, t3];
    var w2 := Run(checks, g, [t1, t2]).0;
    assert w2.registry == map[admin := true] && w2.risk == g.risk.(registryWired := true);
    assert admin in Attestors(w2.registry);
  }

  lemma RunOneMore(checks: Checks, w: World, txs: seq<Tx>, tx: Tx)
    ensures Run(checks, w, txs + [tx]).0 == Step(checks, tx.signers, Run(checks, w, txs).0, tx.call)
  {
    assert (txs + [tx])[..|txs|] == txs;
  }
}
