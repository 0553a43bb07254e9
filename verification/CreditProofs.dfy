/** Where the records of the credit contracts come from, over whole runs, and what a zk-verified record
    has shown once the proof checks are the shared verifiers. */
module CreditProofs {
  import opened Common
  import opened Encoding
  import opened Groth16
  import opened Receipt
  import opened CreditChain
  import Membership
  import WI = WalletIdentity

  /** The call that wrote `e`: signed by its wallet and by an attestor listed at that moment, and let
      through by the proof check of its path. */
  ghost predicate Origin(checks: Checks, tx: Tx, w: World, e: Write) {
    && tx.call.Risk? && e.wallet in tx.signers
    && e.data.attestor in tx.signers && e.data.attestor in Attestors(w.registry)
    && match tx.call.ra
       case AttestWithRisc0(a, data, seal, journal) => e.wallet == a && e.path == ByReceipt && FromReceipt(checks, w.risk, e.data, data, seal, journal)
       case AttestWithHash(a, data) => e.wallet == a && e.path == ByHash && e.data == data.(zkVerified := false)
       case AttestWithProof(a, data, proof) => e.wallet == a && e.path == ByProof && FromProof(checks, w.risk, e.data, data, proof)
       case _ => false
  }

  /** The seal is accepted under the image id set at that time, and five fields are the journal's. */
  ghost predicate FromReceipt(checks: Checks, s: Store, stored: AttestationData, data: AttestationData, seal: Bytes, journal: Bytes) {
    && s.imageId.Some? && checks.receipt(seal, s.imageId.value, journal) == Accept
    && Parse(journal).Some? && stored == Proven(data, Parse(journal).value)
  }

  /** The flag says that a key was registered for the model hash, and then the proof passed under it. */
  ghost predicate FromProof(checks: Checks, s: Store, stored: AttestationData, data: AttestationData, proof: Bytes) {
    && stored == data.(zkVerified := data.distilledModelHash in s.keys)
    && (data.distilledModelHash in s.keys ==> checks.proof(s.keys[data.distilledModelHash], proof) == Accept)
  }

  lemma WrittenHasOrigin(checks: Checks, tx: Tx, w: World, e: Write)
    requires e in Written(checks, tx, w)
    ensures Origin(checks, tx, w, e)
  {
    var ctx := Context(tx.signers, Attestors(w.registry));
    match tx.call.ra
    case AttestWithRisc0(a, data, seal, journal) => ReceiptOrigin(checks, ctx, w.risk, a, data, seal, journal);
    case AttestWithHash(a, data) =>
    case AttestWithProof(a, data, proof) => ProofOrigin(checks, ctx, w.risk, a, data, proof);
  }

  lemma ReceiptOrigin(checks: Checks, ctx: Context, s: Store, a: Address, data: AttestationData, seal: Bytes, journal: Bytes)
    requires AttestRisc0(checks, ctx, s, a, data, seal, journal).1.Return?
    ensures a in ctx.signers && data.attestor in ctx.signers && data.attestor in ctx.attestors
    ensures var s' := AttestRisc0(checks, ctx, s, a, data, seal, journal).0;
            a in s'.records && s'.records[a].attestor == data.attestor && FromReceipt(checks, s, s'.records[a], data, seal, journal)
  {
  }

  lemma ProofOrigin(checks: Checks, ctx: Context, s: Store, a: Address, data: AttestationData, proof: Bytes)
    requires AttestProof(checks, ctx, s, a, data, proof).1.Return?
    ensures a in ctx.signers && data.attestor in ctx.signers && data.attestor in ctx.attestors
    ensures var s' := AttestProof(checks, ctx, s, a, data, proof).0;
            a in s'.records && s'.records[a].attestor == data.attestor && FromProof(checks, s, s'.records[a], data, proof)
  {
  }

  /** Over every run, every write ever made has such a call, in the world that call met. */
  lemma {:induction false} WriteHasOrigin(checks: Checks, w: World, txs: seq<Tx>, e: Write) returns (k: nat)
    requires e in Run(checks, w, txs).1
    ensures k < |txs| && Origin(checks, txs[k], Run(checks, w, txs[..k]).0, e)
  {
    var front, last := txs[..|txs| - 1], |txs| - 1;
    if e in Run(checks, w, front).1 {
      k := WriteHasOrigin(checks, w, front, e);
      assert front[..k] == txs[..k];
    } else {
      k := last;
      WrittenHasOrigin(checks, txs[k], Run(checks, w, front).0, e);
    }
  }

  /** Every stored record of a reachable world is the last write to its wallet, so it has one too. */
  lemma RecordHasOrigin(checks: Checks, ra: Address, ia: Address, ka: Address, txs: seq<Tx>, a: Address) returns (k: nat, e: Write)
    requires a in Run(checks, Genesis(ra, ia, ka), txs).0.risk.records
    ensures e.wallet == a && e.data == Run(checks, Genesis(ra, ia, ka), txs).0.risk.records[a]
    ensures k < |txs| && Origin(checks, txs[k], Run(checks, Genesis(ra, ia, ka), txs[..k]).0, e)
  {
    var g := Genesis(ra, ia, ka);
    RecordHistory(checks, ra, ia, ka, txs);
    var (w, log) := Run(checks, g, txs);
    var i :| 0 <= i < |log| && log[i].wallet == a && log[i].data == w.risk.records[a];
    e := log[i];
    k := WriteHasOrigin(checks, g, txs, e);
  }

  // ----- When a call writes, and what -----

  /** What every attest path asks of its signers: the wallet's signature, and a listed attestor's, with the
      registry wired. */
  ghost predicate Signed(ctx: Context, s: Store, w: Address, attestor: Address) {
    w in ctx.signers && s.registryWired && attestor in ctx.attestors && attestor in ctx.signers
  }

  /** The record a receipt leaves: four fields cut from the journal, the flag set, the rest as submitted. */
  function FromJournal(data: AttestationData, journal: Bytes): AttestationData
    requires |journal| == 72
  {
    AttestationData(data.wallet, FromBE(journal[..4]), FromBE(journal[4..8]), data.fullModelHash, journal[40..72], data.proofOrHash, true,
                    data.attestor, data.issuedAt, data.expiresAt, data.kycVerified, Some(journal[8..40]))
  }

  function WithFlag(data: AttestationData, zkVerified: bool): AttestationData {
    AttestationData(data.wallet, data.riskBucket, data.confidence, data.fullModelHash, data.distilledModelHash, data.proofOrHash, zkVerified,
                    data.attestor, data.issuedAt, data.expiresAt, data.kycVerified, data.identityCommitment)
  }

  /** A receipt call writes exactly when wallet and listed attestor sign, any stored record is strictly
      older, the image is set, the receipt is accepted and the journal has 72 bytes; then the record is the
      journal's, and otherwise nothing changes. */
  lemma ReceiptWritesIff(checks: Checks, ctx: Context, s: Store, w: Address, data: AttestationData, seal: Bytes, journal: Bytes)
    ensures var (s', out) := AttestRisc0(checks, ctx, s, w, data, seal, journal);
            && (s' != s <==> out.Return?)
            && (out.Return? <==>
                  && Signed(ctx, s, w, data.attestor) && (w in s.records ==> s.records[w].issuedAt < data.issuedAt)
                  && s.imageId.Some? && checks.receipt(seal, s.imageId.value, journal) == Accept && |journal| == 72)
            && (out.Return? ==> s' == s.(records := s.records[w := FromJournal(data, journal)]))
  {
    var (s', out) := AttestRisc0(checks, ctx, s, w, data, seal, journal);
    if out.Return? {
      assert journal[40..] == journal[40..72];
      assert s'.records[w] == FromJournal(data, journal);
      assert w in s.records ==> s'.records[w].issuedAt != s.records[w].issuedAt;
    }
  }

  /** Why a receipt call is refused, in the order of its checks. */
  lemma ReceiptRefusals(checks: Checks, ctx: Context, s: Store, w: Address, data: AttestationData, seal: Bytes, journal: Bytes)
    ensures var out := AttestRisc0(checks, ctx, s, w, data, seal, journal).1;
            var newer := w in ctx.signers && (w in s.records ==> s.records[w].issuedAt < data.issuedAt);
            var admitted := newer && Signed(ctx, s, w, data.attestor);
            var verdict := if s.imageId.Some? then checks.receipt(seal, s.imageId.value, journal) else Reject;
            && (out == Fail(StaleAttestation) <==> w in ctx.signers && w in s.records && data.issuedAt <= s.records[w].issuedAt)
            && (out == Fail(AttestorNotRegistered) <==> newer && !s.registryWired)
            && (out == Fail(UnauthorizedAttestor) <==> newer && s.registryWired && data.attestor !in ctx.attestors)
            && (out == Fail(Risc0ImageNotSet) <==> admitted && s.imageId.None?)
            && (out == Fail(InvalidProof) <==> admitted && s.imageId.Some? && verdict == Reject)
            && (out == Fail(InvalidInputs) <==> admitted && s.imageId.Some? && verdict == Accept && |journal| != 72)
            && (out == Trap <==> || w !in ctx.signers
                                 || (newer && s.registryWired && data.attestor in ctx.attestors && data.attestor !in ctx.signers)
                                 || (admitted && s.imageId.Some? && verdict == Panic))
  {
  }

  /** A hash call writes exactly a first record, as submitted and unflagged. */
  lemma HashWritesIff(ctx: Context, s: Store, w: Address, data: AttestationData)
    ensures var (s', out) := AttestHash(ctx, s, w, data);
            && (s' != s <==> out.Return?)
            && (out.Return? <==> Signed(ctx, s, w, data.attestor) && w !in s.records)
            && (out.Return? ==> s' == s.(records := s.records[w := WithFlag(data, false)]))
            && (out == Fail(AlreadyAttested) <==> w in ctx.signers && w in s.records)
  {
    var (s', out) := AttestHash(ctx, s, w, data);
    if out.Return? {
      assert w in s'.records && w !in s.records;
    }
  }

  /** A proof call writes exactly a first record: unflagged without a key for its model hash, flagged when
      the proof passes under that key, and not at all when it does not. */
  lemma ProofWritesIff(checks: Checks, ctx: Context, s: Store, w: Address, data: AttestationData, proof: Bytes)
    ensures var (s', out) := AttestProof(checks, ctx, s, w, data, proof);
            var keyed := data.distilledModelHash in s.keys;
            && (s' != s <==> out.Return?)
            && (out.Return? <==> && Signed(ctx, s, w, data.attestor) && w !in s.records
                                 && (keyed ==> checks.proof(s.keys[data.distilledModelHash], proof) == Accept))
            && (out.Return? ==> s' == s.(records := s.records[w := WithFlag(data, keyed)]))
            && (out == Fail(AlreadyAttested) <==> w in ctx.signers && w in s.records)
            && (out == Fail(InvalidProof) <==> && Signed(ctx, s, w, data.attestor) && w !in s.records && keyed
                                               && checks.proof(s.keys[data.distilledModelHash], proof) == Reject)
  {
    var (s', out) := AttestProof(checks, ctx, s, w, data, proof);
    if out.Return? {
      assert w in s'.records && w !in s.records;
    }
  }

  /** So over runs: after any run, one more receipt call changes the stored records exactly under those
      conditions, with the attestors the registry lists then. */
  lemma RefreshIff(checks: Checks, g: World, txs: seq<Tx>, signers: set<Address>, a: Address, data: AttestationData, seal: Bytes, journal: Bytes)
    ensures var w := Run(checks, g, txs).0;
            var w' := Run(checks, g, txs + [Tx(signers, Risk(AttestWithRisc0(a, data, seal, journal)))]).0;
            var refreshed := && Signed(Context(signers, Attestors(w.registry)), w.risk, a, data.attestor)
                             && (a in w.risk.records ==> w.risk.records[a].issuedAt < data.issuedAt)
                             && w.risk.imageId.Some? && checks.receipt(seal, w.risk.imageId.value, journal) == Accept && |journal| == 72;
            && (w'.risk.records != w.risk.records <==> refreshed)
            && (refreshed ==> w'.risk.records == w.risk.records[a := FromJournal(data, journal)])
            && w' == w.(risk := w.risk.(records := w'.risk.records))
  {
    var w := Run(checks, g, txs).0;
    RunOneMore(checks, g, txs, Tx(signers, Risk(AttestWithRisc0(a, data, seal, journal))));
    ReceiptWritesIff(checks, Context(signers, Attestors(w.registry)), w.risk, a, data, seal, journal);
  }

  // ----- The shared verifiers as the checks -----

  ghost function SharedChecks(host: Host, pins: Pins, vk: Bytes): Checks {
    Checks(Membership.ProofGate(host),
           (seal: Bytes, image: Bytes32, journal: Bytes) => VerifyReceipt(host, pins, vk, seal, image, journal),
           (key: Bytes, proof: Bytes) => Verify(host, key, proof))
  }

  /** The proof satisfies the equation of the key. */
  ghost predicate Satisfies(host: Host, key: Bytes, proof: Bytes) {
    match (ReadVk(key), ReadProof(proof))
    case (Some(k), Some(p)) => |k.ic| == |p.inputs| + 1 && PointsValid(host, k, p) && Equation(host, k, p)
    case _ => false
  }

  /** A 256-byte seal: its three points satisfy the pinned key's equation at the scalars of this image and
      journal. A longer one: the first 418 bytes of the assembled blob satisfy the key. */
  ghost predicate Seals(host: Host, pins: Pins, vk: Bytes, seal: Bytes, image: Bytes32, journal: Bytes)
    requires KeyForFive(vk)
  {
    var blob := SealBlob(seal, PublicInputs(host.sha, pins, image, journal));
    if |seal| == 256 then
      var k, p := ReadVk(vk).value, SealFields(seal, PublicInputs(host.sha, pins, image, journal));
      PointsValid(host, k, p) && Equation(host, k, p)
    else |seal| > 256 && |blob| >= 418 && Satisfies(host, vk, blob[..418])
  }

  lemma SealsIffAccepted(host: Host, pins: Pins, vk: Bytes, seal: Bytes, image: Bytes32, journal: Bytes)
    requires KeyForFive(vk)
    ensures VerifyReceipt(host, pins, vk, seal, image, journal) == Accept <==> Seals(host, pins, vk, seal, image, journal)
  {
    ReceiptAccepted(host, pins, vk, seal, image, journal);
  }

  /** The call proves the record it writes: a receipt for the image set at that moment, whose journal holds
      the record's bucket, confidence, commitment and model hash, or a proof that satisfies the key
      registered at that moment for the record's model hash. */
  ghost predicate Proves(host: Host, pins: Pins, vk: Bytes, tx: Tx, w: World, stored: AttestationData)
    requires KeyForFive(vk)
  {
    tx.call.Risk? &&
    match tx.call.ra
    case AttestWithRisc0(_, _, seal, journal) =>
      && w.risk.imageId.Some? && Seals(host, pins, vk, seal, w.risk.imageId.value, journal)
      && stored.identityCommitment.Some?
      && Parse(journal) == Some(Journal(stored.riskBucket, stored.confidence, stored.identityCommitment.value, stored.distilledModelHash))
    case AttestWithProof(_, _, proof) =>
      stored.distilledModelHash in w.risk.keys && Satisfies(host, w.risk.keys[stored.distilledModelHash], proof)
    case _ => false
  }

  lemma ProvesIffVerified(host: Host, pins: Pins, vk: Bytes, tx: Tx, w: World, e: Write)
    requires KeyForFive(vk) && Origin(SharedChecks(host, pins, vk), tx, w, e)
    ensures e.data.zkVerified <==> Proves(host, pins, vk, tx, w, e.data)
  {
    match tx.call.ra
    case AttestWithRisc0(_, _, seal, journal) => SealsIffAccepted(host, pins, vk, seal, w.risk.imageId.value, journal);
    case _ =>
  }

  /** Over every run of the contracts with the shared verifiers behind them, each stored record was written
      by a call that its wallet and a then-listed attestor signed, and the record is zk-verified exactly
      when that call proves it. */
  lemma VerifiedIffProven(host: Host, pins: Pins, vk: Bytes, ra: Address, ia: Address, ka: Address, txs: seq<Tx>, a: Address) returns (k: nat)
    requires KeyForFive(vk)
    requires a in Run(SharedChecks(host, pins, vk), Genesis(ra, ia, ka), txs).0.risk.records
    ensures k < |txs|
    ensures var stored := Run(SharedChecks(host, pins, vk), Genesis(ra, ia, ka), txs).0.risk.records[a];
            var w := Run(SharedChecks(host, pins, vk), Genesis(ra, ia, ka), txs[..k]).0;
            && a in txs[k].signers && stored.attestor in txs[k].signers && stored.attestor in Attestors(w.registry)
            && (stored.zkVerified <==> Proves(host, pins, vk, txs[k], w, stored))
  {
    var e: Write;
    var checks := SharedChecks(host, pins, vk);
    k, e := RecordHasOrigin(checks, ra, ia, ka, txs, a);
    ProvesIffVerified(host, pins, vk, txs[k], Run(checks, Genesis(ra, ia, ka), txs[..k]).0, e);
  }
}
