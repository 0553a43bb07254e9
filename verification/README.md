# zkredit verification

Dafny models of the parts of zkredit whose correctness spans several functions, several programs or
whole runs, and proofs about them. Everything is stated for all inputs, all runs or all
interleavings; where the code falls short of what it says, a lemma names the input and another gives
the exact condition. Check the project with `dafny verify dfyconfig.toml`.

| file | subject |
|---|---|
| `Common.dfy`, `Encoding.dfy` | shared records and errors; big- and little-endian codecs, concatenated chunks |
| `WalletIdentity.dfy` | the WalletIdentity contract: storage steps, runs, a ledger it refines, and the contract object |
| `Membership.dfy` | what the members of a proof-gated group have shown |
| `CreditChain.dfy` | RiskAttestation, AttestorRegistry and MockLendingPool beside WalletIdentity, as one state machine with the history of writes |
| `CreditGate.dfy`, `CreditMembers.dfy` | which calls keep credit tied to a bound group, and an answering group tied to its members, over single calls and runs |
| `CreditProofs.dfy` | where each record comes from over whole runs, and what a zk-verified one has shown |
| `Groth16.dfy`, `ProofBlobs.dfy`, `Receipt.dfy` | the blob verifier, its three writers, and RISC Zero receipts and journals |
| `Forest.dfy`, `ForestTrace.dfy` | the exported forest in the guest and in the exporter; branch traces and threshold probes |
| `KycProtocol.dfy` | webhook handlers interleaved with the chain |
| `Services.dfy` | the handlers, the re-scores and the four contracts as one system |
| `GroupHistory.dfy`, `PopulationFeatures.dfy` | the cached operation table, group histories, and the features computed from them |
| `Statistics.dfy`, `Scoring.dfy`, `Separation.dfy` | sums and means; percentiles, composite keys, score bands, confidence; feature ranking |
| `RateLimit.dfy` | the fixed-window limiter under all interleavings |

## How to read the models

- A contract entry point is a function from a store and a context (who signed, who is a listed
  attestor) to a store and an outcome: `Return`, `Fail` (the contract's `Err`) or `Trap` (a panic,
  which the host rolls back). The classes run the entry points key by key and are proved against
  these functions. `count + 1` traps on overflow because the workspace sets `overflow-checks = true`.
- SHA-256 is an arbitrary function, so "binds" is stated as "equal, or here are two different
  preimages of one digest". The BN254 groups are discrete logarithms modulo the group order, decoded
  by arbitrary partial functions; a pairing is a product of logarithms.
- `f64` is modelled by exact reals; `float32` rounding in the tracer is an arbitrary function.
- The class in `KycProtocol.dfy` runs each database call alone; the state machine splits them at
  every await, the two of `set_bind_tx` included. A bind transaction may land long after its handler gave up, and any other contract
  call may happen at any time.
- `Services.dfy` lets the repository's own attestor submit what its code submits: records without the KYC
  flag (`api/contract_stub.py:176`, `infra/attestor_service.py:146`), group scores with the flag a re-score
  read from the table earlier, and binds from the handlers only.
- Lemmas without a row below are steps of proofs, or spell out names and constants (`KindsByName`,
  `NativeByName`, `DayLengths`, `TagTexts`).
- A well-formed tree has equal array lengths, children that are either both absent or both in range
  and greater than their parent, features in range, and leaf rows of the right width. A leaf's mass
  is not assumed: the exporter raises on a leaf without mass, and a guest with debug assertions on fails. `build.rs` asserts the
  lengths, the feature range and finiteness only.

## What the code does not do as described

- `api/routes/kyc.py:138` logs that a failed bind is "kept for retry". Nothing retries it, and a
  redelivered webhook runs into the unique index. A nullifier kept in a row and not yet on chain can still
  be bound exactly when some handler of it, with a commitment that parses, has its transaction ahead of it
  or in flight: `KycProtocol.KeptNullifierCanBindIff`. Two runs from the start that leave none: a handler
  that stops between insert and bind, `KycProtocol.StoppedBeforeBind`, and a commitment that does not parse,
  `KycProtocol.UnparsedCommitmentNeverBinds`. An approved event reaches the bind call exactly when no row
  holds its nullifier at the insert (`KycProtocol.ReachesBindIff`), and from such an insert the bind can
  still be made exactly when the commitment parses (`KycProtocol.FreshInsertCanBindIff`).
- `kyc_status` stays false for a group the chain has verified when the handler is gone before it writes the
  transaction. A row without one can still get it exactly when its handler has not stopped and can still
  see its bind return: `KycProtocol.TxCanStillComeIff`.
- `kyc_status` can turn false while the chain keeps the group verified. It does so exactly when a row of
  the commitment is inserted that is at least as new as its latest: `KycProtocol.StatusLastsIff`, and over
  runs `KycProtocol.StatusLastsThroughIff`. A declined event does that, and so does an approved one with a
  fresh document: `KycProtocol.LaterDeclineHidesKyc`, `KycProtocol.LaterApprovalHidesKyc`.
- `verify_seal` takes seals of any length, and the comment's 256 bytes are what binds a receipt to its
  claim. The five assembled inputs are read back, for all inputs, exactly at that length:
  `Receipt.SealBlobReads`. A shorter seal panics, a whole blob is judged alone, and so a genuine seal with
  its own inputs behind it keeps its verdict for every image and journal: `Receipt.ReceiptAccepted`,
  `Receipt.WholeBlobIgnoresClaim`. The repository's own host asserts the length before it submits
  (`ml/risc0/host/src/main.rs:179`).
- The verifier reduces public inputs modulo the group order while `register_wallet` compares bytes, so the
  points of one identity proof join a wallet to every commitment congruent to the proven one, and for a key
  whose commitment input counts to no other: `ProofBlobs.CommitmentsOfOneProof`, with an instance in
  `ProofBlobs.ShiftedCommitmentJoins`.
- The comment in `contracts/mock-lending-pool/src/lib.rs:56-61` says that credit takes a KYC'd identity and
  that re-scoring on a clean wallet gains nothing, since the nullifier forces it into the same score.
  - Credit means a bound group: the code reads the flag of the answering record, which an attestor also
    submits. `CreditChain.NonThinIff` says when terms are full, `CreditChain.CreditIsBoundIff` when a
    wallet's credit means a bound group, and `CreditGate.CreditStaysBoundIff` and, over runs,
    `CreditGate.CreditBoundThroughIff` which calls keep that so for all wallets; a last leave and the wiring
    of the identity contract are among those that can break it. `CreditChain.FlagAloneOpensTheGate` and
    `CreditGate.LastLeaveUncoversFlag` are instances. In the repository's own system, where only handlers
    bind, only re-scores submit the flag and they read it from the table, it never breaks:
    `Services.CreditIffKyc`.
  - The same score: two wallets get the same offer exactly when what answers for them is alike,
    `CreditChain.OffersAgreeIff`. Leaving swaps a group's score for a wallet's own record, exactly when the
    leaver is the only member of the answering group: `CreditGate.LeaveChangesOfferIff`.
    `CreditGate.LastLeaveImprovesOffer` is a run that never stores an unbacked flag and in which such a
    leave lowers collateral and rate.
  - Offers follow the commitment in a wallet's record and not its membership.
    `CreditMembers.CountedStaysIff` and `CreditMembers.CountedThroughIff` say when the answering group
    counts the wallet as a member.
- The browser writes the input count modulo 65536 without a check:
  `ProofBlobs.ProofBlobParses` holds exactly below 65536 inputs.
- The limiter's bound in any span of the window's length is `2 * limit - 1`, one sharper than two full
  windows, and it is met for every window and limit: `RateLimit.PerSpan`, `RateLimit.SpanBoundIsMet`. A
  lifetime can still end exactly when the key has a deadline or an EXPIRE is still owed:
  `RateLimit.LifetimeEndsIff`. One INCR whose EXPIRE is lost therefore spends the budget for good:
  `RateLimit.OneLostExpireSpendsTheBudget`.
- A wallet that is loaded without a fresh ingest has lost the operations another wallet ingested
  since: `GroupHistory.IngestTakesShared`. The group loop is right because it loads each member
  straight after its own ingest: `GroupHistory.AttestGroup`.
- A group of one scores as its wallet alone exactly when no two trustlines share an asset key:
  `PopulationFeatures.ScoreAloneAndAsGroup`.

## Model

| member | source | states |
|---|---|---|
| WalletIdentity.ReachableStore | contracts/wallet-identity/src/lib.rs:120-176 | in every reachable store the count of a group is the number of its wallets, its key is absent exactly when that is zero, a score exists only for a group with members, and verified groups are those with a bound nullifier and no more than the nullifiers |
| WalletIdentity.RunKeepsInv | contracts/wallet-identity/src/lib.rs:89-298 | every call of every run keeps that invariant |
| WalletIdentity.RegisterKeepsInv | contracts/wallet-identity/src/lib.rs:120-146 | joining keeps the invariant, traps included |
| WalletIdentity.LeaveKeepsInv | contracts/wallet-identity/src/lib.rs:264-298 | leaving keeps it, including the last member's clean-up |
| WalletIdentity.BindKeepsInv | contracts/wallet-identity/src/lib.rs:189-229 | binding keeps it, with or without the eager rewrite |
| WalletIdentity.JoinThenLeaveRestores | contracts/wallet-identity/src/lib.rs:120-146 | joining and then leaving puts every storage key back |
| WalletIdentity.LeaveThenRejoin | contracts/wallet-identity/src/lib.rs:264-298 | leaving and rejoining loses only the group's score, and only if the wallet was alone |
| WalletIdentity.LeaveThenRejoinRestores | contracts/wallet-identity/src/lib.rs:282-288 | leaving and rejoining restores the store exactly unless the wallet was the last member of a scored group |
| WalletIdentity.RunKeepsBindings | contracts/wallet-identity/src/lib.rs:183-229 | over every run no binding changes or goes and no group loses its KYC, whatever re-scores or leaves |
| WalletIdentity.BindIsRecorded | contracts/wallet-identity/src/lib.rs:197-214 | a bind that returned is on record at the end of the run, under its own commitment |
| WalletIdentity.OneHumanOneGroup | contracts/wallet-identity/src/lib.rs:182-186 | all successful binds of one nullifier in a run name one group |
| WalletIdentity.VerifiedHasBind | contracts/wallet-identity/src/lib.rs:209-214 | a verified group traces back to the call that bound a nullifier to it |
| WalletIdentity.VerifiedIffBound | contracts/wallet-identity/src/lib.rs:255-261 | after any run a group is verified exactly when some call of the run bound a nullifier to it |
| WalletIdentity.RunRefinesLedger | contracts/wallet-identity/src/lib.rs:89-298 | every run answers each call as a ledger without counts, flags or stored copies does, and ends in its view |
| WalletIdentity.StepRefines | contracts/wallet-identity/src/lib.rs:89-298 | the same for one call |
| WalletIdentity.RegisterRefines | contracts/wallet-identity/src/lib.rs:120-146 | joining a group is one ledger entry, traps included |
| WalletIdentity.LeaveRefines | contracts/wallet-identity/src/lib.rs:264-298 | leaving drops the entry, and the score with the last one |
| WalletIdentity.BindRefines | contracts/wallet-identity/src/lib.rs:189-229 | binding certifies what readers see, eagerly rewritten or not |
| WalletIdentity.EagerRewriteIsRedundant | contracts/wallet-identity/src/lib.rs:216-227 | dropping the rewrite of the stored score from `bind_kyc` changes no outcome of any call of any run |
| WalletIdentity.StoredIsAttested | contracts/wallet-identity/src/lib.rs:50-65 | after any run every stored score and every KYC mark comes from a call signed by an attestor listed at that moment, and the score is what that attestor submitted, up to the KYC flag |
| WalletIdentity.MembershipHasProof | contracts/wallet-identity/src/lib.rs:83-118 | once an identity key is set, every later member signed a registration whose proof the gate accepted for that commitment and wallet |
| Membership.GateShows | contracts/wallet-identity/src/lib.rs:97-118 | the gate accepts exactly the proofs that satisfy the key's equation with the commitment and the wallet's field element as first inputs |
| Membership.GatePanicsIff | contracts/wallet-identity/src/lib.rs:97-118 | it panics exactly on blobs that cannot be judged and on an accepted proof too short to name the wallet |
| Membership.MembersHaveProofs | contracts/wallet-identity/src/lib.rs:83-118 | so over every run a later member has such a proof, under the key set when it joined |
| WalletIdentity.Contract.RegisterWallet | contracts/wallet-identity/src/lib.rs:89-147 | the key-by-key entry point equals the store function, with proof gate, conflicts and overflow |
| WalletIdentity.Contract.UpdateGroupScore | contracts/wallet-identity/src/lib.rs:155-176 | the entry point equals the store function |
| WalletIdentity.Contract.BindKyc | contracts/wallet-identity/src/lib.rs:189-229 | the entry point equals the store function with the eager rewrite |
| WalletIdentity.Contract.GetGroupAttestation | contracts/wallet-identity/src/lib.rs:237-253 | the read overlays the group's KYC on the stored score |
| WalletIdentity.Contract.LeaveGroup | contracts/wallet-identity/src/lib.rs:264-298 | the entry point equals the store function |
| CreditChain.RiskAttestation.AttestWithRisc0 | contracts/risk-attestation/src/lib.rs:98-149 | the entry point equals the store function: freshness, attestor, receipt, journal, overwritten fields; `CreditProofs.ReceiptWritesIff` says when that writes, and what |
| CreditProofs.ReceiptWritesIff | contracts/risk-attestation/src/lib.rs:98-149 | the call writes exactly when the wallet and a listed attestor sign, any stored record is strictly older, the image is set, the receipt is accepted and the journal has 72 bytes; the record then holds the journal's four decoded slices, the zk flag and every other field as submitted |
| CreditProofs.ReceiptRefusals | contracts/risk-attestation/src/lib.rs:106-135 | which error or trap every other call gets, in the order of the checks |
| CreditProofs.RefreshIff | contracts/risk-attestation/src/lib.rs:106-149 | after any run, one more receipt call changes the stored records exactly under those conditions, with the attestors listed then |
| CreditChain.RiskAttestation.AttestWithHash | contracts/risk-attestation/src/lib.rs:173-200 | the entry point equals the store function: write-once, never zk-verified |
| CreditProofs.HashWritesIff | contracts/risk-attestation/src/lib.rs:173-200 | it writes exactly a first record, every field as submitted and unflagged |
| CreditChain.RiskAttestation.AttestWithProof | contracts/risk-attestation/src/lib.rs:208-253 | the entry point equals the store function: zk-verified exactly when a key is registered and the proof passes |
| CreditProofs.ProofWritesIff | contracts/risk-attestation/src/lib.rs:208-253 | it writes exactly a first record: unflagged without a key for its model hash, flagged when the proof passes under that key, refused when it does not |
| CreditChain.AttestorRegistry.Authorize | contracts/attestor-registry/src/lib.rs:15-25 | only the admin lists an attestor |
| CreditChain.AttestorRegistry.Revoke | contracts/attestor-registry/src/lib.rs:27-37 | only the admin delists one |
| CreditChain.AttestorRegistry.IsAttestor | contracts/attestor-registry/src/lib.rs:39-44 | an unknown address is not an attestor |
| CreditChain.ListedIff | contracts/attestor-registry/src/lib.rs:15-44 | after any run an attestor is listed exactly when the admin listed it and did not delist it since |
| CreditChain.SettingsChange | contracts/risk-attestation/src/lib.rs:29-171 | each setting is changed by the admin alone, each call changes its own key and no other, and no attest call touches one |
| CreditChain.RecordHistory | contracts/risk-attestation/src/lib.rs:98-253 | over every run, the writes under one wallet have strictly increasing `issued_at`, only the first comes by hash or proof, later ones are zk-verified, each attestor was listed when it wrote, and the record is the last write |
| CreditChain.WrittenShape | contracts/risk-attestation/src/lib.rs:98-253 | a transaction writes at most one record: a first one by any path or a newer one by receipt |
| CreditChain.StepKeepsHistory | contracts/risk-attestation/src/lib.rs:98-253 | one transaction keeps the history |
| CreditChain.RecordOnlyAdvances | contracts/risk-attestation/src/lib.rs:106-115 | from any state a record is never dropped, replaced by an older one or stripped of its zk flag |
| CreditChain.BindNeverWorsens | contracts/mock-lending-pool/src/lib.rs:49-70 | a bind, whatever its outcome, leaves every offer or lifts a thin-file wallet of the bound group strictly |
| CreditChain.PriceList | contracts/mock-lending-pool/src/lib.rs:87-112 | the five proven prices, 200 basis points more for an unproven score, MEDIUM's price for a bucket that is none, and thin-file terms |
| CreditChain.SaferIsCheaper | contracts/mock-lending-pool/src/lib.rs:87-112 | at equal proof status a safer bucket has strictly lower collateral and rate |
| CreditChain.OffersFollowBucket | contracts/mock-lending-pool/src/lib.rs:49-112 | of two wallets with credit and the same proof status, collateral and rate are lower exactly for the safer answering bucket, and the offers equal exactly for the same one |
| CreditChain.ProofIsWorth | contracts/mock-lending-pool/src/lib.rs:101-105 | a score proven on chain is worth exactly 200 basis points of any credit, at the same collateral |
| CreditChain.OffersAgreeIff | contracts/mock-lending-pool/src/lib.rs:49-112 | two wallets with records get the same offer at all times exactly when what answers for them agrees on the flag and, if set, on expiry and terms |
| CreditChain.GroupSharesOfferIff | contracts/risk-attestation/src/lib.rs:267-287 | wallets whose records name one group get the same offer at all times exactly when the group is wired and scored or their own records are alike |
| CreditChain.NonThinIff | contracts/mock-lending-pool/src/lib.rs:49-112 | in every reachable state, exactly when an offer is not thin-file, and that it then beats thin-file terms in all three fields |
| CreditChain.RunOnlyBindingsCertify | contracts/wallet-identity/src/lib.rs:155-229 | if no call submits the KYC flag, then over the whole run only bindings set it |
| CreditChain.CreditIsBoundIff | contracts/mock-lending-pool/src/lib.rs:55-64 | at all times a wallet's credit means that its record names a bound group, exactly when its answering attestation, if flagged, belongs to such a record |
| CreditChain.AttestKeepsIff | contracts/risk-attestation/src/lib.rs:98-253 | a record write keeps that for all wallets exactly when it holds of the wallet written |
| CreditChain.ScoreKeepsIff | contracts/wallet-identity/src/lib.rs:155-176 | a stored score keeps it exactly when it is unflagged, its group is bound or it answers for nobody |
| CreditChain.FlagsStayBoundIff | contracts/wallet-identity/src/lib.rs:155-298 | any call of any contract keeps every stored flag backed by a bound nullifier, except exactly an attest or score call that stores an unbacked one |
| CreditChain.FlagsBoundThroughIff | contracts/risk-attestation/src/lib.rs:98-253 | and a run keeps it throughout exactly when it has no such call |
| CreditChain.BackedFlagsMeanBoundCredit | contracts/mock-lending-pool/src/lib.rs:49-70 | after a run without such calls credit means a bound group for every wallet |
| CreditGate.LeaveChangesOfferIff | contracts/wallet-identity/src/lib.rs:264-298 | a leave changes a wallet's offer exactly when the leaver signs and is the only member of the group that answers for the wallet, and the wallet's own record gets other terms than the group's score |
| CreditGate.LastLeaveImprovesOffer | contracts/mock-lending-pool/src/lib.rs:56-64 | a run that never stores an unbacked flag, and whose last leave takes a wallet from (1000, 20000, 3200) to (1000, 12000, 1000) |
| CreditGate.LeaveKeepsIff | contracts/wallet-identity/src/lib.rs:282-288 | a leave keeps "credit means a bound group" for all wallets exactly when no wallet it leaves to its own record has a flagged one that names an unbound group |
| CreditGate.LastLeaveUncoversFlag | contracts/wallet-identity/src/lib.rs:282-288 | a run whose last leave breaks it |
| CreditGate.WireKeepsIff | contracts/risk-attestation/src/lib.rs:52-64 | wiring the identity contract keeps it exactly when no record names a group with a flagged score and no bound nullifier, or nothing is wired anew |
| CreditGate.BindKeeps | contracts/wallet-identity/src/lib.rs:189-229 | binding always keeps it |
| CreditGate.CreditStaysBoundIff | contracts/risk-attestation/src/lib.rs:267-287 | any call of any contract keeps it, except exactly a write or score whose flag answers for an unbound group, or a leave or wiring that uncovers one |
| CreditGate.CreditBoundThroughIff | contracts/mock-lending-pool/src/lib.rs:49-70 | a run keeps it throughout exactly when it has no such call |
| CreditMembers.CountedStaysIff | contracts/risk-attestation/src/lib.rs:267-287 | any call keeps a wallet a member of the group that answers for it, except exactly one by which it leaves others behind there, its record comes to name a scored group it is not in, that group gets its first score, or groups start to answer |
| CreditMembers.CountedThroughIff | contracts/risk-attestation/src/lib.rs:267-287 | and a run keeps it throughout exactly when it has no such call |
| CreditChain.CreditNeedsBoundNullifier | contracts/mock-lending-pool/src/lib.rs:56-64 | a special case: if no call submits the flag, every non-thin offer goes to a wallet whose record names a group with a bound nullifier |
| CreditProofs.WriteHasOrigin | contracts/risk-attestation/src/lib.rs:98-253 | over every run each write comes from a call signed by its wallet and a then-listed attestor: by receipt, with a seal accepted under the image set at that moment and bucket, confidence, commitment and model hash from its journal; by proof, flagged exactly if a key was registered then, and the proof passed under it; by hash, as submitted and unflagged |
| CreditProofs.RecordHasOrigin | contracts/risk-attestation/src/lib.rs:98-253 | so does every stored record of a reachable state |
| CreditProofs.VerifiedIffProven | contracts/risk-attestation/src/lib.rs:98-253 | with the shared verifiers behind the contracts, a stored record is zk-verified exactly when the call that wrote it proves it: a seal that satisfies the pinned key's equation for that image and journal, or a proof that satisfies the key registered for its model hash |
| CreditProofs.SealsIffAccepted | contracts/shared/src/risc0.rs:126-140 | a receipt is accepted exactly when a 256-byte seal satisfies the equation at the claim's scalars, or the first 418 bytes of a longer one's blob satisfy the key |
| CreditChain.FlagAloneOpensTheGate | contracts/mock-lending-pool/src/lib.rs:56-64 | without it a hash record submitted with the flag gets full terms with no nullifier bound |
| Groth16.NthInputOfRead | contracts/shared/src/groth16.rs:44-50 | on every blob the reader accepts, the i-th public input is the i-th scalar it read, and out of range panics |
| Groth16.MsmStep | contracts/shared/src/groth16.rs:83-88 | reducing after each addition of the loop gives the reduced sum |
| Groth16.AccumulateVkX | contracts/shared/src/groth16.rs:81-88 | for every input count the loop computes IC[0] plus the sum of pub[i] IC[i+1], and panics exactly on an invalid point |
| Groth16.ProductIffEquation | contracts/shared/src/groth16.rs:19-22 | the four-pair product is the identity exactly when e(A,B) = e(alpha,beta) e(vk_x,gamma) e(C,delta) |
| Groth16.PairingCheck | contracts/shared/src/groth16.rs:90-94 | the pairing vector as assembled decides that equation |
| Groth16.VerifyGroth16 | contracts/shared/src/groth16.rs:54-95 | the verifier panics exactly when a blob does not read, the counts do not fit or a point is invalid, and otherwise accepts exactly when the equation holds |
| ProofBlobs.ToBE32 | frontend/src/lib/zk/identity-proof.ts:28-37 | the byte loop yields the 32-byte big-endian value, and throws exactly when it does not fit |
| ProofBlobs.Concat | frontend/src/lib/zk/identity-proof.ts:39-48 | filling the buffer at a moving offset gives the concatenation |
| ProofBlobs.BrowserG1 | frontend/src/lib/zk/identity-proof.ts:57-59 | x then y, or a throw on a short point or an oversized coordinate |
| ProofBlobs.BrowserG2 | frontend/src/lib/zk/identity-proof.ts:62-69 | c1 before c0 in each coordinate, as EIP-197 orders them |
| ProofBlobs.EncodeSignals | frontend/src/lib/zk/identity-proof.ts:128-128 | every public signal in order, or a throw |
| ProofBlobs.BrowserProofBlob | frontend/src/lib/zk/identity-proof.ts:121-129 | the browser's blob is the common proof layout, with the two-byte count it masks |
| ProofBlobs.ToBE32Checked | ml/zk/identity_circuit/convert.js:31-40 | the node script throws from the base field prime on and otherwise writes the same bytes |
| ProofBlobs.NodeG1 | ml/zk/identity_circuit/convert.js:43-45 | x then y, or a throw from the base field prime on |
| ProofBlobs.NodeG2 | ml/zk/identity_circuit/convert.js:48-55 | c1 before c0 in each coordinate, or a throw |
| ProofBlobs.NodeVkBlob | ml/zk/identity_circuit/convert.js:70-80 | the node script's key blob is the common layout, or it throws |
| ProofBlobs.NodeProofBlob | ml/zk/identity_circuit/convert.js:84-96 | the node script's proof blob is the common layout; it throws on a count mismatch, a count over 16 bits or a number outside the field |
| ProofBlobs.NodeBlobsFit | ml/zk/identity_circuit/convert.js:70-96 | the two blobs decode to what they were made of and pass the verifier's count check together |
| ProofBlobs.PushG1 | ml/risc0/host/src/main.rs:80-83 | appends x and y |
| ProofBlobs.PushG2 | ml/risc0/host/src/main.rs:86-91 | appends c1 before c0 in each coordinate |
| ProofBlobs.HostVkBlob | ml/risc0/host/src/main.rs:93-104 | the host's key blob is the common layout |
| ProofBlobs.CountWraps | contracts/shared/src/groth16.rs:115-124 | a count field of w bytes reads back the count modulo 256^w |
| ProofBlobs.ChunksOfFlat | contracts/shared/src/groth16.rs:97-113 | items laid end to end at an offset are read back one by one |
| ProofBlobs.ProofBlobReads | contracts/shared/src/groth16.rs:12-17 | the reader's offsets cut the proof blob into its fields |
| ProofBlobs.ProofBlobParses | contracts/shared/src/groth16.rs:57-88 | the proof blob decodes to the points and inputs it was made of exactly when there are fewer than 65536 inputs |
| ProofBlobs.VkBlobReads | contracts/shared/src/groth16.rs:4-10 | the reader's offsets cut the key blob into its fields |
| ProofBlobs.VkBlobParses | contracts/shared/src/groth16.rs:57-71 | the key blob decodes to the key it was made of |
| ProofBlobs.G1RoundTrip | contracts/shared/src/groth16.rs:97-101 | decoding an encoded point gives it back |
| ProofBlobs.G2RoundTrip | contracts/shared/src/groth16.rs:103-107 | the same for the swapped coordinates |
| ProofBlobs.G1Layout | ml/risc0/host/src/main.rs:80-83 | byte for byte, x then y, big-endian |
| ProofBlobs.G2Layout | ml/risc0/host/src/main.rs:86-91 | byte for byte, c1 before c0 of each coordinate, big-endian |
| ProofBlobs.AddrToFieldElement | frontend/src/lib/zk/identity-proof.ts:89-95 | the browser's shift-and-or loop gives the digest's big-endian value modulo r, which the contract derives |
| ProofBlobs.HonestProofPasses | contracts/wallet-identity/src/lib.rs:97-118 | a browser blob for a wallet passes both binding comparisons, so the gate decides on the equation alone |
| ProofBlobs.ProofServesOneWallet | contracts/wallet-identity/src/lib.rs:106-117 | one accepted byte string names one commitment, and two wallets only if their address digests agree modulo r |
| ProofBlobs.JoinsIff | contracts/wallet-identity/src/lib.rs:97-118 | three proof points pass the gate for a commitment and a wallet exactly when the equation holds at their values |
| ProofBlobs.CommitmentsOfOneProof | contracts/wallet-identity/src/lib.rs:106-110 | points that join a wallet to one commitment join it to every commitment congruent modulo r and, if that input's coefficient is invertible, to no other; if it is zero, to all |
| ProofBlobs.WalletsOfOneProof | contracts/wallet-identity/src/lib.rs:111-117 | and they join two wallets to one commitment exactly when the address digests agree modulo r, if that input's coefficient is invertible |
| ProofBlobs.ShiftedCommitmentJoins | contracts/shared/src/groth16.rs:109-113 | adding r to a commitment that leaves room changes its bytes and not the gate's answer for the same points |
| Receipt.TaggedStruct | contracts/shared/src/risc0.rs:50-62 | the buffer loops hash exactly the tagged preimage |
| Receipt.PreimageDecodesUniquely | contracts/shared/src/risc0.rs:48-62 | with fewer than 65536 children and 32-bit words, equal preimages have equal tag digests, children and words |
| Receipt.ClaimLayout | contracts/shared/src/risc0.rs:64-90 | the hashed buffers of claim, post state and output, byte for byte: tag digests by name, children in order, exit words, counts |
| Receipt.ClaimBinds | contracts/shared/src/risc0.rs:67-90 | equal claim digests mean equal image id and journal, or exhibit a SHA-256 collision |
| Receipt.SplitDigest | contracts/shared/src/risc0.rs:102-110 | the in-place reversal and two copies give the halves |
| Receipt.ReverseInPlace | contracts/shared/src/risc0.rs:93-97 | reverses the array |
| Receipt.SplitRecombines | contracts/shared/src/risc0.rs:99-110 | both halves are below 2^128, hence below r, and together give the digest back |
| Receipt.SplitInjective | contracts/shared/src/risc0.rs:102-110 | different digests have different halves |
| Receipt.InputsBindImageAndJournal | contracts/shared/src/risc0.rs:130-140 | equal five-element input vectors mean equal image id and journal, or a collision |
| Receipt.CheckReceipt | contracts/shared/src/risc0.rs:114-140 | the receipt check is the verifier on the assembled blob, and false while the key is empty |
| Receipt.SealBlobReads | contracts/shared/src/risc0.rs:112-124 | the reader gets the five appended inputs back, for every five of them, exactly when the seal has 256 bytes |
| Receipt.ReceiptAccepted | contracts/shared/src/risc0.rs:126-140 | with a five-input key, a shorter seal panics, a 256-byte seal is accepted exactly when its points satisfy the equation at the claim's scalars, and of a longer one the first 418 bytes of the blob decide, so a seal that long is judged as a blob of its own |
| Receipt.WholeBlobIgnoresClaim | contracts/shared/src/risc0.rs:114-124 | a 256-byte seal with its count and inputs behind it keeps its verdict for every other image and journal |
| Receipt.ReceiptScalars | contracts/shared/src/risc0.rs:134-139 | the scalars the equation sees are the pinned root, the claim halves and the control id |
| Receipt.GuestJournal | ml/risc0/methods/guest/src/main.rs:30-35 | the four copies write the 72-byte journal |
| Receipt.ParseJournal | contracts/shared/src/risc0.rs:149-169 | accepts exactly 72 bytes and returns their fields |
| Receipt.ParseOfJournal | contracts/shared/src/risc0.rs:142-169 | parsing what the guest wrote gives its fields back |
| Receipt.HostCrossCheck | ml/risc0/host/src/main.rs:163-174 | the host's assertions pass exactly on the journal the guest writes for the native run |
| Receipt.JournalOfParse | contracts/shared/src/risc0.rs:142-169 | and every 72 bytes are the journal of what they parse to |
| Forest.Traverse | ml/risc0/model/src/lib.rs:136-152 | the index walk terminates on every well-formed tree, at the leaf that recursive evaluation of the decoded tree gives; `ForestTrace.VoteIsTraced` says which leaf that is |
| Forest.EvalGivesLeaf | ml/models/risc0_export.py:691-700 | recursive evaluation of the decoded tree ends at the row of some leaf |
| Forest.FirstMaximum | ml/risc0/model/src/lib.rs:108-115 | the strict comparison finds the first maximiser |
| Forest.Argmax | ml/models/risc0_export.py:259-260 | and so does the exporter's argmax |
| Forest.GuestPredict | ml/risc0/model/src/lib.rs:85-121 | with debug assertions on, the guest fails exactly on a leaf without mass; where every reached leaf has mass, in every build, its loops give the first maximiser of the averaged votes and its basis points |
| Forest.ExportedPredict | ml/models/risc0_export.py:241-266 | the exporter raises exactly on a leaf without mass and otherwise gives the same |
| Forest.Parity | ml/risc0/model/src/lib.rs:84-121 | where every reached leaf has mass, guest and exporter give the same answer in every build; otherwise the exporter raises, and so does a guest with debug assertions on |
| Forest.PredictionIsUnique | ml/risc0/model/src/lib.rs:108-120 | the answer is determined |
| Forest.ProbabilitiesAreADistribution | ml/risc0/model/src/lib.rs:88-106 | the averaged votes are between zero and one and sum to one |
| Forest.ProbabilityOfClass | ml/risc0/model/src/lib.rs:88-106 | the probability of a class is the mean, over the trees, of its part of the reached leaf's mass |
| Forest.VotesMass | ml/risc0/model/src/lib.rs:88-101 | before averaging, the votes are non-negative and sum to the number of trees |
| Forest.PredictionMeaning | ml/risc0/model/src/lib.rs:108-133 | confidence is at least one over the class count, the clamps never bite, and the basis points are within one half |
| ForestTrace.TraceTree | ml/models/risc0_export.py:556-582 | the tracing loop records the splits of the path |
| ForestTrace.PathBranches | ml/risc0/model/src/lib.rs:146-150 | from each split the walk goes to the left child if the tested value is at most the threshold, and to the right one otherwise |
| ForestTrace.VoteIsTraced | ml/models/risc0_export.py:556-582 | a tree votes with the row of the leaf where its trace ends |
| ForestTrace.TracesDecide | ml/risc0/model/src/lib.rs:84-121 | two vectors that every tree decides alike along the trace get the same prediction, or both none |
| ForestTrace.RoundingKeepsPrediction | ml/models/risc0_export.py:417-436 | a rounding that changes no traced decision changes no prediction |
| ForestTrace.SamePathWhileAgreeing | ml/models/risc0_export.py:556-611 | a second vector follows the path as long as it decides alike |
| ForestTrace.PartedForGood | ml/models/risc0_export.py:556-611 | after the first difference the two paths never meet again |
| ForestTrace.ReachesIffAgrees | ml/models/risc0_export.py:556-611 | a changed vector reaches a split of the path exactly when it decides every split above it alike |
| ForestTrace.LiveTraceAgreesUntilMismatch | ml/models/risc0_export.py:417-436 | exported and rounded traces visit the same nodes up to the first split whose decision the rounding changes, and none of the later ones |
| ForestTrace.FindTraceStep | ml/models/risc0_export.py:681-688 | finds the first step of a node, or reports that it was not reached |
| ForestTrace.ProbeReachesTargetIff | ml/models/risc0_export.py:477-525 | a probe still reaches its target exactly when the new value passes every test of that feature above it in the base direction |
| ForestTrace.ProbeSplit | ml/models/risc0_export.py:482-526 | when a probe raises, and what both traces do at the target otherwise |
| ForestTrace.OnlyRightwardMismatches | ml/models/risc0_export.py:430-432 | under a monotone rounding that keeps the thresholds, the two traces part only where a right-going value rounds down onto its threshold |
| ForestTrace.TieProbe | ml/models/risc0_export.py:664-678 | a tie that reaches its target goes left, and the live trace goes right exactly when the threshold rounds up, so never at a threshold that survives rounding |
| KycProtocol.KycStore.RecordVerification | api/kyc/store.py:58-95 | one uninterrupted call: recorded, duplicate, or a unique violation for a repeated nullifier of the same commitment |
| KycProtocol.KycStore.SetBindTx | api/kyc/store.py:98-120 | fills the row that holds the nullifier, if its commitment matches |
| KycProtocol.KycStore.KycStatus | api/routes/kyc.py:143-154 | the latest row is approved and carries a transaction; `KycProtocol.StatusIff` says when that is |
| KycProtocol.StatusIff | api/routes/kyc.py:143-154 | in every reachable state a commitment's status is true exactly when its newest row carries a transaction |
| KycProtocol.StatusTurnsTrueIff | api/kyc/store.py:98-120 | a false status turns true exactly when a handler writes the transaction into the commitment's newest row |
| KycProtocol.ApprovedRunIsVerified | api/routes/kyc.py:113-137 | a run from the start in which one approved event ends with its row, its transaction, its nullifier bound and a true status |
| KycProtocol.SelectStopsIff | api/kyc/store.py:74-82 | the query stops an approved event exactly when another commitment's row holds its nullifier |
| KycProtocol.RunKeepsRecordable | api/routes/kyc.py:91-121 | over every run only approved events' rows hold nullifiers, and no row is without a commitment |
| KycProtocol.Latest | api/kyc/store.py:42-55 | the newest row of a commitment, by creation time and then by id, or none |
| KycProtocol.NextKeepsInv | api/routes/kyc.py:79-140 | every step of every handler, and every other chain call, keeps the joint invariant of table, handlers and chain |
| KycProtocol.RunKeepsInv | api/routes/kyc.py:79-140 | so does every interleaving |
| KycProtocol.InsertKeepsInv | api/kyc/store.py:84-94 | the insert under the unique index keeps it although the earlier query may be stale |
| KycProtocol.LandKeepsInv | api/routes/kyc.py:127-136 | a landing transaction finds its nullifier free or already bound to its own commitment |
| KycProtocol.BindTxMeansBound | api/kyc/store.py:74-120 | under every interleaving a row with a transaction has its nullifier bound on chain to its commitment, and no handler gets `NullifierAlreadyBound` |
| KycProtocol.StatusMeansVerified | api/routes/kyc.py:143-154 | under every interleaving a true status means the chain has the group verified |
| KycProtocol.StatusLastsIff | api/kyc/store.py:42-55 | a true status turns false exactly by a step that inserts a row of the commitment at least as new as its latest |
| KycProtocol.StatusLastsThroughIff | api/routes/kyc.py:143-154 | over every interleaving it stays true throughout exactly when no such step occurs |
| KycProtocol.LaterDeclineHidesKyc | api/routes/kyc.py:95-102 | a later declined event is such a step, and leaves the chain as it is |
| KycProtocol.LaterApprovalHidesKyc | api/routes/kyc.py:113-121 | so is a later approved event with a fresh document, before its own bind |
| KycProtocol.AbandonedIsStable | api/routes/kyc.py:127-138 | no step of any kind revives a bind that was given up |
| KycProtocol.KeptNullifierCanBindIff | api/routes/kyc.py:127-138 | a nullifier kept in a row and unbound on chain can be bound by some later run exactly when a handler of it whose commitment parses has its transaction ahead or in flight |
| KycProtocol.FailedBindIsFinal | api/routes/kyc.py:127-138 | without such a handler no run binds it or gives its row a transaction |
| KycProtocol.UnparsedCommitmentNeverBinds | api/routes/kyc.py:127-138 | an approved event whose commitment does not parse is recorded from the start, reaches its bind and is never bound |
| KycProtocol.TxCanStillComeIff | api/routes/kyc.py:127-138 | a row without a transaction can still get one exactly when its own handler has not stopped and its bind can still return to it |
| KycProtocol.StoppedBeforeBind | api/routes/kyc.py:113-138 | a handler that stops between insert and bind reaches such a state from the start |
| KycProtocol.ReachesBindIff | api/kyc/store.py:74-94 | from its query on, whatever others do before its insert, an approved event goes on to its bind call exactly when no row holds its nullifier at the insert |
| KycProtocol.FreshInsertCanBindIff | api/routes/kyc.py:113-138 | and after an insert at which no row held it, its nullifier can be bound exactly when the commitment parses |
| Services.CreditIffKyc | api/services/group_rescore.py:74-77 | over every run of handlers, re-scores and all other calls, where records are submitted unflagged and re-scores with the flag they read, an offer is not thin-file exactly when the wallet's record names a group with an unexpired score and a table row whose nullifier is bound to it |
| Services.RunKeepsInv | api/services/group_rescore.py:74-96 | every interleaving keeps all stored flags, and those a re-score is about to submit, backed by bound nullifiers |
| Services.RescoreIsHonest | api/services/group_rescore.py:74-77 | a true flag read from the latest row names a bound group from then on |
| Services.RescoreStoresStatus | api/services/group_rescore.py:74-96 | whatever happens in between, an accepted re-score stores its score with the status it read, and a refused one nothing |
| Services.CreditIsReached | api/services/group_rescore.py:74-96 | a run of the whole system, from wiring to an approved document's bind and the re-score, that ends in full credit |
| Services.StatusMeansCredit | api/routes/kyc.py:143-154 | a true status means credit, while its score lives, for every wallet the group answers for |
| GroupHistory.FetchOperations | ml/data/stellar_ingest.py:109-121 | the page loop returns the pages before the first empty one, cut at the cap |
| GroupHistory.PagesBeforeEmpty | ml/data/stellar_ingest.py:112-120 | everything before the first empty page in order, and nothing after it |
| GroupHistory.Cache.Persist | ml/data/stellar_ingest.py:138-173 | each record is stored under its id and handed to the ingesting wallet, and the new ones are counted |
| GroupHistory.PersistedFacts | ml/data/stellar_ingest.py:156-171 | ingesting changes the rows of exactly the ingested ids |
| GroupHistory.PersistTwice | ml/data/stellar_ingest.py:123-136 | ingesting the same history again changes nothing |
| GroupHistory.Cache.IngestWallet | ml/data/stellar_ingest.py:123-136 | an unknown account changes nothing, a known one is persisted |
| GroupHistory.Cache.Load | ml/features/store.py:23-49 | reads the account and each row it owns once |
| GroupHistory.IngestTakesShared | ml/data/stellar_ingest.py:161-171 | another wallet's ingest takes away exactly the operations it fetched |
| GroupHistory.MergeOps | ml/attest.py:123-132 | the merged operations are those of all wallets, each once |
| GroupHistory.MergeBalances | ml/attest.py:134-146 | the merged balances have every asset key once, each balance as some wallet holds it |
| GroupHistory.CollectOne | ml/attest.py:88-91 | one member's ingest and load keeps what is still to be collected collectable |
| GroupHistory.AttestGroup | ml/attest.py:82-92 | the merged history is every operation cached for a member before and every one fetched for a found member, each exactly once, although owners were overwritten on the way |
| GroupHistory.OnceEachIsPermutation | ml/attest.py:123-132 | two such histories are permutations |
| PopulationFeatures.Extract | ml/features/population_v1.py:58-190 | the one-pass loop computes every feature as a count, sum, maximum or set over the history |
| PopulationFeatures.AddPayment | ml/features/population_v1.py:99-115 | one payment extends the sent list, the received list or neither |
| PopulationFeatures.AddKind | ml/features/population_v1.py:99-125 | one operation raises the counters of its type and no others |
| PopulationFeatures.Summarize | ml/features/population_v1.py:205-214 | sum, mean, variance and maximum of a list, zero for an empty one |
| PopulationFeatures.SideMean | ml/features/population_v1.py:205-214 | a side's mean is the mean of its amounts, so at most the largest |
| PopulationFeatures.SideMultipliesBack | ml/features/population_v1.py:205-212 | mean and variance times the count give back the total and the squares |
| PopulationFeatures.RatiosAreShares | ml/features/population_v1.py:58-190 | the two ratios times their bases give back the counts |
| PopulationFeatures.ViewsAgree | ml/features/population_v1.py:99-115 | over any history, payer's and payee's views agree on how often and how much one paid the other |
| PopulationFeatures.KindsAreApart | ml/features/population_v1.py:99-125 | no operation is counted under two types, and path payments are payments |
| PopulationFeatures.PaymentsSplit | ml/features/population_v1.py:99-115 | payments, and their amounts, split exactly into external sends, external receipts and uncounted ones |
| PopulationFeatures.WiderGroup | ml/features/population_v1.py:81-85 | linking more wallets turns sends and receipts into internal transfers and never into each other |
| PopulationFeatures.SameFeatures | ml/features/population_v1.py:58-190 | histories that are permutations, with the same assets, have the same features exactly when they have as many trustlines |
| PopulationFeatures.ScoreReordered | ml/attest.py:54-93 | two runs of the group loop from equal caches, over member lists with the same members in any order, give the same features |
| PopulationFeatures.MemberOrderIsIrrelevant | ml/attest.py:117-155 | because merged histories of the same operations and asset keys have the same features |
| PopulationFeatures.ScoreAloneAndAsGroup | ml/attest.py:38-93 | the loop over one member against the single-wallet path from an equal cache: the same features exactly when the account's trustlines have distinct keys |
| PopulationFeatures.OwnAfterIngest | ml/attest.py:106-111 | what a wallet owns after its own ingest is what the group loop collects for it |
| PopulationFeatures.GroupOfOne | ml/attest.py:117-155 | merging one wallet's history keeps its features exactly when its trustlines have distinct keys |
| Scoring.BisectRight | ml/models/full.py:757-769 | on a sorted population the binary search finds the number of elements at or below the key |
| Scoring.Percentile | ml/models/full.py:757-769 | the percentile is the fraction at or below the key, 0.0 of nothing |
| Scoring.TuplePercentile | ml/models/full.py:763-769 | the same for composite keys, taken in the unsorted population |
| Scoring.FractionIsShare | ml/models/full.py:757-769 | the fraction counts the members that are not above, of all; the greatest member's is 1 |
| Scoring.SortKeepsCounts | ml/models/full.py:168-204 | sorting changes no such fraction |
| Scoring.FewRankLow | ml/models/full.py:763-769 | however many ties, at most k of the population rank k or lower |
| Scoring.RiskierKeyRanksHigher | ml/models/full.py:763-769 | a lexicographically riskier key never ranks lower |
| Scoring.ScoreFromPercentile | ml/models/credit_score.py:27-32 | raises exactly outside [0, 1] and otherwise stays in the score range |
| Scoring.ScoreIsLinear | ml/models/credit_score.py:27-32 | the score is the integer nearest to 850 - 550 p, a tie going to the even one |
| Scoring.RiskierIsNotSafer | ml/models/credit_score.py:27-40 | a higher percentile never gets a higher score or a safer bucket, under half-even rounding |
| Scoring.BucketByPercentile | ml/models/credit_score.py:10-40 | the exact percentile cutoffs of the buckets: 221, 361, 541 and 701 of 1100, ties included |
| Scoring.BandsPartition | ml/models/credit_score.py:10-24 | the band thresholds and the bucket ranges say the same |
| Scoring.ConfidenceFromScore | ml/models/credit_score.py:43-68 | raises exactly outside the score range and otherwise stays in [0, 1] |
| Scoring.ConfidenceIsDepth | ml/models/credit_score.py:43-68 | confidence is the distance from the nearest cutoff over the band's reach: zero at a cutoff, rising inward, never clamped |
| Scoring.FullModel.Fit | ml/models/full.py:167-206 | fitting stores the sorted scores and the sorted composite keys of the population |
| Scoring.FullModel.Score | ml/models/full.py:280-337 | a fitted model scores a row by its composite key's fraction and never raises; `Scoring.RiskBelowIff` says what that reads |
| Scoring.RiskBelowIff | ml/models/full.py:195-204 | a wallet's risk percentile is strictly below a population member's exactly when it ranks below by main percentile, then family mean, then family maximum, then penalty |
| Scoring.MainAnomalyDecides | ml/models/full.py:311-325 | a lower main anomaly than a member's gives a strictly lower risk than that member's, whatever the rest |
| Scoring.PenaltyDecidesLast | ml/models/full.py:311-325 | between rows alike in all else the penalty decides |
| Scoring.RiskierRowIsNotSafer | ml/models/full.py:280-337 | a wallet at least as anomalous in every score and at least as penalised never gets a better percentile, score or bucket |
| Scoring.BucketQuota | ml/models/full.py:195-204 | of n population wallets at most 221n/1100 are VERY_LOW, 361n/1100 LOW or better, and so on |
| Separation.SpreadAboutMean | ml/models/distill.py:106-108 | a group's spread about any point is its spread about its mean plus the cost of moving there |
| Separation.BetweenWithin | ml/models/distill.py:97-108 | between and within account for the whole spread exactly, and within is each value's squared distance from its own group's mean |
| Separation.ScoresHigherIff | ml/models/distill.py:97-111 | a feature scores higher exactly when its between part is larger in proportion to its guarded within part |
| Separation.MoreBetweenScoresHigher | ml/models/distill.py:97-111 | with equal spread inside the groups, exactly when there is more between them |
| Separation.RankFeatures | ml/models/distill.py:81-111 | every feature once, best score first |
| Separation.SelectTop | ml/models/distill.py:140-142 | the top k in column order, no feature left out beating one taken |
| RateLimit.Counter.Hit | api/rate_limit.py:23-28 | one uninterrupted hit: within exactly below the limit, deadline set by the first |
| RateLimit.HitIsTwoSteps | api/rate_limit.py:23-28 | an uninterrupted hit is INCR and EXPIRE of the interleaved system, with the same key, count and decision |
| RateLimit.FirstHitSetsDeadline | api/rate_limit.py:26-27 | however many hits follow, the deadline is the first one's |
| RateLimit.EnforceAttestLimits | api/rate_limit.py:31-56 | both budgets take the hit before either refuses, and the address is judged first |
| RateLimit.RunKeepsInv | api/rate_limit.py:23-28 | every interleaving of INCR, EXPIRE, lost EXPIRE, expiry and time keeps the counting invariant |
| RateLimit.PerLifetime | api/rate_limit.py:23-28 | at most `limit` hits are admitted in one lifetime of the key |
| RateLimit.LifetimeEndsIff | api/rate_limit.py:25-27 | in every reachable state a lifetime can still end exactly when the key has a deadline or an EXPIRE is owed |
| RateLimit.LostExpireIsForever | api/rate_limit.py:26-27 | without either, no run ends it |
| RateLimit.OneLostExpireSpendsTheBudget | api/rate_limit.py:25-28 | one INCR whose EXPIRE is lost, and whatever follows admits at most `limit` hits in all |
| RateLimit.BirthsSpread | api/rate_limit.py:26-27 | lifetimes begin at least a window apart |
| RateLimit.PerSpan | api/rate_limit.py:23-28 | at most 2 * limit - 1 hits are admitted in any half-open span of the window's length |
| RateLimit.SpanBoundIsMet | api/rate_limit.py:23-28 | for every limit and window of at least one, a run that meets that bound |

## Left out

- IEEE-754 rounding, NaN and infinities: exact reals stand for `f64`, so bit-for-bit parity of the two forests is proved for the algorithm and not for its floating-point evaluation.
- SHA-256, HMAC, the Poseidon circuit, proving, and the curve arithmetic of the host: arbitrary functions or inputs.
- Isolation forests, k-means, the scaler, log1p and clipping, the logistic student and train/test splits: the scores and matrices they produce are inputs.
- The population schema's square roots: standard deviations are modelled by their variances, and the per-day maximum and deviation are functions of the modelled day map.
- ForestTrace.ProbeSplit: the target's tree is given, because the tree index of a step selects it before its node is looked up; the other trees of the forest are not traced.
- GroupHistory.Cache.Load: rows come in some order, not necessarily by creation time, so what follows holds for every order.
- GroupHistory.AttestGroup: Horizon is a fixed snapshot and equal ids mean equal records, as the operation table's primary key takes for granted.
- Scoring.FullModel.Fit: an empty training matrix is accepted here and gives 0.0 percentiles, whereas the forests' own `fit` would refuse it.
- ProofBlobs.CommitmentsOfOneProof: an invertible coefficient is one that is not zero, the group order being prime; that it is prime is not proved.
- Forest.GuestPredict: a massless leaf fails as with debug assertions on; a release guest goes on with 0/0, which exact reals do not have.
- Forest.Parity: so for a release guest it holds where every reached leaf has mass.
- RateLimit: Redis is one key with a count and a deadline, and an expired key goes at any time after its deadline; other Redis failures are not modelled.
- Admin setters of the contracts are plain steps, and setting a registry or identity address again to another contract is not modelled; events, storage lifetimes and `execute_loan` are not modelled, and `get_loan_terms` is taken with its RiskAttestation address set.
- `u64` times and `u32` bucket and confidence fields are natural numbers; the one 32-bit addition that can overflow, the member count, traps as in the source.
- The webhook's signature check, provider normalisation, missing settings and HTTP codes.
- Horizon, Didit, Soroban RPC and RunPod clients, retries and timeouts.
- `ml/risc0/bento_node.py` and `api/proving_jobs.py`: mostly lifecycle I/O.
- Reason codes, cluster probabilities and ONNX export of the full model.
- The user interface, documentation site, generated bindings and migrations.
