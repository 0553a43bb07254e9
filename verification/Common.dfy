/** Values shared by the contract models: byte strings, the on-chain attestation record, the
    contracts' error codes and the three ways a contract call can end. */
module Common {

  datatype Option<+T> = None | Some(value: T)

  type Byte = n: int | 0 <= n < 256
  type Bytes = seq<Byte>
  type Bytes32 = s: Bytes | |s| == 32 witness seq(32, _ => 0)

  /** A wallet or contract address, as the bytes of its strkey. */
  type Address = Bytes
  type Commitment = Bytes32
  type Nullifier = Bytes32

  const U32_MAX: nat := 0xFFFF_FFFF

  datatype AttestationData = AttestationData(
    wallet: Address,
    riskBucket: nat,
    confidence: nat,
    fullModelHash: Bytes32,
    distilledModelHash: Bytes32,
    proofOrHash: Bytes32,
    zkVerified: bool,
    attestor: Address,
    issuedAt: nat,
    expiresAt: nat,
    kycVerified: bool,
    identityCommitment: Option<Commitment>)

  datatype Error =
    | AlreadyAttested
    | AttestationNotFound
    | InvalidProof
    | AttestorNotRegistered
    | InvalidInputs
    | CommitmentConflict
    | AlreadyInGroup
    | UnauthorizedAttestor
    | Risc0ImageNotSet
    | StaleAttestation
    | NullifierAlreadyBound

  /** A call returns, fails with a contract error, or traps (a failed `require_auth`, a panic, an
      overflow).  The host undoes every write of a call that does not return. */
  datatype Outcome<+T> = Return(value: T) | Fail(error: Error) | Trap

  /** What checking a proof can come to: the verifiers panic on malformed blobs. */
  datatype Verdict = Accept | Reject | Panic

  /** What one call sees of the outside: who signed it, and whom the attestor registry lists. */
  datatype Context = Context(signers: set<Address>, attestors: set<Address>)
}
