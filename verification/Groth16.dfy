/** The BN254 Groth16 verifier: an offset-based reader of the key and proof blobs, the loop that
    accumulates vk_x, and the four-pair product check.  Group elements are exponents modulo the
    group order; which byte strings are points, and which exponent each one has, is up to the host. */
module Groth16 {
  import opened Common
  import opened Encoding

  /** Order of the BN254 scalar field. */
  const R: nat := 21888242871839275222246405745257275088548364400416034343698204186575808495617

  /** The host functions: SHA-256, and the exponent of a G1 or G2 encoding (None: not a point, which
      makes the host trap). */
  datatype Host = Host(sha: Bytes -> Bytes32, g1: Bytes -> Option<nat>, g2: Bytes -> Option<nat>)

  // ----- Blob layout -----

  const VK_BETA: nat := 64
  const VK_GAMMA: nat := 192
  const VK_DELTA: nat := 320
  const VK_N_IC: nat := 448
  const VK_IC0: nat := 452
  const PROOF_B: nat := 64
  const PROOF_C: nat := 192
  const PROOF_N_PUB: nat := 256
  const PROOF_INPUTS: nat := 258

  datatype VkFields = VkFields(alpha: Bytes, beta: Bytes, gamma: Bytes, delta: Bytes, ic: seq<Bytes>) {
    ghost predicate WellSized() {
      |alpha| == 64 && |beta| == |gamma| == |delta| == 128 && Sized(ic, 64)
    }
  }

  datatype ProofFields = ProofFields(a: Bytes, b: Bytes, c: Bytes, inputs: seq<Bytes>) {
    ghost predicate WellSized() {
      |a| == |c| == 64 && |b| == 128 && Sized(inputs, 32)
    }
  }

  function ReadBE(b: Bytes, offset: nat, width: nat): nat
    requires offset + width <= |b|
  {
    FromBE(b[offset..offset + width])
  }

  /** `n` consecutive chunks of `size` bytes from `offset` on. */
  function Chunks(b: Bytes, offset: nat, size: nat, n: nat): (chunks: seq<Bytes>)
    requires offset + size * n <= |b|
    ensures |chunks| == n && Sized(chunks, size)
    ensures forall i :: 0 <= i < n ==> 0 <= size * i <= size * (n - 1) && chunks[i] == b[offset + size * i..offset + size * i + size]
  {
    if n == 0 then []
    else
      assert size * n == size * (n - 1) + size;
      Chunks(b, offset, size, n - 1) + [b[offset + size * (n - 1)..offset + size * (n - 1) + size]]
  }

  /** None is the reader's panic. */
  function ReadVk(vk: Bytes): (f: Option<VkFields>)
    ensures f.Some? ==> f.value.WellSized()
  {
    if |vk| < VK_IC0 || |vk| < VK_IC0 + 64 * ReadBE(vk, VK_N_IC, 4) then None
    else Some(VkFields(vk[..64], vk[VK_BETA..VK_GAMMA], vk[VK_GAMMA..VK_DELTA], vk[VK_DELTA..VK_N_IC],
                       Chunks(vk, VK_IC0, 64, ReadBE(vk, VK_N_IC, 4))))
  }

  function ReadProof(proof: Bytes): (f: Option<ProofFields>)
    ensures f.Some? ==> f.value.WellSized()
  {
    if |proof| < PROOF_INPUTS || |proof| < PROOF_INPUTS + 32 * ReadBE(proof, PROOF_N_PUB, 2) then None
    else Some(ProofFields(proof[..64], proof[PROOF_B..PROOF_C], proof[PROOF_C..PROOF_N_PUB],
                          Chunks(proof, PROOF_INPUTS, 32, ReadBE(proof, PROOF_N_PUB, 2))))
  }

  /** The `i`-th public input; None is the panic. */
  function NthPublicInput(proof: Bytes, i: nat): (r: Option<Bytes32>) {
    if |proof| < PROOF_INPUTS || i >= ReadBE(proof, PROOF_N_PUB, 2) || |proof| < PROOF_INPUTS + 32 * i + 32 then None
    else Some(proof[PROOF_INPUTS + 32 * i..PROOF_INPUTS + 32 * i + 32])
  }

  lemma NthInputOfRead(proof: Bytes, i: nat)
    requires ReadProof(proof).Some?
    ensures NthPublicInput(proof, i) == if i < |ReadProof(proof).value.inputs| then Some(ReadProof(proof).value.inputs[i]) else None
  {
    var inputs := ReadProof(proof).value.inputs;
    if i < |inputs| {
      assert 32 * i <= 32 * (|inputs| - 1);
    }
  }

  // ----- The verification equation -----

  /** IC[0] + sum of pub[i] * IC[i+1], as an exponent. */
  function VkX(ic: seq<nat>, pub: seq<nat>): nat
    requires |ic| == |pub| + 1
  {
    if pub == [] then ic[0]
    else VkX(ic[..|pub|], pub[..|pub| - 1]) + pub[|pub| - 1] * ic[|pub|]
  }

  ghost predicate AllG1(host: Host, ps: seq<Bytes>) {
    forall i :: 0 <= i < |ps| ==> host.g1(ps[i]).Some?
  }

  ghost predicate PointsValid(host: Host, k: VkFields, p: ProofFields) {
    && host.g1(k.alpha).Some? && host.g2(k.beta).Some? && host.g2(k.gamma).Some? && host.g2(k.delta).Some?
    && AllG1(host, k.ic)
    && host.g1(p.a).Some? && host.g2(p.b).Some? && host.g1(p.c).Some?
  }

  ghost function Logs(host: Host, ps: seq<Bytes>): seq<nat>
    requires AllG1(host, ps)
  {
    seq(|ps|, i requires 0 <= i < |ps| => host.g1(ps[i]).value)
  }

  function Scalars(inputs: seq<Bytes>): seq<nat> {
    seq(|inputs|, i requires 0 <= i < |inputs| => FromBE(inputs[i]))
  }

  /** e(A, B) = e(alpha, beta) * e(vk_x, gamma) * e(C, delta), in exponents. */
  ghost predicate Equation(host: Host, k: VkFields, p: ProofFields)
    requires PointsValid(host, k, p) && |k.ic| == |p.inputs| + 1
  {
    (host.g1(p.a).value * host.g2(p.b).value) % R
    == (host.g1(k.alpha).value * host.g2(k.beta).value
        + VkX(Logs(host, k.ic), Scalars(p.inputs)) * host.g2(k.gamma).value
        + host.g1(p.c).value * host.g2(k.delta).value) % R
  }

  /** What the verifier promises: panic on a malformed pair of blobs, otherwise accept exactly the
      proofs that satisfy the Groth16 equation. */
  ghost function Verify(host: Host, vk: Bytes, proof: Bytes): Verdict {
    match (ReadVk(vk), ReadProof(proof))
    case (Some(k), Some(p)) =>
      if |k.ic| != |p.inputs| + 1 || !PointsValid(host, k, p) then Panic
      else if Equation(host, k, p) then Accept
      else Reject
    case _ => Panic
  }

  /** When a key and a proof can be judged at all: both blobs read, with one IC entry more than inputs, and
      every point of both on its curve. */
  ghost predicate Judgeable(host: Host, vk: Bytes, proof: Bytes) {
    && ReadVk(vk).Some? && ReadProof(proof).Some?
    && |ReadVk(vk).value.ic| == |ReadProof(proof).value.inputs| + 1 && PointsValid(host, ReadVk(vk).value, ReadProof(proof).value)
  }

  // ----- The code's own arithmetic -----

  function Mul(x: nat, y: nat): nat { (x * y) % R }
  function Add(x: nat, y: nat): nat { (x + y) % R }
  function Neg(x: nat): nat { (R - x % R) % R }

  function PairingProduct(g1s: seq<nat>, g2s: seq<nat>): nat
    requires |g1s| == |g2s|
  {
    if g1s == [] then 0 else Add(PairingProduct(g1s[..|g1s| - 1], g2s[..|g1s| - 1]), Mul(g1s[|g1s| - 1], g2s[|g1s| - 1]))
  }

  /** One turn of the accumulation: reducing each operand first changes nothing modulo R. */
  lemma MsmStep(acc: nat, total: nat, pub: nat, ic: nat)
    requires acc == total % R
    ensures Add(acc, Mul(pub % R, ic)) == (total + pub * ic) % R
  {
    var t := (pub % R) * ic;
    var kp, kt, km := pub / R, total / R, t / R;
    assert pub == pub % R + kp * R && total == acc + kt * R && t == t % R + km * R;
    var x := acc + t % R;
    assert pub * ic == t + (kp * R) * ic;
    assert (kp * R) * ic == (kp * ic) * R;
    assert total + pub * ic == x + (kt + km + kp * ic) * R;
    AddMultiple(x, kt + km + kp * ic, R);
  }

  /** A sum of four products of reduced operands, each reduced, is the unreduced sum modulo R. */
  lemma FourPairs(a: nat, b: nat, c: nat, d: nat)
    ensures Add(Add(Add(Add(0, a % R), b % R), c % R), d % R) == (a + b + c + d) % R
  {
    SumMod(0, a);
    SumMod(a, b);
    SumMod(a + b, c);
    SumMod(a + b + c, d);
  }

  lemma SumMod(x: nat, y: nat)
    ensures Add(x % R, y % R) == (x + y) % R
  {
    AddMultiple(x % R + y % R, x / R + y / R, R);
    assert x + y == x % R + y % R + (x / R + y / R) * R;
  }

  /** The reduced negation differs from the true one by a multiple of R. */
  lemma NegIsMinus(a: nat) returns (j: int)
    ensures Neg(a) + a + j * R == 0
  {
    j := if a % R == 0 then -(a / R) else -1 - a / R;
    assert a == (a / R) * R + a % R;
    if a % R == 0 {
      AddMultiple(0, 1, R);
      assert Neg(a) == 0;
    } else {
      assert Neg(a) == R - a % R;
    }
  }

  lemma NegTimes(neg: int, a: int, j: int, b: int) returns (u: int)
    requires neg + a + j * R == 0
    ensures neg * b == -(a * b) + u * R
  {
    u := -(j * b);
    assert neg == -a - j * R;
    assert (-a - j * R) * b == -(a * b) - (j * R) * b;
    assert (j * R) * b == (j * b) * R;
  }

  lemma ReducedTimes(x: nat, gamma: int) returns (v: int)
    ensures (x % R) * gamma == x * gamma + v * R
  {
    var k, xr := x / R, x % R;
    v := -(k * gamma);
    assert xr == x - k * R;
    assert (x - k * R) * gamma == x * gamma - (k * R) * gamma;
    assert (k * R) * gamma == (k * gamma) * R;
  }

  lemma SameSum(nb: int, lhs: int, u: int, xr: int, xg: int, v: int, ab: int, cd: int)
    requires nb == -lhs + u * R && xr == xg + v * R
    ensures (nb + ab + xr + cd) % R == 0 <==> lhs % R == (ab + xg + cd) % R
  {
    var rhs := ab + xg + cd;
    assert nb + ab + xr + cd == (rhs - lhs) + (u + v) * R;
    AddMultiple(rhs - lhs, u + v, R);
    CongruentIff(rhs, lhs, R);
  }

  /** The product check over (-A, B), (alpha, beta), (vk_x, gamma), (C, delta) is the equation. */
  lemma ProductIffEquation(a: nat, b: nat, ab: nat, x: nat, gamma: nat, cd: nat)
    ensures (Neg(a) * b + ab + (x % R) * gamma + cd) % R == 0
            <==> (a * b) % R == (ab + x * gamma + cd) % R
  {
    var j := NegIsMinus(a);
    var u := NegTimes(Neg(a), a, j, b);
    var v := ReducedTimes(x, gamma);
    SameSum(Neg(a) * b, a * b, u, (x % R) * gamma, x * gamma, v, ab, cd);
  }

  /** `acc` is the vk_x exponent over the first `i` inputs. */
  ghost predicate Accumulated(host: Host, ics: seq<Bytes>, inputs: seq<Bytes>, i: nat, acc: nat)
    requires i <= |inputs| && |ics| == |inputs| + 1
  {
    AllG1(host, ics[..i + 1]) && acc == VkX(Logs(host, ics[..i + 1]), Scalars(inputs[..i])) % R
  }

  lemma AccumulatedStart(host: Host, ics: seq<Bytes>, inputs: seq<Bytes>)
    requires |ics| == |inputs| + 1 && host.g1(ics[0]).Some?
    ensures Accumulated(host, ics, inputs, 0, host.g1(ics[0]).value % R)
  {
    assert ics[..1] == [ics[0]];
  }

  lemma AccumulatedGrows(host: Host, ics: seq<Bytes>, inputs: seq<Bytes>, i: nat, acc: nat)
    requires i < |inputs| && |ics| == |inputs| + 1
    requires Accumulated(host, ics, inputs, i, acc) && host.g1(ics[i + 1]).Some?
    ensures Accumulated(host, ics, inputs, i + 1, Add(acc, Mul(FromBE(inputs[i]) % R, host.g1(ics[i + 1]).value)))
  {
    var grown := ics[..i + 2];
    forall j | 0 <= j < |grown| ensures host.g1(grown[j]).Some? {
      assert j <= i ==> grown[j] == ics[..i + 1][j];
    }
    var logs, pub := Logs(host, grown), Scalars(inputs[..i + 1]);
    assert logs[..|pub|] == Logs(host, ics[..i + 1]);
    assert pub[..|pub| - 1] == Scalars(inputs[..i]);
    MsmStep(acc, VkX(Logs(host, ics[..i + 1]), Scalars(inputs[..i])), FromBE(inputs[i]), host.g1(ics[i + 1]).value);
  }

  lemma AccumulatedEnd(host: Host, ics: seq<Bytes>, inputs: seq<Bytes>, acc: nat)
    requires |ics| == |inputs| + 1 && Accumulated(host, ics, inputs, |inputs|, acc)
    ensures AllG1(host, ics) && acc == VkX(Logs(host, ics), Scalars(inputs)) % R
  {
    assert ics[..|ics|] == ics && inputs[..|inputs|] == inputs;
  }

  lemma ChunkAt(b: Bytes, offset: nat, size: nat, n: nat, i: nat)
    requires offset + size * n <= |b| && i < n
    ensures 0 <= offset + size * i <= offset + size * i + size <= |b|
    ensures Chunks(b, offset, size, n)[i] == b[offset + size * i..offset + size * i + size]
  {
    assert size * n == size * (n - 1) + size;
    var chunks := Chunks(b, offset, size, n);
    assert chunks[i] == b[offset + size * i..offset + size * i + size];
  }

  /** The accumulation loop: None is the trap on an IC entry that is not a point. */
  method AccumulateVkX(host: Host, vk: Bytes, proof: Bytes, nPub: nat, ghost ics: seq<Bytes>, ghost inputs: seq<Bytes>)
    returns (x: Option<nat>)
    requires |vk| >= VK_IC0 + 64 * (nPub + 1) && |proof| >= PROOF_INPUTS + 32 * nPub
    requires ics == Chunks(vk, VK_IC0, 64, nPub + 1) && inputs == Chunks(proof, PROOF_INPUTS, 32, nPub)
    ensures x.Some? <==> AllG1(host, ics)
    ensures x.Some? ==> x.value == VkX(Logs(host, ics), Scalars(inputs)) % R
  {
    ChunkAt(vk, VK_IC0, 64, nPub + 1, 0);
    var first := host.g1(vk[VK_IC0..VK_IC0 + 64]);
    if first.None? { return None; }
    var vkX: nat := first.value % R;
    AccumulatedStart(host, ics, inputs);
    for i := 0 to nPub
      invariant Accumulated(host, ics, inputs, i, vkX)
    {
      ChunkAt(vk, VK_IC0, 64, nPub + 1, i + 1);
      ChunkAt(proof, PROOF_INPUTS, 32, nPub, i);
      var ic := host.g1(vk[VK_IC0 + 64 * (i + 1)..VK_IC0 + 64 * (i + 1) + 64]);
      if ic.None? { return None; }
      var pub := FromBE(proof[PROOF_INPUTS + 32 * i..PROOF_INPUTS + 32 * i + 32]);
      AccumulatedGrows(host, ics, inputs, i, vkX);
      vkX := Add(vkX, Mul(pub % R, ic.value));
    }
    AccumulatedEnd(host, ics, inputs, vkX);
    return Some(vkX);
  }

  method PairingCheck(a: nat, b: nat, alpha: nat, beta: nat, vkX: nat, gamma: nat, c: nat, delta: nat) returns (ok: bool)
    ensures forall x: nat :: vkX == x % R ==> (ok <==> (a * b) % R == (alpha * beta + x * gamma + c * delta) % R)
  {
    var g1s := [Neg(a), alpha, vkX, c];
    var g2s := [b, beta, gamma, delta];
    ok := PairingProduct(g1s, g2s) == 0;
    ProductOfFour(g1s, g2s);
    FourPairs(Neg(a) * b, alpha * beta, vkX * gamma, c * delta);
    forall x: nat | vkX == x % R
      ensures ok <==> (a * b) % R == (alpha * beta + x * gamma + c * delta) % R
    {
      ProductIffEquation(a, b, alpha * beta, x, gamma, c * delta);
    }
  }

  method VerifyGroth16(host: Host, vk: Bytes, proof: Bytes) returns (v: Verdict)
    ensures v == Verify(host, vk, proof)
    ensures v == Panic <==> !Judgeable(host, vk, proof)
    ensures v == Accept <==> Judgeable(host, vk, proof) && Equation(host, ReadVk(vk).value, ReadProof(proof).value)
  {
    if |vk| < VK_IC0 || |proof| < PROOF_INPUTS { return Panic; }
    var alpha, beta := host.g1(vk[..64]), host.g2(vk[VK_BETA..VK_GAMMA]);
    var gamma, delta := host.g2(vk[VK_GAMMA..VK_DELTA]), host.g2(vk[VK_DELTA..VK_N_IC]);
    var nIc := ReadBE(vk, VK_N_IC, 4);
    var nPub := ReadBE(proof, PROOF_N_PUB, 2);
    if nIc != nPub + 1 { return Panic; }
    if |vk| < VK_IC0 + 64 * nIc || |proof| < PROOF_INPUTS + 32 * nPub { return Panic; }
    var a, b := host.g1(proof[..64]), host.g2(proof[PROOF_B..PROOF_C]);
    var c := host.g1(proof[PROOF_C..PROOF_N_PUB]);
    var vkX := AccumulateVkX(host, vk, proof, nPub, ReadVk(vk).value.ic, ReadProof(proof).value.inputs);
    if vkX.None? || alpha.None? || beta.None? || gamma.None? || delta.None? || a.None? || b.None? || c.None? { return Panic; }
    var ok := PairingCheck(a.value, b.value, alpha.value, beta.value, vkX.value, gamma.value, c.value, delta.value);
    return if ok then Accept else Reject;
  }

  lemma ProductOfFour(p: seq<nat>, q: seq<nat>)
    requires |p| == |q| == 4
    ensures PairingProduct(p, q) == Add(Add(Add(Add(0, Mul(p[0], q[0])), Mul(p[1], q[1])), Mul(p[2], q[2])), Mul(p[3], q[3]))
  {
    assert p[..3][..2] == p[..2] && q[..3][..2] == q[..2];
    assert p[..2][..1] == p[..1] && q[..2][..1] == q[..1];
    assert PairingProduct(p[..1], q[..1]) == Add(PairingProduct([], []), Mul(p[0], q[0])) by {
      assert p[..1][..0] == [] && q[..1][..0] == [];
    }
    assert PairingProduct(p[..2], q[..2]) == Add(PairingProduct(p[..1], q[..1]), Mul(p[1], q[1]));
    assert PairingProduct(p[..3], q[..3]) == Add(PairingProduct(p[..2], q[..2]), Mul(p[2], q[2]));
  }
}
