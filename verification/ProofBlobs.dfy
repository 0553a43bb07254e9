/** The three writers of verifying-key and proof blobs (the Rust host, the node script and the
    browser), proved against one layout, and that layout read back at the verifier's offsets.  The
    identity-proof gate of `register_wallet` closes the loop. */
module ProofBlobs {
  import opened Common
  import opened Encoding
  import opened Groth16

  /** BN254 base field prime. */
  const P: nat := 21888242871839275222246405745257275088696311157297823662689037894645226208583

  datatype G1Point = G1Point(x: nat, y: nat)
  datatype G2Point = G2Point(xc0: nat, xc1: nat, yc0: nat, yc1: nat)
  datatype VerifyingKey = VerifyingKey(alpha: G1Point, beta: G2Point, gamma: G2Point, delta: G2Point, ic: seq<G1Point>)

  // ----- The layout -----

  /** 2^256, the bound of a 32-byte field. */
  const WORD: nat := 0x1_0000000000000000_0000000000000000_0000000000000000_0000000000000000

  ghost predicate Fits(n: nat) { n < WORD }
  ghost predicate FitsG1(p: G1Point) { Fits(p.x) && Fits(p.y) }
  ghost predicate FitsG2(p: G2Point) { Fits(p.xc0) && Fits(p.xc1) && Fits(p.yc0) && Fits(p.yc1) }

  function EncodeG1(p: G1Point): (b: Bytes)
    ensures |b| == 64
  {
    ToBE(p.x, 32) + ToBE(p.y, 32)
  }

  /** EIP-197 order: c1 before c0 in each coordinate. */
  function EncodeG2(p: G2Point): (b: Bytes)
    ensures |b| == 128
  {
    ToBE(p.xc1, 32) + ToBE(p.xc0, 32) + ToBE(p.yc1, 32) + ToBE(p.yc0, 32)
  }

  function DecodeG1(b: Bytes): G1Point
    requires |b| == 64
  {
    G1Point(FromBE(b[..32]), FromBE(b[32..]))
  }

  function DecodeG2(b: Bytes): G2Point
    requires |b| == 128
  {
    G2Point(FromBE(b[32..64]), FromBE(b[..32]), FromBE(b[96..]), FromBE(b[64..96]))
  }

  function EncodeAll(ps: seq<G1Point>): (chunks: seq<Bytes>)
    ensures |chunks| == |ps| && Sized(chunks, 64)
  {
    seq(|ps|, i requires 0 <= i < |ps| => EncodeG1(ps[i]))
  }

  function EncodeScalars(ns: seq<nat>): (chunks: seq<Bytes>)
    ensures |chunks| == |ns| && Sized(chunks, 32)
  {
    seq(|ns|, i requires 0 <= i < |ns| => ToBE(ns[i], 32))
  }

  function VkBlob(k: VerifyingKey): Bytes {
    EncodeG1(k.alpha) + EncodeG2(k.beta) + EncodeG2(k.gamma) + EncodeG2(k.delta)
    + ToBE(|k.ic|, 4) + Flat(EncodeAll(k.ic))
  }

  function ProofBlob(a: G1Point, b: G2Point, c: G1Point, pub: seq<nat>): Bytes {
    EncodeG1(a) + EncodeG2(b) + EncodeG1(c) + ToBE(|pub|, 2) + Flat(EncodeScalars(pub))
  }

  lemma PrimeFits()
    ensures P < Pow256(32) == WORD && R < WORD
    ensures Pow256(16) == 0x1_0000_0000_0000_0000_0000_0000_0000_0000 < R
  {
    assert Pow256(4) == 0x1_0000_0000;
    assert Pow256(8) == Pow256(4) * Pow256(4) by { Pow256Add(4, 4); }
    assert Pow256(16) == Pow256(8) * Pow256(8) by { Pow256Add(8, 8); }
    assert Pow256(32) == Pow256(16) * Pow256(16) by { Pow256Add(16, 16); }
  }

  lemma {:induction false} Pow256Add(a: nat, b: nat)
    ensures Pow256(a + b) == Pow256(a) * Pow256(b)
  {
    if a > 0 {
      Pow256Add(a - 1, b);
      Associate(256, Pow256(a - 1), Pow256(b));
    }
  }

  lemma WordSize(width: nat)
    requires width == 32
    ensures Pow256(width) == WORD
  {
    PrimeFits();
  }

  lemma WordRoundTrip(n: nat)
    requires Fits(n)
    ensures FromBE(ToBE(n, 32)) == n
  {
    PrimeFits();
    FromToBE(n, 32);
  }

  /** Byte for byte: x then y, big-endian. */
  lemma G1Layout(p: G1Point)
    requires FitsG1(p)
    ensures FromBE(EncodeG1(p)[..32]) == p.x && FromBE(EncodeG1(p)[32..]) == p.y
  {
    var b := EncodeG1(p);
    assert b[..32] == ToBE(p.x, 32) && b[32..] == ToBE(p.y, 32);
    WordRoundTrip(p.x);
    WordRoundTrip(p.y);
  }

  /** EIP-197: of each coordinate the imaginary part c1 first, then c0. */
  lemma G2Layout(p: G2Point)
    requires FitsG2(p)
    ensures FromBE(EncodeG2(p)[..32]) == p.xc1 && FromBE(EncodeG2(p)[32..64]) == p.xc0
    ensures FromBE(EncodeG2(p)[64..96]) == p.yc1 && FromBE(EncodeG2(p)[96..]) == p.yc0
  {
    var b := EncodeG2(p);
    assert b[..32] == ToBE(p.xc1, 32) && b[32..64] == ToBE(p.xc0, 32) && b[64..96] == ToBE(p.yc1, 32) && b[96..] == ToBE(p.yc0, 32);
    WordRoundTrip(p.xc1);
    WordRoundTrip(p.xc0);
    WordRoundTrip(p.yc1);
    WordRoundTrip(p.yc0);
  }

  lemma G1RoundTrip(p: G1Point)
    requires FitsG1(p)
    ensures DecodeG1(EncodeG1(p)) == p
  {
    var b := EncodeG1(p);
    assert b[..32] == ToBE(p.x, 32) && b[32..] == ToBE(p.y, 32);
    WordRoundTrip(p.x);
    WordRoundTrip(p.y);
  }

  lemma G2RoundTrip(p: G2Point)
    requires FitsG2(p)
    ensures DecodeG2(EncodeG2(p)) == p
  {
    var b := EncodeG2(p);
    assert b[..32] == ToBE(p.xc1, 32) && b[32..64] == ToBE(p.xc0, 32);
    assert b[64..96] == ToBE(p.yc1, 32) && b[96..] == ToBE(p.yc0, 32);
    WordRoundTrip(p.xc0);
    WordRoundTrip(p.xc1);
    WordRoundTrip(p.yc0);
    WordRoundTrip(p.yc1);
  }

  lemma Regroup(n: int, q: int, digit: int, p: int)
    requires n == q * 256 + digit
    ensures n * p == q * (256 * p) + digit * p
  {
  }

  lemma RegroupLow(h: int, q: int, low: int, m: int)
    requires h == q * m + low
    ensures h * 256 == low * 256 + q * (256 * m)
  {
  }

  lemma RemainderOf(n: int, q: int, low: int, m: int)
    requires n == low + q * m && 0 <= low < m
    ensures n % m == low
  {
    AddMultiple(low, q, m);
  }

  lemma LastDigit(n: nat, h: nat, digit: nat, q: nat, low: nat, m: nat)
    requires n == h * 256 + digit && digit < 256
    requires h == q * m + low && low < m
    ensures n % (256 * m) == low * 256 + digit
  {
    RegroupLow(h, q, low, m);
    RemainderOf(n, q, low * 256 + digit, 256 * m);
  }

  /** A two-byte count wraps at 65536, a four-byte one at 2^32. */
  lemma {:induction false} CountWraps(n: nat, width: nat)
    ensures FromBE(ToBE(n, width)) == n % Pow256(width)
    decreases width
  {
    if width > 0 {
      var h, m := n / 256, Pow256(width - 1);
      CountWraps(h, width - 1);
      var b := ToBE(n, width);
      assert b[..|b| - 1] == ToBE(h, width - 1);
      DivMod(h, m);
      LastDigit(n, h, n % 256, h / m, h % m, m);
    }
  }

  lemma DivMod(h: nat, m: nat)
    requires m > 0
    ensures h == (h / m) * m + h % m && h % m < m && h / m >= 0
  {
  }

  /** Chunks laid end to end at `offset` are read back by `Chunks`. */
  lemma {:induction false} ChunksOfFlat(head: Bytes, chunks: seq<Bytes>, size: nat, n: nat)
    requires Sized(chunks, size) && n <= |chunks|
    ensures |head| + size * n <= |head + Flat(chunks)|
    ensures Chunks(head + Flat(chunks), |head|, size, n) == chunks[..n]
  {
    FlatLength(chunks, size);
    WholeChunks(size, n, |chunks|);
    if n > 0 {
      ChunksOfFlat(head, chunks, size, n - 1);
      FlatChunk(chunks, size, n - 1);
      SliceAfter(head, Flat(chunks), size * (n - 1), size);
      assert chunks[..n] == chunks[..n - 1] + [chunks[n - 1]];
    }
  }

  lemma WholeChunks(size: nat, n: nat, total: nat)
    requires n <= total
    ensures size * n <= size * total
    ensures n > 0 ==> size * n == size * (n - 1) + size
  {
  }

  lemma SliceAfter(head: Bytes, tail: Bytes, at: nat, size: nat)
    requires at + size <= |tail|
    ensures (head + tail)[|head| + at..|head| + at + size] == tail[at..at + size]
  {
  }

  lemma ProofBlobReads(a: G1Point, b: G2Point, c: G1Point, pub: seq<nat>)
    ensures ReadProof(ProofBlob(a, b, c, pub))
            == Some(ProofFields(EncodeG1(a), EncodeG2(b), EncodeG1(c), EncodeScalars(pub)[..|pub| % 65536]))
  {
    var blob := ProofBlob(a, b, c, pub);
    var head := EncodeG1(a) + EncodeG2(b) + EncodeG1(c) + ToBE(|pub|, 2);
    assert blob == head + Flat(EncodeScalars(pub));
    assert blob[..64] == EncodeG1(a) && blob[PROOF_B..PROOF_C] == EncodeG2(b);
    assert blob[PROOF_C..PROOF_N_PUB] == EncodeG1(c) && blob[PROOF_N_PUB..PROOF_INPUTS] == ToBE(|pub|, 2);
    CountWraps(|pub|, 2);
    assert Pow256(2) == 65536;
    ChunksOfFlat(head, EncodeScalars(pub), 32, |pub| % 65536);
  }

  ghost function DecodeProof(f: ProofFields): (G1Point, G2Point, G1Point, seq<nat>)
    requires f.WellSized()
  {
    (DecodeG1(f.a), DecodeG2(f.b), DecodeG1(f.c), Scalars(f.inputs))
  }

  /** The proof blob, read at the verifier's offsets.  The count field holds the number of inputs
      modulo 65536, so the reader sees all inputs exactly when there are fewer than that. */
  lemma ProofBlobParses(a: G1Point, b: G2Point, c: G1Point, pub: seq<nat>)
    requires FitsG1(a) && FitsG2(b) && FitsG1(c) && forall i :: 0 <= i < |pub| ==> Fits(pub[i])
    ensures ReadProof(ProofBlob(a, b, c, pub)).Some?
    ensures DecodeProof(ReadProof(ProofBlob(a, b, c, pub)).value) == (a, b, c, pub[..|pub| % 65536])
    ensures DecodeProof(ReadProof(ProofBlob(a, b, c, pub)).value) == (a, b, c, pub) <==> |pub| < 65536
  {
    ProofBlobReads(a, b, c, pub);
    G1RoundTrip(a);
    G2RoundTrip(b);
    G1RoundTrip(c);
    ScalarsRoundTrip(pub, |pub| % 65536);
    if |pub| < 65536 {
      assert pub[..|pub|] == pub;
    } else {
      assert |pub[..|pub| % 65536]| != |pub|;
    }
  }

  lemma ScalarsRoundTrip(pub: seq<nat>, n: nat)
    requires n <= |pub| && forall i :: 0 <= i < |pub| ==> Fits(pub[i])
    ensures Scalars(EncodeScalars(pub)[..n]) == pub[..n]
  {
    forall i | 0 <= i < n ensures FromBE(EncodeScalars(pub)[i]) == pub[i] {
      WordRoundTrip(pub[i]);
    }
  }

  lemma VkBlobReads(k: VerifyingKey)
    requires |k.ic| <= U32_MAX
    ensures ReadVk(VkBlob(k))
            == Some(VkFields(EncodeG1(k.alpha), EncodeG2(k.beta), EncodeG2(k.gamma), EncodeG2(k.delta), EncodeAll(k.ic)))
  {
    var blob := VkBlob(k);
    var head := EncodeG1(k.alpha) + EncodeG2(k.beta) + EncodeG2(k.gamma) + EncodeG2(k.delta) + ToBE(|k.ic|, 4);
    assert blob == head + Flat(EncodeAll(k.ic));
    assert blob[..64] == EncodeG1(k.alpha) && blob[VK_BETA..VK_GAMMA] == EncodeG2(k.beta);
    assert blob[VK_GAMMA..VK_DELTA] == EncodeG2(k.gamma) && blob[VK_DELTA..VK_N_IC] == EncodeG2(k.delta);
    assert blob[VK_N_IC..VK_IC0] == ToBE(|k.ic|, 4);
    assert Pow256(4) == 0x1_0000_0000;
    FromToBE(|k.ic|, 4);
    ChunksOfFlat(head, EncodeAll(k.ic), 64, |k.ic|);
    assert ReadBE(blob, VK_N_IC, 4) == |k.ic|;
    assert Chunks(blob, VK_IC0, 64, |k.ic|) == EncodeAll(k.ic);
  }

  ghost function DecodeVk(f: VkFields): VerifyingKey
    requires f.WellSized()
  {
    VerifyingKey(DecodeG1(f.alpha), DecodeG2(f.beta), DecodeG2(f.gamma), DecodeG2(f.delta),
                 seq(|f.ic|, i requires 0 <= i < |f.ic| => DecodeG1(f.ic[i])))
  }

  /** The key blob, read at the verifier's offsets, gives back the whole key. */
  lemma VkBlobParses(k: VerifyingKey)
    requires FitsG1(k.alpha) && FitsG2(k.beta) && FitsG2(k.gamma) && FitsG2(k.delta)
    requires |k.ic| <= U32_MAX && forall i :: 0 <= i < |k.ic| ==> FitsG1(k.ic[i])
    ensures ReadVk(VkBlob(k)).Some? && DecodeVk(ReadVk(VkBlob(k)).value) == k
  {
    VkBlobReads(k);
    G1RoundTrip(k.alpha);
    G2RoundTrip(k.beta);
    G2RoundTrip(k.gamma);
    G2RoundTrip(k.delta);
    forall i | 0 <= i < |k.ic| ensures DecodeG1(EncodeAll(k.ic)[i]) == k.ic[i] {
      G1RoundTrip(k.ic[i]);
    }
  }

  // ----- Field elements -----

  lemma PeelByte(n: nat, q: nat, digit: Byte, tail: Bytes, p: nat)
    requires n == q * 256 + digit && p == Pow256(|tail|)
    ensures q * (256 * p) + FromBE([digit] + tail) == n * p + FromBE(tail)
  {
    FromBEPrepend(digit, tail);
    Regroup(n, q, digit, p);
  }

  /** Fills the buffer from the last byte and throws (None) when something is left over. */
  method ToBE32(dec: nat) returns (out: Option<Bytes>)
    ensures out == if Fits(dec) then Some(ToBE(dec, 32)) else None
  {
    var buf := new Byte[32](_ => 0);
    var n: nat := dec;
    var i := 31;
    ghost var p := 1;
    while i >= 0
      invariant -1 <= i < 32
      invariant p == Pow256(|buf[i + 1..]|)
      invariant n * p + FromBE(buf[i + 1..]) == dec
    {
      ghost var tail := buf[i + 1..];
      buf[i] := n % 256;
      assert buf[i..] == [n % 256] + tail;
      PeelByte(n, n / 256, n % 256, tail, p);
      n := n / 256;
      i := i - 1;
      p := 256 * p;
    }
    assert buf[0..] == buf[..];
    ToFromBE(buf[..]);
    WordSize(buf.Length);
    if n != 0 {
      assert n * p >= p;
      return None;
    }
    return Some(buf[..]);
  }

  /** The node script also refuses anything outside the base field. */
  method ToBE32Checked(dec: nat) returns (out: Option<Bytes>)
    ensures out == if dec < P then Some(ToBE(dec, 32)) else None
  {
    if dec >= P { return None; }
    PrimeFits();
    out := ToBE32(dec);
  }

  // ----- The Rust host -----

  method PushG1(buf: Bytes, p: G1Point) returns (out: Bytes)
    ensures out == buf + EncodeG1(p)
  {
    out := buf + ToBE(p.x, 32);
    out := out + ToBE(p.y, 32);
  }

  method PushG2(buf: Bytes, p: G2Point) returns (out: Bytes)
    ensures out == buf + EncodeG2(p)
  {
    out := buf + ToBE(p.xc1, 32);
    out := out + ToBE(p.xc0, 32);
    out := out + ToBE(p.yc1, 32);
    out := out + ToBE(p.yc0, 32);
  }

  method HostVkBlob(k: VerifyingKey) returns (vk: Bytes)
    ensures vk == VkBlob(k)
  {
    vk := PushG1([], k.alpha);
    vk := PushG2(vk, k.beta);
    vk := PushG2(vk, k.gamma);
    vk := PushG2(vk, k.delta);
    vk := vk + ToBE(|k.ic|, 4);
    ghost var head := vk;
    for i := 0 to |k.ic|
      invariant vk == head + Flat(EncodeAll(k.ic[..i]))
    {
      vk := PushG1(vk, k.ic[i]);
      var now := EncodeAll(k.ic[..i + 1]);
      assert now[..i] == EncodeAll(k.ic[..i]) && now[i] == EncodeG1(k.ic[i]);
    }
    assert k.ic[..|k.ic|] == k.ic;
  }

  // ----- The browser and the node script -----

  /** One allocation, then each part copied at a running offset. */
  method Concat(parts: seq<Bytes>) returns (out: Bytes)
    ensures out == Flat(parts)
  {
    var len := 0;
    for i := 0 to |parts|
      invariant len == |Flat(parts[..i])|
    {
      assert parts[..i + 1][..i] == parts[..i];
      len := len + |parts[i]|;
    }
    var buf := new Byte[len](_ => 0);
    var off := 0;
    assert parts[..|parts|] == parts;
    for i := 0 to |parts|
      invariant off == |Flat(parts[..i])| <= len == |Flat(parts)|
      invariant buf[..off] == Flat(parts[..i])
    {
      assert parts[..i + 1][..i] == parts[..i];
      FlatPrefix(parts, i + 1);
      var p := parts[i];
      ghost var done := buf[..off];
      forall j | 0 <= j < |p| { buf[off + j] := p[j]; }
      assert buf[..off + |p|] == done + p;
      off := off + |p|;
    }
    return buf[..];
  }

  lemma {:induction false} FlatPrefix(parts: seq<Bytes>, i: nat)
    requires i <= |parts|
    ensures |Flat(parts[..i])| <= |Flat(parts)|
    decreases |parts|
  {
    if i < |parts| {
      FlatPrefix(parts[..|parts| - 1], i);
      assert parts[..|parts| - 1][..i] == parts[..i];
    } else {
      assert parts[..i] == parts;
    }
  }

  /** A snarkjs point: `[x, y, z]`, or `[[x.c0, x.c1], [y.c0, y.c1], ...]`. */
  ghost predicate ShapedG1(p: seq<nat>) { |p| >= 2 }
  ghost predicate ShapedG2(p: seq<seq<nat>>) { |p| >= 2 && |p[0]| >= 2 && |p[1]| >= 2 }

  ghost function AsG1(p: seq<nat>): G1Point
    requires ShapedG1(p)
  {
    G1Point(p[0], p[1])
  }

  ghost function AsG2(p: seq<seq<nat>>): G2Point
    requires ShapedG2(p)
  {
    G2Point(p[0][0], p[0][1], p[1][0], p[1][1])
  }

  method BrowserG1(p: seq<nat>) returns (out: Option<Bytes>)
    ensures out == if ShapedG1(p) && FitsG1(AsG1(p)) then Some(EncodeG1(AsG1(p))) else None
  {
    if |p| < 2 { return None; }
    var x := ToBE32(p[0]);
    var y := ToBE32(p[1]);
    if x.None? || y.None? { return None; }
    var b := Concat([x.value, y.value]);
    FlatTwo(x.value, y.value);
    return Some(b);
  }

  lemma FlatTwo(a: Bytes, b: Bytes)
    ensures Flat([a, b]) == a + b
  {
    assert [a, b][..1] == [a] && [a][..0] == [];
    assert Flat([a]) == Flat([]) + a;
  }

  lemma FlatFour(a: Bytes, b: Bytes, c: Bytes, d: Bytes)
    ensures Flat([a, b, c, d]) == a + b + c + d
  {
    FlatTwo(a, b);
    assert [a, b, c, d][..3] == [a, b, c] && [a, b, c][..2] == [a, b];
  }

  method BrowserG2(p: seq<seq<nat>>) returns (out: Option<Bytes>)
    ensures out == if ShapedG2(p) && FitsG2(AsG2(p)) then Some(EncodeG2(AsG2(p))) else None
  {
    if |p| < 2 || |p[0]| < 2 || |p[1]| < 2 { return None; }
    var xc1 := ToBE32(p[0][1]);
    var xc0 := ToBE32(p[0][0]);
    var yc1 := ToBE32(p[1][1]);
    var yc0 := ToBE32(p[1][0]);
    if xc1.None? || xc0.None? || yc1.None? || yc0.None? { return None; }
    var b := Concat([xc1.value, xc0.value, yc1.value, yc0.value]);
    FlatFour(xc1.value, xc0.value, yc1.value, yc0.value);
    return Some(b);
  }

  ghost predicate BrowserAccepts(piA: seq<nat>, piB: seq<seq<nat>>, piC: seq<nat>, signals: seq<nat>) {
    && |signals| > 0
    && ShapedG1(piA) && ShapedG2(piB) && ShapedG1(piC)
    && FitsG1(AsG1(piA)) && FitsG2(AsG2(piB)) && FitsG1(AsG1(piC))
    && forall i :: 0 <= i < |signals| ==> Fits(signals[i])
  }

  method EncodeSignals(signals: seq<nat>) returns (chunks: Option<seq<Bytes>>)
    ensures chunks == if forall i :: 0 <= i < |signals| ==> Fits(signals[i]) then Some(EncodeScalars(signals)) else None
  {
    var acc: seq<Bytes> := [];
    for i := 0 to |signals|
      invariant acc == EncodeScalars(signals[..i])
      invariant forall j :: 0 <= j < i ==> Fits(signals[j])
    {
      var b := ToBE32(signals[i]);
      if b.None? { return None; }
      acc := acc + [b.value];
    }
    assert signals[..|signals|] == signals;
    return Some(acc);
  }

  /** `proveIdentity` after snarkjs returned: the commitment bytes and the proof blob. */
  method BrowserProofBlob(piA: seq<nat>, piB: seq<seq<nat>>, piC: seq<nat>, signals: seq<nat>) returns (out: Option<(Bytes, Bytes)>)
    ensures out == if BrowserAccepts(piA, piB, piC, signals)
                   then Some((ToBE(signals[0], 32), ProofBlob(AsG1(piA), AsG2(piB), AsG1(piC), signals)))
                   else None
  {
    if |signals| == 0 { return None; }
    var nPubBuf: Bytes := [|signals| / 256 % 256, |signals| % 256];
    var a := BrowserG1(piA);
    var b := BrowserG2(piB);
    var c := BrowserG1(piC);
    var inputs := EncodeSignals(signals);
    if a.None? || b.None? || c.None? || inputs.None? { return None; }
    var proofBytes := Concat([a.value, b.value, c.value, nPubBuf] + inputs.value);
    FlatAppend([a.value, b.value, c.value, nPubBuf], inputs.value);
    FlatFour(a.value, b.value, c.value, nPubBuf);
    TwoByteCount(|signals|);
    assert ProofBlob(AsG1(piA), AsG2(piB), AsG1(piC), signals) == proofBytes;
    var commitment := ToBE32(signals[0]);
    return Some((commitment.value, proofBytes));
  }

  lemma TwoByteCount(n: nat)
    ensures ToBE(n, 2) == [n / 256 % 256, n % 256]
  {
    assert ToBE(n / 256, 1) == ToBE(n / 256 / 256, 0) + [n / 256 % 256];
  }

  lemma {:induction false} FlatAppend(a: seq<Bytes>, b: seq<Bytes>)
    ensures Flat(a + b) == Flat(a) + Flat(b)
  {
    if b == [] {
      assert a + b == a;
    } else {
      FlatAppend(a, b[..|b| - 1]);
      assert (a + b)[..|a + b| - 1] == a + b[..|b| - 1];
    }
  }

  /** The node script's key blob; it throws outside the base field and on a count over 32 bits. */
  method NodeVkBlob(k: VerifyingKey) returns (vk: Option<Bytes>)
    ensures vk.Some? <==> |k.ic| <= U32_MAX && InField(k)
    ensures vk.Some? ==> vk.value == VkBlob(k)
  {
    var alpha := NodeG1(k.alpha);
    var beta := NodeG2(k.beta);
    var gamma := NodeG2(k.gamma);
    var delta := NodeG2(k.delta);
    if |k.ic| > U32_MAX || alpha.None? || beta.None? || gamma.None? || delta.None? { return None; }
    var ics: seq<Bytes> := [];
    for i := 0 to |k.ic|
      invariant ics == EncodeAll(k.ic[..i])
      invariant forall j :: 0 <= j < i ==> G1InField(k.ic[j])
    {
      var p := NodeG1(k.ic[i]);
      if p.None? { return None; }
      ics := ics + [p.value];
    }
    assert k.ic[..|k.ic|] == k.ic;
    return Some(alpha.value + beta.value + gamma.value + delta.value + ToBE(|k.ic|, 4) + Flat(ics));
  }

  ghost predicate G1InField(p: G1Point) { p.x < P && p.y < P }
  ghost predicate G2InField(p: G2Point) { p.xc0 < P && p.xc1 < P && p.yc0 < P && p.yc1 < P }

  ghost predicate InField(k: VerifyingKey) {
    && G1InField(k.alpha) && G2InField(k.beta) && G2InField(k.gamma) && G2InField(k.delta)
    && forall i :: 0 <= i < |k.ic| ==> G1InField(k.ic[i])
  }

  method NodeG1(p: G1Point) returns (out: Option<Bytes>)
    ensures out == if G1InField(p) then Some(EncodeG1(p)) else None
  {
    var x := ToBE32Checked(p.x);
    var y := ToBE32Checked(p.y);
    if x.None? || y.None? { return None; }
    return Some(x.value + y.value);
  }

  method NodeG2(p: G2Point) returns (out: Option<Bytes>)
    ensures out == if G2InField(p) then Some(EncodeG2(p)) else None
  {
    var xc1 := ToBE32Checked(p.xc1);
    var xc0 := ToBE32Checked(p.xc0);
    var yc1 := ToBE32Checked(p.yc1);
    var yc0 := ToBE32Checked(p.yc0);
    if xc1.None? || xc0.None? || yc1.None? || yc0.None? { return None; }
    return Some(xc1.value + xc0.value + yc1.value + yc0.value);
  }

  ghost predicate NodeAccepts(nIc: nat, a: G1Point, b: G2Point, c: G1Point, pub: seq<nat>) {
    && |pub| + 1 == nIc && |pub| < 65536
    && G1InField(a) && G2InField(b) && G1InField(c)
    && forall i :: 0 <= i < |pub| ==> pub[i] < P
  }

  /** The node script's proof blob; it throws on a count mismatch, on a count over 16 bits, and on any
      number outside the base field. */
  method NodeProofBlob(nIc: nat, a: G1Point, b: G2Point, c: G1Point, pub: seq<nat>) returns (proof: Option<Bytes>)
    ensures proof == if NodeAccepts(nIc, a, b, c, pub) then Some(ProofBlob(a, b, c, pub)) else None
  {
    if |pub| + 1 != nIc || |pub| > 65535 { return None; }
    var piA := NodeG1(a);
    var piB := NodeG2(b);
    var piC := NodeG1(c);
    if piA.None? || piB.None? || piC.None? { return None; }
    var inputs: seq<Bytes> := [];
    for i := 0 to |pub|
      invariant inputs == EncodeScalars(pub[..i])
      invariant forall j :: 0 <= j < i ==> pub[j] < P
    {
      var x := ToBE32Checked(pub[i]);
      if x.None? { return None; }
      inputs := inputs + [x.value];
    }
    assert pub[..|pub|] == pub;
    return Some(piA.value + piB.value + piC.value + ToBE(|pub|, 2) + Flat(inputs));
  }

  /** The two blobs the node script writes decode to what they were made of, and pass the verifier's
      count check together. */
  lemma NodeBlobsFit(k: VerifyingKey, a: G1Point, b: G2Point, c: G1Point, pub: seq<nat>)
    requires InField(k) && NodeAccepts(|k.ic|, a, b, c, pub)
    ensures ReadVk(VkBlob(k)).Some? && ReadProof(ProofBlob(a, b, c, pub)).Some?
    ensures DecodeVk(ReadVk(VkBlob(k)).value) == k
    ensures DecodeProof(ReadProof(ProofBlob(a, b, c, pub)).value) == (a, b, c, pub)
    ensures |ReadVk(VkBlob(k)).value.ic| == |ReadProof(ProofBlob(a, b, c, pub)).value.inputs| + 1
  {
    PrimeFits();
    VkBlobParses(k);
    ProofBlobParses(a, b, c, pub);
  }

  // ----- Binding a proof to a wallet -----

  /** The browser's field element for a wallet: the digest accumulated big-endian, modulo R. */
  method AddrToFieldElement(host: Host, wallet: Address) returns (n: nat)
    ensures n == FromBE(host.sha(wallet)) % R
  {
    var digest := host.sha(wallet);
    n := 0;
    for i := 0 to |digest|
      invariant n == FromBE(digest[..i])
    {
      assert digest[..i + 1][..i] == digest[..i];
      n := n * 256 + digest[i];
    }
    assert digest[..|digest|] == digest;
    n := n % R;
  }

  /** The contract's field element for a wallet, as 32 big-endian bytes. */
  function AddrToFr(host: Host, wallet: Address): Bytes32 {
    ToBE(FromBE(host.sha(wallet)) % R, 32)
  }

  /** The identity-proof check of `register_wallet`. */
  ghost function IdentityGate(host: Host, vk: Bytes, proof: Bytes, c: Commitment, w: Address): Verdict {
    match Verify(host, vk, proof)
    case Panic => Panic
    case Reject => Reject
    case Accept =>
      match NthPublicInput(proof, 0)
      case None => Panic
      case Some(first) =>
        if first != c then Reject
        else
          match NthPublicInput(proof, 1)
          case None => Panic
          case Some(second) => if second != AddrToFr(host, w) then Reject else Accept
  }

  /** A proof the browser makes for `wallet` passes the gate for `wallet` and the commitment the
      browser reports exactly when its equation holds. */
  lemma HonestProofPasses(host: Host, vk: Bytes, piA: seq<nat>, piB: seq<seq<nat>>, piC: seq<nat>, signals: seq<nat>, w: Address)
    requires BrowserAccepts(piA, piB, piC, signals)
    requires |signals| == 2 && signals[1] == FromBE(host.sha(w)) % R
    ensures var proof := ProofBlob(AsG1(piA), AsG2(piB), AsG1(piC), signals);
            IdentityGate(host, vk, proof, ToBE(signals[0], 32), w) == Verify(host, vk, proof)
  {
    var proof := ProofBlob(AsG1(piA), AsG2(piB), AsG1(piC), signals);
    ProofBlobReads(AsG1(piA), AsG2(piB), AsG1(piC), signals);
    NthInputOfRead(proof, 0);
    NthInputOfRead(proof, 1);
  }

  /** One byte string is accepted for one commitment only, and for two wallets only if their address
      digests agree modulo the group order. */
  lemma ProofServesOneWallet(host: Host, vk: Bytes, proof: Bytes, c: Commitment, c': Commitment, w: Address, w': Address)
    requires IdentityGate(host, vk, proof, c, w) == Accept
    requires IdentityGate(host, vk, proof, c', w') == Accept
    ensures c == c'
    ensures FromBE(host.sha(w)) % R == FromBE(host.sha(w')) % R
  {
    PrimeFits();
    WordRoundTrip(FromBE(host.sha(w)) % R);
    WordRoundTrip(FromBE(host.sha(w')) % R);
  }

  // ----- Three points, many inputs -----

  /** The three points of a proof, sent with the inputs the gate asks for, join `w` to `c`. */
  ghost predicate Joins(host: Host, vk: Bytes, a: G1Point, b: G2Point, d: G1Point, c: Commitment, w: Address) {
    IdentityGate(host, vk, ProofBlob(a, b, d, [FromBE(c), FromBE(AddrToFr(host, w))]), c, w) == Accept
  }

  function Points(a: G1Point, b: G2Point, d: G1Point, inputs: seq<Bytes>): ProofFields {
    ProofFields(EncodeG1(a), EncodeG2(b), EncodeG1(d), inputs)
  }

  /** The right-hand side of the Groth16 equation of a two-input key, linear in each input. */
  function RightSide(ab: nat, ic: seq<nat>, n: nat, m: nat, gamma: nat, cd: nat): nat
    requires |ic| == 3
  {
    (ab + (ic[0] + n * ic[1] + m * ic[2]) * gamma + cd) % R
  }

  ghost predicate Holds(host: Host, k: VkFields, a: G1Point, b: G2Point, d: G1Point, n: nat, m: nat)
    requires |k.ic| == 3 && PointsValid(host, k, Points(a, b, d, []))
  {
    (host.g1(EncodeG1(a)).value * host.g2(EncodeG2(b)).value) % R
    == RightSide(host.g1(k.alpha).value * host.g2(k.beta).value, Logs(host, k.ic), n, m, host.g2(k.gamma).value,
                 host.g1(EncodeG1(d)).value * host.g2(k.delta).value)
  }

  lemma TwoInputs(ic: seq<nat>, n: nat, m: nat)
    requires |ic| == 3
    ensures VkX(ic, [n, m]) == ic[0] + n * ic[1] + m * ic[2]
  {
    assert [n, m][..1] == [n] && [n][..0] == [] && ic[..2][..1] == ic[..1];
    assert VkX(ic[..1], []) == ic[0];
    assert VkX(ic[..2], [n]) == VkX(ic[..1], []) + n * ic[1];
  }

  lemma EncodeTwo(n: nat, m: nat)
    ensures EncodeScalars([n, m]) == [ToBE(n, 32), ToBE(m, 32)]
    ensures EncodeScalars([n, m])[..|[n, m]| % 65536] == EncodeScalars([n, m])
  {
  }

  lemma TwoInputBlobReads(a: G1Point, b: G2Point, d: G1Point, n: nat, m: nat)
    ensures ReadProof(ProofBlob(a, b, d, [n, m])) == Some(Points(a, b, d, [ToBE(n, 32), ToBE(m, 32)]))
  {
    ProofBlobReads(a, b, d, [n, m]);
    EncodeTwo(n, m);
  }

  /** Both comparisons of the gate pass, so it decides as the verifier does. */
  lemma JoinsIffVerifies(host: Host, vk: Bytes, a: G1Point, b: G2Point, d: G1Point, c: Commitment, w: Address)
    ensures var proof := ProofBlob(a, b, d, [FromBE(c), FromBE(AddrToFr(host, w))]);
            Joins(host, vk, a, b, d, c, w) <==> Verify(host, vk, proof) == Accept
  {
    var proof := ProofBlob(a, b, d, [FromBE(c), FromBE(AddrToFr(host, w))]);
    ToFromBE(c);
    ToFromBE(AddrToFr(host, w));
    TwoInputBlobReads(a, b, d, FromBE(c), FromBE(AddrToFr(host, w)));
    NthInputOfRead(proof, 0);
    NthInputOfRead(proof, 1);
  }

  lemma EquationOfTwo(host: Host, k: VkFields, a: G1Point, b: G2Point, d: G1Point, n: nat, m: nat, inputs: seq<Bytes>)
    requires |k.ic| == 3 && |inputs| == 2 && Scalars(inputs) == [n, m]
    requires PointsValid(host, k, Points(a, b, d, []))
    ensures Equation(host, k, Points(a, b, d, inputs)) <==> Holds(host, k, a, b, d, n, m)
  {
    TwoInputs(Logs(host, k.ic), n, m);
  }

  lemma VerifiesIffHolds(host: Host, vk: Bytes, a: G1Point, b: G2Point, d: G1Point, n: nat, m: nat)
    requires n < WORD && m < WORD
    ensures Verify(host, vk, ProofBlob(a, b, d, [n, m])) == Accept
            <==> var k := ReadVk(vk);
                 k.Some? && |k.value.ic| == 3 && PointsValid(host, k.value, Points(a, b, d, [])) && Holds(host, k.value, a, b, d, n, m)
  {
    var inputs: seq<Bytes> := [ToBE(n, 32), ToBE(m, 32)];
    TwoInputBlobReads(a, b, d, n, m);
    WordRoundTrip(n);
    WordRoundTrip(m);
    assert Scalars(inputs) == [n, m];
    if ReadVk(vk).Some? && |ReadVk(vk).value.ic| == 3 && PointsValid(host, ReadVk(vk).value, Points(a, b, d, [])) {
      EquationOfTwo(host, ReadVk(vk).value, a, b, d, n, m, inputs);
    }
  }

  lemma BelowWord(b: Bytes32)
    ensures FromBE(b) < WORD
  {
    PrimeFits();
    ToFromBE(b);
  }

  /** The gate is the equation at the commitment's value and the wallet's field element. */
  lemma JoinsIff(host: Host, vk: Bytes, a: G1Point, b: G2Point, d: G1Point, c: Commitment, w: Address)
    ensures Joins(host, vk, a, b, d, c, w)
            <==> var k := ReadVk(vk);
                 k.Some? && |k.value.ic| == 3 && PointsValid(host, k.value, Points(a, b, d, []))
                 && Holds(host, k.value, a, b, d, FromBE(c), FromBE(AddrToFr(host, w)))
  {
    BelowWord(c);
    BelowWord(AddrToFr(host, w));
    JoinsIffVerifies(host, vk, a, b, d, c, w);
    VerifiesIffHolds(host, vk, a, b, d, FromBE(c), FromBE(AddrToFr(host, w)));
  }

  ghost predicate IsInverse(g: nat, inverse: nat) { (g * inverse) % R == 1 }

  /** An exponent other than the identity's has an inverse, the group order being prime. */
  ghost predicate Invertible(g: nat) { exists inverse: nat :: IsInverse(g, inverse) }

  lemma SwapFactors(x: int, m: int, y: int)
    ensures (x * m) * y == (x * y) * m
  {
  }

  lemma MultipleTimes(x: int, g: int)
    requires x % R == 0
    ensures (x * g) % R == 0
  {
    var q := x / R;
    assert x == q * R;
    SwapFactors(q, R, g);
    AddMultiple(0, q * g, R);
  }

  lemma CancelFactor(x: int, g: nat, inverse: nat)
    requires (x * g) % R == 0 && IsInverse(g, inverse)
    ensures x % R == 0
  {
    var product, unit := x * g, g * inverse;
    var t := unit / R;
    assert unit == 1 + t * R;
    MultipleTimes(product, inverse);
    Associate(x, g, inverse);
    assert product * inverse == x * unit;
    TimesUnit(x, unit, t);
    AddMultiple(x, x * t, R);
  }

  lemma TimesUnit(x: int, unit: int, t: int)
    requires unit == 1 + t * R
    ensures x * unit == x + (x * t) * R
  {
    Associate(x, t, R);
    assert x * (1 + t * R) == x + x * (t * R);
  }

  lemma DifferenceTimes(base: int, n: int, n': int, g: int)
    ensures (base + n * g) - (base + n' * g) == (n - n') * g
  {
  }

  /** Moving one input of a sum with coefficient `g`: the sum is the same modulo the order if the input
      is, and with an invertible coefficient only then. */
  lemma MovedInput(base: nat, n: nat, n': nat, g: nat)
    ensures n % R == n' % R || g % R == 0 ==> (base + n * g) % R == (base + n' * g) % R
    ensures Invertible(g) && (base + n * g) % R == (base + n' * g) % R ==> n % R == n' % R
  {
    var x := n - n';
    var y, y' := base + n * g, base + n' * g;
    DifferenceTimes(base, n, n', g);
    CongruentIff(n, n', R);
    CongruentIff(y, y', R);
    MovedDifference(x, g);
  }

  lemma MovedDifference(x: int, g: nat)
    ensures x % R == 0 || g % R == 0 ==> (x * g) % R == 0
    ensures Invertible(g) && (x * g) % R == 0 ==> x % R == 0
  {
    if x % R == 0 {
      MultipleTimes(x, g);
    }
    if g % R == 0 {
      MultipleTimes(g, x);
      Commute(g, x);
    }
    if Invertible(g) && (x * g) % R == 0 {
      var inverse :| IsInverse(g, inverse);
      CancelFactor(x, g, inverse);
    }
  }

  lemma Commute(x: int, y: int)
    ensures x * y == y * x
  {
  }

  lemma Rearranged(ab: nat, i0: nat, i1: nat, i2: nat, n: nat, m: nat, gamma: nat, cd: nat)
    ensures ab + (i0 + n * i1 + m * i2) * gamma + cd == (ab + (i0 + m * i2) * gamma + cd) + n * (i1 * gamma)
    ensures ab + (i0 + n * i1 + m * i2) * gamma + cd == (ab + (i0 + n * i1) * gamma + cd) + m * (i2 * gamma)
  {
    assert (i0 + n * i1 + m * i2) * gamma == i0 * gamma + (n * i1) * gamma + (m * i2) * gamma;
    assert (i0 + m * i2) * gamma == i0 * gamma + (m * i2) * gamma;
    assert (i0 + n * i1) * gamma == i0 * gamma + (n * i1) * gamma;
    assert (n * i1) * gamma == n * (i1 * gamma) && (m * i2) * gamma == m * (i2 * gamma);
  }

  lemma FirstInputMoves(ab: nat, ic: seq<nat>, n: nat, n': nat, m: nat, gamma: nat, cd: nat)
    requires |ic| == 3
    ensures n % R == n' % R || (ic[1] * gamma) % R == 0 ==> RightSide(ab, ic, n, m, gamma, cd) == RightSide(ab, ic, n', m, gamma, cd)
    ensures Invertible(ic[1] * gamma) && RightSide(ab, ic, n, m, gamma, cd) == RightSide(ab, ic, n', m, gamma, cd) ==> n % R == n' % R
  {
    Rearranged(ab, ic[0], ic[1], ic[2], n, m, gamma, cd);
    Rearranged(ab, ic[0], ic[1], ic[2], n', m, gamma, cd);
    MovedInput(ab + (ic[0] + m * ic[2]) * gamma + cd, n, n', ic[1] * gamma);
  }

  lemma SecondInputMoves(ab: nat, ic: seq<nat>, n: nat, m: nat, m': nat, gamma: nat, cd: nat)
    requires |ic| == 3
    ensures m % R == m' % R ==> RightSide(ab, ic, n, m, gamma, cd) == RightSide(ab, ic, n, m', gamma, cd)
    ensures Invertible(ic[2] * gamma) && RightSide(ab, ic, n, m, gamma, cd) == RightSide(ab, ic, n, m', gamma, cd) ==> m % R == m' % R
  {
    Rearranged(ab, ic[0], ic[1], ic[2], n, m, gamma, cd);
    Rearranged(ab, ic[0], ic[1], ic[2], n, m', gamma, cd);
    MovedInput(ab + (ic[0] + n * ic[1]) * gamma + cd, m, m', ic[2] * gamma);
  }

  /** The coefficient of an input in the equation. */
  ghost function Coefficient(host: Host, k: VkFields, i: nat): nat
    requires AllG1(host, k.ic) && host.g2(k.gamma).Some? && i < |k.ic|
  {
    Logs(host, k.ic)[i] * host.g2(k.gamma).value
  }

  /** A key of two inputs, points that decode, and the equation's value at both pairs of inputs. */
  lemma HoldsMoves(host: Host, k: VkFields, a: G1Point, b: G2Point, d: G1Point, n: nat, n': nat, m: nat, m': nat)
    requires |k.ic| == 3 && PointsValid(host, k, Points(a, b, d, [])) && Holds(host, k, a, b, d, n, m)
    ensures n % R == n' % R || Coefficient(host, k, 1) % R == 0 ==> Holds(host, k, a, b, d, n', m)
    ensures Invertible(Coefficient(host, k, 1)) && Holds(host, k, a, b, d, n', m) ==> n % R == n' % R
    ensures m % R == m' % R ==> Holds(host, k, a, b, d, n, m')
    ensures Invertible(Coefficient(host, k, 2)) && Holds(host, k, a, b, d, n, m') ==> m % R == m' % R
  {
    var ab, cd := host.g1(k.alpha).value * host.g2(k.beta).value, host.g1(EncodeG1(d)).value * host.g2(k.delta).value;
    FirstInputMoves(ab, Logs(host, k.ic), n, n', m, host.g2(k.gamma).value, cd);
    SecondInputMoves(ab, Logs(host, k.ic), n, m, m', host.g2(k.gamma).value, cd);
  }

  /** Points that join a wallet to one commitment join it to every commitment congruent to it modulo
      the group order and, for a key whose commitment input counts, to no other. */
  lemma CommitmentsOfOneProof(host: Host, vk: Bytes, a: G1Point, b: G2Point, d: G1Point, c: Commitment, c': Commitment, w: Address)
    requires Joins(host, vk, a, b, d, c, w)
    ensures ReadVk(vk).Some? && |ReadVk(vk).value.ic| == 3 && PointsValid(host, ReadVk(vk).value, Points(a, b, d, []))
    ensures FromBE(c) % R == FromBE(c') % R ==> Joins(host, vk, a, b, d, c', w)
    ensures Invertible(Coefficient(host, ReadVk(vk).value, 1)) ==>
              (Joins(host, vk, a, b, d, c', w) <==> FromBE(c) % R == FromBE(c') % R)
    ensures Coefficient(host, ReadVk(vk).value, 1) % R == 0 ==> Joins(host, vk, a, b, d, c', w)
  {
    JoinsIff(host, vk, a, b, d, c, w);
    JoinsIff(host, vk, a, b, d, c', w);
    var m := FromBE(AddrToFr(host, w));
    HoldsMoves(host, ReadVk(vk).value, a, b, d, FromBE(c), FromBE(c'), m, m);
  }

  /** And they join two wallets to one commitment, for a key whose wallet input counts, exactly when
      the wallets' address digests agree modulo the order. */
  lemma WalletsOfOneProof(host: Host, vk: Bytes, a: G1Point, b: G2Point, d: G1Point, c: Commitment, w: Address, w': Address)
    requires Joins(host, vk, a, b, d, c, w)
    ensures ReadVk(vk).Some? && |ReadVk(vk).value.ic| == 3 && PointsValid(host, ReadVk(vk).value, Points(a, b, d, []))
    ensures Invertible(Coefficient(host, ReadVk(vk).value, 2)) ==>
              (Joins(host, vk, a, b, d, c, w') <==> FromBE(host.sha(w)) % R == FromBE(host.sha(w')) % R)
  {
    JoinsIff(host, vk, a, b, d, c, w);
    JoinsIff(host, vk, a, b, d, c, w');
    FieldElement(host, w);
    FieldElement(host, w');
    HoldsMoves(host, ReadVk(vk).value, a, b, d, FromBE(c), FromBE(c), FromBE(AddrToFr(host, w)), FromBE(AddrToFr(host, w')));
  }

  lemma ShiftIsCongruent(n: nat)
    requires n + R < WORD
    ensures FromBE(ToBE(n, 32)) != FromBE(ToBE(n + R, 32)) && FromBE(ToBE(n, 32)) % R == FromBE(ToBE(n + R, 32)) % R
  {
    WordRoundTrip(n);
    WordRoundTrip(n + R);
    AddMultiple(n, 1, R);
  }

  /** So one proof can name two commitments: adding the group order changes the bytes and nothing the
      equation sees. */
  lemma ShiftedCommitmentJoins(host: Host, vk: Bytes, a: G1Point, b: G2Point, d: G1Point, n: nat, w: Address)
    requires n + R < WORD
    ensures ToBE(n, 32) != ToBE(n + R, 32)
    ensures Joins(host, vk, a, b, d, ToBE(n, 32), w) <==> Joins(host, vk, a, b, d, ToBE(n + R, 32), w)
  {
    var c, c' := ToBE(n, 32), ToBE(n + R, 32);
    ShiftIsCongruent(n);
    if Joins(host, vk, a, b, d, c, w) {
      CommitmentsOfOneProof(host, vk, a, b, d, c, c', w);
    }
    if Joins(host, vk, a, b, d, c', w) {
      CommitmentsOfOneProof(host, vk, a, b, d, c', c, w);
    }
  }

  lemma FieldElement(host: Host, w: Address)
    ensures FromBE(AddrToFr(host, w)) == FromBE(host.sha(w)) % R == FromBE(AddrToFr(host, w)) % R
  {
    PrimeFits();
    WordRoundTrip(FromBE(host.sha(w)) % R);
  }
}
