/** Fixed-width integer encodings and the modular arithmetic the verifiers rest on. */
module Encoding {
  import opened Common

  function Pow256(n: nat): (p: nat)
    ensures p > 0
  {
    if n == 0 then 1 else 256 * Pow256(n - 1)
  }

  function FromBE(b: Bytes): nat {
    if b == [] then 0 else FromBE(b[..|b| - 1]) * 256 + b[|b| - 1]
  }

  function ToBE(n: nat, width: nat): (b: Bytes)
    ensures |b| == width
  {
    if width == 0 then [] else ToBE(n / 256, width - 1) + [n % 256]
  }

  function FromLE(b: Bytes): nat {
    if b == [] then 0 else b[0] + 256 * FromLE(b[1..])
  }

  function ToLE(n: nat, width: nat): (b: Bytes)
    ensures |b| == width
  {
    if width == 0 then [] else [n % 256] + ToLE(n / 256, width - 1)
  }

  function Reverse(b: Bytes): (r: Bytes)
    ensures |r| == |b|
    ensures forall i :: 0 <= i < |b| ==> r[i] == b[|b| - 1 - i]
  {
    if b == [] then [] else [b[|b| - 1]] + Reverse(b[..|b| - 1])
  }

  lemma ReverseTwice(b: Bytes)
    ensures Reverse(Reverse(b)) == b
  {
  }

  // ----- Big-endian -----

  lemma {:induction false} FromToBE(n: nat, width: nat)
    requires n < Pow256(width)
    ensures FromBE(ToBE(n, width)) == n
  {
    if width > 0 {
      FromToBE(n / 256, width - 1);
      var b := ToBE(n, width);
      assert b[..|b| - 1] == ToBE(n / 256, width - 1);
    }
  }

  lemma {:induction false} ToFromBE(b: Bytes)
    ensures FromBE(b) < Pow256(|b|)
    ensures ToBE(FromBE(b), |b|) == b
  {
    if b != [] {
      ToFromBE(b[..|b| - 1]);
    }
  }

  lemma Associate(x: int, y: int, z: int)
    ensures x * (y * z) == (x * y) * z
  {
  }

  lemma {:induction false} FromBEConcat(a: Bytes, b: Bytes)
    ensures FromBE(a + b) == FromBE(a) * Pow256(|b|) + FromBE(b)
  {
    if b == [] {
      assert a + b == a;
    } else {
      var front := b[..|b| - 1];
      FromBEConcat(a, front);
      assert (a + b)[..|a + b| - 1] == a + front;
      Associate(256, FromBE(a), Pow256(|front|));
      Associate(FromBE(a), 256, Pow256(|front|));
    }
  }

  lemma {:induction false} FromBEPrepend(digit: Byte, tail: Bytes)
    ensures FromBE([digit] + tail) == digit * Pow256(|tail|) + FromBE(tail)
  {
    var b := [digit] + tail;
    if tail == [] {
      assert b[..0] == [];
    } else {
      FromBEPrepend(digit, tail[..|tail| - 1]);
      assert b[..|b| - 1] == [digit] + tail[..|tail| - 1];
      assert digit * (256 * Pow256(|tail| - 1)) == 256 * (digit * Pow256(|tail| - 1));
    }
  }

  lemma {:induction false} FromBEZeros(z: nat, b: Bytes)
    ensures FromBE(seq(z, _ => 0) + b) == FromBE(b)
  {
    ZerosValue(z);
    FromBEConcat(seq(z, _ => 0), b);
  }

  lemma {:induction false} ZerosValue(z: nat)
    ensures FromBE(seq(z, _ => 0)) == 0
  {
    if z > 0 {
      ZerosValue(z - 1);
      var s: Bytes := seq(z, _ => 0);
      assert s[..z - 1] == seq(z - 1, _ => 0);
    }
  }

  // ----- Little-endian -----

  lemma {:induction false} FromToLE(n: nat, width: nat)
    requires n < Pow256(width)
    ensures FromLE(ToLE(n, width)) == n
  {
    if width > 0 {
      FromToLE(n / 256, width - 1);
      assert ToLE(n, width)[1..] == ToLE(n / 256, width - 1);
    }
  }

  lemma {:induction false} ReverseSwapsEndian(b: Bytes)
    ensures FromBE(Reverse(b)) == FromLE(b)
  {
    if b != [] {
      ReverseSwapsEndian(b[1..]);
      assert Reverse(b) == Reverse(b[1..]) + [b[0]];
      var r := Reverse(b);
      assert r[..|r| - 1] == Reverse(b[1..]);
    }
  }

  // ----- Sequences of equal-sized chunks -----

  function Flat(chunks: seq<Bytes>): Bytes {
    if chunks == [] then [] else Flat(chunks[..|chunks| - 1]) + chunks[|chunks| - 1]
  }

  ghost predicate Sized(chunks: seq<Bytes>, k: nat) {
    forall i :: 0 <= i < |chunks| ==> |chunks[i]| == k
  }

  lemma {:induction false} FlatLength(chunks: seq<Bytes>, k: nat)
    requires Sized(chunks, k)
    ensures |Flat(chunks)| == k * |chunks|
  {
    if chunks != [] {
      FlatLength(chunks[..|chunks| - 1], k);
      assert k * |chunks| == k * (|chunks| - 1) + k;
    }
  }

  /** The `i`-th chunk sits at offset `k * i`. */
  lemma {:induction false} FlatChunk(chunks: seq<Bytes>, k: nat, i: nat)
    requires Sized(chunks, k) && i < |chunks|
    ensures 0 <= k * i <= k * i + k <= |Flat(chunks)|
    ensures Flat(chunks)[k * i..k * i + k] == chunks[i]
  {
    var front := chunks[..|chunks| - 1];
    FlatLength(chunks, k);
    FlatLength(front, k);
    if i < |chunks| - 1 {
      FlatChunk(front, k, i);
      assert Flat(chunks)[k * i..k * i + k] == Flat(front)[k * i..k * i + k];
    } else {
      assert k * i == |Flat(front)|;
    }
  }

  lemma {:induction false} FlatInjective(a: seq<Bytes>, b: seq<Bytes>, k: nat)
    requires Sized(a, k) && Sized(b, k) && |a| == |b| && Flat(a) == Flat(b)
    ensures a == b
  {
    forall i | 0 <= i < |a| ensures a[i] == b[i] {
      FlatChunk(a, k, i);
      FlatChunk(b, k, i);
    }
  }

  // ----- Congruence -----

  lemma SmallMultipleIsZero(k: int, m: int)
    requires m > 0 && -m < k * m < m
    ensures k == 0
  {
  }

  lemma AddMultiple(x: int, q: int, m: int)
    requires m > 0
    ensures (x + q * m) % m == x % m
  {
    var y := x + q * m;
    assert x == (x / m) * m + x % m;
    assert y == (y / m) * m + y % m;
    assert (y / m - x / m - q) * m == x % m - y % m;
    SmallMultipleIsZero(y / m - x / m - q, m);
  }

  lemma CongruentIff(x: int, y: int, m: int)
    requires m > 0
    ensures x % m == y % m <==> (x - y) % m == 0
  {
    if x % m == y % m {
      assert x - y == 0 + (x / m - y / m) * m;
      AddMultiple(0, x / m - y / m, m);
    }
    if (x - y) % m == 0 {
      assert x == y + ((x - y) / m) * m;
      AddMultiple(y, (x - y) / m, m);
    }
  }
}
