/** RISC Zero receipts: the tagged SHA-256 preimages of a claim, the split of its digest into two
    scalars, the proof blob built around the seal, and the 72-byte journal with its guest-side
    writer.  SHA-256 is any function, so injectivity is stated as "equal, or here is a collision". */
module Receipt {
  import opened Common
  import opened Encoding
  import opened Groth16
  import opened ProofBlobs

  type Sha = Bytes -> Bytes32

  function Zeros(n: nat): (b: Bytes)
    ensures |b| == n
  {
    seq(n, _ => 0)
  }

  // ----- Tagged structures -----

  /** `sha(tag) | children (32 bytes each) | words (u32, little-endian) | child count (u16, little-endian)`. */
  function Preimage(sha: Sha, tag: Bytes, down: seq<Bytes32>, data: seq<nat>): Bytes {
    sha(tag) + Flat(down) + Flat(Words(data)) + ToLE(|down|, 2)
  }

  function Words(data: seq<nat>): (chunks: seq<Bytes>)
    ensures |chunks| == |data| && Sized(chunks, 4)
  {
    seq(|data|, i requires 0 <= i < |data| => ToLE(data[i], 4))
  }

  method TaggedStruct(sha: Sha, tag: Bytes, down: seq<Bytes32>, data: seq<nat>) returns (digest: Bytes32)
    ensures digest == sha(Preimage(sha, tag, down, data))
  {
    var buf: Bytes := sha(tag);
    for i := 0 to |down|
      invariant buf == sha(tag) + Flat(down[..i])
    {
      assert down[..i + 1][..i] == down[..i];
      buf := buf + down[i];
    }
    assert down[..|down|] == down;
    ghost var head := buf;
    for i := 0 to |data|
      invariant buf == head + Flat(Words(data[..i]))
    {
      assert Words(data[..i + 1])[..i] == Words(data[..i]);
      buf := buf + ToLE(data[i], 4);
    }
    assert data[..|data|] == data;
    buf := buf + ToLE(|down|, 2);
    return sha(buf);
  }

  /** With fewer than 65536 children and 32-bit words, a preimage has one reading. */
  lemma PreimageDecodesUniquely(sha: Sha, tag: Bytes, down: seq<Bytes32>, data: seq<nat>, tag': Bytes, down': seq<Bytes32>, data': seq<nat>)
    requires |down| < 65536 && |down'| < 65536
    requires forall w :: w in data || w in data' ==> w <= U32_MAX
    requires Preimage(sha, tag, down, data) == Preimage(sha, tag', down', data')
    ensures sha(tag) == sha(tag') && down == down' && data == data'
  {
    var p, p' := Preimage(sha, tag, down, data), Preimage(sha, tag', down', data');
    SameLastTwo(sha(tag) + Flat(down) + Flat(Words(data)), ToLE(|down|, 2), sha(tag') + Flat(down') + Flat(Words(data')), ToLE(|down'|, 2));
    assert Pow256(2) == 65536;
    FromToLE(|down|, 2);
    FromToLE(|down'|, 2);
    FlatLength(down, 32);
    FlatLength(down', 32);
    SameHead(sha(tag) + Flat(down), Flat(Words(data)), sha(tag') + Flat(down'), Flat(Words(data')));
    SameHead(sha(tag), Flat(down), sha(tag'), Flat(down'));
    FlatInjective(down, down', 32);
    WordsInjective(data, data');
  }

  lemma SameHead(a: Bytes, b: Bytes, a': Bytes, b': Bytes)
    requires |a| == |a'| && a + b == a' + b'
    ensures a == a' && b == b'
  {
    assert a == (a + b)[..|a|] && b == (a + b)[|a|..];
    assert a' == (a' + b')[..|a|] && b' == (a' + b')[|a|..];
  }

  lemma SameLastTwo(a: Bytes, b: Bytes, a': Bytes, b': Bytes)
    requires |b| == |b'| && a + b == a' + b'
    ensures a == a' && b == b'
  {
    assert |a| == |a'|;
    SameHead(a, b, a', b');
  }

  lemma WordsInjective(data: seq<nat>, data': seq<nat>)
    requires forall w :: w in data || w in data' ==> w <= U32_MAX
    requires Flat(Words(data)) == Flat(Words(data'))
    ensures data == data'
  {
    FlatLength(Words(data), 4);
    FlatLength(Words(data'), 4);
    FlatInjective(Words(data), Words(data'), 4);
    assert Pow256(4) == 0x1_0000_0000;
    forall i | 0 <= i < |data| ensures data[i] == data'[i] {
      assert data[i] in data && data'[i] in data';
      FromToLE(data[i], 4);
      FromToLE(data'[i], 4);
      assert Words(data)[i] == Words(data')[i];
    }
  }

  // ----- Claims -----

  const TAG_STATE: Bytes := [114, 105, 115, 99, 48, 46, 83, 121, 115, 116, 101, 109, 83, 116, 97, 116, 101]
  const TAG_OUTPUT: Bytes := [114, 105, 115, 99, 48, 46, 79, 117, 116, 112, 117, 116]
  const TAG_CLAIM: Bytes := [114, 105, 115, 99, 48, 46, 82, 101, 99, 101, 105, 112, 116, 67, 108, 97, 105, 109]

  function PostDigest(sha: Sha): Bytes32 {
    sha(Preimage(sha, TAG_STATE, [Zeros(32)], [0]))
  }

  function OutputPreimage(sha: Sha, journalDigest: Bytes32): Bytes {
    Preimage(sha, TAG_OUTPUT, [journalDigest, Zeros(32)], [])
  }

  function ClaimPreimage(sha: Sha, imageId: Bytes32, journalDigest: Bytes32): Bytes {
    Preimage(sha, TAG_CLAIM, [Zeros(32), imageId, PostDigest(sha), sha(OutputPreimage(sha, journalDigest))], [0, 0])
  }

  function ClaimDigest(sha: Sha, imageId: Bytes32, journalDigest: Bytes32): Bytes32 {
    sha(ClaimPreimage(sha, imageId, journalDigest))
  }

  /** The bytes of an ASCII text. */
  function Ascii(text: string): (b: Bytes)
    requires forall i :: 0 <= i < |text| ==> text[i] < 128 as char
    ensures |b| == |text|
  {
    seq(|text|, i requires 0 <= i < |text| => text[i] as int)
  }

  lemma FlatOfFour(a: Bytes32, b: Bytes32, c: Bytes32, d: Bytes32)
    ensures Flat([a, b, c, d]) == a + b + c + d && Flat([a, b]) == a + b && Flat([a]) == a
  {
    assert [a, b, c, d][..3] == [a, b, c] && [a, b, c][..2] == [a, b] && [a, b][..1] == [a] && [a][..0] == [];
    assert Flat([a]) == Flat([]) + a;
    assert Flat([a, b]) == Flat([a]) + b && Flat([a, b, c]) == Flat([a, b]) + c && Flat([a, b, c, d]) == Flat([a, b, c]) + d;
  }

  lemma ZeroWords()
    ensures Flat(Words([])) == [] && Flat(Words([0])) == Zeros(4) && Flat(Words([0, 0])) == Zeros(8)
    ensures ToLE(1, 2) == [1, 0] && ToLE(2, 2) == [2, 0] && ToLE(4, 2) == [4, 0]
  {
    var w := ToLE(0, 4);
    assert w == Zeros(4);
    assert Words([]) == [] && Words([0]) == [w] && Words([0, 0]) == [w, w];
    var none: seq<Bytes> := [];
    assert [w][..0] == none && [w, w][..1] == [w];
    assert Flat([w]) == Flat(none) + w && Flat([w, w]) == Flat([w]) + w;
  }

  lemma TagTexts()
    ensures TAG_STATE == Ascii("risc0.SystemState") && TAG_OUTPUT == Ascii("risc0.Output") && TAG_CLAIM == Ascii("risc0.ReceiptClaim")
  {
  }

  /** The three hashed buffers, byte for byte: the claim's 170 bytes are its tag, the zero input digest, the
      image id as pre-state, the post-state digest, the output digest, two zero exit words and the child
      count; the post state's are a zero Merkle root and a zero program counter; the output's the journal
      digest and a zero assumptions digest. */
  lemma ClaimLayout(sha: Sha, imageId: Bytes32, journalDigest: Bytes32)
    ensures var post := sha(sha(Ascii("risc0.SystemState")) + Zeros(32) + Zeros(4) + [1, 0]);
            var output := sha(sha(Ascii("risc0.Output")) + journalDigest + Zeros(32) + [2, 0]);
            ClaimDigest(sha, imageId, journalDigest)
            == sha(sha(Ascii("risc0.ReceiptClaim")) + Zeros(32) + imageId + post + output + Zeros(8) + [4, 0])
  {
    TagTexts();
    ZeroWords();
    var out := sha(OutputPreimage(sha, journalDigest));
    FlatOfFour(Zeros(32), imageId, PostDigest(sha), out);
    FlatOfFour(journalDigest, Zeros(32), imageId, imageId);
    var state, end: Bytes := sha(TAG_STATE), [1, 0];
    assert Preimage(sha, TAG_STATE, [Zeros(32)], [0]) == state + Zeros(32) + Zeros(4) + end;
    var tagged, end': Bytes := sha(TAG_OUTPUT), [2, 0];
    assert OutputPreimage(sha, journalDigest) == tagged + journalDigest + Zeros(32) + end';
    var claim, end'': Bytes := sha(TAG_CLAIM), [4, 0];
    assert ClaimPreimage(sha, imageId, journalDigest) == claim + Zeros(32) + imageId + PostDigest(sha) + out + Zeros(8) + end'';
  }

  ghost predicate Collides(sha: Sha, x: Bytes, y: Bytes) {
    x != y && sha(x) == sha(y)
  }

  /** Equal claim digests come from the same image and journal, or from one of three named collisions. */
  lemma ClaimBinds(sha: Sha, imageId: Bytes32, journal: Bytes, imageId': Bytes32, journal': Bytes)
    requires ClaimDigest(sha, imageId, sha(journal)) == ClaimDigest(sha, imageId', sha(journal'))
    ensures || (imageId == imageId' && journal == journal')
            || Collides(sha, journal, journal')
            || Collides(sha, OutputPreimage(sha, sha(journal)), OutputPreimage(sha, sha(journal')))
            || Collides(sha, ClaimPreimage(sha, imageId, sha(journal)), ClaimPreimage(sha, imageId', sha(journal')))
  {
    var out, out' := OutputPreimage(sha, sha(journal)), OutputPreimage(sha, sha(journal'));
    var down, down' := [Zeros(32), imageId, PostDigest(sha), sha(out)], [Zeros(32), imageId', PostDigest(sha), sha(out')];
    if ClaimPreimage(sha, imageId, sha(journal)) == ClaimPreimage(sha, imageId', sha(journal')) {
      PreimageDecodesUniquely(sha, TAG_CLAIM, down, [0, 0], TAG_CLAIM, down', [0, 0]);
      assert down[1] == down'[1] && down[3] == down'[3];
      if out == out' {
        var d, d' := [sha(journal), Zeros(32)], [sha(journal'), Zeros(32)];
        PreimageDecodesUniquely(sha, TAG_OUTPUT, d, [], TAG_OUTPUT, d', []);
        assert d[0] == d'[0];
      }
    }
  }

  // ----- Splitting a digest -----

  /** Low and high half of the byte-reversed digest, each as a 32-byte scalar. */
  function Split(digest: Bytes32): (r: (Bytes32, Bytes32)) {
    (Zeros(16) + Reverse(digest)[16..], Zeros(16) + Reverse(digest)[..16])
  }

  function Join(lo: Bytes32, hi: Bytes32): Bytes32 {
    Reverse(hi[16..] + lo[16..])
  }

  method SplitDigest(digest: Bytes32) returns (lo: Bytes32, hi: Bytes32)
    ensures (lo, hi) == Split(digest)
  {
    var reversed := new Byte[32](i requires 0 <= i < 32 => digest[i]);
    assert reversed[..] == digest;
    ReverseInPlace(reversed);
    var low := new Byte[32](_ => 0);
    forall i | 16 <= i < 32 { low[i] := reversed[i]; }
    var high := new Byte[32](_ => 0);
    forall i | 16 <= i < 32 { high[i] := reversed[i - 16]; }
    lo, hi := low[..], high[..];
    assert lo[..16] == Zeros(16) && lo[16..] == Reverse(digest)[16..];
    assert hi[..16] == Zeros(16) && hi[16..] == Reverse(digest)[..16];
    assert lo == lo[..16] + lo[16..] && hi == hi[..16] + hi[16..];
  }

  method ReverseInPlace(a: array<Byte>)
    modifies a
    ensures a[..] == Reverse(old(a[..]))
  {
    var n := a.Length;
    for i := 0 to n / 2
      invariant forall k :: 0 <= k < i ==> a[k] == old(a[n - 1 - k]) && a[n - 1 - k] == old(a[k])
      invariant forall k :: i <= k < n - i ==> a[k] == old(a[k])
    {
      a[i], a[n - 1 - i] := a[n - 1 - i], a[i];
    }
  }

  /** Both halves are below 2^128, hence unreduced scalars, and they recombine to the digest, as
      bytes and as the little-endian integer it stands for. */
  lemma SplitRecombines(digest: Bytes32)
    ensures var (lo, hi) := Split(digest);
            && Join(lo, hi) == digest
            && FromBE(lo) < Pow256(16) < R && FromBE(hi) < Pow256(16)
            && FromLE(digest) == FromBE(hi) * Pow256(16) + FromBE(lo)
  {
    var r := Reverse(digest);
    var (lo, hi) := Split(digest);
    PrimeFits();
    assert hi[16..] + lo[16..] == r;
    ReverseTwice(digest);
    FromBEZeros(16, r[16..]);
    FromBEZeros(16, r[..16]);
    ToFromBE(r[16..]);
    ToFromBE(r[..16]);
    FromBEConcat(r[..16], r[16..]);
    assert r[..16] + r[16..] == r;
    ReverseSwapsEndian(digest);
  }

  lemma SplitInjective(d: Bytes32, d': Bytes32)
    requires Split(d) == Split(d')
    ensures d == d'
  {
    SplitRecombines(d);
    SplitRecombines(d');
  }

  // ----- The receipt -----

  /** The control root and control id the verifier pins; any values do. */
  datatype Pins = Pins(controlRoot: Bytes32, controlId: Bytes32)

  function PublicInputs(sha: Sha, pins: Pins, imageId: Bytes32, journal: Bytes): (inputs: seq<Bytes32>)
    ensures |inputs| == 5
  {
    var root := Split(pins.controlRoot);
    var claim := Split(ClaimDigest(sha, imageId, sha(journal)));
    [root.0, root.1, claim.0, claim.1, Reverse(pins.controlId)]
  }

  /** Equal five-element input vectors mean the same image and the same journal, or a collision. */
  lemma InputsBindImageAndJournal(sha: Sha, pins: Pins, imageId: Bytes32, journal: Bytes, imageId': Bytes32, journal': Bytes)
    requires PublicInputs(sha, pins, imageId, journal) == PublicInputs(sha, pins, imageId', journal')
    ensures || (imageId == imageId' && journal == journal')
            || Collides(sha, journal, journal')
            || Collides(sha, OutputPreimage(sha, sha(journal)), OutputPreimage(sha, sha(journal')))
            || Collides(sha, ClaimPreimage(sha, imageId, sha(journal)), ClaimPreimage(sha, imageId', sha(journal')))
  {
    var d, d' := ClaimDigest(sha, imageId, sha(journal)), ClaimDigest(sha, imageId', sha(journal'));
    var inputs, inputs' := PublicInputs(sha, pins, imageId, journal), PublicInputs(sha, pins, imageId', journal');
    assert inputs[2] == inputs'[2] && inputs[3] == inputs'[3];
    SplitInjective(d, d');
    ClaimBinds(sha, imageId, journal, imageId', journal');
  }

  function SealBlob(seal: Bytes, inputs: seq<Bytes32>): Bytes {
    seal + [0, 5] + Flat(inputs)
  }

  /** An empty key never verifies; otherwise the seal and the five inputs go to the Groth16 verifier. */
  ghost function VerifyReceipt(host: Host, pins: Pins, vk: Bytes, seal: Bytes, imageId: Bytes32, journal: Bytes): Verdict {
    if vk == [] then Reject
    else Verify(host, vk, SealBlob(seal, PublicInputs(host.sha, pins, imageId, journal)))
  }

  method CheckReceipt(host: Host, pins: Pins, vk: Bytes, seal: Bytes, imageId: Bytes32, journal: Bytes) returns (v: Verdict)
    ensures v == VerifyReceipt(host, pins, vk, seal, imageId, journal)
    ensures vk == [] ==> v == Reject
  {
    if vk == [] { return Reject; }
    var sha := host.sha;
    var journalDigest := sha(journal);
    var post := TaggedStruct(sha, TAG_STATE, [Zeros(32)], [0]);
    var output := TaggedStruct(sha, TAG_OUTPUT, [journalDigest, Zeros(32)], []);
    var claim := TaggedStruct(sha, TAG_CLAIM, [Zeros(32), imageId, post, output], [0, 0]);
    var claim0, claim1 := SplitDigest(claim);
    var cr0, cr1 := SplitDigest(pins.controlRoot);
    var inputs: seq<Bytes32> := [cr0, cr1, claim0, claim1, Reverse(pins.controlId)];
    var blob := seal + [0] + [5];
    assert blob == seal + [0, 5];
    for i := 0 to 5
      invariant blob == seal + [0, 5] + Flat(inputs[..i])
    {
      assert inputs[..i + 1][..i] == inputs[..i];
      blob := blob + inputs[i];
    }
    assert inputs[..5] == inputs;
    v := VerifyGroth16(host, vk, blob);
  }

  function SealFields(seal: Bytes, inputs: seq<Bytes32>): ProofFields
    requires |seal| >= 256
  {
    ProofFields(seal[..64], seal[64..192], seal[192..256], inputs)
  }

  /** The reader finds in the assembled blob exactly the five inputs appended to the seal. */
  ghost predicate ReadsAppended(seal: Bytes, inputs: seq<Bytes32>) {
    match ReadProof(SealBlob(seal, inputs))
    case Some(p) => p.inputs == inputs
    case None => false
  }

  /** Around a 256-byte seal the verifier reads back the seal's three points and the five inputs. */
  lemma ExactSealReads(seal: Bytes, inputs: seq<Bytes32>)
    requires |seal| == 256 && |inputs| == 5
    ensures ReadProof(SealBlob(seal, inputs)) == Some(SealFields(seal, inputs))
  {
    var blob := SealBlob(seal, inputs);
    assert blob[..64] == seal[..64] && blob[PROOF_B..PROOF_C] == seal[64..192] && blob[PROOF_C..PROOF_N_PUB] == seal[192..256];
    assert blob[PROOF_N_PUB..PROOF_INPUTS] == [0, 5];
    assert ReadBE(blob, PROOF_N_PUB, 2) == 5 by {
      FromBEPrepend(0, [5]);
      FromBEPrepend(5, []);
      assert [0] + [5] == [0, 5] && [5] + [] == [5];
    }
    ChunksOfFlat(seal + [0, 5], inputs, 32, 5);
    assert inputs[..5] == inputs;
  }

  lemma BlobLength(seal: Bytes, inputs: seq<Bytes32>)
    requires |inputs| == 5
    ensures |SealBlob(seal, inputs)| == |seal| + 162
  {
    FlatLength(inputs, 32);
  }

  /** A shorter seal leaves no room for five inputs. */
  lemma ShortSealReadsFewer(seal: Bytes, inputs: seq<Bytes32>)
    requires |seal| < 256 && |inputs| == 5
    ensures var p := ReadProof(SealBlob(seal, inputs)); p.Some? ==> |p.value.inputs| != 5
  {
    BlobLength(seal, inputs);
  }

  /** What follows byte 256 of a longer seal is read in place of the appended bytes: the first byte of
      the first input is the same whatever was appended. */
  lemma LongSealReadsItself(seal: Bytes, inputs: seq<Bytes32>)
    requires |seal| > 256 && |inputs| == 5
    requires ReadsAppended(seal, inputs)
    ensures inputs[0][0] == (seal + [0, 5])[PROOF_INPUTS]
  {
    var blob, p := SealBlob(seal, inputs), ReadProof(SealBlob(seal, inputs)).value;
    ChunkAt(blob, PROOF_INPUTS, 32, 5, 0);
    assert inputs[0] == blob[PROOF_INPUTS..PROOF_INPUTS + 32];
    assert blob[PROOF_INPUTS] == (seal + [0, 5])[PROOF_INPUTS];
  }

  function Repeated(digit: Byte): (word: Bytes32)
    ensures word[0] == digit
  {
    seq(32, _ => digit)
  }

  /** The reader gets the appended inputs back, for every five of them, exactly when the seal is 256
      bytes long. */
  lemma SealBlobReads(seal: Bytes)
    ensures (forall inputs: seq<Bytes32> :: |inputs| == 5 ==> ReadsAppended(seal, inputs)) <==> |seal| == 256
  {
    forall inputs: seq<Bytes32> | |inputs| == 5 && |seal| == 256 ensures ReadsAppended(seal, inputs) {
      ExactSealReads(seal, inputs);
    }
    if |seal| != 256 {
      var digit: Byte := if |seal| > 256 && (seal + [0, 5])[PROOF_INPUTS] == 0 then 1 else 0;
      var word := Repeated(digit);
      var inputs: seq<Bytes32> := [word, word, word, word, word];
      if ReadsAppended(seal, inputs) {
        if |seal| < 256 {
          ShortSealReadsFewer(seal, inputs);
        } else {
          LongSealReadsItself(seal, inputs);
        }
      }
    }
  }

  // ----- When a receipt is accepted -----

  /** A key for five public inputs, as the pinned one is. */
  ghost predicate KeyForFive(vk: Bytes) {
    ReadVk(vk).Some? && |ReadVk(vk).value.ic| == 6
  }

  /** Only the first 418 bytes of a blob can matter to a key for five inputs. */
  lemma VerdictOfPrefix(host: Host, vk: Bytes, blob: Bytes, tail: Bytes)
    requires KeyForFive(vk) && |blob| >= 418
    ensures Verify(host, vk, blob + tail) == Verify(host, vk, blob)
  {
    var long := blob + tail;
    assert long[PROOF_N_PUB..PROOF_INPUTS] == blob[PROOF_N_PUB..PROOF_INPUTS];
    var n := ReadBE(blob, PROOF_N_PUB, 2);
    if n == 5 {
      assert long[..64] == blob[..64] && long[PROOF_B..PROOF_C] == blob[PROOF_B..PROOF_C] && long[PROOF_C..PROOF_N_PUB] == blob[PROOF_C..PROOF_N_PUB];
      forall i | 0 <= i < 5 ensures Chunks(long, PROOF_INPUTS, 32, 5)[i] == Chunks(blob, PROOF_INPUTS, 32, 5)[i] {
        ChunkAt(long, PROOF_INPUTS, 32, 5, i);
        ChunkAt(blob, PROOF_INPUTS, 32, 5, i);
        assert long[PROOF_INPUTS + 32 * i..PROOF_INPUTS + 32 * i + 32] == blob[PROOF_INPUTS + 32 * i..PROOF_INPUTS + 32 * i + 32];
      }
      assert Chunks(long, PROOF_INPUTS, 32, 5) == Chunks(blob, PROOF_INPUTS, 32, 5);
    }
  }

  /** For every seal length: a 256-byte seal is accepted exactly when its three points satisfy the
      Groth16 equation at the five scalars made of the claim; a shorter one panics; of a longer one the
      first 418 bytes of the blob decide, so a seal that is itself a whole blob is judged alone,
      whatever the image and the journal. */
  lemma ReceiptAccepted(host: Host, pins: Pins, vk: Bytes, seal: Bytes, imageId: Bytes32, journal: Bytes)
    requires KeyForFive(vk)
    ensures |SealBlob(seal, PublicInputs(host.sha, pins, imageId, journal))| == |seal| + 162
    ensures var v := VerifyReceipt(host, pins, vk, seal, imageId, journal);
            && (|seal| < 256 ==> v == Panic)
            && (|seal| == 256 ==>
                  var k, p := ReadVk(vk).value, SealFields(seal, PublicInputs(host.sha, pins, imageId, journal));
                  v == Accept <==> PointsValid(host, k, p) && Equation(host, k, p))
            && (|seal| > 256 ==> v == Verify(host, vk, SealBlob(seal, PublicInputs(host.sha, pins, imageId, journal))[..418]))
            && (|seal| >= 418 ==> v == Verify(host, vk, seal))
    ensures var s := Scalars(PublicInputs(host.sha, pins, imageId, journal));
            && s[0] + s[1] * Pow256(16) == FromLE(pins.controlRoot)
            && s[2] + s[3] * Pow256(16) == FromLE(ClaimDigest(host.sha, imageId, host.sha(journal)))
            && s[4] == FromLE(pins.controlId)
  {
    ReceiptScalars(host.sha, pins, imageId, journal);
    var inputs := PublicInputs(host.sha, pins, imageId, journal);
    BlobLength(seal, inputs);
    if |seal| < 256 {
      ShortSealPanics(host, vk, seal, inputs);
    } else if |seal| == 256 {
      ExactSealVerdict(host, vk, seal, inputs);
    } else {
      LongSealVerdict(host, vk, seal, inputs);
      if |seal| >= 418 {
        WholeBlobVerdict(host, vk, seal, inputs);
      }
    }
  }

  lemma ShortSealPanics(host: Host, vk: Bytes, seal: Bytes, inputs: seq<Bytes32>)
    requires KeyForFive(vk) && |seal| < 256 && |inputs| == 5
    ensures Verify(host, vk, SealBlob(seal, inputs)) == Panic
  {
    ShortSealReadsFewer(seal, inputs);
  }

  lemma ExactSealVerdict(host: Host, vk: Bytes, seal: Bytes, inputs: seq<Bytes32>)
    requires KeyForFive(vk) && |seal| == 256 && |inputs| == 5
    ensures var k, p := ReadVk(vk).value, SealFields(seal, inputs);
            Verify(host, vk, SealBlob(seal, inputs)) == Accept <==> PointsValid(host, k, p) && Equation(host, k, p)
  {
    ExactSealReads(seal, inputs);
  }

  lemma LongSealVerdict(host: Host, vk: Bytes, seal: Bytes, inputs: seq<Bytes32>)
    requires KeyForFive(vk) && |seal| > 256 && |inputs| == 5
    ensures |SealBlob(seal, inputs)| > 418
    ensures Verify(host, vk, SealBlob(seal, inputs)) == Verify(host, vk, SealBlob(seal, inputs)[..418])
  {
    var blob := SealBlob(seal, inputs);
    BlobLength(seal, inputs);
    assert blob == blob[..418] + blob[418..];
    VerdictOfPrefix(host, vk, blob[..418], blob[418..]);
  }

  lemma WholeBlobVerdict(host: Host, vk: Bytes, seal: Bytes, inputs: seq<Bytes32>)
    requires KeyForFive(vk) && |seal| >= 418
    ensures Verify(host, vk, SealBlob(seal, inputs)) == Verify(host, vk, seal)
  {
    assert SealBlob(seal, inputs) == seal + ([0, 5] + Flat(inputs));
    VerdictOfPrefix(host, vk, seal, [0, 5] + Flat(inputs));
  }

  /** A genuine seal with its own count and inputs behind it keeps its verdict under every other image
      and journal, so the length in the comment is what binds a receipt to its claim. */
  lemma WholeBlobIgnoresClaim(host: Host, pins: Pins, vk: Bytes, seal: Bytes, imageId: Bytes32, journal: Bytes, imageId': Bytes32, journal': Bytes)
    requires KeyForFive(vk) && |seal| == 256
    ensures var whole := SealBlob(seal, PublicInputs(host.sha, pins, imageId, journal));
            VerifyReceipt(host, pins, vk, whole, imageId', journal') == VerifyReceipt(host, pins, vk, seal, imageId, journal)
  {
    var inputs := PublicInputs(host.sha, pins, imageId, journal);
    BlobLength(seal, inputs);
    WholeBlobVerdict(host, vk, SealBlob(seal, inputs), PublicInputs(host.sha, pins, imageId', journal'));
    assert vk != [];
  }

  lemma ReceiptScalars(sha: Sha, pins: Pins, imageId: Bytes32, journal: Bytes)
    ensures var s := Scalars(PublicInputs(sha, pins, imageId, journal));
            && s[0] + s[1] * Pow256(16) == FromLE(pins.controlRoot)
            && s[2] + s[3] * Pow256(16) == FromLE(ClaimDigest(sha, imageId, sha(journal)))
            && s[4] == FromLE(pins.controlId)
  {
    var inputs := PublicInputs(sha, pins, imageId, journal);
    SplitRecombines(pins.controlRoot);
    SplitRecombines(ClaimDigest(sha, imageId, sha(journal)));
    ReverseSwapsEndian(pins.controlId);
    assert forall i :: 0 <= i < 5 ==> Scalars(inputs)[i] == FromBE(inputs[i]);
  }

  // ----- The journal -----

  const JOURNAL_LEN: nat := 72

  datatype Journal = Journal(riskBucket: nat, confidence: nat, commitment: Bytes32, modelHash: Bytes32)

  function JournalBytes(j: Journal): (b: Bytes)
    ensures |b| == JOURNAL_LEN
  {
    ToBE(j.riskBucket, 4) + ToBE(j.confidence, 4) + j.commitment + j.modelHash
  }

  function Parse(journal: Bytes): Option<Journal> {
    if |journal| != JOURNAL_LEN then None
    else Some(Journal(FromBE(journal[..4]), FromBE(journal[4..8]), journal[8..40], journal[40..]))
  }

  /** The guest's writer: four slices of a 72-byte array. */
  method GuestJournal(p: Journal) returns (out: Bytes)
    ensures out == JournalBytes(p)
  {
    var j := new Byte[72](_ => 0);
    var bucket, bps := ToBE(p.riskBucket, 4), ToBE(p.confidence, 4);
    forall i | 0 <= i < 4 { j[i] := bucket[i]; }
    forall i | 4 <= i < 8 { j[i] := bps[i - 4]; }
    forall i | 8 <= i < 40 { j[i] := p.commitment[i - 8]; }
    forall i | 40 <= i < 72 { j[i] := p.modelHash[i - 40]; }
    out := j[..];
    assert out == JournalBytes(p);
  }

  /** The contract's reader: the bytes are copied into an array, then sliced. */
  method ParseJournal(journal: Bytes) returns (r: Option<Journal>)
    ensures r == Parse(journal)
  {
    if |journal| != JOURNAL_LEN { return None; }
    var buf := new Byte[72](_ => 0);
    for i := 0 to 72
      invariant forall k :: 0 <= k < i ==> buf[k] == journal[k]
    {
      buf[i] := journal[i];
    }
    assert buf[..] == journal;
    return Some(Journal(FromBE(buf[..4]), FromBE(buf[4..8]), buf[8..40], buf[40..]));
  }

  /** What the guest writes the contract reads back, for 32-bit fields. */
  lemma ParseOfJournal(j: Journal)
    requires j.riskBucket <= U32_MAX && j.confidence <= U32_MAX
    ensures Parse(JournalBytes(j)) == Some(j)
  {
    var b := JournalBytes(j);
    assert b[..4] == ToBE(j.riskBucket, 4) && b[4..8] == ToBE(j.confidence, 4);
    assert b[8..40] == j.commitment && b[40..] == j.modelHash;
    assert Pow256(4) == 0x1_0000_0000;
    FromToBE(j.riskBucket, 4);
    FromToBE(j.confidence, 4);
  }

  /** What the contract accepts is what some guest output writes, and no other length parses. */
  lemma JournalOfParse(b: Bytes)
    ensures Parse(b).Some? <==> |b| == JOURNAL_LEN
    ensures Parse(b).Some? ==> JournalBytes(Parse(b).value) == b
    ensures Parse(b).Some? ==> Parse(b).value.riskBucket <= U32_MAX && Parse(b).value.confidence <= U32_MAX
  {
    if |b| == JOURNAL_LEN {
      ToFromBE(b[..4]);
      ToFromBE(b[4..8]);
      assert Pow256(4) == 0x1_0000_0000;
      assert b == b[..4] + b[4..8] + b[8..40] + b[40..];
    }
  }

  /** The host's cross-check of a proven journal against the native run passes exactly on the journal
      the guest writes for that run. */
  method HostCrossCheck(journal: Bytes, native: Journal) returns (ok: bool)
    requires native.riskBucket <= U32_MAX && native.confidence <= U32_MAX
    ensures ok <==> journal == JournalBytes(native)
  {
    ParseOfJournal(native);
    JournalOfParse(journal);
    if |journal| != JOURNAL_LEN { return false; }
    var bucket, bps := FromBE(journal[..4]), FromBE(journal[4..8]);
    return bucket == native.riskBucket && bps == native.confidence
           && journal[8..40] == native.commitment && journal[40..72] == native.modelHash;
  }
}
