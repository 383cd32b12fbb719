/** The compressed proof encoding (program/src/plonk.rs, `compress_proof` and `decompress_proof`). */
module Compression {
  import opened Bytes
  import opened Modular
  import opened Scalar
  import opened Curve

  const PROOF_LEN: nat := 768
  const COMPRESSED_PROOF_LEN: nat := 9 * 32 + 6 * 32
  const COMMITMENTS: nat := 9

  // ---------------------------------------------------------------------------
  // The two syscalls
  // ---------------------------------------------------------------------------

  /** y is the larger of the two square roots. */
  predicate Larger(y: nat)
    requires y < Q
  {
    y > NegY(y)
  }

  /** `alt_bn128_g1_compress_be` on an operand it accepts: x, and bit 7 for the larger root. */
  function CompressPoint(p: G1): Bytes32 {
    if p == INFINITY then Zeros(32)
    else if Residue(BE(p[32..]), Q) > NegY(Residue(BE(p[32..]), Q)) && p[0] < 128 then [p[0] + 128] + p[1..32]
    else p[..32]
  }

  function Flags(w: Bytes32): nat {
    w[0] / 64
  }

  /** The x-coordinate below the two flag bits. */
  function XBytes(w: Bytes32): Bytes32 {
    [w[0] % 64] + w[1..]
  }

  ghost predicate IsRoot(x: nat, y: nat) {
    y < Q && CurveEquation(x, y)
  }

  /** y is the root the sign flag asks for. */
  ghost predicate Signed(flags: nat, y: nat)
    requires y < Q
  {
    if flags == 2 then NegY(y) <= y else y <= NegY(y)
  }

  /** What `alt_bn128_g1_decompress_be` answers for w. */
  ghost predicate Decompresses(w: Bytes32, out: Option<G1>) {
    var x := BE(XBytes(w));
    if w == Zeros(32) then out == Some(INFINITY)
    else if Flags(w) == 3 || x >= Q then out == None
    else if Flags(w) == 1 then out == Some(INFINITY)
    else match out
         case Some(p) => exists y: nat :: IsRoot(x, y) && Signed(Flags(w), y) && p == Encode(x, y)
         case None => !exists y: nat :: IsRoot(x, y)
  }

  ghost predicate CompressionSyscalls(sys: Syscalls) {
    && (forall p: G1 | Valid(p) :: sys.compress(p) == Some(CompressPoint(p)))
    && (forall w: Bytes32 :: Decompresses(w, sys.decompress(w)))
  }

  // ---------------------------------------------------------------------------
  // One point
  // ---------------------------------------------------------------------------

  lemma LeadingByte(s: Bytes32)
    requires BE(s) < Q
    ensures s[0] < 64
  {
    BEConcat(s[..1], s[1..]);
    assert s == s[..1] + s[1..];
    assert BE(s[..1]) == s[0];
    LeadingByteOfQ();
    if s[0] >= 64 {
      MulMonotone(Pow256(31), 64, s[0]);
    }
  }

  lemma LeadingByteOfQ()
    ensures Q < 64 * Pow256(31)
  {
    BaseModulusValue();
    Pow256Add(31, 1);
    Pow256Values();
    assert Pow256(1) == 256;
  }

  lemma EncodedIsNotInfinity(x: nat, y: nat)
    requires x < Q && y < Q && CurveEquation(x, y)
    ensures Encode(x, y) != INFINITY
  {
    EncodedOnCurve(x, y);
    InfinityOffCurve();
  }

  /** The compressed word of (x, y): its flags, its x, and that it is not the zero word. */
  lemma CompressedWord(log: G1 -> int, x: nat, y: nat)
    requires Prime(R) && IsLogarithm(log) && x < Q && y < Q && CurveEquation(x, y)
    ensures var w := CompressPoint(Encode(x, y));
      XBytes(w) == ToBE(x, 32) && Flags(w) == (if Larger(y) then 2 else 0) && w != Zeros(32)
  {
    NoThreeTorsion(log, x, y);
    EncodedIsNotInfinity(x, y);
    EncodedCoordinates(x, y);
    WordShape(Encode(x, y), ToBE(x, 32), x, y);
  }

  lemma WordShape(p: G1, xs: Bytes32, x: nat, y: nat)
    requires 0 < x < Q && y < Q && p != INFINITY
    requires p[..32] == xs && BE(xs) == x && BE(p[32..]) == y
    ensures var w := CompressPoint(p);
      XBytes(w) == xs && Flags(w) == (if Larger(y) then 2 else 0) && w != Zeros(32)
  {
    LeadingByte(xs);
    assert p[0] == xs[0] && p[1..32] == xs[1..];
    BEZeros(32);
    var w := CompressPoint(p);
    assert XBytes(w) == xs;
    assert XBytes(Zeros(32)) == Zeros(32);
  }

  /** Two roots of one sign are one root. */
  lemma SameSignSameRoot(x: nat, y: nat, y': nat)
    requires Prime(Q) && IsRoot(x, y) && IsRoot(x, y')
    requires Larger(y) ==> NegY(y') <= y'
    requires !Larger(y) ==> y' <= NegY(y')
    ensures y' == y
  {
    SquareRoots(y, y', Q);
  }

  lemma PointRoundTrip(sys: Syscalls, log: G1 -> int, p: G1)
    requires Prime(R) && Prime(Q) && IsLogarithm(log) && CompressionSyscalls(sys) && Valid(p)
    ensures sys.compress(p).Some?
    ensures sys.decompress(sys.compress(p).value) == Some(p)
  {
    if OnCurve(p) {
      var x, y := Coordinates(p);
      CompressedWord(log, x, y);
      RootDecompresses(CompressPoint(p), sys.decompress(CompressPoint(p)), x, y);
    } else {
      assert Decompresses(Zeros(32), sys.decompress(Zeros(32)));
    }
  }

  lemma RootDecompresses(w: Bytes32, out: Option<G1>, x: nat, y: nat)
    requires Prime(Q) && x < Q && IsRoot(x, y) && Decompresses(w, out)
    requires XBytes(w) == ToBE(x, 32) && Flags(w) == (if Larger(y) then 2 else 0) && w != Zeros(32)
    ensures out == Some(Encode(x, y))
  {
    QFits();
    BEOfToBE(x, 32);
    assert IsRoot(x, y);
    var y' :| IsRoot(x, y') && Signed(Flags(w), y') && out.value == Encode(x, y');
    SameSignSameRoot(x, y, y');
  }

  /** Only infinity has more than one spelling. */
  lemma SpellingUnique(log: G1 -> int, w: Bytes32, w': Bytes32, p: G1)
    requires Prime(R) && IsLogarithm(log) && Decompresses(w, Some(p)) && Decompresses(w', Some(p))
    ensures w == w' || p == INFINITY
  {
    if p != INFINITY {
      var x, y := FinitePoint(w, p);
      var x', y' := FinitePoint(w', p);
      SameCoordinates(x, y, x', y');
      NoTwoTorsion(log, x, y);
      SameFlags(y, Flags(w), Flags(w'));
      SameParts(w, w');
    }
  }

  lemma SameCoordinates(x: nat, y: nat, x': nat, y': nat)
    requires x < Q && y < Q && x' < Q && y' < Q && Encode(x, y) == Encode(x', y')
    ensures x == x' && y == y'
  {
    EncodedCoordinates(x, y);
    EncodedCoordinates(x', y');
  }

  lemma SameFlags(y: nat, flags: nat, flags': nat)
    requires 0 < y < Q && Signed(flags, y) && Signed(flags', y)
    requires (flags == 0 || flags == 2) && (flags' == 0 || flags' == 2)
    ensures flags == flags'
  {
    BaseModulusValue();
    assert Q % 2 == 1;
  }

  lemma SameParts(w: Bytes32, w': Bytes32)
    requires BE(XBytes(w)) == BE(XBytes(w')) && Flags(w) == Flags(w')
    ensures w == w'
  {
    BEInjective(XBytes(w), XBytes(w'));
    assert w[0] == Flags(w) * 64 + XBytes(w)[0] && w'[0] == Flags(w') * 64 + XBytes(w')[0];
    assert w[1..] == XBytes(w)[1..] && w'[1..] == XBytes(w')[1..];
    assert w == [w[0]] + w[1..] && w' == [w'[0]] + w'[1..];
  }

  lemma FinitePoint(w: Bytes32, p: G1) returns (x: nat, y: nat)
    requires Decompresses(w, Some(p)) && p != INFINITY
    ensures x == BE(XBytes(w)) < Q && IsRoot(x, y) && Signed(Flags(w), y) && p == Encode(x, y)
    ensures Flags(w) == 0 || Flags(w) == 2
  {
    x := BE(XBytes(w));
    y :| IsRoot(x, y) && Signed(Flags(w), y) && p == Encode(x, y);
  }

  // ---------------------------------------------------------------------------
  // The whole proof
  // ---------------------------------------------------------------------------

  /** The point at 32-byte word i. */
  function PointAt(bytes: seq<Byte>, i: nat): G1
    requires 32 * i + 64 <= |bytes|
  {
    bytes[32 * i..32 * i + 64]
  }

  function WordAt(bytes: seq<Byte>, i: nat): Bytes32
    requires 32 * i + 32 <= |bytes|
  {
    bytes[32 * i..32 * i + 32]
  }

  /** The i-th of the proof's points, two words each. */
  function Commitment(proof: seq<Byte>, i: nat): G1
    requires 64 * i + 64 <= |proof|
  {
    PointAt(proof, 2 * i)
  }

  lemma CommitmentInPrefix(whole: seq<Byte>, front: seq<Byte>, i: nat)
    requires 64 * i + 64 <= |front| <= |whole| && whole[..|front|] == front
    ensures Commitment(whole, i) == Commitment(front, i)
  {
    assert forall k | 0 <= k < |front| :: whole[k] == front[k];
  }

  /** The first n words expanded, or none when one of them is refused. */
  function Expand(sys: Syscalls, compressed: seq<Byte>, n: nat): (r: Option<seq<Byte>>)
    requires 32 * n <= |compressed|
    ensures r.Some? ==> |r.value| == 64 * n
  {
    if n == 0 then
      Some([])
    else
      var points :- Expand(sys, compressed, n - 1);
      var point :- sys.decompress(WordAt(compressed, n - 1));
      Some(points + point)
  }

  /** The first n points halved. */
  function Halve(sys: Syscalls, proof: seq<Byte>, n: nat): (r: Option<seq<Byte>>)
    requires 64 * n <= |proof|
    ensures r.Some? ==> |r.value| == 32 * n
  {
    if n == 0 then
      Some([])
    else
      var words :- Halve(sys, proof, n - 1);
      var word :- sys.compress(Commitment(proof, n - 1));
      Some(words + word)
  }

  function Decompressed(sys: Syscalls, compressed: seq<Byte>): (r: Option<seq<Byte>>)
    ensures r.Some? ==> |r.value| == PROOF_LEN
  {
    if |compressed| != COMPRESSED_PROOF_LEN then
      None
    else
      var points :- Expand(sys, compressed, COMMITMENTS);
      Some(points + compressed[32 * COMMITMENTS..])
  }

  function Compressed(sys: Syscalls, proof: seq<Byte>): (r: Option<seq<Byte>>)
    ensures r.Some? ==> |r.value| == COMPRESSED_PROOF_LEN
  {
    if |proof| != PROOF_LEN then
      None
    else
      var words :- Halve(sys, proof, COMMITMENTS);
      Some(words + proof[64 * COMMITMENTS..])
  }

  lemma {:induction false} ExpandStopped(sys: Syscalls, compressed: seq<Byte>, m: nat, n: nat)
    requires m <= n && 32 * n <= |compressed| && Expand(sys, compressed, m).None?
    ensures Expand(sys, compressed, n).None?
  {
    if m == n {
    } else {
      ExpandStopped(sys, compressed, m, n - 1);
    }
  }

  lemma {:induction false} HalveStopped(sys: Syscalls, proof: seq<Byte>, m: nat, n: nat)
    requires m <= n && 64 * n <= |proof| && Halve(sys, proof, m).None?
    ensures Halve(sys, proof, n).None?
  {
    if m == n {
    } else {
      HalveStopped(sys, proof, m, n - 1);
    }
  }

  /** `decompress_proof`. */
  method DecompressProof(sys: Syscalls, compressed: seq<Byte>) returns (r: Option<array<Byte>>)
    ensures r.None? <==> Decompressed(sys, compressed).None?
    ensures r.Some? ==> fresh(r.value) && Decompressed(sys, compressed) == Some(r.value[..])
  {
    if |compressed| != COMPRESSED_PROOF_LEN {
      return None;
    }
    var proof := new Byte[PROOF_LEN](_ => 0);
    for i := 0 to COMMITMENTS
      invariant Expand(sys, compressed, i) == Some(proof[..64 * i])
    {
      var point := sys.decompress(WordAt(compressed, i));
      if point.None? {
        ExpandStopped(sys, compressed, i + 1, COMMITMENTS);
        return None;
      }
      ghost var was := proof[..64 * i];
      CopyInto(proof, 64 * i, point.value);
      assert proof[..64 * (i + 1)] == was + point.value;
    }
    ghost var points := proof[..64 * COMMITMENTS];
    CopyInto(proof, 64 * COMMITMENTS, compressed[32 * COMMITMENTS..]);
    assert proof[..] == points + compressed[32 * COMMITMENTS..];
    return Some(proof);
  }

  /** `compress_proof`. */
  method CompressProof(sys: Syscalls, proof: seq<Byte>) returns (r: Option<array<Byte>>)
    ensures r.None? <==> Compressed(sys, proof).None?
    ensures r.Some? ==> fresh(r.value) && Compressed(sys, proof) == Some(r.value[..])
  {
    if |proof| != PROOF_LEN {
      return None;
    }
    var compressed := new Byte[COMPRESSED_PROOF_LEN](_ => 0);
    for i := 0 to COMMITMENTS
      invariant Halve(sys, proof, i) == Some(compressed[..32 * i])
    {
      var word := sys.compress(Commitment(proof, i));
      if word.None? {
        HalveStopped(sys, proof, i + 1, COMMITMENTS);
        return None;
      }
      ghost var was := compressed[..32 * i];
      CopyInto(compressed, 32 * i, word.value);
      assert compressed[..32 * (i + 1)] == was + word.value;
    }
    ghost var words := compressed[..32 * COMMITMENTS];
    CopyInto(compressed, 32 * COMMITMENTS, proof[64 * COMMITMENTS..]);
    assert compressed[..] == words + proof[64 * COMMITMENTS..];
    return Some(compressed);
  }

  lemma {:induction false} ExpandDependsOnPrefix(sys: Syscalls, a: seq<Byte>, b: seq<Byte>, n: nat)
    requires 32 * n <= |a| && 32 * n <= |b| && a[..32 * n] == b[..32 * n]
    ensures Expand(sys, a, n) == Expand(sys, b, n)
  {
    if n == 0 {
    } else {
      var m := 32 * (n - 1);
      assert a[..m] == a[..32 * n][..m] && b[..m] == b[..32 * n][..m];
      assert WordAt(a, n - 1) == a[..32 * n][m..] && WordAt(b, n - 1) == b[..32 * n][m..];
      ExpandDependsOnPrefix(sys, a, b, n - 1);
    }
  }

  lemma ExpandStep(sys: Syscalls, words: seq<Byte>, word: Bytes32, points: seq<Byte>, p: G1, n: nat)
    requires |words| == 32 * n && Expand(sys, words, n) == Some(points) && sys.decompress(word) == Some(p)
    ensures Expand(sys, words + word, n + 1) == Some(points + p)
  {
    assert (words + word)[..32 * n] == words == words[..32 * n];
    ExpandDependsOnPrefix(sys, words + word, words, n);
    assert WordAt(words + word, n) == word;
  }

  ghost predicate RoundTrips(sys: Syscalls, p: G1) {
    sys.compress(p).Some? && sys.decompress(sys.compress(p).value) == Some(p)
  }

  lemma {:induction false} HalvesExpand(sys: Syscalls, proof: seq<Byte>, n: nat)
    requires 64 * n <= |proof| && forall i: nat | i < n :: RoundTrips(sys, Commitment(proof, i))
    ensures Halve(sys, proof, n).Some?
    ensures Expand(sys, Halve(sys, proof, n).value, n) == Some(proof[..64 * n])
  {
    if n == 0 {
    } else {
      HalvesExpand(sys, proof, n - 1);
      var p := Commitment(proof, n - 1);
      assert RoundTrips(sys, p);
      ExpandStep(sys, Halve(sys, proof, n - 1).value, sys.compress(p).value, proof[..64 * (n - 1)], p, n - 1);
      assert proof[..64 * n] == proof[..64 * (n - 1)] + p;
    }
  }

  /** Expanding a compressed proof gives back its 768 bytes exactly. */
  lemma ProofRoundTrip(sys: Syscalls, log: G1 -> int, proof: seq<Byte>)
    requires Prime(R) && Prime(Q) && IsLogarithm(log) && CompressionSyscalls(sys)
    requires |proof| == PROOF_LEN && forall i: nat | i < COMMITMENTS :: Valid(Commitment(proof, i))
    ensures Compressed(sys, proof).Some?
    ensures Decompressed(sys, Compressed(sys, proof).value) == Some(proof)
  {
    forall i: nat | i < COMMITMENTS ensures RoundTrips(sys, Commitment(proof, i)) {
      PointRoundTrip(sys, log, Commitment(proof, i));
    }
    WholeProof(sys, proof);
  }

  lemma WholeProof(sys: Syscalls, proof: seq<Byte>)
    requires |proof| == PROOF_LEN && forall i: nat | i < COMMITMENTS :: RoundTrips(sys, Commitment(proof, i))
    ensures Compressed(sys, proof).Some?
    ensures Decompressed(sys, Compressed(sys, proof).value) == Some(proof)
  {
    HalvesExpand(sys, proof, COMMITMENTS);
    var words, tail := Halve(sys, proof, COMMITMENTS).value, proof[64 * COMMITMENTS..];
    assert (words + tail)[..32 * COMMITMENTS] == words == words[..32 * COMMITMENTS];
    ExpandDependsOnPrefix(sys, words + tail, words, COMMITMENTS);
    assert (words + tail)[32 * COMMITMENTS..] == tail;
    assert proof == proof[..64 * COMMITMENTS] + tail;
  }

  lemma {:induction false} ExpandedPoint(sys: Syscalls, compressed: seq<Byte>, n: nat, i: nat)
    requires i < n && 32 * n <= |compressed| && Expand(sys, compressed, n).Some?
    ensures sys.decompress(WordAt(compressed, i)) == Some(Commitment(Expand(sys, compressed, n).value, i))
  {
    var whole, front := Expand(sys, compressed, n).value, Expand(sys, compressed, n - 1).value;
    if i < n - 1 {
      ExpandedPoint(sys, compressed, n - 1, i);
      CommitmentInPrefix(whole, front, i);
    } else {
      assert Commitment(whole, i) == whole[|front|..];
    }
  }

  // ---------------------------------------------------------------------------
  // Which word is which point
  // ---------------------------------------------------------------------------

  /** Word i of the compressed proof expands to point i of the proof. */
  predicate Expands(sys: Syscalls, compressed: seq<Byte>, proof: seq<Byte>, i: nat)
    requires |compressed| == 480 && |proof| == 768 && i < 9
  {
    sys.decompress(compressed[32 * i..32 * i + 32]) == Some(proof[64 * i..64 * i + 64])
  }

  /** Point i of the proof compresses to word i of the compressed proof. */
  predicate Halves(sys: Syscalls, compressed: seq<Byte>, proof: seq<Byte>, i: nat)
    requires |compressed| == 480 && |proof| == 768 && i < 9
  {
    sys.compress(proof[64 * i..64 * i + 64]) == Some(compressed[32 * i..32 * i + 32])
  }

  lemma {:induction false} ExpandsInOrder(sys: Syscalls, compressed: seq<Byte>, proof: seq<Byte>, n: nat)
    requires |compressed| == 480 && |proof| == 768 && n <= 9
    requires forall i: nat | i < n :: Expands(sys, compressed, proof, i)
    ensures Expand(sys, compressed, n) == Some(proof[..64 * n])
    decreases n
  {
    if n == 0 {
    } else {
      ExpandsInOrder(sys, compressed, proof, n - 1);
      assert Expands(sys, compressed, proof, n - 1);
      assert proof[..64 * n] == proof[..64 * (n - 1)] + proof[64 * (n - 1)..64 * (n - 1) + 64];
    }
  }

  lemma {:induction false} HalvesInOrder(sys: Syscalls, compressed: seq<Byte>, proof: seq<Byte>, n: nat)
    requires |compressed| == 480 && |proof| == 768 && n <= 9
    requires forall i: nat | i < n :: Halves(sys, compressed, proof, i)
    ensures Halve(sys, proof, n) == Some(compressed[..32 * n])
    decreases n
  {
    if n == 0 {
    } else {
      HalvesInOrder(sys, compressed, proof, n - 1);
      assert Halves(sys, compressed, proof, n - 1);
      assert compressed[..32 * n] == compressed[..32 * (n - 1)] + compressed[32 * (n - 1)..32 * (n - 1) + 32];
    }
  }

  lemma WordInPrefix(whole: seq<Byte>, front: seq<Byte>, i: nat)
    requires 32 * i + 32 <= |front| <= |whole| && whole[..|front|] == front
    ensures WordAt(whole, i) == WordAt(front, i)
  {
    assert forall k | 0 <= k < |front| :: whole[k] == front[k];
  }

  lemma {:induction false} HalvedPoint(sys: Syscalls, proof: seq<Byte>, n: nat, i: nat)
    requires i < n && 64 * n <= |proof| && Halve(sys, proof, n).Some?
    ensures sys.compress(Commitment(proof, i)) == Some(WordAt(Halve(sys, proof, n).value, i))
    decreases n
  {
    var whole, front := Halve(sys, proof, n).value, Halve(sys, proof, n - 1).value;
    if i < n - 1 {
      HalvedPoint(sys, proof, n - 1, i);
      WordInPrefix(whole, front, i);
    } else {
      assert WordAt(whole, i) == whole[|front|..];
    }
  }

  lemma ExpandedWord(sys: Syscalls, compressed: seq<Byte>, proof: seq<Byte>, i: nat)
    requires Decompressed(sys, compressed) == Some(proof) && |compressed| == 480 && i < 9
    ensures Expands(sys, compressed, proof, i)
  {
    var points := Expand(sys, compressed, COMMITMENTS).value;
    ExpandedPoint(sys, compressed, COMMITMENTS, i);
    CommitmentInPrefix(proof, points, i);
  }

  lemma HalvedWord(sys: Syscalls, compressed: seq<Byte>, proof: seq<Byte>, i: nat)
    requires Compressed(sys, proof) == Some(compressed) && |proof| == 768 && i < 9
    ensures Halves(sys, compressed, proof, i)
  {
    var words := Halve(sys, proof, COMMITMENTS).value;
    HalvedPoint(sys, proof, COMMITMENTS, i);
    WordInPrefix(compressed, words, i);
  }

  /** Expansion takes word i to point i and carries the six evaluations over, and is defined by that. */
  lemma DecompressedExactly(sys: Syscalls, compressed: seq<Byte>, proof: seq<Byte>)
    ensures Decompressed(sys, compressed) == Some(proof)
       <==> |compressed| == 480 && |proof| == 768 && proof[576..] == compressed[288..]
            && forall i: nat | i < 9 :: Expands(sys, compressed, proof, i)
  {
    if Decompressed(sys, compressed) == Some(proof) {
      forall i: nat | i < 9 ensures Expands(sys, compressed, proof, i) {
        ExpandedWord(sys, compressed, proof, i);
      }
    }
    if |compressed| == 480 && |proof| == 768 && proof[576..] == compressed[288..]
       && forall i: nat | i < 9 :: Expands(sys, compressed, proof, i) {
      ExpandsInOrder(sys, compressed, proof, COMMITMENTS);
      assert proof == proof[..576] + proof[576..];
    }
  }

  /** And compression takes point i to word i. */
  lemma CompressedExactly(sys: Syscalls, proof: seq<Byte>, compressed: seq<Byte>)
    ensures Compressed(sys, proof) == Some(compressed)
       <==> |compressed| == 480 && |proof| == 768 && proof[576..] == compressed[288..]
            && forall i: nat | i < 9 :: Halves(sys, compressed, proof, i)
  {
    if Compressed(sys, proof) == Some(compressed) {
      forall i: nat | i < 9 ensures Halves(sys, compressed, proof, i) {
        HalvedWord(sys, compressed, proof, i);
      }
    }
    if |compressed| == 480 && |proof| == 768 && proof[576..] == compressed[288..]
       && forall i: nat | i < 9 :: Halves(sys, compressed, proof, i) {
      HalvesInOrder(sys, compressed, proof, COMMITMENTS);
      assert compressed == compressed[..288] + compressed[288..];
    }
  }

  /** Two compressed proofs with one expansion differ only in words that spell infinity. */
  lemma EqualExpansions(sys: Syscalls, log: G1 -> int, a: seq<Byte>, b: seq<Byte>, i: nat)
    requires Prime(R) && IsLogarithm(log) && CompressionSyscalls(sys)
    requires Decompressed(sys, a).Some? && Decompressed(sys, a) == Decompressed(sys, b)
    ensures a[32 * COMMITMENTS..] == b[32 * COMMITMENTS..]
    ensures i < COMMITMENTS && WordAt(a, i) != WordAt(b, i) ==>
              Commitment(Decompressed(sys, a).value, i) == INFINITY
  {
    var ea, eb := Expand(sys, a, COMMITMENTS).value, Expand(sys, b, COMMITMENTS).value;
    var pa, pb := Decompressed(sys, a).value, Decompressed(sys, b).value;
    assert ea == pa[..64 * COMMITMENTS] && eb == pb[..64 * COMMITMENTS];
    assert a[32 * COMMITMENTS..] == pa[64 * COMMITMENTS..] && b[32 * COMMITMENTS..] == pb[64 * COMMITMENTS..];
    if i < COMMITMENTS && WordAt(a, i) != WordAt(b, i) {
      ExpandedPoint(sys, a, COMMITMENTS, i);
      ExpandedPoint(sys, b, COMMITMENTS, i);
      CommitmentInPrefix(pa, ea, i);
      SpellingUnique(log, WordAt(a, i), WordAt(b, i), Commitment(ea, i));
    }
  }
}
