/** Parsing the 24 words and deriving the challenges from them (program/src/plonk.rs). */
module Transcript {
  import opened Bytes
  import opened Scalar
  import opened Curve
  import opened Compression
  import opened Algebra
  import opened Domain

  /** The circuit constants of program/src/plonk/vk.rs. */
  datatype Vk = Vk(
    qm: G1, ql: G1, qr: G1, qo: G1, qc: G1, s1: G1, s2: G1, s3: G1,
    w1: Bytes32, x2: seq<Byte>, g2: seq<Byte>, rootC: Bytes32)

  datatype Proof = Proof(
    a: G1, b: G1, c: G1, z: G1, t1: G1, t2: G1, t3: G1, wxi: G1, wxiw: G1,
    evals: Evals, raw: seq<Byte>)

  /** `Proof::parse`: 24 words, each evaluation below R. */
  function Parse(bytes: seq<Byte>): (p: Option<Proof>)
    ensures p.Some? ==> p.value.raw == bytes && |bytes| == PROOF_LEN
  {
    if |bytes| != PROOF_LEN then
      None
    else
      var a :- FrCanonical(WordAt(bytes, 18));
      var b :- FrCanonical(WordAt(bytes, 19));
      var c :- FrCanonical(WordAt(bytes, 20));
      var s1 :- FrCanonical(WordAt(bytes, 21));
      var s2 :- FrCanonical(WordAt(bytes, 22));
      var zw :- FrCanonical(WordAt(bytes, 23));
      Some(Proof(PointAt(bytes, 0), PointAt(bytes, 2), PointAt(bytes, 4), PointAt(bytes, 6),
                 PointAt(bytes, 8), PointAt(bytes, 10), PointAt(bytes, 12), PointAt(bytes, 14), PointAt(bytes, 16),
                 Evals(a, b, c, s1, s2, zw), bytes))
  }

  /** The 32-byte encoding of a scalar. */
  function FrB(x: Fr): Bytes32 {
    ToBE(x, 32)
  }

  function EvalBytes(e: Evals): (s: seq<Byte>)
    ensures |s| == 192
  {
    FrB(e.a) + FrB(e.b) + FrB(e.c) + FrB(e.s1) + FrB(e.s2) + FrB(e.zw)
  }

  predicate EvaluationsCanonical(bytes: seq<Byte>)
    requires |bytes| == PROOF_LEN
  {
    && BE(WordAt(bytes, 18)) < R && BE(WordAt(bytes, 19)) < R && BE(WordAt(bytes, 20)) < R
    && BE(WordAt(bytes, 21)) < R && BE(WordAt(bytes, 22)) < R && BE(WordAt(bytes, 23)) < R
  }

  lemma EvaluationWords(bytes: seq<Byte>)
    requires |bytes| == PROOF_LEN
    ensures bytes[576..768] == WordAt(bytes, 18) + WordAt(bytes, 19) + WordAt(bytes, 20)
                             + WordAt(bytes, 21) + WordAt(bytes, 22) + WordAt(bytes, 23)
  {
  }

  lemma ParseSucceeds(bytes: seq<Byte>)
    requires |bytes| == PROOF_LEN
    ensures Parse(bytes).Some? <==> EvaluationsCanonical(bytes)
  {
    FrCanonicalExact(WordAt(bytes, 18));
    FrCanonicalExact(WordAt(bytes, 19));
    FrCanonicalExact(WordAt(bytes, 20));
    FrCanonicalExact(WordAt(bytes, 21));
    FrCanonicalExact(WordAt(bytes, 22));
    FrCanonicalExact(WordAt(bytes, 23));
  }

  lemma ParsedWord(bytes: seq<Byte>, i: nat, x: Fr)
    requires 32 * i + 32 <= |bytes| && FrCanonical(WordAt(bytes, i)) == Some(x)
    ensures WordAt(bytes, i) == FrB(x)
  {
    FrCanonicalExact(WordAt(bytes, i));
  }

  /**
   A parse succeeds exactly when every evaluation word is below R, and then the
   bytes the transcript hashes are the canonical encodings of the six
   evaluations the algebra uses.
   */
  lemma ParsedEvaluations(bytes: seq<Byte>)
    requires |bytes| == PROOF_LEN
    ensures Parse(bytes).Some? <==> EvaluationsCanonical(bytes)
    ensures Parse(bytes).Some? ==> bytes[576..768] == EvalBytes(Parse(bytes).value.evals)
  {
    ParseSucceeds(bytes);
    if Parse(bytes).Some? {
      var e := Parse(bytes).value.evals;
      EvaluationWords(bytes);
      ParsedWord(bytes, 18, e.a);
      ParsedWord(bytes, 19, e.b);
      ParsedWord(bytes, 20, e.c);
      ParsedWord(bytes, 21, e.s1);
      ParsedWord(bytes, 22, e.s2);
      ParsedWord(bytes, 23, e.zw);
    }
  }

  /** Which bytes are which commitment and which evaluation. */
  ghost predicate Spells(bytes: seq<Byte>, p: Proof) {
    && |bytes| == 768
    && bytes[..64] == p.a && bytes[64..128] == p.b && bytes[128..192] == p.c && bytes[192..256] == p.z
    && bytes[256..320] == p.t1 && bytes[320..384] == p.t2 && bytes[384..448] == p.t3
    && bytes[448..512] == p.wxi && bytes[512..576] == p.wxiw
    && bytes[576..608] == ToBE(p.evals.a, 32) && bytes[608..640] == ToBE(p.evals.b, 32)
    && bytes[640..672] == ToBE(p.evals.c, 32) && bytes[672..704] == ToBE(p.evals.s1, 32)
    && bytes[704..736] == ToBE(p.evals.s2, 32) && bytes[736..768] == ToBE(p.evals.zw, 32)
  }

  lemma WordParses(bytes: seq<Byte>, i: nat, x: Fr)
    requires 32 * i + 32 <= |bytes|
    ensures FrCanonical(WordAt(bytes, i)) == Some(x) <==> WordAt(bytes, i) == ToBE(x, 32)
  {
    if WordAt(bytes, i) == ToBE(x, 32) {
      FrBytesParse(x);
    } else if FrCanonical(WordAt(bytes, i)) == Some(x) {
      ParsedWord(bytes, i, x);
      assert false;
    }
  }

  /** A proof parses exactly from the bytes that spell it, evaluations canonical. */
  lemma ParsesIffSpelled(bytes: seq<Byte>, p: Proof)
    ensures Parse(bytes) == Some(p) <==> p.raw == bytes && Spells(bytes, p)
  {
    if |bytes| == PROOF_LEN {
      WordParses(bytes, 18, p.evals.a);
      WordParses(bytes, 19, p.evals.b);
      WordParses(bytes, 20, p.evals.c);
      WordParses(bytes, 21, p.evals.s1);
      WordParses(bytes, 22, p.evals.s2);
      WordParses(bytes, 23, p.evals.zw);
    }
  }

  // ---------------------------------------------------------------------------
  // The public input
  // ---------------------------------------------------------------------------

  function PublicPreimage(vk: Vk, programVk: Bytes32, publicValues: seq<Byte>): seq<Byte> {
    programVk + publicValues + vk.rootC
  }

  /** `sha256(programVK || publicValues || rootCVadcopFinal) mod r`. */
  function PublicInput(sys: Syscalls, vk: Vk, programVk: Bytes32, publicValues: seq<Byte>): Fr {
    FrReduce(sys.sha256(PublicPreimage(vk, programVk, publicValues)))
  }

  // ---------------------------------------------------------------------------
  // The challenges
  // ---------------------------------------------------------------------------

  function Hashed(sys: Syscalls, preimage: seq<Byte>): Fr {
    FrReduce(sys.keccak(preimage))
  }

  function Selectors(vk: Vk): (s: seq<G1>)
    ensures |s| == 8
  {
    [vk.qm, vk.ql, vk.qr, vk.qo, vk.qc, vk.s1, vk.s2, vk.s3]
  }

  function Concat(points: seq<G1>, n: nat): (s: seq<Byte>)
    requires n <= |points|
    ensures |s| == 64 * n
  {
    if n == 0 then [] else Concat(points, n - 1) + points[n - 1]
  }

  function Beta(sys: Syscalls, vk: Vk, p: Proof, pi: Fr): Fr {
    Hashed(sys, Concat(Selectors(vk), 8) + FrB(pi) + p.a + p.b + p.c)
  }

  function Gamma(sys: Syscalls, beta: Fr): Fr {
    Hashed(sys, FrB(beta))
  }

  function Alpha(sys: Syscalls, p: Proof, beta: Fr, gamma: Fr): Fr {
    Hashed(sys, FrB(beta) + FrB(gamma) + p.z)
  }

  function Xi(sys: Syscalls, p: Proof, alpha: Fr): Fr {
    Hashed(sys, FrB(alpha) + p.t1 + p.t2 + p.t3)
  }

  function V(sys: Syscalls, p: Proof, xi: Fr): Fr
    requires |p.raw| == PROOF_LEN
  {
    Hashed(sys, FrB(xi) + p.raw[576..768])
  }

  function U(sys: Syscalls, p: Proof): Fr {
    Hashed(sys, p.wxi + p.wxiw)
  }

  /** The hashed challenges with `xi^n`, the vanishing value and the powers of v. */
  function Assemble(alpha: Fr, beta: Fr, gamma: Fr, xi: Fr, xin: Fr, v: Fr, u: Fr): Challenges {
    Challenges(alpha, Red(alpha * alpha), beta, gamma, xi, xin, Red(beta * xi), Red(xin - 1), VPowers(v), u)
  }

  /** All challenges of a proof. */
  function ChallengesOf(sys: Syscalls, vk: Vk, p: Proof, pi: Fr): (c: Challenges)
    requires |p.raw| == PROOF_LEN
  {
    var beta := Beta(sys, vk, p, pi);
    var gamma := Gamma(sys, beta);
    var alpha := Alpha(sys, p, beta, gamma);
    var xi := Xi(sys, p, alpha);
    Assemble(alpha, beta, gamma, xi, Red(Pow(xi, N)), V(sys, p, xi), U(sys, p))
  }

  lemma ChallengesDerived(sys: Syscalls, vk: Vk, p: Proof, pi: Fr)
    requires |p.raw| == PROOF_LEN
    ensures Derived(ChallengesOf(sys, vk, p, pi))
    ensures var c := ChallengesOf(sys, vk, p, pi);
      Eq(c.zh, Pow(c.xi, N) - 1)
  {
    var c := ChallengesOf(sys, vk, p, pi);
    var power := Pow(c.xi, N);
    RedEq(power);
    RedEq(c.xin - 1);
    EqAdd(c.xin, power, 1, 1);
  }

  // ---------------------------------------------------------------------------
  // What is hashed, byte range by byte range
  // ---------------------------------------------------------------------------

  /** The 576 bytes SHA-256 sees. */
  ghost predicate StatementBytes(t: seq<Byte>, vk: Vk, programVk: Bytes32, publicValues: seq<Byte>) {
    |t| == 576 && t[..32] == programVk && t[32..544] == publicValues && t[544..] == vk.rootC
  }

  /** The 736 bytes that give beta: eight points of the key, the public input, and A, B, C. */
  ghost predicate BetaBytes(t: seq<Byte>, vk: Vk, p: Proof, pi: Fr) {
    && |t| == 736
    && t[..64] == vk.qm && t[64..128] == vk.ql && t[128..192] == vk.qr && t[192..256] == vk.qo
    && t[256..320] == vk.qc && t[320..384] == vk.s1 && t[384..448] == vk.s2 && t[448..512] == vk.s3
    && t[512..544] == ToBE(pi, 32)
    && t[544..608] == p.a && t[608..672] == p.b && t[672..] == p.c
  }

  ghost predicate AlphaBytes(t: seq<Byte>, p: Proof, beta: Fr, gamma: Fr) {
    |t| == 128 && t[..32] == ToBE(beta, 32) && t[32..64] == ToBE(gamma, 32) && t[64..] == p.z
  }

  ghost predicate XiBytes(t: seq<Byte>, p: Proof, alpha: Fr) {
    && |t| == 224 && t[..32] == ToBE(alpha, 32)
    && t[32..96] == p.t1 && t[96..160] == p.t2 && t[160..] == p.t3
  }

  ghost predicate VBytes(t: seq<Byte>, p: Proof, xi: Fr) {
    && |t| == 224 && t[..32] == ToBE(xi, 32)
    && t[32..64] == ToBE(p.evals.a, 32) && t[64..96] == ToBE(p.evals.b, 32) && t[96..128] == ToBE(p.evals.c, 32)
    && t[128..160] == ToBE(p.evals.s1, 32) && t[160..192] == ToBE(p.evals.s2, 32) && t[192..] == ToBE(p.evals.zw, 32)
  }

  ghost predicate UBytes(t: seq<Byte>, p: Proof) {
    |t| == 128 && t[..64] == p.wxi && t[64..] == p.wxiw
  }

  /** The public input is the digest of exactly key, window and aggregation key. */
  lemma PublicInputHashed(sys: Syscalls, vk: Vk, programVk: Bytes32, publicValues: seq<Byte>) returns (t: seq<Byte>)
    requires |publicValues| == 512
    ensures StatementBytes(t, vk, programVk, publicValues)
    ensures PublicInput(sys, vk, programVk, publicValues) == BE(sys.sha256(t)) % R
  {
    t := PublicPreimage(vk, programVk, publicValues);
    DigestReduced(sys.sha256(t));
  }

  lemma HashedValue(sys: Syscalls, t: seq<Byte>)
    ensures Hashed(sys, t) == BE(sys.keccak(t)) % R
  {
    DigestReduced(sys.keccak(t));
  }

  lemma SelectorBytes(vk: Vk)
    ensures var t := Concat(Selectors(vk), 8);
      && t[..64] == vk.qm && t[64..128] == vk.ql && t[128..192] == vk.qr && t[192..256] == vk.qo
      && t[256..320] == vk.qc && t[320..384] == vk.s1 && t[384..448] == vk.s2 && t[448..512] == vk.s3
  {
    var points := Selectors(vk);
    EachPoint(points, 8, 0);
    EachPoint(points, 8, 1);
    EachPoint(points, 8, 2);
    EachPoint(points, 8, 3);
    EachPoint(points, 8, 4);
    EachPoint(points, 8, 5);
    EachPoint(points, 8, 6);
    EachPoint(points, 8, 7);
  }

  lemma {:induction false} EachPoint(points: seq<G1>, n: nat, i: nat)
    requires i < n <= |points|
    ensures Concat(points, n)[64 * i..64 * i + 64] == points[i]
    decreases n
  {
    if i < n - 1 {
      EachPoint(points, n - 1, i);
      var front := Concat(points, n - 1);
      assert (front + points[n - 1])[64 * i..64 * i + 64] == front[64 * i..64 * i + 64];
    }
  }

  lemma BetaHashed(sys: Syscalls, vk: Vk, p: Proof, pi: Fr) returns (t: seq<Byte>)
    ensures BetaBytes(t, vk, p, pi) && Beta(sys, vk, p, pi) == BE(sys.keccak(t)) % R
  {
    var points := Concat(Selectors(vk), 8);
    t := points + FrB(pi) + p.a + p.b + p.c;
    SelectorBytes(vk);
    OpensWith(t, points, FrB(pi) + p.a + p.b + p.c);
    HashedValue(sys, t);
  }

  /** The first 512 bytes, point by point. */
  lemma OpensWith(t: seq<Byte>, points: seq<Byte>, rest: seq<Byte>)
    requires |points| == 512 && t == points + rest
    ensures t[..64] == points[..64] && t[64..128] == points[64..128] && t[128..192] == points[128..192]
    ensures t[192..256] == points[192..256] && t[256..320] == points[256..320] && t[320..384] == points[320..384]
    ensures t[384..448] == points[384..448] && t[448..512] == points[448..512]
  {
  }

  lemma AlphaHashed(sys: Syscalls, p: Proof, beta: Fr, gamma: Fr) returns (t: seq<Byte>)
    ensures AlphaBytes(t, p, beta, gamma) && Alpha(sys, p, beta, gamma) == BE(sys.keccak(t)) % R
  {
    t := FrB(beta) + FrB(gamma) + p.z;
    HashedValue(sys, t);
  }

  lemma XiHashed(sys: Syscalls, p: Proof, alpha: Fr) returns (t: seq<Byte>)
    ensures XiBytes(t, p, alpha) && Xi(sys, p, alpha) == BE(sys.keccak(t)) % R
  {
    t := FrB(alpha) + p.t1 + p.t2 + p.t3;
    HashedValue(sys, t);
  }

  lemma VHashed(sys: Syscalls, p: Proof, xi: Fr) returns (t: seq<Byte>)
    requires Parse(p.raw) == Some(p)
    ensures VBytes(t, p, xi) && V(sys, p, xi) == BE(sys.keccak(t)) % R
  {
    t := FrB(xi) + p.raw[576..768];
    ParsesIffSpelled(p.raw, p);
    EvaluationRanges(t, FrB(xi), p.raw);
    HashedValue(sys, t);
  }

  lemma EvaluationRanges(t: seq<Byte>, front: Bytes32, raw: seq<Byte>)
    requires |raw| == 768 && t == front + raw[576..768]
    ensures t[..32] == front && t[32..64] == raw[576..608] && t[64..96] == raw[608..640]
    ensures t[96..128] == raw[640..672] && t[128..160] == raw[672..704] && t[160..192] == raw[704..736]
    ensures t[192..] == raw[736..768]
  {
    EvaluationRange(t, front, raw, 0);
    EvaluationRange(t, front, raw, 1);
    EvaluationRange(t, front, raw, 2);
    EvaluationRange(t, front, raw, 3);
    EvaluationRange(t, front, raw, 4);
    EvaluationRange(t, front, raw, 5);
    assert t[192..] == t[192..224];
  }

  lemma EvaluationRange(t: seq<Byte>, front: Bytes32, raw: seq<Byte>, i: nat)
    requires |raw| == 768 && t == front + raw[576..768] && i < 6
    ensures t[32 + 32 * i..64 + 32 * i] == raw[576 + 32 * i..608 + 32 * i]
  {
    var s, r := t[32 + 32 * i..64 + 32 * i], raw[576 + 32 * i..608 + 32 * i];
    forall k | 0 <= k < 32 ensures s[k] == r[k] {
      assert t[32 + (32 * i + k)] == raw[576..768][32 * i + k];
    }
  }

  lemma UHashed(sys: Syscalls, p: Proof) returns (t: seq<Byte>)
    ensures UBytes(t, p) && U(sys, p) == BE(sys.keccak(t)) % R
  {
    t := p.wxi + p.wxiw;
    HashedValue(sys, t);
  }

  /** The six preimages of a proof's challenges. */
  datatype Preimages = Preimages(beta: seq<Byte>, gamma: seq<Byte>, alpha: seq<Byte>, xi: seq<Byte>, v: seq<Byte>,
                                 u: seq<Byte>)

  /** These are the bytes that the challenges of p under pi are hashed from. */
  ghost predicate HashedFrom(t: Preimages, vk: Vk, p: Proof, pi: Fr, c: Challenges)
    requires |c.v| == 5
  {
    && BetaBytes(t.beta, vk, p, pi)
    && t.gamma == ToBE(c.beta, 32)
    && AlphaBytes(t.alpha, p, c.beta, c.gamma)
    && XiBytes(t.xi, p, c.alpha)
    && VBytes(t.v, p, c.xi)
    && UBytes(t.u, p)
  }

  /** The challenges are the digests of these bytes. */
  ghost predicate AreDigests(sys: Syscalls, t: Preimages, c: Challenges)
    requires |c.v| == 5
  {
    && c.beta == BE(sys.keccak(t.beta)) % R && c.gamma == BE(sys.keccak(t.gamma)) % R
    && c.alpha == BE(sys.keccak(t.alpha)) % R && c.xi == BE(sys.keccak(t.xi)) % R
    && c.v[0] == BE(sys.keccak(t.v)) % R && c.u == BE(sys.keccak(t.u)) % R
  }

  /**
   Every challenge is the Keccak-256 of exactly the bytes named for it, reduced:
   the key, the public input, and each commitment and evaluation at its place.
   */
  lemma ChallengesHashed(sys: Syscalls, vk: Vk, p: Proof, pi: Fr) returns (t: Preimages)
    requires Parse(p.raw) == Some(p)
    ensures HashedFrom(t, vk, p, pi, ChallengesOf(sys, vk, p, pi)) && AreDigests(sys, t, ChallengesOf(sys, vk, p, pi))
  {
    var beta := Beta(sys, vk, p, pi);
    var gamma := Gamma(sys, beta);
    var alpha := Alpha(sys, p, beta, gamma);
    var xi := Xi(sys, p, alpha);
    var tb := BetaHashed(sys, vk, p, pi);
    HashedValue(sys, FrB(beta));
    var ta := AlphaHashed(sys, p, beta, gamma);
    var tx := XiHashed(sys, p, alpha);
    var tv := VHashed(sys, p, xi);
    var tu := UHashed(sys, p);
    t := Preimages(tb, FrB(beta), ta, tx, tv, tu);
  }

  lemma ScalarBytesInjective(x: Fr, y: Fr)
    requires ToBE(x, 32) == ToBE(y, 32)
    ensures x == y
  {
    FrBytesParse(x);
    FrBytesParse(y);
  }

  lemma SameEvaluations(t: seq<Byte>, p: Proof, p': Proof, xi: Fr, xi': Fr)
    requires VBytes(t, p, xi) && VBytes(t, p', xi')
    ensures p.evals == p'.evals && xi == xi'
  {
    ScalarBytesInjective(xi, xi');
    ScalarBytesInjective(p.evals.a, p'.evals.a);
    ScalarBytesInjective(p.evals.b, p'.evals.b);
    ScalarBytesInjective(p.evals.c, p'.evals.c);
    ScalarBytesInjective(p.evals.s1, p'.evals.s1);
    ScalarBytesInjective(p.evals.s2, p'.evals.s2);
    ScalarBytesInjective(p.evals.zw, p'.evals.zw);
  }

  /**
   The transcript binds: two proofs whose challenges are hashed from the same
   bytes have one public input and are one byte string.
   */
  lemma TranscriptBinds(t: Preimages, vk: Vk, p: Proof, pi: Fr, c: Challenges, vk': Vk, p': Proof, pi': Fr,
                        c': Challenges)
    requires |c.v| == 5 && |c'.v| == 5 && Parse(p.raw) == Some(p) && Parse(p'.raw) == Some(p')
    requires HashedFrom(t, vk, p, pi, c) && HashedFrom(t, vk', p', pi', c')
    ensures pi == pi' && p.raw == p'.raw && Selectors(vk) == Selectors(vk')
  {
    ScalarBytesInjective(pi, pi');
    SameEvaluations(t.v, p, p', c.xi, c'.xi);
    ParsesIffSpelled(p.raw, p);
    ParsesIffSpelled(p'.raw, p');
    OneSpelling(p.raw, p'.raw, p, p');
  }

  lemma OneSpelling(bytes: seq<Byte>, bytes': seq<Byte>, p: Proof, p': Proof)
    requires Spells(bytes, p) && Spells(bytes', p') && p.(raw := []) == p'.(raw := [])
    ensures bytes == bytes'
  {
    SpelledParts(bytes);
    SpelledParts(bytes');
  }

  lemma SpelledParts(s: seq<Byte>)
    requires |s| == 768
    ensures s == s[..64] + s[64..128] + s[128..192] + s[192..256] + s[256..320] + s[320..384] + s[384..448]
                 + s[448..512] + s[512..576] + s[576..608] + s[608..640] + s[640..672] + s[672..704] + s[704..736]
                 + s[736..768]
  {
  }

  // ---------------------------------------------------------------------------
  // Filling the transcript buffers
  // ---------------------------------------------------------------------------

  method AppendFr(buf: array<Byte>, off: nat, x: Fr)
    requires off + 32 <= buf.Length
    modifies buf
    ensures buf[..off + 32] == old(buf[..off]) + FrB(x)
  {
    var bytes := FrBytes(x);
    Append(buf, off, bytes[..]);
  }

  method HashBuffer(sys: Syscalls, buf: array<Byte>) returns (x: Fr)
    ensures x == Hashed(sys, buf[..buf.Length])
  {
    assert buf[..] == buf[..buf.Length];
    x := FrReduce(sys.keccak(buf[..]));
  }

  method DeriveBeta(sys: Syscalls, vk: Vk, p: Proof, pi: Fr) returns (beta: Fr)
    ensures beta == Beta(sys, vk, p, pi)
  {
    var t := new Byte[736](_ => 0);
    var points := Selectors(vk);
    for i := 0 to 8
      invariant t[..64 * i] == Concat(points, i)
    {
      Append(t, 64 * i, points[i]);
    }
    AppendFr(t, 512, pi);
    Append(t, 544, p.a);
    Append(t, 608, p.b);
    Append(t, 672, p.c);
    beta := HashBuffer(sys, t);
  }

  method DeriveAlpha(sys: Syscalls, p: Proof, beta: Fr, gamma: Fr) returns (alpha: Fr)
    ensures alpha == Alpha(sys, p, beta, gamma)
  {
    var t := new Byte[128](_ => 0);
    AppendFr(t, 0, beta);
    assert t[..32] == FrB(beta);
    AppendFr(t, 32, gamma);
    Append(t, 64, p.z);
    alpha := HashBuffer(sys, t);
  }

  method DeriveXi(sys: Syscalls, p: Proof, alpha: Fr) returns (xi: Fr)
    ensures xi == Xi(sys, p, alpha)
  {
    var t := new Byte[224](_ => 0);
    AppendFr(t, 0, alpha);
    assert t[..32] == FrB(alpha);
    Append(t, 32, p.t1);
    Append(t, 96, p.t2);
    Append(t, 160, p.t3);
    xi := HashBuffer(sys, t);
  }

  method DeriveV(sys: Syscalls, p: Proof, xi: Fr) returns (v: Fr)
    requires |p.raw| == PROOF_LEN
    ensures v == V(sys, p, xi)
  {
    var t := new Byte[224](_ => 0);
    AppendFr(t, 0, xi);
    assert t[..32] == FrB(xi);
    Append(t, 32, p.raw[576..768]);
    v := HashBuffer(sys, t);
  }

  method DeriveU(sys: Syscalls, p: Proof) returns (u: Fr)
    ensures u == U(sys, p)
  {
    var t := new Byte[128](_ => 0);
    Append(t, 0, p.wxi);
    assert t[..64] == p.wxi;
    Append(t, 64, p.wxiw);
    u := HashBuffer(sys, t);
  }

  /** `challenges`. */
  method DeriveChallenges(sys: Syscalls, vk: Vk, p: Proof, pi: Fr) returns (c: Challenges)
    requires |p.raw| == PROOF_LEN
    ensures c == ChallengesOf(sys, vk, p, pi)
  {
    var beta := DeriveBeta(sys, vk, p, pi);
    var bytes := FrBytes(beta);
    var gamma := FrReduce(sys.keccak(bytes[..]));
    var alpha := DeriveAlpha(sys, p, beta, gamma);
    var xi := DeriveXi(sys, p, alpha);
    var v := DeriveV(sys, p, xi);
    var u := DeriveU(sys, p);
    var xin := Squarings(xi);
    c := Assemble(alpha, beta, gamma, xi, xin, v, u);
  }
}
