/**
 Well-formed wrap files on which `parse` finds the wrong list
 (scripts/wrap_to_fixture.py). Their key words take nine bytes and their window
 words at most five, as the script expects; but the window's bytes, cut
 elsewhere, are a second list of 68 words that opens with the program key and
 ends at the tail. When every word of it fits in eight bytes the parser returns
 those words, and otherwise it raises.
 */
module SpuriousPublics {
  import opened Bytes
  import opened WrapFile

  // ---------------------------------------------------------------------------
  // Two ways to cut the same bytes
  // ---------------------------------------------------------------------------

  /** Runs of bytes, no encoded word of either list crossing the end of one; `five` is the second list's fifth word. */
  datatype Runs = Runs(p: seq<Byte>, x: seq<Byte>, y: seq<Byte>, m: seq<Byte>, z: seq<Byte>, q: seq<Byte>,
                       v: seq<Byte>, five: seq<Byte>, d: seq<Byte>)

  /** The words the encoder cuts, and those the search cuts from `d`. */
  datatype Cut = Cut(k0: U64, k1: U64, k2: U64, k3: U64,
                     w0: U64, x: U64, w2: U64, w4: U64, w6: U64, w7: U64, mid: seq<U64>, dense: seq<U64>)

  predicate Shaped(r: Runs) {
    && |r.p| == 3 && |r.x| == 5 && |r.y| == 2 && |r.m| == 2 && |r.z| == 3 && |r.q| == 4 && |r.v| == 3
    && r.five != [] && Width(r.five[0]) == Value(|r.five| - 1)
    && 68 !in r.p && 68 !in r.x && 68 !in r.y && 68 !in r.m && 68 !in r.z && 68 !in r.q
    && 68 !in r.v && 68 !in r.five && 68 !in r.d
  }

  function Key0(r: Runs): seq<Byte> { [253] + (r.x + r.p) }
  function Key1(r: Runs): seq<Byte> { r.y + (r.x + r.m) }
  function Key2(r: Runs): seq<Byte> { r.z + (r.x + [252]) }
  function Key3(r: Runs): seq<Byte> { r.q + (r.v + r.m) }

  predicate SpellsKeys(r: Runs, u: Cut) {
    && EncodeVarint(u.k0) == Key0(r) && EncodeVarint(u.k1) == Key1(r)
    && EncodeVarint(u.k2) == Key2(r) && EncodeVarint(u.k3) == Key3(r)
  }

  predicate SpellsWindow(r: Runs, u: Cut) {
    && EncodeVarint(u.w0) == r.p + [68, 253] && EncodeVarint(u.x) == r.x && EncodeVarint(u.w2) == r.p + r.y
    && EncodeVarint(u.w4) == r.m + r.z && EncodeVarint(u.w6) == [252] + r.q && EncodeVarint(u.w7) == r.v
    && |u.mid| <= 56 && EncodeWords(u.mid) == r.m + (r.five + r.d)
    && (forall i | 0 <= i < |u.mid| :: u.mid[i] < 0x1_0000_0000)
    && |u.dense| == 7 + |u.mid| && EncodeWords(u.dense) == r.d
  }

  predicate Spells(r: Runs, u: Cut) {
    Shaped(r) && SpellsKeys(r, u) && SpellsWindow(r, u)
  }

  function Repeat(n: nat): (words: seq<U64>)
    ensures |words| == n
  {
    seq(n, _ => 0)
  }

  /** How many zero words end both lists. */
  function Padding(u: Cut): nat {
    if |u.mid| <= 56 then 56 - |u.mid| else 0
  }

  function KeyList(u: Cut): seq<U64> {
    [u.k0, u.k1, u.k2, u.k3]
  }

  function Window(u: Cut): seq<U64> {
    [u.w0, u.x, u.w2, u.x, u.w4, u.x, u.w6, u.w7] + (u.mid + Repeat(Padding(u)))
  }

  function FileOf(u: Cut): Wrap {
    Wrap(Zeros(768), [], KeyList(u) + Window(u), KeyList(u), KeyList(u), 0)
  }

  /** Every window word is narrower than a key word. */
  predicate NarrowWindow(f: Wrap) {
    forall i | 4 <= i < |f.publics| :: f.publics[i] < 0x1_0000_0000
  }

  lemma FileWellFormed(r: Runs, u: Cut)
    requires Spells(r, u)
    ensures WellFormed(FileOf(u)) && FullWidth(FileOf(u)) && NarrowWindow(FileOf(u))
  {
    var first, rest := [u.w0, u.x, u.w2, u.x, u.w4, u.x, u.w6, u.w7], u.mid + Repeat(Padding(u));
    assert (KeyList(u) + Window(u))[..4] == KeyList(u);
    assert |EncodeVarint(u.k0)| == 9 && |EncodeVarint(u.k1)| == 9 && |EncodeVarint(u.k2)| == 9
        && |EncodeVarint(u.k3)| == 9;
    assert forall i | 0 <= i < 8 :: |EncodeVarint(first[i])| < 9;
    forall i | 4 <= i < 68 ensures FileOf(u).publics[i] < 0x1_0000_0000 {
      assert FileOf(u).publics[i] == if i < 12 then first[i - 4] else rest[i - 12];
    }
  }

  // ---------------------------------------------------------------------------
  // The bytes
  // ---------------------------------------------------------------------------

  lemma EncodeCons(v: U64, rest: seq<U64>, word: seq<Byte>, body: seq<Byte>)
    requires EncodeVarint(v) == word && EncodeWords(rest) == body
    ensures EncodeWords([v] + rest) == word + body
  {
    assert ([v] + rest)[1..] == rest;
  }

  lemma {:induction false} EncodeZeroWords(n: nat)
    ensures EncodeWords(Repeat(n)) == Zeros(n)
  {
    if n == 0 {
    } else {
      EncodeZeroWords(n - 1);
      EncodeCons(0, Repeat(n - 1), [0], Zeros(n - 1));
      assert Repeat(n) == [0] + Repeat(n - 1);
    }
  }

  lemma {:induction false} EncodeAppend(x: seq<U64>, y: seq<U64>)
    ensures EncodeWords(x + y) == EncodeWords(x) + EncodeWords(y)
  {
    if x == [] {
      assert x + y == y;
    } else {
      EncodeAppend(x[1..], y);
      AppendFirst(x[0], x[1..], y, x);
    }
  }

  lemma AppendFirst(v: U64, rest: seq<U64>, y: seq<U64>, x: seq<U64>)
    requires x == [v] + rest && EncodeWords(rest + y) == EncodeWords(rest) + EncodeWords(y)
    ensures EncodeWords(x + y) == EncodeWords(x) + EncodeWords(y)
  {
    EncodeCons(v, rest, EncodeVarint(v), EncodeWords(rest));
    EncodeCons(v, rest + y, EncodeVarint(v), EncodeWords(rest) + EncodeWords(y));
    Associative([v], rest, y);
    Associative(EncodeVarint(v), EncodeWords(rest), EncodeWords(y));
  }

  lemma Associative<T>(x: seq<T>, y: seq<T>, z: seq<T>)
    ensures x + (y + z) == (x + y) + z
  {
  }

  lemma Encode4(w: seq<U64>, a: seq<Byte>, b: seq<Byte>, c: seq<Byte>, d: seq<Byte>)
    requires |w| == 4 && EncodeVarint(w[0]) == a && EncodeVarint(w[1]) == b && EncodeVarint(w[2]) == c
    requires EncodeVarint(w[3]) == d
    ensures EncodeWords(w) == a + (b + (c + d))
  {
    assert EncodeWords([]) == [];
    EncodeCons(w[3], [], d, []);
    EncodeCons(w[2], [w[3]], c, d);
    EncodeCons(w[1], [w[2], w[3]], b, c + d);
    EncodeCons(w[0], [w[1], w[2], w[3]], a, b + (c + d));
    assert [w[1]] + [w[2], w[3]] == [w[1], w[2], w[3]];
    assert w == [w[0]] + [w[1], w[2], w[3]];
  }

  /** Everything the search reads after the key. */
  function AfterKey(r: Runs, n: nat): seq<Byte> {
    r.five + (r.d + Zeros(n))
  }

  function AfterCount(r: Runs, n: nat): seq<Byte> {
    Key0(r) + (Key1(r) + (Key2(r) + (Key3(r) + AfterKey(r, n))))
  }

  /** What the search reads: a count, the key, the fifth word, the rest with its n zeros. */
  function Second(r: Runs, n: nat): seq<Byte> {
    [68] + AfterCount(r, n)
  }

  lemma SecondLength(r: Runs, n: nat)
    requires Shaped(r)
    ensures |Key0(r)| == |Key1(r)| == |Key2(r)| == |Key3(r)| == 9
    ensures |AfterKey(r, n)| == |r.five| + |r.d| + n && |Second(r, n)| == 37 + |AfterKey(r, n)|
  {
  }

  lemma Append4(w: seq<U64>, a: seq<Byte>, b: seq<Byte>, c: seq<Byte>, d: seq<Byte>, rest: seq<U64>, body: seq<Byte>)
    requires |w| == 4 && EncodeVarint(w[0]) == a && EncodeVarint(w[1]) == b && EncodeVarint(w[2]) == c
    requires EncodeVarint(w[3]) == d
    requires EncodeWords(rest) == body
    ensures EncodeWords(w + rest) == (a + (b + (c + d))) + body
  {
    Encode4(w, a, b, c, d);
    EncodeAppend(w, rest);
  }

  lemma MidAndZeros(r: Runs, u: Cut)
    requires Spells(r, u)
    ensures EncodeWords(u.mid + Repeat(Padding(u))) == (r.m + (r.five + r.d)) + Zeros(Padding(u))
  {
    EncodeZeroWords(Padding(u));
    EncodeAppend(u.mid, Repeat(Padding(u)));
  }

  lemma WindowStarts(r: Runs, u: Cut, rest: seq<U64>, body: seq<Byte>)
    requires Spells(r, u) && EncodeWords(rest) == body
    ensures EncodeWords([u.w0, u.x, u.w2, u.x] + ([u.w4, u.x, u.w6, u.w7] + rest))
         == ((r.p + [68, 253]) + (r.x + ((r.p + r.y) + r.x)))
            + (((r.m + r.z) + (r.x + (([252] + r.q) + r.v))) + body)
  {
    var second, bytes := [u.w4, u.x, u.w6, u.w7], (r.m + r.z) + (r.x + (([252] + r.q) + r.v));
    Append4(second, r.m + r.z, r.x, [252] + r.q, r.v, rest, body);
    Append4([u.w0, u.x, u.w2, u.x], r.p + [68, 253], r.x, r.p + r.y, r.x, second + rest, bytes + body);
  }

  lemma WindowSpelled(r: Runs, u: Cut)
    requires Spells(r, u)
    ensures EncodeWords(Window(u)) == r.p + Second(r, Padding(u))
  {
    var rest, body := u.mid + Repeat(Padding(u)), (r.m + (r.five + r.d)) + Zeros(Padding(u));
    MidAndZeros(r, u);
    WindowStarts(r, u, rest, body);
    WindowParts(u, rest);
    Regrouped(r.p, r.x, r.y, r.m, r.z, r.q, r.v, r.five, r.d, Zeros(Padding(u)));
  }

  lemma WindowParts(u: Cut, rest: seq<U64>)
    requires rest == u.mid + Repeat(Padding(u))
    ensures Window(u) == [u.w0, u.x, u.w2, u.x] + ([u.w4, u.x, u.w6, u.w7] + rest)
  {
  }

  /** The same bytes, bracketed as the encoder writes them and as the search reads them. */
  lemma Regrouped(p: seq<Byte>, x: seq<Byte>, y: seq<Byte>, m: seq<Byte>, z: seq<Byte>, q: seq<Byte>, v: seq<Byte>,
                  five: seq<Byte>, d: seq<Byte>, zeros: seq<Byte>)
    ensures ((p + [68, 253]) + (x + ((p + y) + x)))
            + (((m + z) + (x + (([252] + q) + v))) + ((m + (five + d)) + zeros))
         == p + ([68]
                 + (([253] + (x + p)) + ((y + (x + m)) + ((z + (x + [252])) + ((q + (v + m)) + (five + (d + zeros)))))))
  {
    var t := five + (d + zeros);
    assert (m + (five + d)) + zeros == m + t;
    var t' := (q + (v + m)) + t;
    assert (([252] + q) + v) + (m + t) == [252] + t';
    var t'' := (z + (x + [252])) + t';
    assert ((m + z) + (x + (([252] + q) + v))) + (m + t) == m + t'' by {
      assert ((m + z) + (x + (([252] + q) + v))) + (m + t) == m + (z + (x + ((([252] + q) + v) + (m + t))));
    }
    assert ((p + [68, 253]) + (x + ((p + y) + x))) + (m + t'')
        == p + ([68] + (([253] + (x + p)) + ((y + (x + m)) + t''))) by {
      assert [68, 253] == [68] + [253];
    }
  }

  // ---------------------------------------------------------------------------
  // What the search reads
  // ---------------------------------------------------------------------------

  /** The last byte is the most significant. */
  lemma {:induction false} TopByte(s: seq<Byte>)
    requires s != []
    ensures LE(s) >= Pow256(|s| - 1) * s[|s| - 1]
  {
    if |s| == 1 {
      assert LE(s[1..]) == 0;
    } else {
      TopByte(s[1..]);
    }
  }

  lemma SixteenBytes(s: seq<Byte>)
    requires |s| == 16 && s[15] > 0
    ensures LE(s) >= TWO_64
  {
    TopByte(s);
    Pow256Values();
    Pow256Add(8, 7);
  }

  /** A tag and as many bytes as it calls for, little-endian. */
  lemma TaggedReads(b: seq<Byte>, i: nat, s: seq<Byte>, w: nat)
    requires HoldsAt(b, i, s) && s != [] && Width(s[0]) == Value(|s| - 1) && w == LE(s[1..])
    ensures ReadsWord(b, i, w, i + |s|)
  {
    HoldsSlice(b, i, s);
    assert b[i] == b[i..i + |s|][0];
    assert b[i + 1..i + |s|] == b[i..i + |s|][1..];
  }

  /** The words after the key and the fifth. */
  function Rest(u: Cut): seq<U64> {
    u.dense + Repeat(Padding(u))
  }

  lemma RestSpelled(r: Runs, u: Cut)
    requires Spells(r, u)
    ensures EncodeWords(Rest(u)) == r.d + Zeros(Padding(u)) && |Rest(u)| == 63
  {
    EncodeZeroWords(Padding(u));
    EncodeAppend(u.dense, Repeat(Padding(u)));
  }

  lemma AfterKeyReads(b: seq<Byte>, i: nat, next: nat, body: seq<Byte>, w: nat, rest: seq<U64>,
                      read: seq<nat>, longer: seq<nat>, all: seq<nat>, end: nat)
    requires ReadsWord(b, i, w, next) && HoldsAt(b, next, body)
    requires body == EncodeWords(rest) && end == next + |body| && longer == read + [w] && all == longer + rest
    ensures ReadsWords(b, i, 1 + |rest|, read, all, end)
  {
    WordsRead(b, next, rest, body, longer, all, end);
    NextWord(b, i, 1 + |rest|, read, w, next, longer, all, end);
  }

  lemma KeyReads(b: seq<Byte>, i: nat, k: U64, word: seq<Byte>, rest: seq<Byte>, n: nat,
                 read: seq<nat>, longer: seq<nat>, all: seq<nat>, end: nat)
    requires HoldsAt(b, i, word + rest) && EncodeVarint(k) == word && |word| == 9 && longer == read + [k]
    requires ReadsWords(b, i + 9, n, longer, all, end)
    ensures ReadsWords(b, i, n + 1, read, all, end)
  {
    FirstWordReads(b, i, word, rest, k);
    NextWord(b, i, n + 1, read, k, i + 9, longer, all, end);
  }

  lemma KeysHeld(b: seq<Byte>, i: nat, a0: seq<Byte>, a1: seq<Byte>, a2: seq<Byte>, a3: seq<Byte>, t: seq<Byte>)
    requires HoldsAt(b, i, a0 + (a1 + (a2 + (a3 + t)))) && |a0| == |a1| == |a2| == |a3| == 9
    ensures HoldsAt(b, i + 9, a1 + (a2 + (a3 + t))) && HoldsAt(b, i + 18, a2 + (a3 + t))
    ensures HoldsAt(b, i + 27, a3 + t) && HoldsAt(b, i + 36, t)
  {
    HoldsParts(b, i, a0, a1 + (a2 + (a3 + t)));
    HoldsParts(b, i + 9, a1, a2 + (a3 + t));
    HoldsParts(b, i + 18, a2, a3 + t);
    HoldsParts(b, i + 27, a3, t);
  }

  lemma TwoRead(b: seq<Byte>, i: nat, k: U64, k': U64, a0: seq<Byte>, a1: seq<Byte>, t: seq<Byte>, n: nat,
                read: seq<nat>, longer: seq<nat>, both: seq<nat>, all: seq<nat>, end: nat)
    requires HoldsAt(b, i, a0 + (a1 + t)) && HoldsAt(b, i + 9, a1 + t) && |a0| == |a1| == 9
    requires EncodeVarint(k) == a0 && EncodeVarint(k') == a1 && longer == read + [k] && both == longer + [k']
    requires ReadsWords(b, i + 18, n, both, all, end)
    ensures ReadsWords(b, i, n + 2, read, all, end)
  {
    KeyReads(b, i + 9, k', a1, t, n, longer, both, all, end);
    KeyReads(b, i, k, a0, a1 + t, n + 1, read, longer, all, end);
  }

  /** Four key words before n others; r1, r2 and r3 are what has been read on the way. */
  lemma KeysRead(b: seq<Byte>, i: nat, u: Cut, a0: seq<Byte>, a1: seq<Byte>, a2: seq<Byte>, a3: seq<Byte>, t: seq<Byte>,
                 n: nat,
                 none: seq<nat>, r1: seq<nat>, r2: seq<nat>, r3: seq<nat>, read: seq<nat>, all: seq<nat>, end: nat)
    requires HoldsAt(b, i, a0 + (a1 + (a2 + (a3 + t)))) && |a0| == |a1| == |a2| == |a3| == 9
    requires EncodeVarint(u.k0) == a0 && EncodeVarint(u.k1) == a1 && EncodeVarint(u.k2) == a2
    requires EncodeVarint(u.k3) == a3
    requires r1 == none + [u.k0] && r2 == r1 + [u.k1] && r3 == r2 + [u.k2] && read == r3 + [u.k3]
    requires ReadsWords(b, i + 36, n, read, all, end)
    ensures ReadsWords(b, i, n + 4, none, all, end)
  {
    KeysHeld(b, i, a0, a1, a2, a3, t);
    TwoRead(b, i + 18, u.k2, u.k3, a2, a3, t, n, r2, r3, read, all, end);
    TwoRead(b, i, u.k0, u.k1, a0, a1, a2 + (a3 + t), n + 2, none, r1, r2, all, end);
  }

  function Fifth(r: Runs): nat
    requires Shaped(r)
  {
    LE(r.five[1..])
  }

  /** The second list. */
  function SecondList(r: Runs, u: Cut): seq<nat>
    requires Spells(r, u)
  {
    (KeyList(u) + [Fifth(r)]) + Rest(u)
  }

  lemma SecondListShape(r: Runs, u: Cut)
    requires Spells(r, u)
    ensures |SecondList(r, u)| == 68 && SecondList(r, u)[..4] == KeyList(u)
    ensures SecondList(r, u)[4..] == [Fifth(r)] + Rest(u)
  {
  }

  /** The 68 words, read from the byte after the count. */
  lemma ListReads(b: seq<Byte>, i: nat, r: Runs, u: Cut, all: seq<nat>, end: nat)
    requires Spells(r, u) && HoldsAt(b, i, AfterCount(r, Padding(u))) && end == i + |AfterCount(r, Padding(u))|
    requires all == SecondList(r, u)
    ensures ReadsWords(b, i, 68, [], all, end)
  {
    var read: seq<nat> := KeyList(u);
    var after := AfterKey(r, Padding(u));
    SecondLength(r, Padding(u));
    KeysHeld(b, i, Key0(r), Key1(r), Key2(r), Key3(r), after);
    FifthThenRest(b, i + 36, r, u, read, all, end);
    KeysThen(b, i, r, u, after, read, all, end);
  }

  lemma KeysThen(b: seq<Byte>, i: nat, r: Runs, u: Cut, t: seq<Byte>, read: seq<nat>, all: seq<nat>, end: nat)
    requires Shaped(r) && SpellsKeys(r, u) && HoldsAt(b, i, Key0(r) + (Key1(r) + (Key2(r) + (Key3(r) + t))))
    requires |Key0(r)| == |Key1(r)| == |Key2(r)| == |Key3(r)| == 9
    requires read == KeyList(u) && ReadsWords(b, i + 36, 64, read, all, end)
    ensures ReadsWords(b, i, 68, [], all, end)
  {
    KeysRead(b, i, u, Key0(r), Key1(r), Key2(r), Key3(r), t, 64, [], [u.k0], [u.k0, u.k1], [u.k0, u.k1, u.k2], read,
             all, end);
  }

  lemma FifthThenRest(b: seq<Byte>, i: nat, r: Runs, u: Cut, read: seq<nat>, all: seq<nat>, end: nat)
    requires Spells(r, u) && HoldsAt(b, i, AfterKey(r, Padding(u))) && end == i + |AfterKey(r, Padding(u))|
    requires read == KeyList(u) && all == SecondList(r, u)
    ensures ReadsWords(b, i, 64, read, all, end)
  {
    SecondLength(r, Padding(u));
    RestSpelled(r, u);
    HoldsParts(b, i, r.five, r.d + Zeros(Padding(u)));
    TaggedReads(b, i, r.five, Fifth(r));
    AfterKeyReads(b, i, i + |r.five|, r.d + Zeros(Padding(u)), Fifth(r), Rest(u), read, read + [Fifth(r)], all, end);
  }

  lemma CountHeld(b: seq<Byte>, q: nat, body: seq<Byte>)
    requires HoldsAt(b, q, [68] + body)
    ensures ReadsWord(b, q, 68, q + 1) && HoldsAt(b, q + 1, body) && At(b, q) == Value(68)
  {
    assert EncodeVarint(68) == [68];
    FirstWordReads(b, q, [68], body, 68);
    HoldsParts(b, q, [68], body);
  }

  lemma SecondIsHit(b: seq<Byte>, q: nat, tail: nat, key: seq<U64>, r: Runs, u: Cut, all: seq<nat>)
    requires Spells(r, u) && HoldsAt(b, q, Second(r, Padding(u))) && tail == q + |Second(r, Padding(u))|
    requires key == KeyList(u) && all == SecondList(r, u)
    ensures Candidate(b, tail, key, q) && Hit(b, tail, key, q) == Some(all)
  {
    CountHeld(b, q, AfterCount(r, Padding(u)));
    ListReads(b, q + 1, r, u, all, tail);
    CountThenWords(b, q, 68, q + 1, [], all, tail);
    SecondListShape(r, u);
    ReadCandidate(b, tail, key, q, all);
  }

  /** No byte of the second list but its first can be mistaken for a count. */
  lemma NoThird(b: seq<Byte>, q: nat, o: int, tail: nat, key: seq<nat>, r: Runs, n: nat)
    requires Shaped(r) && HoldsAt(b, q, Second(r, n)) && tail == q + |Second(r, n)| && q < o < tail
    ensures !Candidate(b, tail, key, o)
  {
    ByteWithin(b, q, Second(r, n), o);
    OneCount(r, n);
    assert Second(r, n)[o - q] == AfterCount(r, n)[o - q - 1];
  }

  lemma OneCount(r: Runs, n: nat)
    requires Shaped(r)
    ensures 68 !in AfterCount(r, n)
  {
    assert 68 !in Key0(r) && 68 !in Key1(r) && 68 !in Key2(r) && 68 !in Key3(r);
    assert 68 !in r.d + Zeros(n);
    assert 68 !in AfterKey(r, n);
  }

  // ---------------------------------------------------------------------------
  // The file
  // ---------------------------------------------------------------------------

  lemma PublicsSpelled(r: Runs, u: Cut, publics: seq<U64>, keys: seq<Byte>)
    requires Spells(r, u) && publics == KeyList(u) + Window(u) && |publics| == 68
    requires keys == Key0(r) + (Key1(r) + (Key2(r) + Key3(r)))
    ensures EncodeVec(publics) == ([68] + (keys + r.p)) + Second(r, Padding(u))
  {
    var second := Second(r, Padding(u));
    WindowSpelled(r, u);
    Append4(KeyList(u), Key0(r), Key1(r), Key2(r), Key3(r), Window(u), r.p + second);
    assert EncodeVarint(68) == [68];
    Associative(keys, r.p, second);
    Associative([68], keys + r.p, second);
  }

  /** Where the second list lies. */
  lemma SecondLies(r: Runs, u: Cut, f: Wrap, b: seq<Byte>, q: nat)
    requires Spells(r, u) && f == FileOf(u) && WellFormed(f) && b == File(f) && q == PublicsAt(f) + 40
    ensures HoldsAt(b, q, Second(r, Padding(u))) && KeysAt(f) == q + |Second(r, Padding(u))|
  {
    PublicsLie(f, b, PublicsAt(f));
    var keys := Key0(r) + (Key1(r) + (Key2(r) + Key3(r)));
    PublicsSpelled(r, u, f.publics, keys);
    SecondLength(r, Padding(u));
    HoldsParts(b, PublicsAt(f), [68] + (keys + r.p), Second(r, Padding(u)));
  }

  /** What the parser makes of such a file: the second list's words, or the exception for one too wide. */
  function Misread(r: Runs, u: Cut): PyResult<Fields>
    requires Shaped(r)
  {
    if Fifth(r) >= TWO_64 then Raise(OverflowError)
    else Value(Fields(KeyList(u), KeyList(u), [Fifth(r)] + Rest(u), Zeros(768)))
  }

  /** On every such file the parser stops at the second list. */
  lemma SuchFilesMisread(r: Runs, u: Cut)
    requires Spells(r, u)
    ensures WellFormed(FileOf(u)) && FullWidth(FileOf(u)) && NarrowWindow(FileOf(u))
    ensures Parsed(File(FileOf(u))) == Misread(r, u)
  {
    var f := FileOf(u);
    FileWellFormed(r, u);
    var b, tail, start := File(f), KeysAt(f), PublicsAt(f) + 40;
    SecondLies(r, u, f, b, start);
    SecondIsHit(b, start, tail, f.key, r, u, SecondList(r, u));
    SearchMeetsSecond(r, u, f, b, tail, start, SecondList(r, u));
  }

  lemma SearchMeetsSecond(r: Runs, u: Cut, f: Wrap, b: seq<Byte>, tail: nat, start: nat, all: seq<nat>)
    requires Spells(r, u) && f == FileOf(u) && WellFormed(f) && FullWidth(f) && b == File(f) && tail == KeysAt(f)
    requires HoldsAt(b, start, Second(r, Padding(u))) && tail == start + |Second(r, Padding(u))|
    requires all == SecondList(r, u)
    requires Candidate(b, tail, f.key, start) && Hit(b, tail, f.key, start) == Some(all)
    ensures Parsed(b) == Misread(r, u)
  {
    var q, found := ParseWellFormed(f, b, tail);
    if q > start {
      NoThird(b, start, q, tail, f.key, r, Padding(u));
      assert false;
    }
    assert q == start;
    SecondListShape(r, u);
    assert found[4..] == [Fifth(r)] + Rest(u);
    RestRenders(Fifth(r), Rest(u));
  }

  lemma RestRenders(w: nat, rest: seq<U64>)
    ensures Render([w] + rest) == if w >= TWO_64 then Raise(OverflowError) else Value([w] + rest)
  {
    var all := [w] + rest;
    assert all[0] == w;
  }

  // ---------------------------------------------------------------------------
  // Words from bytes
  // ---------------------------------------------------------------------------

  /** A key word, by its nine bytes. */
  lemma WordOf9(word: seq<Byte>) returns (v: U64)
    requires |word| == 9 && word[0] == 253 && word[8] > 0
    ensures EncodeVarint(v) == word
  {
    var s := word[1..];
    v := ReadU64(s);
    TopByte(s);
    assert Pow256(7) >= 0x1_0000_0000;
    U64Canonical(s);
  }

  /** A window word, by its five. */
  lemma WordOf5(word: seq<Byte>) returns (v: U64)
    requires |word| == 5 && word[0] == 252 && word[4] > 0
    ensures EncodeVarint(v) == word
  {
    var s := word[1..];
    TopByte(s);
    LEBound(s);
    assert Pow256(3) == 0x100_0000 && Pow256(4) == 0x1_0000_0000;
    v := LE(s);
    ToLEOfLE(s);
  }

  /** And by its three. */
  lemma WordOf3(word: seq<Byte>) returns (v: U64)
    requires |word| == 3 && word[0] == 251 && word[2] > 0
    ensures EncodeVarint(v) == word
  {
    var s := word[1..];
    TopByte(s);
    LEBound(s);
    assert Pow256(1) == 256 && Pow256(2) == 0x1_0000;
    v := LE(s);
    ToLEOfLE(s);
  }

  // ---------------------------------------------------------------------------
  // A run cut densely
  // ---------------------------------------------------------------------------

  /** n times a word of three bytes and two of one, then one more. */
  function Dense(g: seq<Byte>, h: seq<Byte>, n: nat): seq<Byte>
    decreases n, g
  {
    if n == 0 then [1] else (g + h) + Dense(g, h, n - 1)
  }

  function DenseWords(v: U64, n: nat): (words: seq<U64>)
    ensures |words| == 3 * n + 1
    decreases n, v
  {
    if n == 0 then [1] else [v, 1, 1] + DenseWords(v, n - 1)
  }

  /** The same bytes behind one more h: n words of five, then one more. */
  function Sparse(g: seq<Byte>, h: seq<Byte>, n: nat): seq<Byte>
    decreases n, g
  {
    if n == 0 then h + [1] else (h + g) + Sparse(g, h, n - 1)
  }

  function SparseWords(v: U64, x: U64, n: nat): (words: seq<U64>)
    ensures |words| == n + 1
    ensures v < 0x1_0000_0000 && x < 0x1_0000_0000 ==> forall i | 0 <= i < |words| :: words[i] < 0x1_0000_0000
    decreases n, v
  {
    if n == 0 then [x] else [v] + SparseWords(v, x, n - 1)
  }

  lemma {:induction false} SparseIsDense(g: seq<Byte>, h: seq<Byte>, n: nat)
    ensures Sparse(g, h, n) == h + Dense(g, h, n)
    decreases n
  {
    if n == 0 {
    } else {
      SparseIsDense(g, h, n - 1);
      var rest := Dense(g, h, n - 1);
      assert (h + g) + (h + rest) == h + ((g + h) + rest);
    }
  }

  lemma Encode1(v: U64, word: seq<Byte>)
    requires EncodeVarint(v) == word
    ensures EncodeWords([v]) == word
  {
    assert EncodeWords([]) == [];
    EncodeCons(v, [], word, []);
  }

  lemma Three(v: U64, g: seq<Byte>, h: seq<Byte>, rest: seq<U64>, body: seq<Byte>)
    requires EncodeVarint(v) == [251, 252, 1] && g == [251] && h == [252, 1, 1, 1] && EncodeWords(rest) == body
    ensures EncodeWords([v, 1, 1] + rest) == (g + h) + body
  {
    ThreeAlone(v, g, h);
    EncodeAppend([v, 1, 1], rest);
  }

  lemma ThreeAlone(v: U64, g: seq<Byte>, h: seq<Byte>)
    requires EncodeVarint(v) == [251, 252, 1] && g == [251] && h == [252, 1, 1, 1]
    ensures EncodeWords([v, 1, 1]) == g + h
  {
    assert EncodeVarint(1) == [1];
    Encode1(1, [1]);
    EncodeCons(1, [1], [1], [1]);
    EncodeCons(v, [1, 1], [251, 252, 1], [1, 1]);
    assert [v] + [1, 1] == [v, 1, 1];
    assert [251, 252, 1] + [1, 1] == g + h;
  }

  lemma {:induction false} DenseSpelled(v: U64, g: seq<Byte>, h: seq<Byte>, n: nat)
    requires EncodeVarint(v) == [251, 252, 1] && g == [251] && h == [252, 1, 1, 1]
    ensures EncodeWords(DenseWords(v, n)) == Dense(g, h, n)
    decreases n
  {
    if n == 0 {
      Encode1(1, [1]);
    } else {
      DenseSpelled(v, g, h, n - 1);
      Three(v, g, h, DenseWords(v, n - 1), Dense(g, h, n - 1));
    }
  }

  lemma {:induction false} SparseSpelled(v: U64, x: U64, g: seq<Byte>, h: seq<Byte>, n: nat)
    requires EncodeVarint(v) == h + g && EncodeVarint(x) == h + [1]
    ensures EncodeWords(SparseWords(v, x, n)) == Sparse(g, h, n)
    decreases n
  {
    if n == 0 {
      Encode1(x, h + [1]);
    } else {
      SparseSpelled(v, x, g, h, n - 1);
      EncodeCons(v, SparseWords(v, x, n - 1), h + g, Sparse(g, h, n - 1));
    }
  }

  lemma {:induction false} NoCountInDense(g: seq<Byte>, h: seq<Byte>, n: nat)
    requires 68 !in g && 68 !in h
    ensures 68 !in Dense(g, h, n)
    decreases n
  {
    if n == 0 {
    } else {
      NoCountInDense(g, h, n - 1);
    }
  }

  // ---------------------------------------------------------------------------
  // Two such files
  // ---------------------------------------------------------------------------

  predicate ExampleRuns(r: Runs) {
    && r.p == [252, 1, 1] && r.x == [252, 1, 1, 1, 1] && r.y == [253, 1] && r.m == [252, 1]
    && r.z == [253, 1, 1] && r.q == [253, 1, 1, 1] && r.v == [251, 1, 1]
  }

  lemma ExampleKeyBytes(r: Runs, x: seq<Byte>, p: seq<Byte>, m: seq<Byte>)
    requires ExampleRuns(r) && x == r.x && p == r.p && m == r.m
    ensures Key0(r) == [253, 252, 1, 1, 1, 1, 252, 1, 1] && Key1(r) == [253, 1, 252, 1, 1, 1, 1, 252, 1]
    ensures Key2(r) == [253, 1, 1, 252, 1, 1, 1, 1, 252] && Key3(r) == [253, 1, 1, 1, 251, 1, 1, 252, 1]
  {
    assert x + p == [252, 1, 1, 1, 1, 252, 1, 1] && x + m == [252, 1, 1, 1, 1, 252, 1];
    assert x + [252] == [252, 1, 1, 1, 1, 252] && r.v + m == [251, 1, 1, 252, 1];
  }

  lemma ExampleKeys(r: Runs) returns (k0: U64, k1: U64, k2: U64, k3: U64)
    requires ExampleRuns(r)
    ensures EncodeVarint(k0) == Key0(r) && EncodeVarint(k1) == Key1(r)
    ensures EncodeVarint(k2) == Key2(r) && EncodeVarint(k3) == Key3(r)
  {
    ExampleKeyBytes(r, r.x, r.p, r.m);
    k0 := WordOf9(Key0(r));
    k1 := WordOf9(Key1(r));
    k2 := WordOf9(Key2(r));
    k3 := WordOf9(Key3(r));
  }

  lemma ExampleWords(r: Runs) returns (w0: U64, x: U64, w2: U64, w4: U64, w6: U64, w7: U64)
    requires ExampleRuns(r)
    ensures EncodeVarint(w0) == r.p + [68, 253] && EncodeVarint(x) == r.x && EncodeVarint(w2) == r.p + r.y
    ensures EncodeVarint(w4) == r.m + r.z && EncodeVarint(w6) == [252] + r.q && EncodeVarint(w7) == r.v
  {
    w0 := WordOf5([252, 1, 1, 68, 253]);
    x := WordOf5([252, 1, 1, 1, 1]);
    w2 := WordOf5([252, 1, 1, 253, 1]);
    w4 := WordOf5([252, 1, 253, 1, 1]);
    w6 := WordOf5([252, 253, 1, 1, 1]);
    w7 := WordOf3([251, 1, 1]);
    assert r.p + [68, 253] == [252, 1, 1, 68, 253] && r.p + r.y == [252, 1, 1, 253, 1];
    assert r.m + r.z == [252, 1, 253, 1, 1] && [252] + r.q == [252, 253, 1, 1, 1];
  }

  /** The file whose middle words are `mid` and whose second list goes on with `dense`. */
  lemma ExampleCut(r: Runs, mid: seq<U64>, dense: seq<U64>) returns (u: Cut)
    requires ExampleRuns(r) && Shaped(r) && |mid| <= 56 && EncodeWords(mid) == r.m + (r.five + r.d)
    requires forall i | 0 <= i < |mid| :: mid[i] < 0x1_0000_0000
    requires |dense| == 7 + |mid| && EncodeWords(dense) == r.d
    ensures Spells(r, u)
  {
    var k0, k1, k2, k3 := ExampleKeys(r);
    var w0, x, w2, w4, w6, w7 := ExampleWords(r);
    u := Cut(k0, k1, k2, k3, w0, x, w2, w4, w6, w7, mid, dense);
  }

  /** The words the two examples' tails are made of. */
  lemma TailWords(g: seq<Byte>, h: seq<Byte>) returns (t: U64, v: U64, x: U64)
    requires g == [251] && h == [252, 1, 1, 1]
    ensures EncodeVarint(t) == [251, 252, 1] && EncodeVarint(v) == h + g && EncodeVarint(x) == h + [1]
    ensures v < 0x1_0000_0000 && x < 0x1_0000_0000
  {
    t := WordOf3([251, 252, 1]);
    v := WordOf5(h + g);
    x := WordOf5(h + [1]);
    assert |EncodeVarint(v)| == 5 && |EncodeVarint(x)| == 5;
  }

  function RunsWith(five: seq<Byte>, d: seq<Byte>): Runs {
    Runs([252, 1, 1], [252, 1, 1, 1, 1], [253, 1], [252, 1], [253, 1, 1], [253, 1, 1, 1], [251, 1, 1], five, d)
  }

  lemma NarrowShaped(r: Runs, d: seq<Byte>)
    requires 68 !in d && r == RunsWith([253, 1, 1, 252, 1, 1, 1, 1, 252], d)
    ensures Shaped(r)
  {
  }

  lemma WideShaped(r: Runs, d: seq<Byte>)
    requires 68 !in d && r == RunsWith([254, 1, 1, 252, 1, 1, 1, 1, 252, 1, 1, 1, 1, 252, 1, 1, 1], d)
    ensures Shaped(r)
  {
  }

  lemma Encode2(v: U64, x: U64, a: seq<Byte>, b: seq<Byte>, rest: seq<U64>, body: seq<Byte>)
    requires EncodeVarint(v) == a && EncodeVarint(x) == b && EncodeWords(rest) == body
    ensures EncodeWords([v, x] + rest) == a + (b + body)
  {
    EncodeCons(x, rest, b, body);
    EncodeCons(v, [x] + rest, a, b + body);
    assert [v, x] + rest == [v] + ([x] + rest);
  }

  lemma NarrowBytes(h: seq<Byte>, five: seq<Byte>, m: seq<Byte>)
    requires h == [252, 1, 1, 1] && five == [253, 1, 1, 252, 1, 1, 1, 1, 252] && m == [252, 1]
    ensures [252, 1, 253, 1, 1] + ([252, 1, 1, 1, 1] + h) == (m + five) + [1, 1, 1]
  {
  }

  lemma Joined(a: seq<Byte>, b: seq<Byte>, h: seq<Byte>, body: seq<Byte>, m: seq<Byte>, five: seq<Byte>,
               ones: seq<Byte>)
    requires a + (b + h) == (m + five) + ones
    ensures a + (b + (h + body)) == m + (five + (ones + body))
  {
    assert a + (b + (h + body)) == (a + (b + h)) + body;
    assert m + (five + (ones + body)) == ((m + five) + ones) + body;
  }

  /** The narrow example's middle words, where `body` is what its dense run encodes to. */
  lemma NarrowMiddle(w8: U64, x: U64, rest: seq<U64>, body: seq<Byte>, h: seq<Byte>, five: seq<Byte>, m: seq<Byte>)
    requires EncodeVarint(w8) == [252, 1, 253, 1, 1] && EncodeVarint(x) == [252, 1, 1, 1, 1]
    requires EncodeWords(rest) == h + body
    requires h == [252, 1, 1, 1] && five == [253, 1, 1, 252, 1, 1, 1, 1, 252] && m == [252, 1]
    ensures EncodeWords([w8, x] + rest) == m + (five + ([1, 1, 1] + body))
  {
    Encode2(w8, x, [252, 1, 253, 1, 1], [252, 1, 1, 1, 1], rest, h + body);
    NarrowBytes(h, five, m);
    Joined([252, 1, 253, 1, 1], [252, 1, 1, 1, 1], h, body, m, five, [1, 1, 1]);
  }

  lemma WideMiddle(w8: U64, x: U64, rest: seq<U64>, body: seq<Byte>, h: seq<Byte>, five: seq<Byte>, m: seq<Byte>)
    requires EncodeVarint(w8) == [252, 1, 254, 1, 1] && EncodeVarint(x) == [252, 1, 1, 1, 1]
    requires EncodeWords(rest) == h + body
    requires h == [252, 1, 1, 1] && five == [254, 1, 1, 252, 1, 1, 1, 1, 252, 1, 1, 1, 1, 252, 1, 1, 1] && m == [252, 1]
    ensures EncodeWords([w8, x] + ([x] + rest)) == m + (five + body)
  {
    var w: seq<Byte>, xs: seq<Byte> := [252, 1, 254, 1, 1], [252, 1, 1, 1, 1];
    EncodeCons(x, rest, xs, h + body);
    Encode2(w8, x, w, xs, [x] + rest, xs + (h + body));
    WideBytes(w, xs, h, five, m);
    Associative(w, xs, xs + (h + body));
    Joined(w + xs, xs, h, body, m, five, []);
    assert [] + body == body;
  }

  lemma WideBytes(w: seq<Byte>, xs: seq<Byte>, h: seq<Byte>, five: seq<Byte>, m: seq<Byte>)
    requires w == [252, 1, 254, 1, 1] && xs == [252, 1, 1, 1, 1] && h == [252, 1, 1, 1] && m == [252, 1]
    requires five == [254, 1, 1, 252, 1, 1, 1, 1, 252, 1, 1, 1, 1, 252, 1, 1, 1]
    ensures (w + xs) + (xs + h) == (m + five) + []
  {
  }

  lemma ThreeOnes(rest: seq<U64>, body: seq<Byte>)
    requires EncodeWords(rest) == body
    ensures EncodeWords([1, 1, 1] + rest) == [1, 1, 1] + body
  {
    assert EncodeVarint(1) == [1];
    Encode1(1, [1]);
    EncodeCons(1, [1], [1], [1]);
    EncodeCons(1, [1, 1], [1], [1, 1]);
    assert [1] + [1, 1] == [1, 1, 1];
    EncodeAppend([1, 1, 1], rest);
  }

  /** A file whose second list fits in eight-byte words. */
  lemma NarrowExample() returns (r: Runs, u: Cut)
    ensures Spells(r, u) && |r.five| == 9 && r.five[8] > 0
  {
    var g: seq<Byte>, h: seq<Byte> := [251], [252, 1, 1, 1];
    var t, v, x := TailWords(g, h);
    var w8 := WordOf5([252, 1, 253, 1, 1]);
    var rest, words, body := SparseWords(v, x, 3), DenseWords(t, 3), Dense(g, h, 3);
    DenseSpelled(t, g, h, 3);
    SparseSpelled(v, x, g, h, 3);
    SparseIsDense(g, h, 3);
    NoCountInDense(g, h, 3);
    ThreeOnes(words, body);
    r := RunsWith([253, 1, 1, 252, 1, 1, 1, 1, 252], [1, 1, 1] + body);
    NarrowShaped(r, [1, 1, 1] + body);
    NarrowMiddle(w8, x, rest, body, h, r.five, r.m);
    assert |EncodeVarint(w8)| == 5;
    u := ExampleCut(r, [w8, x] + rest, [1, 1, 1] + words);
  }

  /** A file whose second list holds a word of sixteen bytes. */
  lemma WideExample() returns (r: Runs, u: Cut)
    ensures Spells(r, u) && |r.five| == 17 && r.five[16] > 0
  {
    var g: seq<Byte>, h: seq<Byte> := [251], [252, 1, 1, 1];
    var t, v, x := TailWords(g, h);
    var w8 := WordOf5([252, 1, 254, 1, 1]);
    var rest, words, body := SparseWords(v, x, 5), DenseWords(t, 5), Dense(g, h, 5);
    DenseSpelled(t, g, h, 5);
    SparseSpelled(v, x, g, h, 5);
    SparseIsDense(g, h, 5);
    NoCountInDense(g, h, 5);
    r := RunsWith([254, 1, 1, 252, 1, 1, 1, 1, 252, 1, 1, 1, 1, 252, 1, 1, 1], body);
    WideShaped(r, body);
    WideMiddle(w8, x, rest, body, h, r.five, r.m);
    assert |EncodeVarint(w8)| == 5;
    u := ExampleCut(r, [w8, x] + ([x] + rest), words);
  }

  /** `parse` raises on a well-formed file with full-width keys and a narrow window. */
  lemma ParseMayRaise() returns (f: Wrap)
    ensures WellFormed(f) && FullWidth(f) && NarrowWindow(f) && Parsed(File(f)) == Raise(OverflowError)
  {
    var r, u := WideExample();
    SuchFilesMisread(r, u);
    SixteenBytes(r.five[1..]);
    f := FileOf(u);
  }

  lemma EightBytes(s: seq<Byte>)
    requires |s| == 8 && s[7] > 0
    ensures 0x1_0000_0000 <= LE(s) < TWO_64
  {
    TopByte(s);
    LEBound(s);
    Pow256Values();
    assert Pow256(7) >= 0x1_0000_0000;
  }

  /** And on another it returns, silently, public values that are not the encoded ones. */
  lemma ParseMayMislead() returns (f: Wrap)
    ensures WellFormed(f) && FullWidth(f) && NarrowWindow(f) && Parsed(File(f)).Value?
    ensures Parsed(File(f)).value.publicValues != f.publics[4..]
  {
    var r, u := NarrowExample();
    SuchFilesMisread(r, u);
    EightBytes(r.five[1..]);
    f := FileOf(u);
    var read, encoded := Parsed(File(f)).value.publicValues, f.publics[4..];
    assert read[0] == Fifth(r) && encoded[0] == f.publics[4];
  }
}
