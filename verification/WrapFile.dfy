/** The parser of `cargo-zisk wrap` files (scripts/wrap_to_fixture.py). */
module WrapFile {
  import opened Bytes

  // ---------------------------------------------------------------------------
  // Python's indexing, slicing and exceptions
  // ---------------------------------------------------------------------------

  datatype PyError = IndexError | KeyError | ValueError | OverflowError

  datatype PyResult<+T> = Value(value: T) | Raise(error: PyError) {
    predicate IsFailure() {
      Raise?
    }
    function PropagateFailure<U>(): PyResult<U>
      requires Raise?
    {
      Raise(error)
    }
    function Extract(): T
      requires Value?
    {
      value
    }
  }

  /** `b[i]`: a negative index counts from the end. */
  function At(b: seq<Byte>, i: int): PyResult<Byte> {
    if 0 <= i < |b| then Value(b[i])
    else if -|b| <= i < 0 then Value(b[|b| + i])
    else Raise(IndexError)
  }

  /** A slice bound: negative from the end, then clamped to the sequence. */
  function Bound(n: nat, i: int): (k: nat)
    ensures k <= n
  {
    var j := if i < 0 then i + n else i;
    if j < 0 then 0 else if j > n then n else j
  }

  /** `b[i:j]`, which never raises. */
  function Slice(b: seq<Byte>, i: int, j: int): seq<Byte> {
    var lo, hi := Bound(|b|, i), Bound(|b|, j);
    if lo < hi then b[lo..hi] else []
  }

  // ---------------------------------------------------------------------------
  // bincode varints
  // ---------------------------------------------------------------------------

  function Width(tag: Byte): PyResult<nat> {
    if tag == 251 then Value(2)
    else if tag == 252 then Value(4)
    else if tag == 253 then Value(8)
    else if tag == 254 then Value(16)
    else Raise(KeyError)
  }

  /** A value read, and the index after it. */
  datatype Word = Word(value: nat, next: int)

  datatype Words = Words(list: seq<nat>, next: int)

  /** `rd_varint`. */
  function ReadVarint(b: seq<Byte>, i: int): PyResult<Word> {
    var t :- At(b, i);
    if t < 251 then
      Value(Word(t, i + 1))
    else
      var w :- Width(t);
      Value(Word(LE(Slice(b, i + 1, i + 1 + w)), i + 1 + w))
  }

  /** n words read from i on, after the ones already read. */
  function ReadWords(b: seq<Byte>, i: int, n: nat, read: seq<nat>): PyResult<Words>
    decreases n, |b|
  {
    if n == 0 then
      Value(Words(read, i))
    else
      var word :- ReadVarint(b, i);
      ReadWords(b, word.next, n - 1, read + [word.value])
  }

  function ReadVec(b: seq<Byte>, i: int, expected: Option<nat>): PyResult<Words> {
    var count :- ReadVarint(b, i);
    if expected.Some? && count.value != expected.value then Raise(ValueError)
    else ReadWords(b, count.next, count.value, [])
  }

  /** `rd_vec_u64`. */
  method RdVecU64(b: seq<Byte>, start: int, expected: Option<nat>) returns (r: PyResult<Words>)
    ensures r == ReadVec(b, start, expected)
  {
    var count :- ReadVarint(b, start);
    var n, i := count.value, count.next;
    if expected.Some? && n != expected.value {
      return Raise(ValueError);
    }
    var out := [];
    for k := 0 to n
      invariant ReadWords(b, count.next, n, []) == ReadWords(b, i, n - k, out)
    {
      var word :- ReadVarint(b, i);
      out := out + [word.value];
      i := word.next;
    }
    return Value(Words(out, i));
  }

  /** How bincode spells a u64. */
  function EncodeVarint(v: U64): (s: seq<Byte>)
    ensures 1 <= |s| <= 9
    ensures |s| == 9 <==> v >= 0x1_0000_0000
  {
    if v < 251 then [v]
    else if v < 0x1_0000 then [251] + ToLE(v, 2)
    else if v < 0x1_0000_0000 then [252] + ToLE(v, 4)
    else [253] + ToLE(v, 8)
  }

  function EncodeWords(words: seq<U64>): (s: seq<Byte>)
    ensures |words| <= |s| <= 9 * |words|
  {
    if words == [] then [] else EncodeVarint(words[0]) + EncodeWords(words[1..])
  }

  function EncodeVec(words: seq<U64>): seq<Byte>
    requires |words| < TWO_64
  {
    EncodeVarint(|words|) + EncodeWords(words)
  }

  /** b holds s at position i. */
  predicate HoldsAt(b: seq<Byte>, i: nat, s: seq<Byte>)
    decreases |s|
  {
    if s == [] then i <= |b| else i < |b| && b[i] == s[0] && HoldsAt(b, i + 1, s[1..])
  }

  lemma {:induction false} HoldsSlice(b: seq<Byte>, i: nat, s: seq<Byte>)
    ensures HoldsAt(b, i, s) <==> i + |s| <= |b| && b[i..i + |s|] == s
    decreases |s|
  {
    if s == [] {
    } else {
      HoldsSlice(b, i + 1, s[1..]);
      if i + |s| <= |b| {
        var whole := b[i..i + |s|];
        assert whole == [b[i]] + b[i + 1..i + |s|];
        assert s == [s[0]] + s[1..];
        assert whole[1..] == b[i + 1..i + |s|];
      }
    }
  }

  lemma {:induction false} HoldsParts(b: seq<Byte>, i: nat, s: seq<Byte>, t: seq<Byte>)
    requires HoldsAt(b, i, s + t)
    ensures HoldsAt(b, i, s) && HoldsAt(b, i + |s|, t) && i + |s| + |t| <= |b|
    decreases |s|
  {
    if s == [] {
      assert s + t == t;
      HoldsSlice(b, i, t);
    } else {
      assert (s + t)[1..] == s[1..] + t;
      HoldsParts(b, i + 1, s[1..], t);
    }
  }

  lemma ByteWithin(b: seq<Byte>, i: nat, s: seq<Byte>, o: int)
    requires HoldsAt(b, i, s) && i <= o < i + |s|
    ensures At(b, o) == Value(s[o - i])
  {
    HoldsSlice(b, i, s);
    assert b[o] == b[i..i + |s|][o - i];
  }

  lemma VarintReads(b: seq<Byte>, i: nat, v: U64)
    requires HoldsAt(b, i, EncodeVarint(v))
    ensures ReadVarint(b, i) == Value(Word(v, i + |EncodeVarint(v)|))
  {
    var s := EncodeVarint(v);
    HoldsSlice(b, i, s);
    if v >= 251 {
      var w := |s| - 1;
      assert b[i + 1..i + 1 + w] == b[i..i + |s|][1..] == s[1..] == ToLE(v, w);
      Pow256Small();
      LEOfToLE(v, w);
    }
  }

  lemma Pow256Small()
    ensures Pow256(2) == 0x1_0000 && Pow256(4) == 0x1_0000_0000 && Pow256(8) == TWO_64
  {
    Pow256Values();
  }

  /** Reading at i gives v and ends at next. */
  ghost predicate ReadsWord(b: seq<Byte>, i: int, v: nat, next: int) {
    ReadVarint(b, i) == Value(Word(v, next))
  }

  /** Reading n words at i after `read` gives `all` and ends at `end`. */
  ghost predicate ReadsWords(b: seq<Byte>, i: int, n: nat, read: seq<nat>, all: seq<nat>, end: int) {
    ReadWords(b, i, n, read) == Value(Words(all, end))
  }

  /** Reading a list at i gives these words and ends at `end`, unless another number of words was expected. */
  ghost predicate ReadsVec(b: seq<Byte>, i: int, words: seq<nat>, end: int) {
    forall expected: Option<nat> ::
      ReadVec(b, i, expected)
      == if expected.Some? && expected.value != |words| then Raise(ValueError) else Value(Words(words, end))
  }

  lemma FirstWordReads(b: seq<Byte>, i: nat, word: seq<Byte>, rest: seq<Byte>, v: U64)
    requires word == EncodeVarint(v) && HoldsAt(b, i, word + rest)
    ensures ReadsWord(b, i, v, i + |word|) && HoldsAt(b, i + |word|, rest)
  {
    HoldsParts(b, i, word, rest);
    VarintReads(b, i, v);
  }

  lemma NextWord(b: seq<Byte>, i: int, n: nat, read: seq<nat>, v: nat, next: int, longer: seq<nat>, all: seq<nat>,
                 end: int)
    requires n > 0 && ReadsWord(b, i, v, next) && longer == read + [v] && ReadsWords(b, next, n - 1, longer, all, end)
    ensures ReadsWords(b, i, n, read, all, end)
  {
  }

  lemma FirstOfMany(words: seq<U64>, read: seq<nat>)
    requires words != []
    ensures EncodeWords(words) == EncodeVarint(words[0]) + EncodeWords(words[1..])
    ensures read + words == (read + [words[0]]) + words[1..]
  {
    FirstAppended(read, words);
  }

  lemma FirstAppended(read: seq<nat>, words: seq<nat>)
    requires words != []
    ensures read + words == (read + [words[0]]) + words[1..]
  {
  }

  /** `all` is what has been read followed by the encoded words, and `end` is where their encoding ends. */
  lemma {:induction false} WordsRead(b: seq<Byte>, i: nat, words: seq<U64>, body: seq<Byte>, read: seq<nat>,
                                     all: seq<nat>, end: nat)
    requires body == EncodeWords(words) && HoldsAt(b, i, body) && all == read + words && end == i + |body|
    ensures ReadsWords(b, i, |words|, read, all, end)
    decreases |words|, 0
  {
    if words == [] {
      assert all == read;
    } else {
      FirstOfMany(words, read);
      var v, rest := words[0], words[1..];
      RestReads(b, i, v, rest, EncodeVarint(v), EncodeWords(rest), read, read + [v], all, end);
    }
  }

  lemma {:induction false} RestReads(b: seq<Byte>, i: nat, v: U64, rest: seq<U64>, word: seq<Byte>, body: seq<Byte>,
                                     read: seq<nat>, longer: seq<nat>, all: seq<nat>, end: nat)
    requires word == EncodeVarint(v) && body == EncodeWords(rest) && HoldsAt(b, i, word + body)
    requires longer == read + [v] && all == longer + rest && end == i + |word| + |body|
    ensures ReadsWords(b, i, 1 + |rest|, read, all, end)
    decreases |rest|, 1
  {
    var next := i + |word|;
    FirstWordReads(b, i, word, body, v);
    WordsRead(b, next, rest, body, longer, all, end);
    NextWord(b, i, 1 + |rest|, read, v, next, longer, all, end);
  }

  lemma CountThenWords(b: seq<Byte>, i: int, n: nat, next: int, none: seq<nat>, words: seq<nat>, end: int)
    requires n == |words| && none == [] && ReadsWord(b, i, n, next) && ReadsWords(b, next, n, none, words, end)
    ensures ReadsVec(b, i, words, end)
  {
  }

  lemma PartsRead(b: seq<Byte>, i: nat, count: seq<Byte>, body: seq<Byte>, words: seq<U64>, end: nat)
    requires |words| < TWO_64 && count == EncodeVarint(|words|) && body == EncodeWords(words)
    requires HoldsAt(b, i, count + body) && end == i + |count| + |body|
    ensures ReadsVec(b, i, words, end)
  {
    var n, next, none := |words|, i + |count|, [];
    FirstWordReads(b, i, count, body, n);
    assert words == none + words;
    WordsRead(b, next, words, body, none, words, end);
    CountThenWords(b, i, n, next, none, words, end);
  }

  /** Wherever it stands and whatever follows it, an encoded list reads back as itself. */
  lemma VecReads(b: seq<Byte>, i: nat, words: seq<U64>, end: nat)
    requires |words| < TWO_64 && HoldsAt(b, i, EncodeVec(words)) && end == i + |EncodeVec(words)|
    ensures ReadsVec(b, i, words, end)
  {
    PartsRead(b, i, EncodeVarint(|words|), EncodeWords(words), words, end);
  }

  // ---------------------------------------------------------------------------
  // parse
  // ---------------------------------------------------------------------------

  const WORD_LEN: nat := 9
  const KEYS_LEN: nat := 2 * (1 + 4 * WORD_LEN)
  const PUBLICS: nat := 68

  /** The four fields `parse` returns, before they are rendered in hex. */
  datatype Fields = Fields(programVk: seq<nat>, rootC: seq<nat>, publicValues: seq<nat>, proof: seq<Byte>)

  /** The list of 68 words read from p, if it ends at the tail and opens with the key. */
  function Hit(b: seq<Byte>, tail: int, key: seq<nat>, p: int): Option<seq<nat>> {
    match ReadVec(b, p, Some(PUBLICS))
    case Raise(_) => None
    case Value(read) => if read.next == tail && Prefix4(read.list) == key then Some(read.list) else None
  }

  /** `range(tail - 1, tail - 800, -1)` from p on: the first hit at a byte 68. */
  function Search(b: seq<Byte>, tail: int, key: seq<nat>, p: int): PyResult<seq<nat>>
    decreases p - (tail - 800)
  {
    if p <= tail - 800 then
      Raise(ValueError)
    else
      var t :- At(b, p);
      if t == PUBLICS && Hit(b, tail, key, p).Some? then Value(Hit(b, tail, key, p).value)
      else Search(b, tail, key, p - 1)
  }

  /** `list[:4]`. */
  function Prefix4(words: seq<nat>): seq<nat> {
    if |words| <= 4 then words else words[..4]
  }

  /** `publics_full[4:]`. */
  function PastKey(words: seq<nat>): seq<nat> {
    if |words| <= 4 then [] else words[4..]
  }

  /** `w.to_bytes(8, ...)` raises for a word that does not fit. */
  function Render(words: seq<nat>): PyResult<seq<nat>> {
    if forall i | 0 <= i < |words| :: words[i] < TWO_64 then Value(words) else Raise(OverflowError)
  }

  function Rendered(key: seq<nat>, rootC: seq<nat>, publics: seq<nat>, proof: seq<Byte>): PyResult<Fields> {
    var k :- Render(key);
    var r :- Render(rootC);
    var v :- Render(PastKey(publics));
    Value(Fields(k, r, v, proof))
  }

  function Finished(publics: PyResult<seq<nat>>, key: seq<nat>, rootC: seq<nat>, proof: seq<Byte>): PyResult<Fields> {
    var words :- publics;
    Rendered(key, rootC, words, proof)
  }

  function Parsed(b: seq<Byte>): PyResult<Fields> {
    var tag :- At(b, 0);
    if tag != 1 then
      Raise(ValueError)
    else
      var length :- ReadVarint(b, 1);
      if length.value != 768 then
        Raise(ValueError)
      else
        var proof := Slice(b, length.next, length.next + length.value);
        var tail := |b| - 1 - KEYS_LEN;
        var rootC :- ReadVec(b, tail, Some(4));
        var key :- ReadVec(b, rootC.next, Some(4));
        if key.next + 1 != |b| then
          Raise(ValueError)
        else
          Finished(Search(b, tail, key.list, tail - 1), key.list, rootC.list, proof)
  }

  /** The backward search of `parse`. */
  method SearchPublics(b: seq<Byte>, tail: int, key: seq<nat>) returns (r: PyResult<seq<nat>>)
    ensures r == Search(b, tail, key, tail - 1)
  {
    var p := tail - 1;
    while p > tail - 800
      invariant Search(b, tail, key, tail - 1) == Search(b, tail, key, p)
    {
      var t :- At(b, p);
      if t == PUBLICS {
        var read := RdVecU64(b, p, Some(PUBLICS));
        if read.Value? && read.value.next == tail && Prefix4(read.value.list) == key {
          return Value(read.value.list);
        }
      }
      p := p - 1;
    }
    return Raise(ValueError);
  }

  /** `parse`, up to the hex. */
  method Parse(b: seq<Byte>) returns (r: PyResult<Fields>)
    ensures r == Parsed(b)
  {
    var tag :- At(b, 0);
    if tag != 1 {
      return Raise(ValueError);
    }
    var length :- ReadVarint(b, 1);
    var n, i := length.value, length.next;
    if n != 768 {
      return Raise(ValueError);
    }
    var proof := Slice(b, i, i + n);
    var tail := |b| - 1 - KEYS_LEN;
    var rootC :- RdVecU64(b, tail, Some(4));
    var key :- RdVecU64(b, rootC.next, Some(4));
    if key.next + 1 != |b| {
      return Raise(ValueError);
    }
    var publics :- SearchPublics(b, tail, key.list);
    r := Rendered(key.list, rootC.list, publics, proof);
  }

  // ---------------------------------------------------------------------------
  // Every file
  // ---------------------------------------------------------------------------

  /** The width each marker byte announces. */
  predicate Announces(tag: Byte, w: nat) {
    (tag == 251 && w == 2) || (tag == 252 && w == 4) || (tag == 253 && w == 8) || (tag == 254 && w == 16)
  }

  /** A number after its marker reads back, however wide the marker; a byte below 251 is itself; 255 is no marker. */
  lemma MarkedVarint(b: seq<Byte>, i: nat, tag: Byte, w: nat, v: nat)
    requires Announces(tag, w) && v < Pow256(w) && HoldsAt(b, i, [tag] + ToLE(v, w))
    ensures ReadVarint(b, i) == Value(Word(v, i + 1 + w))
  {
    var s := [tag] + ToLE(v, w);
    HoldsSlice(b, i, s);
    assert b[i] == b[i..i + |s|][0];
    assert b[i + 1..i + 1 + w] == b[i..i + |s|][1..] == ToLE(v, w);
    LEOfToLE(v, w);
  }

  lemma PlainVarint(b: seq<Byte>, i: nat)
    requires i < |b|
    ensures b[i] < 251 ==> ReadVarint(b, i) == Value(Word(b[i], i + 1))
    ensures ReadVarint(b, i) == Raise(KeyError) <==> b[i] == 255
  {
  }

  /** A candidate no further than 799 bytes before the tail, with none between it and p, that reads as these words. */
  ghost predicate Found(b: seq<Byte>, tail: int, key: seq<nat>, p: int, q: int, words: seq<nat>) {
    && tail - 800 < q <= p && At(b, q) == Value(68) && Hit(b, tail, key, q) == Some(words)
    && forall o: int | q < o <= p :: !Candidate(b, tail, key, o)
  }

  lemma NextFound(b: seq<Byte>, tail: int, key: seq<nat>, p: int, q: int, words: seq<nat>)
    requires !Candidate(b, tail, key, p)
    ensures Found(b, tail, key, p, q, words) <==> Found(b, tail, key, p - 1, q, words)
  {
  }

  /** What the search returns, whatever the file: the candidate nearest to where it starts. */
  lemma {:induction false} SearchFinds(b: seq<Byte>, tail: int, key: seq<nat>, p: int, words: seq<nat>)
    requires p < |b|
    ensures Search(b, tail, key, p) == Value(words) <==> exists q: int :: Found(b, tail, key, p, q, words)
    decreases p - (tail - 800)
  {
    if p > tail - 800 {
      if At(b, p).Raise? {
        assert Search(b, tail, key, p).Raise?;
        NothingBefore(b, tail, key, p);
      } else if Candidate(b, tail, key, p) {
        var hit := Hit(b, tail, key, p).value;
        assert Search(b, tail, key, p) == Value(hit) && Found(b, tail, key, p, p, hit);
        forall q: int ensures Found(b, tail, key, p, q, words) ==> words == hit {
        }
      } else {
        assert Search(b, tail, key, p) == Search(b, tail, key, p - 1);
        var o := p - 1;
        SearchFinds(b, tail, key, o, words);
        forall q: int ensures Found(b, tail, key, p, q, words) <==> Found(b, tail, key, o, q, words) {
          NextFound(b, tail, key, p, q, words);
        }
      }
    }
  }

  /** Below the first index Python refuses there is nothing to find. */
  lemma NothingBefore(b: seq<Byte>, tail: int, key: seq<nat>, p: int)
    requires p < |b| && At(b, p).Raise?
    ensures forall q: int, words: seq<nat> :: !Found(b, tail, key, p, q, words)
  {
  }

  /** With no candidate it raises, and which exception says whether it ran off the front of the file. */
  lemma {:induction false} SearchFails(b: seq<Byte>, tail: int, key: seq<nat>, p: int)
    requires p < |b| && forall q: int | tail - 800 < q <= p :: !Candidate(b, tail, key, q)
    ensures Search(b, tail, key, p)
         == Raise(if p > tail - 800 && -|b| > tail - 799 then IndexError else ValueError)
    decreases p - (tail - 800)
  {
    if p <= tail - 800 {
      assert Search(b, tail, key, p) == Raise(ValueError);
    } else if At(b, p).Raise? {
      assert Search(b, tail, key, p) == Raise(IndexError);
    } else {
      assert !Candidate(b, tail, key, p);
      assert Search(b, tail, key, p) == Search(b, tail, key, p - 1);
      SearchFails(b, tail, key, p - 1);
    }
  }

  /** Every word fits in eight bytes. */
  predicate Narrow(words: seq<nat>) {
    forall i | 0 <= i < |words| :: words[i] < 0x1_0000_0000_0000_0000
  }

  /**
   The file opens with the byte 1 and the length 768, ends in two lists of four
   words and one byte more, and the public values are the words past the fourth
   of the candidate nearest the lists.
   */
  ghost predicate FileOf(b: seq<Byte>, f: Fields, at: int, next: int, q: int, publics: seq<nat>) {
    && b != [] && b[0] == 1 && ReadVarint(b, 1) == Value(Word(768, at)) && f.proof == Slice(b, at, at + 768)
    && ReadVec(b, |b| - 75, Some(4)) == Value(Words(f.rootC, next))
    && ReadVec(b, next, Some(4)) == Value(Words(f.programVk, |b| - 1))
    && Found(b, |b| - 75, f.programVk, |b| - 76, q, publics)
    && f.publicValues == PastKey(publics)
    && Narrow(f.programVk) && Narrow(f.rootC) && Narrow(f.publicValues)
  }

  lemma RenderNarrow(words: seq<nat>, out: seq<nat>)
    ensures Render(words) == Value(out) <==> out == words && Narrow(words)
  {
  }

  lemma RenderedFields(key: seq<nat>, rootC: seq<nat>, publics: seq<nat>, proof: seq<Byte>, f: Fields)
    ensures Rendered(key, rootC, publics, proof) == Value(f)
       <==> f == Fields(key, rootC, PastKey(publics), proof) && Narrow(key) && Narrow(rootC) && Narrow(PastKey(publics))
  {
    RenderNarrow(key, key);
    RenderNarrow(rootC, rootC);
    RenderNarrow(PastKey(publics), PastKey(publics));
  }

  /** On any bytes at all, `parse` returns exactly the fields of such a file. */
  lemma ParsedExactly(b: seq<Byte>, f: Fields)
    ensures Parsed(b) == Value(f) <==>
              exists at: int, next: int, q: int, publics: seq<nat> :: FileOf(b, f, at, next, q, publics)
  {
    if Parsed(b) == Value(f) {
      var at, next, q, publics := PartsOf(b, f);
    }
    if at: int, next: int, q: int, publics: seq<nat> :| FileOf(b, f, at, next, q, publics) {
      SearchFinds(b, |b| - 75, f.programVk, |b| - 76, publics);
      RenderedFields(f.programVk, f.rootC, publics, f.proof, f);
    }
  }

  /** A wrong first byte, a wrong length and trailing bytes are each refused with the exception they should be. */
  lemma WrongFiles(b: seq<Byte>)
    ensures b == [] ==> Parsed(b) == Raise(IndexError)
    ensures b != [] && b[0] != 1 ==> Parsed(b) == Raise(ValueError)
    ensures b != [] && b[0] == 1 && ReadVarint(b, 1).Value? && ReadVarint(b, 1).value.value != 768 ==>
              Parsed(b) == Raise(ValueError)
    ensures forall rootC: seq<nat>, next: int, key: seq<nat>, end: int ::
              && b != [] && b[0] == 1 && ReadVarint(b, 1).Value? && ReadVarint(b, 1).value.value == 768
              && ReadVec(b, |b| - 75, Some(4)) == Value(Words(rootC, next))
              && ReadVec(b, next, Some(4)) == Value(Words(key, end)) && end != |b| - 1 ==>
                Parsed(b) == Raise(ValueError)
  {
  }

  lemma PartsOf(b: seq<Byte>, f: Fields) returns (at: int, next: int, q: int, publics: seq<nat>)
    requires Parsed(b) == Value(f)
    ensures FileOf(b, f, at, next, q, publics)
  {
    at := ReadVarint(b, 1).value.next;
    var tail := |b| - 75;
    var rootC := ReadVec(b, tail, Some(4)).value;
    next := rootC.next;
    var key := ReadVec(b, next, Some(4)).value;
    publics := Search(b, tail, key.list, tail - 1).value;
    RenderedFields(key.list, rootC.list, publics, Slice(b, at, at + 768), f);
    SearchFinds(b, tail, key.list, tail - 1, publics);
    q :| Found(b, tail, key.list, tail - 1, q, publics);
  }

  // ---------------------------------------------------------------------------
  // Well-formed files
  // ---------------------------------------------------------------------------

  /** What a wrap file is written from; `middle` is whatever stands between the proof and the publics. */
  datatype Wrap = Wrap(proof: seq<Byte>, middle: seq<Byte>, publics: seq<U64>, rootC: seq<U64>, key: seq<U64>,
                       mode: Byte)

  predicate WellFormed(f: Wrap) {
    |f.proof| == 768 && |f.publics| == PUBLICS && |f.rootC| == 4 && |f.key| == 4 && f.publics[..4] == f.key
  }

  /** Every word of both keys takes the full nine bytes. */
  predicate FullWidth(f: Wrap) {
    && (forall i | 0 <= i < |f.rootC| :: f.rootC[i] >= 0x1_0000_0000)
    && (forall i | 0 <= i < |f.key| :: f.key[i] >= 0x1_0000_0000)
  }

  /** The tag of a wrapped proof, then its parts in order. */
  function Assemble(length: seq<Byte>, proof: seq<Byte>, middle: seq<Byte>, publics: seq<Byte>, rootC: seq<Byte>,
                    key: seq<Byte>, mode: Byte): seq<Byte>
  {
    [1] + (length + (proof + (middle + (publics + (rootC + (key + [mode]))))))
  }

  function File(f: Wrap): seq<Byte>
    requires WellFormed(f)
  {
    Assemble(EncodeVarint(768), f.proof, f.middle, EncodeVec(f.publics), EncodeVec(f.rootC), EncodeVec(f.key), f.mode)
  }

  /** Where the publics begin, and where they end and the keys begin. */
  function PublicsAt(f: Wrap): nat
    requires WellFormed(f)
  {
    1 + |EncodeVarint(768)| + |f.proof| + |f.middle|
  }

  function KeysAt(f: Wrap): nat
    requires WellFormed(f)
  {
    PublicsAt(f) + |EncodeVec(f.publics)|
  }

  lemma FourWords(words: seq<U64>)
    requires |words| == 4
    ensures |EncodeWords(words)| == 36 <==> forall i | 0 <= i < 4 :: words[i] >= 0x1_0000_0000
    ensures |EncodeWords(words)| <= 36
  {
    var w1, w2, w3 := words[1..], words[2..], words[3..];
    assert w1[1..] == w2 && w2[1..] == w3 && w3[1..] == [];
    assert |EncodeWords(w3)| == |EncodeVarint(words[3])|;
    assert |EncodeWords(w2)| == |EncodeVarint(words[2])| + |EncodeWords(w3)|;
    assert |EncodeWords(w1)| == |EncodeVarint(words[1])| + |EncodeWords(w2)|;
    assert words[0] >= 0x1_0000_0000 && words[1] >= 0x1_0000_0000 && words[2] >= 0x1_0000_0000
        && words[3] >= 0x1_0000_0000
       <==> forall i | 0 <= i < 4 :: words[i] >= 0x1_0000_0000;
  }

  /** The parser's fixed tail is where the keys begin exactly when all eight key words are full width. */
  lemma TailIsRight(f: Wrap)
    requires WellFormed(f)
    ensures |File(f)| - 1 - KEYS_LEN == KeysAt(f) <==> FullWidth(f)
  {
    FourWords(f.rootC);
    FourWords(f.key);
  }

  /** Some list of 68 words read from q ends at the tail and opens with the key. */
  predicate Candidate(b: seq<Byte>, tail: int, key: seq<nat>, q: int) {
    At(b, q) == Value(PUBLICS) && Hit(b, tail, key, q).Some?
  }

  lemma SearchStep(b: seq<Byte>, tail: int, key: seq<nat>, p: int)
    requires tail - 800 < p && 0 <= p < |b|
    ensures Search(b, tail, key, p)
         == if Candidate(b, tail, key, p) then Value(Hit(b, tail, key, p).value) else Search(b, tail, key, p - 1)
  {
  }

  /** Going down from p, the search stops at the first candidate. */
  lemma {:induction false} SearchStops(b: seq<Byte>, tail: int, key: seq<nat>, start: nat, p: int)
    returns (q: int, found: seq<nat>)
    requires tail - 800 < start <= p < |b| && Candidate(b, tail, key, start)
    ensures start <= q <= p && Candidate(b, tail, key, q)
    ensures forall o: int | q < o <= p :: !Candidate(b, tail, key, o)
    ensures Hit(b, tail, key, q) == Some(found) && Search(b, tail, key, p) == Value(found)
    decreases p
  {
    SearchStep(b, tail, key, p);
    if Candidate(b, tail, key, p) {
      q, found := p, Hit(b, tail, key, p).value;
    } else {
      assert p != start;
      q, found := SearchStops(b, tail, key, start, p - 1);
    }
  }

  /** q is the candidate nearest the tail. */
  predicate Nearest(b: seq<Byte>, tail: int, key: seq<nat>, q: int) {
    && q < tail && Candidate(b, tail, key, q)
    && forall o: int | q < o < tail :: !Candidate(b, tail, key, o)
  }

  lemma NearestFound(b: seq<Byte>, tail: int, key: seq<nat>, start: nat) returns (q: int, found: seq<nat>)
    requires tail - 800 < start < tail <= |b| && Candidate(b, tail, key, start)
    ensures start <= q && Nearest(b, tail, key, q) && Hit(b, tail, key, q) == Some(found)
    ensures Search(b, tail, key, tail - 1) == Value(found)
  {
    q, found := SearchStops(b, tail, key, start, tail - 1);
  }

  lemma FrontLies(b: seq<Byte>, length: seq<Byte>, proof: seq<Byte>, rest: seq<Byte>)
    requires HoldsAt(b, 0, [1] + (length + (proof + rest)))
    ensures HoldsAt(b, 0, [1]) && HoldsAt(b, 1, length) && HoldsAt(b, 1 + |length|, proof)
    ensures HoldsAt(b, 1 + |length| + |proof|, rest)
  {
    HoldsParts(b, 0, [1], length + (proof + rest));
    HoldsParts(b, 1, length, proof + rest);
    HoldsParts(b, 1 + |length|, proof, rest);
  }

  lemma BackLies(b: seq<Byte>, at: nat, middle: seq<Byte>, publics: seq<Byte>, rootC: seq<Byte>, rest: seq<Byte>)
    requires HoldsAt(b, at, middle + (publics + (rootC + rest)))
    ensures HoldsAt(b, at + |middle|, publics) && HoldsAt(b, at + |middle| + |publics|, rootC)
    ensures HoldsAt(b, at + |middle| + |publics| + |rootC|, rest)
  {
    HoldsParts(b, at, middle, publics + (rootC + rest));
    HoldsParts(b, at + |middle|, publics, rootC + rest);
    HoldsParts(b, at + |middle| + |publics|, rootC, rest);
  }

  lemma HoldsItself(b: seq<Byte>)
    ensures HoldsAt(b, 0, b)
  {
    HoldsSlice(b, 0, b);
  }

  /** Where each part of a file lies, whatever the parts are. */
  lemma PartsLie(b: seq<Byte>, length: seq<Byte>, proof: seq<Byte>, middle: seq<Byte>, publics: seq<Byte>,
                 rootC: seq<Byte>, key: seq<Byte>, mode: Byte, at: nat)
    requires b == Assemble(length, proof, middle, publics, rootC, key, mode) && at == 1 + |length| + |proof| + |middle|
    ensures HoldsAt(b, 0, [1]) && HoldsAt(b, 1, length) && HoldsAt(b, 1 + |length|, proof)
    ensures HoldsAt(b, at, publics) && HoldsAt(b, at + |publics|, rootC) && HoldsAt(b, at + |publics| + |rootC|, key)
    ensures |b| == at + |publics| + |rootC| + |key| + 1
  {
    HoldsItself(b);
    PartsHeld(b, length, proof, middle, publics, rootC, key, mode, at);
  }

  lemma PartsHeld(b: seq<Byte>, length: seq<Byte>, proof: seq<Byte>, middle: seq<Byte>, publics: seq<Byte>,
                  rootC: seq<Byte>, key: seq<Byte>, mode: Byte, at: nat)
    requires HoldsAt(b, 0, Assemble(length, proof, middle, publics, rootC, key, mode))
    requires at == 1 + |length| + |proof| + |middle|
    ensures HoldsAt(b, 0, [1]) && HoldsAt(b, 1, length) && HoldsAt(b, 1 + |length|, proof)
    ensures HoldsAt(b, at, publics) && HoldsAt(b, at + |publics|, rootC) && HoldsAt(b, at + |publics| + |rootC|, key)
  {
    FrontLies(b, length, proof, middle + (publics + (rootC + (key + [mode]))));
    BackLies(b, 1 + |length| + |proof|, middle, publics, rootC, key + [mode]);
    HoldsParts(b, at + |publics| + |rootC|, key, [mode]);
  }

  lemma FileStarts(f: Wrap, b: seq<Byte>, length: seq<Byte>)
    requires WellFormed(f) && b == File(f) && length == EncodeVarint(768)
    ensures HoldsAt(b, 0, [1]) && HoldsAt(b, 1, length) && HoldsAt(b, 1 + |length|, f.proof)
  {
    PartsLie(b, length, f.proof, f.middle, EncodeVec(f.publics), EncodeVec(f.rootC), EncodeVec(f.key), f.mode,
             PublicsAt(f));
  }

  lemma PublicsIn(b: seq<Byte>, length: seq<Byte>, proof: seq<Byte>, middle: seq<Byte>, publics: seq<Byte>,
                 rootC: seq<Byte>, key: seq<Byte>, mode: Byte, at: nat)
    requires b == Assemble(length, proof, middle, publics, rootC, key, mode) && at == 1 + |length| + |proof| + |middle|
    ensures HoldsAt(b, at, publics)
  {
    PartsLie(b, length, proof, middle, publics, rootC, key, mode, at);
  }

  lemma RootIn(b: seq<Byte>, length: seq<Byte>, proof: seq<Byte>, middle: seq<Byte>, publics: seq<Byte>,
                 rootC: seq<Byte>, key: seq<Byte>, mode: Byte, at: nat)
    requires b == Assemble(length, proof, middle, publics, rootC, key, mode)
    requires at == 1 + |length| + |proof| + |middle| + |publics|
    ensures HoldsAt(b, at, rootC)
  {
    PartsLie(b, length, proof, middle, publics, rootC, key, mode, at - |publics|);
  }

  lemma KeyIn(b: seq<Byte>, length: seq<Byte>, proof: seq<Byte>, middle: seq<Byte>, publics: seq<Byte>,
                 rootC: seq<Byte>, key: seq<Byte>, mode: Byte, at: nat)
    requires b == Assemble(length, proof, middle, publics, rootC, key, mode)
    requires at == 1 + |length| + |proof| + |middle| + |publics| + |rootC|
    ensures HoldsAt(b, at, key) && |b| - 1 == at + |key|
  {
    PartsLie(b, length, proof, middle, publics, rootC, key, mode, at - |rootC| - |publics|);
  }

  lemma PublicsLie(f: Wrap, b: seq<Byte>, at: nat)
    requires WellFormed(f) && b == File(f) && at == PublicsAt(f)
    ensures HoldsAt(b, at, EncodeVec(f.publics))
  {
    PublicsIn(b, EncodeVarint(768), f.proof, f.middle, EncodeVec(f.publics), EncodeVec(f.rootC), EncodeVec(f.key),
              f.mode, at);
  }

  lemma RootLies(f: Wrap, b: seq<Byte>, tail: nat)
    requires WellFormed(f) && b == File(f) && tail == KeysAt(f)
    ensures HoldsAt(b, tail, EncodeVec(f.rootC))
  {
    RootIn(b, EncodeVarint(768), f.proof, f.middle, EncodeVec(f.publics), EncodeVec(f.rootC), EncodeVec(f.key), f.mode,
           tail);
  }

  lemma KeyLies(f: Wrap, b: seq<Byte>, tail: nat, next: nat)
    requires WellFormed(f) && tail == KeysAt(f) && b == File(f) && next == tail + |EncodeVec(f.rootC)|
    ensures HoldsAt(b, next, EncodeVec(f.key)) && |b| - 1 == next + |EncodeVec(f.key)|
  {
    KeyIn(b, EncodeVarint(768), f.proof, f.middle, EncodeVec(f.publics), EncodeVec(f.rootC), EncodeVec(f.key), f.mode,
          next);
  }

  lemma ReadCandidate(b: seq<Byte>, tail: int, key: seq<nat>, q: int, words: seq<nat>)
    requires At(b, q) == Value(PUBLICS) && ReadsVec(b, q, words, tail) && |words| == PUBLICS && words[..4] == key
    ensures Candidate(b, tail, key, q) && Hit(b, tail, key, q) == Some(words)
  {
  }

  /** The true publics are a candidate. */
  lemma PublicsAreCandidate(f: Wrap, b: seq<Byte>, tail: int, at: nat)
    requires WellFormed(f) && b == File(f) && tail == KeysAt(f) && at == PublicsAt(f)
    ensures Candidate(b, tail, f.key, at) && Hit(b, tail, f.key, at) == Some(f.publics)
    ensures tail - 800 < at < tail
  {
    PublicsLie(f, b, at);
    VecReads(b, at, f.publics, tail);
    HoldsParts(b, at, EncodeVarint(PUBLICS), EncodeWords(f.publics));
    ReadCandidate(b, tail, f.key, at, f.publics);
  }

  /** The tag, the length and the proof read back. */
  lemma ProofReads(f: Wrap, b: seq<Byte>, at: nat)
    requires WellFormed(f) && b == File(f) && at == 1 + |EncodeVarint(768)|
    ensures At(b, 0) == Value(1) && ReadsWord(b, 1, 768, at) && Slice(b, at, at + 768) == f.proof
  {
    FileStarts(f, b, EncodeVarint(768));
    VarintReads(b, 1, 768);
    ByteWithin(b, 0, [1], 0);
    SliceHeld(b, at, f.proof);
  }

  lemma SliceHeld(b: seq<Byte>, at: nat, s: seq<Byte>)
    requires HoldsAt(b, at, s)
    ensures Slice(b, at, at + |s|) == s
  {
    HoldsSlice(b, at, s);
  }

  /** The aggregation key reads back. */
  lemma RootReads(f: Wrap, b: seq<Byte>, tail: nat, next: nat)
    requires WellFormed(f) && tail == KeysAt(f) && b == File(f) && next == tail + |EncodeVec(f.rootC)|
    ensures ReadsVec(b, tail, f.rootC, next)
  {
    RootLies(f, b, tail);
    VecReads(b, tail, f.rootC, next);
  }

  /** The program key reads back, and only the mode byte follows. */
  lemma KeyReads(f: Wrap, b: seq<Byte>, tail: nat, next: nat)
    requires WellFormed(f) && tail == KeysAt(f) && b == File(f) && next == tail + |EncodeVec(f.rootC)|
    ensures ReadsVec(b, next, f.key, |b| - 1)
  {
    KeyLies(f, b, tail, next);
    VecReads(b, next, f.key, |b| - 1);
  }

  /** The fixed fields come back exactly, and what remains is the search. */
  lemma FixedFields(b: seq<Byte>, tail: int, rootC: seq<nat>, key: seq<nat>, proof: seq<Byte>, at: int, next: int,
                    found: PyResult<seq<nat>>)
    requires |b| - 1 - KEYS_LEN == tail && At(b, 0) == Value(1) && ReadsWord(b, 1, 768, at)
    requires Slice(b, at, at + 768) == proof && |rootC| == 4 && |key| == 4
    requires ReadsVec(b, tail, rootC, next) && ReadsVec(b, next, key, |b| - 1)
    requires found == Search(b, tail, key, tail - 1)
    ensures Parsed(b) == Finished(found, key, rootC, proof)
  {
  }

  lemma RenderedWords(words: seq<U64>)
    ensures Render(words) == Value(words)
  {
  }

  /** `parse` on a well-formed file is its search, with the proof and both keys exact. */
  lemma ParseIsSearch(f: Wrap, b: seq<Byte>, tail: int, found: PyResult<seq<nat>>)
    requires WellFormed(f) && FullWidth(f) && b == File(f) && tail == KeysAt(f)
    requires found == Search(b, tail, f.key, tail - 1)
    ensures Parsed(b) == Finished(found, f.key, f.rootC, f.proof)
  {
    var at, next := 1 + |EncodeVarint(768)|, tail + |EncodeVec(f.rootC)|;
    ProofReads(f, b, at);
    TailIsRight(f);
    RootReads(f, b, tail, next);
    KeyReads(f, b, tail, next);
    FixedFields(b, tail, f.rootC, f.key, f.proof, at, next, found);
  }

  /** What becomes of the list the search found: the first four words go, the rest must fit. */
  lemma FinishedFields(found: seq<nat>, key: seq<U64>, rootC: seq<U64>, proof: seq<Byte>)
    ensures var words := Render(PastKey(found));
      Finished(Value(found), key, rootC, proof)
      == if words.Raise? then Raise(OverflowError) else Value(Fields(key, rootC, words.value, proof))
  {
    RenderedWords(key);
    RenderedWords(rootC);
  }

  lemma FoundIsReturned(f: Wrap, b: seq<Byte>, tail: int, found: seq<nat>)
    requires WellFormed(f) && FullWidth(f) && b == File(f) && tail == KeysAt(f)
    requires Search(b, tail, f.key, tail - 1) == Value(found)
    ensures var words := Render(PastKey(found));
      Parsed(b) == if words.Raise? then Raise(OverflowError) else Value(Fields(f.key, f.rootC, words.value, f.proof))
  {
    ParseIsSearch(f, b, tail, Value(found));
    FinishedFields(found, f.key, f.rootC, f.proof);
  }

  /**
   On every well-formed file with full-width keys the parser finds some list
   that ends where the keys begin and opens with the program key, and returns it
   with exactly the encoded proof and keys. It raises only when that list is not
   the encoded one and holds a word too wide to render.
   */
  lemma ParseWellFormed(f: Wrap, b: seq<Byte>, tail: int) returns (q: int, found: seq<nat>)
    requires WellFormed(f) && FullWidth(f) && b == File(f) && tail == KeysAt(f)
    ensures PublicsAt(f) <= q && Nearest(b, tail, f.key, q) && Hit(b, tail, f.key, q) == Some(found)
    ensures var words := Render(PastKey(found));
      Parsed(b) == if words.Raise? then Raise(OverflowError) else Value(Fields(f.key, f.rootC, words.value, f.proof))
  {
    PublicsAreCandidate(f, b, tail, PublicsAt(f));
    TailIsRight(f);
    q, found := NearestFound(b, tail, f.key, PublicsAt(f));
    FoundIsReturned(f, b, tail, found);
  }

  /** Every word past the key fits in eight bytes. */
  predicate Fits(words: seq<nat>) {
    forall i: nat | 4 <= i < |words| :: words[i] < TWO_64
  }

  lemma FitsIffRenders(words: seq<nat>)
    ensures Render(PastKey(words)).Value? <==> Fits(words)
  {
    if |words| > 4 && Render(words[4..]).Value? {
      forall i: nat | 4 <= i < |words| ensures words[i] < TWO_64 {
        assert words[4..][i - 4] < TWO_64;
      }
    }
  }

  lemma ReturnsWhenFits(f: Wrap, b: seq<Byte>, tail: int) returns (q: int, found: seq<nat>)
    requires WellFormed(f) && FullWidth(f) && b == File(f) && tail == KeysAt(f)
    ensures PublicsAt(f) <= q && Nearest(b, tail, f.key, q) && Hit(b, tail, f.key, q) == Some(found)
    ensures Parsed(b).Value? <==> Fits(found)
  {
    q, found := ParseWellFormed(f, b, tail);
    FitsIffRenders(found);
  }

  lemma OneNearest(b: seq<Byte>, tail: int, key: seq<nat>, q: int)
    requires Nearest(b, tail, key, q)
    ensures forall o: int | Nearest(b, tail, key, o) :: o == q
  {
  }

  /** The parser returns exactly when the list nearest the tail fits. */
  lemma ParseReturnsIff(f: Wrap, b: seq<Byte>, tail: int)
    requires WellFormed(f) && FullWidth(f) && b == File(f) && tail == KeysAt(f)
    ensures Parsed(b).Value? <==> exists q: int :: Nearest(b, tail, f.key, q) && Fits(Hit(b, tail, f.key, q).value)
  {
    var q, found := ReturnsWhenFits(f, b, tail);
    OneNearest(b, tail, f.key, q);
  }

  // ---------------------------------------------------------------------------
  // When the encoded fields come back
  // ---------------------------------------------------------------------------

  lemma {:induction false} Pow256Monotone(m: nat, n: nat)
    requires m <= n
    ensures Pow256(m) <= Pow256(n)
  {
    if m == n {
    } else {
      Pow256Monotone(m, n - 1);
    }
  }

  lemma SliceBound(b: seq<Byte>, i: nat, w: nat)
    ensures LE(Slice(b, i, i + w)) < Pow256(w)
  {
    var s := Slice(b, i, i + w);
    LEBound(s);
    Pow256Monotone(|s|, w);
  }

  /** Reading a word that fits in eight bytes takes at least as many bytes as bincode spells it with. */
  lemma WordSpans(b: seq<Byte>, i: nat, v: U64, next: int)
    requires ReadsWord(b, i, v, next)
    ensures next >= i + |EncodeVarint(v)|
  {
    var tag := b[i];
    if tag >= 251 {
      var w := Width(tag).value;
      SliceBound(b, i + 1, w);
      Pow256Small();
    }
  }

  lemma {:induction false} WordsSpan(b: seq<Byte>, i: nat, words: seq<U64>, read: seq<nat>, all: seq<nat>, end: int)
    requires ReadsWords(b, i, |words|, read, all, end) && all == read + words
    ensures end >= i + |EncodeWords(words)|
    decreases |words|
  {
    if words == [] {
    } else {
      var word := ReadVarint(b, i).value;
      var rest, longer := words[1..], read + [word.value];
      ReadExtends(b, word.next, |rest|, longer, all, end);
      assert all[|read|] == word.value == words[0];
      assert all == longer + rest;
      WordSpans(b, i, words[0], word.next);
      WordsSpan(b, word.next, rest, longer, all, end);
    }
  }

  /** Reading only adds to what was read. */
  lemma {:induction false} ReadExtends(b: seq<Byte>, i: int, n: nat, read: seq<nat>, all: seq<nat>, end: int)
    requires ReadsWords(b, i, n, read, all, end)
    ensures read <= all && |all| == |read| + n
    decreases n
  {
    if n == 0 {
    } else {
      var word := ReadVarint(b, i).value;
      ReadExtends(b, word.next, n - 1, read + [word.value], all, end);
    }
  }

  /** A list of eight-byte words that ends at the tail begins no nearer to it than its own encoding would. */
  lemma HitSpans(b: seq<Byte>, tail: int, key: seq<nat>, q: nat, words: seq<U64>)
    requires Candidate(b, tail, key, q) && Hit(b, tail, key, q) == Some(words)
    ensures |words| == PUBLICS && q + 1 + |EncodeWords(words)| <= tail
  {
    ReadExtends(b, q + 1, PUBLICS, [], words, tail);
    assert [] + words == words;
    WordsSpan(b, q + 1, words, [], words, tail);
  }

  lemma HitOpensWithKey(b: seq<Byte>, tail: int, key: seq<nat>, q: int, words: seq<nat>)
    requires Hit(b, tail, key, q) == Some(words) && |words| == PUBLICS
    ensures words[..4] == key
  {
  }

  lemma PublicsLength(f: Wrap)
    requires WellFormed(f)
    ensures PublicsAt(f) + 1 + |EncodeWords(f.publics)| == KeysAt(f)
  {
  }

  /**
   The parser returns exactly the encoded fields if and only if no other list
   that ends at the tail and opens with the key begins nearer to it.
   */
  lemma ParseRoundTrip(f: Wrap, b: seq<Byte>, tail: int)
    requires WellFormed(f) && FullWidth(f) && b == File(f) && tail == KeysAt(f)
    ensures Parsed(b) == Value(Fields(f.key, f.rootC, f.publics[4..], f.proof))
         <==> Nearest(b, tail, f.key, PublicsAt(f))
  {
    var q, found := ParseWellFormed(f, b, tail);
    FieldsDecide(f, found);
    if Nearest(b, tail, f.key, PublicsAt(f)) {
      PublicsAreCandidate(f, b, tail, PublicsAt(f));
      assert q == PublicsAt(f);
    } else if PastKey(found) == f.publics[4..] {
      OnlyPublicsRead(f, b, tail, q, found);
      assert false;
    }
  }

  /** What is returned is what was encoded exactly when the list found agrees past the key. */
  lemma FieldsDecide(f: Wrap, found: seq<nat>)
    requires WellFormed(f)
    ensures var words := Render(PastKey(found));
      (if words.Raise? then Raise(OverflowError) else Value(Fields(f.key, f.rootC, words.value, f.proof)))
        == Value(Fields(f.key, f.rootC, f.publics[4..], f.proof))
      <==> PastKey(found) == f.publics[4..]
  {
    RenderedWords(f.publics[4..]);
  }

  /** The encoded words can only be read from where they were written. */
  lemma OnlyPublicsRead(f: Wrap, b: seq<Byte>, tail: int, q: nat, found: seq<nat>)
    requires WellFormed(f) && tail == KeysAt(f) && PublicsAt(f) <= q
    requires Candidate(b, tail, f.key, q) && Hit(b, tail, f.key, q) == Some(found)
    requires PastKey(found) == f.publics[4..]
    ensures q == PublicsAt(f)
  {
    assert |found| == PUBLICS;
    HitOpensWithKey(b, tail, f.key, q, found);
    assert found == found[..4] + found[4..] && f.publics == f.publics[..4] + f.publics[4..];
    HitSpans(b, tail, f.key, q, f.publics);
    PublicsLength(f);
  }

  lemma BodyLies(f: Wrap, b: seq<Byte>, at: nat, body: seq<Byte>)
    requires WellFormed(f) && b == File(f) && at == PublicsAt(f) && body == EncodeWords(f.publics)
    ensures HoldsAt(b, at + 1, body) && KeysAt(f) == at + 1 + |body|
  {
    PublicsLie(f, b, at);
    PublicsLength(f);
    HoldsParts(b, at, EncodeVarint(PUBLICS), body);
  }

  /** No list begins nearer when the words' own bytes never look like a count. */
  lemma NoCountInPublics(f: Wrap, b: seq<Byte>, tail: int)
    requires WellFormed(f) && b == File(f) && tail == KeysAt(f) && PUBLICS !in EncodeWords(f.publics)
    ensures Nearest(b, tail, f.key, PublicsAt(f))
  {
    var at, body := PublicsAt(f), EncodeWords(f.publics);
    PublicsAreCandidate(f, b, tail, at);
    BodyLies(f, b, at, body);
    forall o: int | at < o < tail ensures !Candidate(b, tail, f.key, o) {
      ByteWithin(b, at + 1, body, o);
    }
  }

  // ---------------------------------------------------------------------------
  // The verdict from the publics alone
  // ---------------------------------------------------------------------------

  /** A word read within v reads the same in a file that holds v, unless it runs past the end of both. */
  lemma VarintWithin(b: seq<Byte>, v: seq<Byte>, at: nat, i: nat)
    requires HoldsAt(b, at, v) && i < |v|
    ensures ReadVarint(b, at + i).Raise? <==> ReadVarint(v, i).Raise?
    ensures ReadVarint(v, i).Value? ==>
              var word, within := ReadVarint(b, at + i).value, ReadVarint(v, i).value;
              && word.next == at + within.next && within.next > i
              && (within.next <= |v| ==> word.value == within.value)
  {
    ByteWithin(b, at, v, at + i);
    if v[i] >= 251 && Width(v[i]).Value? {
      WideWithin(b, v, at, i, Width(v[i]).value);
    }
  }

  lemma WideWithin(b: seq<Byte>, v: seq<Byte>, at: nat, i: nat, w: nat)
    requires HoldsAt(b, at, v) && i < |v| && v[i] >= 251 && Width(v[i]) == Value(w) && At(b, at + i) == Value(v[i])
    ensures ReadsWord(v, i, LE(Slice(v, i + 1, i + 1 + w)), i + 1 + w)
    ensures ReadVarint(b, at + i).Value? && ReadVarint(b, at + i).value.next == at + i + 1 + w
    ensures i + 1 + w <= |v| ==> ReadVarint(b, at + i).value.value == LE(Slice(v, i + 1, i + 1 + w))
  {
    if i + 1 + w <= |v| {
      SliceWithin(b, v, at, i + 1, i + 1 + w);
      assert Slice(b, at + i + 1, at + i + 1 + w) == Slice(v, i + 1, i + 1 + w);
    }
  }

  lemma SliceWithin(b: seq<Byte>, v: seq<Byte>, at: nat, i: nat, j: nat)
    requires HoldsAt(b, at, v) && i <= j <= |v|
    ensures Slice(b, at + i, at + j) == Slice(v, i, j)
  {
    HoldsSlice(b, at, v);
    assert Slice(b, at + i, at + j) == b[at + i..at + j] && Slice(v, i, j) == v[i..j];
    forall k | 0 <= k < j - i ensures b[at + i..at + j][k] == v[i..j][k] {
      assert b[at + (i + k)] == b[at..at + |v|][i + k];
    }
  }

  /** Every word takes a byte. */
  lemma {:induction false} ReadAdvances(b: seq<Byte>, i: nat, n: nat, read: seq<nat>, all: seq<nat>, end: int)
    requires ReadsWords(b, i, n, read, all, end)
    ensures end >= i + n
    decreases n
  {
    if n == 0 {
    } else {
      var word := ReadVarint(b, i).value;
      ReadAdvances(b, word.next, n - 1, read + [word.value], all, end);
    }
  }

  lemma NoWordAtEnd(v: seq<Byte>, n: nat, read: seq<nat>, all: seq<nat>, end: int, i: nat)
    requires n > 0 && i >= |v|
    ensures !ReadsWords(v, i, n, read, all, end)
  {
  }

  lemma OneWord(b: seq<Byte>, i: int, n: nat, read: seq<nat>, all: seq<nat>, end: int)
    requires n > 0
    ensures ReadsWords(b, i, n, read, all, end)
       <==> ReadVarint(b, i).Value?
            && ReadsWords(b, ReadVarint(b, i).value.next, n - 1, read + [ReadVarint(b, i).value.value], all, end)
  {
  }

  /** Words end where v ends in the file exactly when they end at the end of v alone. */
  lemma {:induction false} WordsWithin(b: seq<Byte>, v: seq<Byte>, at: nat, i: nat, n: nat, read: seq<nat>,
                                       all: seq<nat>)
    requires HoldsAt(b, at, v) && i <= |v|
    ensures ReadsWords(b, at + i, n, read, all, at + |v|) <==> ReadsWords(v, i, n, read, all, |v|)
    decreases n, 0
  {
    if n == 0 {
    } else if i == |v| {
      NoWordAtEnd(v, n, read, all, |v|, i);
      if ReadsWords(b, at + i, n, read, all, at + |v|) {
        ReadAdvances(b, at + i, n, read, all, at + |v|);
      }
    } else {
      VarintWithin(b, v, at, i);
      OneWord(b, at + i, n, read, all, at + |v|);
      OneWord(v, i, n, read, all, |v|);
      if ReadVarint(v, i).Value? {
        RestWithin(b, v, at, n - 1, ReadVarint(b, at + i).value, ReadVarint(v, i).value, read, all);
      }
    }
  }

  lemma {:induction false} RestWithin(b: seq<Byte>, v: seq<Byte>, at: nat, n: nat, word: Word, within: Word,
                                      read: seq<nat>, all: seq<nat>)
    requires HoldsAt(b, at, v) && within.next >= 0 && word.next == at + within.next
    requires within.next <= |v| ==> word.value == within.value
    ensures ReadsWords(b, word.next, n, read + [word.value], all, at + |v|)
       <==> ReadsWords(v, within.next, n, read + [within.value], all, |v|)
    decreases n, 1
  {
    if within.next <= |v| {
      WordsWithin(b, v, at, within.next, n, read + [word.value], all);
    } else {
      if ReadsWords(b, word.next, n, read + [word.value], all, at + |v|) {
        ReadAdvances(b, word.next, n, read + [word.value], all, at + |v|);
      }
      if ReadsWords(v, within.next, n, read + [within.value], all, |v|) {
        ReadAdvances(v, within.next, n, read + [within.value], all, |v|);
      }
    }
  }

  lemma HitMeans(b: seq<Byte>, tail: int, key: seq<nat>, o: int, all: seq<nat>)
    requires At(b, o) == Value(PUBLICS)
    ensures Hit(b, tail, key, o) == Some(all) <==> ReadsWords(b, o + 1, PUBLICS, [], all, tail) && Prefix4(all) == key
  {
  }

  lemma SameHit(b: seq<Byte>, v: seq<Byte>, at: nat, key: seq<nat>, i: nat, all: seq<nat>)
    requires HoldsAt(b, at, v) && i < |v| && At(b, at + i) == At(v, i) == Value(PUBLICS)
    ensures Hit(b, at + |v|, key, at + i) == Some(all) <==> Hit(v, |v|, key, i) == Some(all)
  {
    HitMeans(b, at + |v|, key, at + i, all);
    HitMeans(v, |v|, key, i, all);
    WordsWithin(b, v, at, i + 1, PUBLICS, [], all);
  }

  lemma HitWithin(b: seq<Byte>, v: seq<Byte>, at: nat, key: seq<nat>, i: nat)
    requires HoldsAt(b, at, v) && i < |v| && At(b, at + i) == At(v, i) == Value(PUBLICS)
    ensures Hit(b, at + |v|, key, at + i) == Hit(v, |v|, key, i)
  {
    var inFile, inList := Hit(b, at + |v|, key, at + i), Hit(v, |v|, key, i);
    if inFile.Some? {
      SameHit(b, v, at, key, i, inFile.value);
    }
    if inList.Some? {
      SameHit(b, v, at, key, i, inList.value);
    }
  }

  /** Whether a list begins there, and which, can be read off v. */
  lemma CandidateWithin(b: seq<Byte>, v: seq<Byte>, at: nat, tail: int, key: seq<nat>, o: int)
    requires HoldsAt(b, at, v) && tail == at + |v| && at <= o < tail
    ensures Candidate(b, tail, key, o) <==> Candidate(v, |v|, key, o - at)
    ensures Candidate(v, |v|, key, o - at) ==> Hit(b, tail, key, o) == Hit(v, |v|, key, o - at)
  {
    ByteWithin(b, at, v, o);
    if v[o - at] == PUBLICS {
      HitWithin(b, v, at, key, o - at);
    }
  }

  lemma NearestWithin(b: seq<Byte>, v: seq<Byte>, at: nat, tail: int, key: seq<nat>, q: int)
    requires HoldsAt(b, at, v) && tail == at + |v| && at <= q
    ensures Nearest(b, tail, key, q) <==> Nearest(v, |v|, key, q - at)
  {
    if q < tail {
      CandidateWithin(b, v, at, tail, key, q);
    }
    if Nearest(v, |v|, key, q - at) {
      forall o: int | q < o < tail ensures !Candidate(b, tail, key, o) {
        CandidateWithin(b, v, at, tail, key, o);
      }
    }
    if Nearest(b, tail, key, q) {
      var n := |v|;
      forall i: int | q - at < i < n ensures !Candidate(v, n, key, i) {
        CandidateWithin(b, v, at, tail, key, at + i);
      }
    }
  }

  /** No proper suffix of an encoded list is itself a list of 68 words that opens with the key. */
  predicate Unambiguous(v: seq<Byte>, key: seq<nat>) {
    Nearest(v, |v|, key, 0)
  }

  /** The shortest suffix that is such a list fits in eight-byte words. */
  predicate ShortestFits(v: seq<Byte>, key: seq<nat>) {
    exists i | 0 <= i < |v| :: Nearest(v, |v|, key, i) && Fits(Hit(v, |v|, key, i).value)
  }

  lemma FitsWithin(b: seq<Byte>, v: seq<Byte>, at: nat, tail: int, key: seq<nat>, q: int, found: seq<nat>)
    requires HoldsAt(b, at, v) && tail == at + |v| && at <= q
    requires Nearest(b, tail, key, q) && Hit(b, tail, key, q) == Some(found)
    ensures Fits(found) <==> ShortestFits(v, key)
  {
    NearestWithin(b, v, at, tail, key, q);
    CandidateWithin(b, v, at, tail, key, q);
    OneNearest(v, |v|, key, q - at);
    assert Hit(v, |v|, key, q - at) == Some(found);
  }

  /**
   What the parser makes of a well-formed file is decided by the bytes of its
   publics alone, before the file is written: it returns the encoded fields if
   and only if those bytes are unambiguous, and returns at all if and only if
   their shortest suffix that is a list of 68 words opening with the key fits.
   */
  lemma ParseFromPublics(f: Wrap, b: seq<Byte>, v: seq<Byte>)
    requires WellFormed(f) && FullWidth(f) && b == File(f) && v == EncodeVec(f.publics)
    ensures Parsed(b) == Value(Fields(f.key, f.rootC, f.publics[4..], f.proof)) <==> Unambiguous(v, f.key)
    ensures Parsed(b).Value? <==> ShortestFits(v, f.key)
  {
    var at, tail := PublicsAt(f), KeysAt(f);
    PublicsLie(f, b, at);
    RoundTripWithin(f, b, tail, at, v);
    ReturnsWithin(f, b, tail, at, v);
  }

  lemma RoundTripWithin(f: Wrap, b: seq<Byte>, tail: int, at: nat, v: seq<Byte>)
    requires WellFormed(f) && FullWidth(f) && b == File(f) && tail == KeysAt(f) == at + |v| && at == PublicsAt(f)
    requires HoldsAt(b, at, v)
    ensures Parsed(b) == Value(Fields(f.key, f.rootC, f.publics[4..], f.proof)) <==> Unambiguous(v, f.key)
  {
    ParseRoundTrip(f, b, tail);
    NearestWithin(b, v, at, tail, f.key, at);
  }

  lemma ReturnsWithin(f: Wrap, b: seq<Byte>, tail: int, at: nat, v: seq<Byte>)
    requires WellFormed(f) && FullWidth(f) && b == File(f) && tail == KeysAt(f) == at + |v| && at == PublicsAt(f)
    requires HoldsAt(b, at, v)
    ensures Parsed(b).Value? <==> ShortestFits(v, f.key)
  {
    var q, found := ReturnsWhenFits(f, b, tail);
    FitsWithin(b, v, at, tail, f.key, q, found);
  }
}
