/** Bytes, fixed-width integers, and the two byte orders the program uses. */
module Bytes {
  import opened Modular

  type Byte = x: int | 0 <= x < 256

  const TWO_64: int := 0x1_0000_0000_0000_0000
  const TWO_128: int := 0x1_0000_0000_0000_0000_0000_0000_0000_0000
  const TWO_256: int := 0x1_0000_0000_0000_0000_0000_0000_0000_0000_0000_0000_0000_0000_0000_0000_0000_0000

  type U64 = x: int | 0 <= x < TWO_64

  type Bytes32 = s: seq<Byte> | |s| == 32 witness seq(32, _ => 0)

  datatype Option<+T> = None | Some(value: T) {
    predicate IsFailure() {
      None?
    }
    function PropagateFailure<U>(): Option<U>
      requires None?
    {
      None
    }
    function Extract(): T
      requires Some?
    {
      value
    }
  }

  function Zeros(n: nat): (s: seq<Byte>)
    ensures |s| == n && forall i | 0 <= i < n :: s[i] == 0
  {
    seq(n, _ => 0)
  }

  /** 256 to the power n. */
  function Pow256(n: nat): (r: nat)
    ensures r > 0
  {
    if n == 0 then 1 else Pow256(n - 1) * 256
  }

  lemma {:induction false} Pow256Add(m: nat, n: nat)
    ensures Pow256(m + n) == Pow256(m) * Pow256(n)
  {
    if n == 0 {
    } else {
      Pow256Add(m, n - 1);
    }
  }

  lemma Pow256Values()
    ensures Pow256(8) == TWO_64 && Pow256(16) == TWO_128 && Pow256(32) == TWO_256
  {
    Pow256Add(8, 8);
    Pow256Add(16, 16);
  }

  lemma LowByte(b: Byte, rest: nat)
    ensures (b + 256 * rest) % 256 == b && (b + 256 * rest) / 256 == rest
  {
    Unique(b + 256 * rest, 256, rest, b);
  }

  // ---------------------------------------------------------------------------
  // Big endian
  // ---------------------------------------------------------------------------

  /** The value of a big-endian byte string. */
  function BE(s: seq<Byte>): nat {
    if s == [] then 0 else BE(s[..|s| - 1]) * 256 + s[|s| - 1]
  }

  /** The n big-endian bytes of x, which drops whatever does not fit. */
  function ToBE(x: nat, n: nat): (s: seq<Byte>)
    ensures |s| == n
    decreases n, x
  {
    if n == 0 then [] else ToBE(x / 256, n - 1) + [x % 256]
  }

  lemma {:induction false} BEBound(s: seq<Byte>)
    ensures BE(s) < Pow256(|s|)
  {
    if s == [] {
    } else {
      BEBound(s[..|s| - 1]);
    }
  }

  lemma {:induction false} BEOfToBE(x: nat, n: nat)
    requires x < Pow256(n)
    ensures BE(ToBE(x, n)) == x
  {
    if n == 0 {
    } else {
      BEOfToBE(x / 256, n - 1);
      assert ToBE(x, n)[..n - 1] == ToBE(x / 256, n - 1);
    }
  }

  lemma {:induction false} ToBEOfBE(s: seq<Byte>)
    ensures ToBE(BE(s), |s|) == s
  {
    if s == [] {
    } else {
      ToBEOfBE(s[..|s| - 1]);
      LowByte(s[|s| - 1], BE(s[..|s| - 1]));
      assert s == s[..|s| - 1] + [s[|s| - 1]];
    }
  }

  lemma {:induction false} BEConcat(a: seq<Byte>, b: seq<Byte>)
    ensures BE(a + b) == BE(a) * Pow256(|b|) + BE(b)
  {
    if b == [] {
      assert a + b == a;
    } else {
      var c := b[..|b| - 1];
      BEConcat(a, c);
      assert (a + b)[..|a + b| - 1] == a + c;
    }
  }

  lemma BEInjective(a: seq<Byte>, b: seq<Byte>)
    requires |a| == |b| && BE(a) == BE(b)
    ensures a == b
  {
    ToBEOfBE(a);
    ToBEOfBE(b);
  }

  lemma {:induction false} BEZeros(n: nat)
    ensures BE(Zeros(n)) == 0
  {
    if n == 0 {
    } else {
      BEZeros(n - 1);
      assert Zeros(n)[..n - 1] == Zeros(n - 1);
    }
  }

  /** x shifted right by n bytes. */
  function Shr(x: nat, n: nat): nat
    decreases n, x
  {
    if n == 0 then x else Shr(x / 256, n - 1)
  }

  lemma {:induction false} ShrShr(x: nat, m: nat, n: nat)
    ensures Shr(Shr(x, m), n) == Shr(x, m + n)
  {
    if m == 0 {
    } else {
      ShrShr(x / 256, m - 1, n);
    }
  }

  lemma {:induction false} ToBESplit(x: nat, m: nat, n: nat)
    ensures ToBE(x, m + n) == ToBE(Shr(x, n), m) + ToBE(x, n)
  {
    if n == 0 {
      assert ToBE(x, 0) == [];
    } else {
      ToBESplit(x / 256, m, n - 1);
      assert ToBE(x, m + n) == ToBE(x / 256, m + (n - 1)) + [x % 256];
      assert ToBE(x, n) == ToBE(x / 256, n - 1) + [x % 256];
    }
  }

  /** Dropping the last byte and keeping n bytes commute. */
  lemma ModDiv256(x: nat, p: nat)
    requires p > 0
    ensures (x % (p * 256)) / 256 == (x / 256) % p && (x % (p * 256)) % 256 == x % 256
  {
    var q, r := (x / 256) / p, (x / 256) % p;
    var low := r * 256 + x % 256;
    assert x / 256 == q * p + r;
    assert low < p * 256 by {
      MulMonotone(256, r, p - 1);
    }
    assert x == q * (p * 256) + low;
    Unique(x, p * 256, q, low);
    Unique(low, 256, r, x % 256);
  }

  lemma {:induction false} ToBELow(x: nat, n: nat)
    ensures ToBE(x % Pow256(n), n) == ToBE(x, n)
  {
    if n == 0 {
    } else {
      ToBELow(x / 256, n - 1);
      ModDiv256(x, Pow256(n - 1));
    }
  }

  // ---------------------------------------------------------------------------
  // Little endian
  // ---------------------------------------------------------------------------

  /** The value of a little-endian byte string. */
  function LE(s: seq<Byte>): nat {
    if s == [] then 0 else s[0] + 256 * LE(s[1..])
  }

  /** The n little-endian bytes of x. */
  function ToLE(x: nat, n: nat): (s: seq<Byte>)
    ensures |s| == n
    decreases n, x
  {
    if n == 0 then [] else [x % 256] + ToLE(x / 256, n - 1)
  }

  lemma {:induction false} LEBound(s: seq<Byte>)
    ensures LE(s) < Pow256(|s|)
  {
    if s == [] {
    } else {
      LEBound(s[1..]);
    }
  }

  lemma {:induction false} LEOfToLE(x: nat, n: nat)
    requires x < Pow256(n)
    ensures LE(ToLE(x, n)) == x
  {
    if n == 0 {
    } else {
      LEOfToLE(x / 256, n - 1);
    }
  }

  lemma {:induction false} ToLEOfLE(s: seq<Byte>)
    ensures ToLE(LE(s), |s|) == s
  {
    if s == [] {
    } else {
      ToLEOfLE(s[1..]);
      LowByte(s[0], LE(s[1..]));
      assert s == [s[0]] + s[1..];
    }
  }

  /** A little-endian u64 field: eight bytes, losing nothing. */
  function U64LE(x: U64): (s: seq<Byte>)
    ensures |s| == 8
  {
    ToLE(x, 8)
  }

  function ReadU64(s: seq<Byte>): U64
    requires |s| == 8
  {
    LEBound(s);
    Pow256Values();
    LE(s)
  }

  lemma U64RoundTrip(x: U64)
    ensures ReadU64(U64LE(x)) == x
  {
    Pow256Values();
    LEOfToLE(x, 8);
  }

  lemma U64Canonical(s: seq<Byte>)
    requires |s| == 8
    ensures U64LE(ReadU64(s)) == s
  {
    ToLEOfLE(s);
  }

  // ---------------------------------------------------------------------------
  // Byte by byte
  // ---------------------------------------------------------------------------

  lemma DivideTwice(x: nat, p: nat)
    requires p > 0
    ensures x / (p * 256) == (x / 256) / p
  {
    var q, r := (x / 256) / p, (x / 256) % p;
    assert x / 256 == q * p + r;
    var low := r * 256 + x % 256;
    assert low < p * 256 by {
      MulMonotone(256, r, p - 1);
    }
    assert x == q * (p * 256) + low;
    Unique(x, p * 256, q, low);
  }

  /** Byte i counts the 256^i. */
  lemma {:induction false} ToLEByte(x: nat, n: nat, i: nat)
    requires i < n
    ensures ToLE(x, n)[i] == x / Pow256(i) % 256
    decreases n
  {
    if i == 0 {
    } else {
      ToLEByte(x / 256, n - 1, i - 1);
      DivideTwice(x, Pow256(i - 1));
    }
  }

  /** Byte i counts the 256^(n - 1 - i). */
  lemma {:induction false} ToBEByte(x: nat, n: nat, i: nat)
    requires i < n
    ensures ToBE(x, n)[i] == x / Pow256(n - 1 - i) % 256
    decreases n
  {
    if i == n - 1 {
    } else {
      ToBEByte(x / 256, n - 1, i);
      DivideTwice(x, Pow256(n - 2 - i));
    }
  }

  /** A u64 field holds its least significant byte first. */
  lemma U64LEByte(x: U64, i: nat)
    requires i < 8
    ensures U64LE(x)[i] == x / Pow256(i) % 256
  {
    ToLEByte(x, 8, i);
  }

  /** Reversing the bytes exchanges the two orders. */
  lemma {:induction false} ReversedOrder(s: seq<Byte>, t: seq<Byte>)
    requires |s| == |t| && forall i | 0 <= i < |s| :: t[i] == s[|s| - 1 - i]
    ensures LE(t) == BE(s)
    decreases |s|
  {
    if s == [] {
    } else {
      ReversedOrder(s[..|s| - 1], t[1..]);
    }
  }

  // ---------------------------------------------------------------------------
  // Buffers
  // ---------------------------------------------------------------------------

  /** s with src written over it from off on. */
  function Splice(s: seq<Byte>, off: nat, src: seq<Byte>): (t: seq<Byte>)
    requires off + |src| <= |s|
    ensures |t| == |s|
    ensures forall i | 0 <= i < |s| :: t[i] == if off <= i < off + |src| then src[i - off] else s[i]
  {
    s[..off] + src + s[off + |src|..]
  }

  /** `copy_from_slice` into a range of a mutable buffer. */
  method CopyInto(buf: array<Byte>, off: nat, src: seq<Byte>)
    requires off + |src| <= buf.Length
    modifies buf
    ensures buf[..] == Splice(old(buf[..]), off, src)
  {
    for i := 0 to |src|
      invariant forall j | 0 <= j < buf.Length :: buf[j] == if off <= j < off + i then src[j - off] else old(buf[j])
    {
      buf[off + i] := src[i];
    }
  }

  /** Write src after the off bytes already laid down. */
  method Append(buf: array<Byte>, off: nat, src: seq<Byte>)
    requires off + |src| <= buf.Length
    modifies buf
    ensures buf[..off + |src|] == old(buf[..off]) + src
  {
    CopyInto(buf, off, src);
  }
}
