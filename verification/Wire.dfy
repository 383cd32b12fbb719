/** The guest's committed output and Zisk's public window (program/src/wire.rs). */
module Wire {
  import opened Bytes

  const FINALIZATION_PUBLIC_BYTES: nat := 176
  const COMMITTED_LEN: nat := FINALIZATION_PUBLIC_BYTES + 32
  const PUBLIC_VALUES_LEN: nat := 512

  datatype FinalizationOutput = FinalizationOutput(
    accumulatorCommitment: Bytes32,
    nextAccumulatorCommitment: Bytes32,
    finalizedEpoch: U64,
    finalizedRoot: Bytes32,
    finalizedStateRoot: Bytes32,
    justifiedEpoch: U64,
    justifiedRoot: Bytes32)

  // ---------------------------------------------------------------------------
  // The committed output
  // ---------------------------------------------------------------------------

  /** The fields in order, epochs little-endian. */
  function PublicBytes(o: FinalizationOutput): (s: seq<Byte>)
    ensures |s| == FINALIZATION_PUBLIC_BYTES
  {
    o.accumulatorCommitment + o.nextAccumulatorCommitment + U64LE(o.finalizedEpoch) + o.finalizedRoot
    + o.finalizedStateRoot + U64LE(o.justifiedEpoch) + o.justifiedRoot
  }

  method BuildPublicBytes(o: FinalizationOutput) returns (out: array<Byte>)
    ensures fresh(out) && out[..] == PublicBytes(o)
  {
    out := new Byte[FINALIZATION_PUBLIC_BYTES](_ => 0);
    Append(out, 0, o.accumulatorCommitment);
    assert out[..32] == o.accumulatorCommitment;
    Append(out, 32, o.nextAccumulatorCommitment);
    Append(out, 64, U64LE(o.finalizedEpoch));
    Append(out, 72, o.finalizedRoot);
    Append(out, 104, o.finalizedStateRoot);
    Append(out, 136, U64LE(o.justifiedEpoch));
    Append(out, 144, o.justifiedRoot);
    assert out[..] == out[..FINALIZATION_PUBLIC_BYTES];
  }

  lemma SevenFields(s: seq<Byte>, o: FinalizationOutput)
    requires |s| == FINALIZATION_PUBLIC_BYTES
    requires s[..32] == o.accumulatorCommitment && s[32..64] == o.nextAccumulatorCommitment
    requires s[64..72] == U64LE(o.finalizedEpoch) && s[72..104] == o.finalizedRoot
    requires s[104..136] == o.finalizedStateRoot && s[136..144] == U64LE(o.justifiedEpoch)
    requires s[144..] == o.justifiedRoot
    ensures s == PublicBytes(o)
  {
    assert s == s[..32] + s[32..64] + s[64..72] + s[72..104] + s[104..136] + s[136..144] + s[144..];
  }

  function FromPublicBytes(s: seq<Byte>): FinalizationOutput
    requires |s| == FINALIZATION_PUBLIC_BYTES
  {
    FinalizationOutput(s[..32], s[32..64], ReadU64(s[64..72]), s[72..104], s[104..136], ReadU64(s[136..144]),
                       s[144..176])
  }

  /** Decoding is the exact inverse of encoding, in both directions. */
  lemma PublicBytesInverse(o: FinalizationOutput, s: seq<Byte>)
    requires |s| == FINALIZATION_PUBLIC_BYTES
    ensures PublicBytes(o) == s <==> FromPublicBytes(s) == o
  {
    if PublicBytes(o) == s {
      U64RoundTrip(o.finalizedEpoch);
      U64RoundTrip(o.justifiedEpoch);
      FieldsOf(o);
    }
    if FromPublicBytes(s) == o {
      U64Canonical(s[64..72]);
      U64Canonical(s[136..144]);
      SevenFields(s, o);
    }
  }

  /** Which range is which field. */
  lemma FieldsOf(o: FinalizationOutput)
    ensures var s := PublicBytes(o);
      && |s| == 176 && s[..32] == o.accumulatorCommitment && s[32..64] == o.nextAccumulatorCommitment
      && s[64..72] == U64LE(o.finalizedEpoch) && s[72..104] == o.finalizedRoot
      && s[104..136] == o.finalizedStateRoot && s[136..144] == U64LE(o.justifiedEpoch) && s[144..176] == o.justifiedRoot
  {
  }

  // ---------------------------------------------------------------------------
  // The guest's spelling of the key
  // ---------------------------------------------------------------------------

  /** Each of the four words reversed. */
  function GuestProgramVk(vk: Bytes32): Bytes32 {
    seq(32, i requires 0 <= i < 32 => vk[8 * (i / 8) + 7 - i % 8])
  }

  /** `word.reverse()` on the eight bytes from off on. */
  method ReverseWord(out: array<Byte>, off: nat)
    requires off + 8 <= out.Length
    modifies out
    ensures forall i | 0 <= i < out.Length ::
              out[i] == if off <= i < off + 8 then old(out[off + 7 - (i - off)]) else old(out[i])
  {
    for j := 0 to 4
      invariant forall i | 0 <= i < out.Length ::
        out[i] == if off <= i < off + j || off + 8 - j <= i < off + 8 then old(out[off + 7 - (i - off)])
            else old(out[i])
    {
      out[off + j], out[off + 7 - j] := out[off + 7 - j], out[off + j];
    }
  }

  /** The key once its first n words have been reversed. */
  ghost function ReversedUpTo(vk: Bytes32, n: nat): Bytes32 {
    seq(32, i requires 0 <= i < 32 => if i < 8 * n then vk[8 * (i / 8) + 7 - i % 8] else vk[i])
  }

  lemma WordReversed(vk: Bytes32, n: nat, i: nat)
    requires n < 4 && i < 32
    ensures ReversedUpTo(vk, n + 1)[i]
         == if 8 * n <= i < 8 * n + 8 then ReversedUpTo(vk, n)[8 * n + 7 - (i - 8 * n)] else ReversedUpTo(vk, n)[i]
  {
    if 8 * n <= i < 8 * n + 8 {
      assert i / 8 == n && i % 8 == i - 8 * n;
    }
  }

  method BuildGuestProgramVk(vk: Bytes32) returns (out: array<Byte>)
    ensures fresh(out) && out[..] == GuestProgramVk(vk)
  {
    out := new Byte[32](i requires 0 <= i < 32 => vk[i]);
    for w := 0 to 4
      invariant fresh(out) && out.Length == 32 && out[..] == ReversedUpTo(vk, w)
    {
      ghost var was := out[..];
      ReverseWord(out, 8 * w);
      forall i: nat | i < 32 ensures out[..][i] == ReversedUpTo(vk, w + 1)[i] {
        WordReversed(vk, w, i);
      }
    }
    assert ReversedUpTo(vk, 4) == GuestProgramVk(vk);
  }

  /** The guest's words, read little-endian, are the pinned words read big-endian. */
  lemma GuestWord(vk: Bytes32, w: nat)
    requires w < 4
    ensures ReadU64(GuestProgramVk(vk)[8 * w..8 * w + 8]) == BE(vk[8 * w..8 * w + 8])
  {
    var pinned, spelled := vk[8 * w..8 * w + 8], GuestProgramVk(vk)[8 * w..8 * w + 8];
    forall i | 0 <= i < 8 ensures spelled[i] == pinned[7 - i] {
      assert (8 * w + i) / 8 == w && (8 * w + i) % 8 == i;
    }
    ReversedOrder(pinned, spelled);
  }

  /** The two spellings of a key are each other's reversal. */
  lemma GuestProgramVkInvolution(vk: Bytes32)
    ensures GuestProgramVk(GuestProgramVk(vk)) == vk
  {
    var g := GuestProgramVk(vk);
    forall i | 0 <= i < 32 ensures GuestProgramVk(g)[i] == vk[i] {
      var j := 8 * (i / 8) + 7 - i % 8;
      assert j / 8 == i / 8 && j % 8 == 7 - i % 8;
      assert g[j] == vk[i];
    }
  }

  // ---------------------------------------------------------------------------
  // The public window
  // ---------------------------------------------------------------------------

  /** The output followed by the pinned key as the guest wrote it. */
  function Committed(o: FinalizationOutput, vk: Bytes32): (s: seq<Byte>)
    ensures |s| == COMMITTED_LEN
  {
    PublicBytes(o) + GuestProgramVk(vk)
  }

  /** Byte i of the window: four committed bytes to a slot of eight, zero elsewhere. */
  function WindowByte(committed: seq<Byte>, i: nat): Byte {
    var at := 4 * (i / 8) + i % 8;
    if i % 8 < 4 && at < |committed| then committed[at] else 0
  }

  function PublicValues(o: FinalizationOutput, vk: Bytes32): (s: seq<Byte>)
    ensures |s| == PUBLIC_VALUES_LEN
  {
    seq(PUBLIC_VALUES_LEN, i requires 0 <= i < PUBLIC_VALUES_LEN => WindowByte(Committed(o, vk), i))
  }

  method BuildPublicValues(o: FinalizationOutput, vk: Bytes32) returns (window: array<Byte>)
    ensures fresh(window) && window[..] == PublicValues(o, vk)
  {
    var committed := new Byte[COMMITTED_LEN](_ => 0);
    var bytes := BuildPublicBytes(o);
    CopyInto(committed, 0, bytes[..]);
    var key := BuildGuestProgramVk(vk);
    CopyInto(committed, FINALIZATION_PUBLIC_BYTES, key[..]);
    assert committed[..] == Committed(o, vk);

    window := new Byte[PUBLIC_VALUES_LEN](_ => 0);
    ghost var all := Committed(o, vk);
    assert window[..] == WindowUpTo(all, 0);
    for slot := 0 to COMMITTED_LEN / 4
      invariant fresh(window) && window.Length == PUBLIC_VALUES_LEN
      invariant committed[..] == all && committed.Length == COMMITTED_LEN
      invariant window[..] == WindowUpTo(all, slot)
    {
      var four := committed[4 * slot..4 * slot + 4];
      assert four == all[4 * slot..4 * slot + 4];
      CopyInto(window, 8 * slot, four);
      SlotWritten(all, slot);
    }
    WindowComplete(o, vk);
  }

  /** The window once n slots have been filled. */
  ghost function WindowUpTo(committed: seq<Byte>, n: nat): (s: seq<Byte>)
    ensures |s| == PUBLIC_VALUES_LEN
  {
    seq(PUBLIC_VALUES_LEN, i requires 0 <= i < PUBLIC_VALUES_LEN => if i < 8 * n then WindowByte(committed, i) else 0)
  }

  lemma SlotWritten(committed: seq<Byte>, slot: nat)
    requires 4 * slot + 4 <= |committed| && 8 * slot + 8 <= PUBLIC_VALUES_LEN
    ensures Splice(WindowUpTo(committed, slot), 8 * slot, committed[4 * slot..4 * slot + 4])
         == WindowUpTo(committed, slot + 1)
  {
    var s, t := Splice(WindowUpTo(committed, slot), 8 * slot, committed[4 * slot..4 * slot + 4]),
        WindowUpTo(committed, slot + 1);
    forall i | 0 <= i < PUBLIC_VALUES_LEN ensures s[i] == t[i] {
      if 8 * slot <= i < 8 * slot + 8 {
        assert i / 8 == slot && i % 8 == i - 8 * slot;
      }
    }
  }

  lemma WindowComplete(o: FinalizationOutput, vk: Bytes32)
    ensures WindowUpTo(Committed(o, vk), COMMITTED_LEN / 4) == PublicValues(o, vk)
  {
    var s, t := WindowUpTo(Committed(o, vk), COMMITTED_LEN / 4), PublicValues(o, vk);
    forall i | 0 <= i < PUBLIC_VALUES_LEN ensures s[i] == t[i] {
      assert i >= 416 ==> i / 8 >= 52;
    }
  }

  /** What a reader takes back out of a window: four bytes to a slot. */
  function ReadWindow(window: seq<Byte>): (s: seq<Byte>)
    requires |window| == PUBLIC_VALUES_LEN
    ensures |s| == PUBLIC_VALUES_LEN / 2
  {
    seq(PUBLIC_VALUES_LEN / 2, i requires 0 <= i < PUBLIC_VALUES_LEN / 2 => window[8 * (i / 4) + i % 4])
  }

  /** Reading recovers output then key then zeros, and the bytes not read are zero. */
  lemma WindowReadsBack(o: FinalizationOutput, vk: Bytes32)
    ensures ReadWindow(PublicValues(o, vk)) == PublicBytes(o) + GuestProgramVk(vk) + Zeros(48)
    ensures forall i | 0 <= i < PUBLIC_VALUES_LEN && i % 8 >= 4 :: PublicValues(o, vk)[i] == 0
  {
    var committed, window := Committed(o, vk), PublicValues(o, vk);
    forall i | 0 <= i < PUBLIC_VALUES_LEN / 2 ensures ReadWindow(window)[i] == (committed + Zeros(48))[i] {
      var at := 8 * (i / 4) + i % 4;
      assert at / 8 == i / 4 && at % 8 == i % 4;
      assert window[at] == WindowByte(committed, at);
    }
  }

  /** Distinct statements have distinct windows. */
  lemma PublicValuesInjective(o: FinalizationOutput, vk: Bytes32, o': FinalizationOutput, vk': Bytes32)
    requires PublicValues(o, vk) == PublicValues(o', vk')
    ensures o == o' && vk == vk'
  {
    WindowReadsBack(o, vk);
    WindowReadsBack(o', vk');
    var s := ReadWindow(PublicValues(o, vk));
    assert s[..176] == PublicBytes(o) && s[..176] == PublicBytes(o');
    assert s[176..208] == GuestProgramVk(vk) && s[176..208] == GuestProgramVk(vk');
    PublicBytesInverse(o, PublicBytes(o));
    PublicBytesInverse(o', PublicBytes(o));
    GuestProgramVkInvolution(vk);
    GuestProgramVkInvolution(vk');
  }
}
