/** The ring answers for the history of accepted finalizations (program/src/state.rs, `FinalizationRing`). */
module Ring {
  import opened Bytes
  import opened Errors
  import opened State

  type History = seq<FinalizationEntry>

  /** The ring's bytes after the history has been written into a fresh ring, in order. */
  function RingAfter(bump: Byte, log: History): (data: seq<Byte>)
    ensures |data| == RING_LEN
  {
    if log == [] then FreshRing(bump)
    else RingWritten(RingAfter(bump, log[..|log| - 1]), log[|log| - 1])
  }

  /** The position of the last entry of the history whose epoch owns this slot. */
  function LastIndex(log: History, slot: nat): (k: Option<nat>)
    ensures k.Some? ==> k.value < |log| && IndexOf(log[k.value].finalizedEpoch) == slot
    ensures k.Some? ==> forall j | k.value < j < |log| :: IndexOf(log[j].finalizedEpoch) != slot
    ensures k.None? ==> forall j | 0 <= j < |log| :: IndexOf(log[j].finalizedEpoch) != slot
  {
    if log == [] then None
    else if IndexOf(log[|log| - 1].finalizedEpoch) == slot then Some(|log| - 1)
    else LastIndex(log[..|log| - 1], slot)
  }

  function LastWriter(log: History, slot: nat): Option<FinalizationEntry> {
    match LastIndex(log, slot)
    case None => None
    case Some(k) => Some(log[k])
  }

  function SlotBytes(written: Option<FinalizationEntry>): (s: seq<Byte>)
    ensures |s| == RING_ENTRY_LEN
  {
    match written
    case None => Zeros(RING_ENTRY_LEN)
    case Some(e) => EntryBytes(e)
  }

  /** The 73 bytes of a slot. */
  function SlotOf(data: seq<Byte>, slot: nat): seq<Byte>
    requires |data| >= RING_LEN && slot < RING_ENTRIES
  {
    OffsetFits(slot);
    data[Offset(slot)..Offset(slot) + RING_ENTRY_LEN]
  }

  lemma LastWriterStep(log: History, e: FinalizationEntry, slot: nat)
    ensures LastWriter(log + [e], slot) == if IndexOf(e.finalizedEpoch) == slot then Some(e) else LastWriter(log, slot)
  {
    assert (log + [e])[..|log|] == log;
    if IndexOf(e.finalizedEpoch) != slot && LastIndex(log, slot).Some? {
      assert (log + [e])[LastIndex(log, slot).value] == log[LastIndex(log, slot).value];
    }
  }

  lemma WriteTouchesOneSlot(data: seq<Byte>, e: FinalizationEntry, slot: nat)
    requires |data| == RING_LEN && slot < RING_ENTRIES
    ensures SlotOf(RingWritten(data, e), slot)
         == if IndexOf(e.finalizedEpoch) == slot then EntryBytes(e) else SlotOf(data, slot)
    ensures RingWritten(data, e)[..2] == data[..2]
  {
    var i := IndexOf(e.finalizedEpoch);
    OffsetFits(slot);
    OffsetFits(i);
    if i < slot {
      assert Offset(i) + RING_ENTRY_LEN <= Offset(slot);
    } else if slot < i {
      assert Offset(slot) + RING_ENTRY_LEN <= Offset(i);
    }
  }

  /** Byte for byte, the ring is its header and the last writer of every slot. */
  lemma {:induction false} RingIsLastWriter(bump: Byte, log: History, slot: nat)
    requires slot < RING_ENTRIES
    ensures RingAfter(bump, log)[..2] == [TAG_FINALIZATION_RING, bump]
    ensures SlotOf(RingAfter(bump, log), slot) == SlotBytes(LastWriter(log, slot))
  {
    if log == [] {
    } else {
      var front, e := log[..|log| - 1], log[|log| - 1];
      RingIsLastWriter(bump, front, slot);
      assert log == front + [e];
      LastWriterStep(front, e, slot);
      WriteTouchesOneSlot(RingAfter(bump, front), e, slot);
    }
  }

  lemma SubSlice(data: seq<Byte>, at: nat, n: nat, i: nat, j: nat)
    requires i <= j <= n && at + n <= |data|
    ensures data[at..at + n][i..j] == data[at + i..at + j]
  {
    var s := data[at..at + n];
    forall k | 0 <= k < j - i ensures s[i..j][k] == data[at + i..at + j][k] {
      assert s[i + k] == data[at + (i + k)];
    }
  }

  lemma WrittenSlotReads(data: seq<Byte>, slot: nat, e: FinalizationEntry)
    requires |data| == RING_LEN && slot < RING_ENTRIES && SlotOf(data, slot) == EntryBytes(e)
    ensures Slot(data, slot) == Some(e)
  {
    OffsetFits(slot);
    var at, s := Offset(slot), SlotOf(data, slot);
    U64RoundTrip(e.finalizedEpoch);
    assert data[at] == s[0];
    SubSlice(data, at, RING_ENTRY_LEN, 1, 9);
    SubSlice(data, at, RING_ENTRY_LEN, 9, 41);
    SubSlice(data, at, RING_ENTRY_LEN, 41, 73);
    EntryFields(e);
  }

  lemma EntryFields(e: FinalizationEntry)
    ensures var s := EntryBytes(e);
      s[0] == TAG_RING_ENTRY == 3 && s[1..9] == U64LE(e.finalizedEpoch) && s[9..41] == e.finalizedRoot
      && s[41..73] == e.finalizedStateRoot
  {
  }

  /** The header of any ring. */
  lemma RingHeaderBytes(bump: Byte, log: History)
    ensures |RingAfter(bump, log)| == 9346 && RingAfter(bump, log)[0] == 2 && RingAfter(bump, log)[1] == bump
  {
    RingIsLastWriter(bump, log, 0);
    var data := RingAfter(bump, log);
    assert data[0] == data[..2][0] && data[1] == data[..2][1];
  }

  /** An entry no later epoch is congruent to lies at 2 + 73 (epoch mod 128), field by field. */
  lemma RingEntryBytes(bump: Byte, log: History, k: nat)
    requires k < |log| && forall j | k < j < |log| :: log[j].finalizedEpoch % 128 != log[k].finalizedEpoch % 128
    ensures var data, at := RingAfter(bump, log), 2 + 73 * (log[k].finalizedEpoch % 128);
      && data[at] == 3 && data[at + 1..at + 9] == U64LE(log[k].finalizedEpoch)
      && data[at + 9..at + 41] == log[k].finalizedRoot && data[at + 41..at + 73] == log[k].finalizedStateRoot
  {
    var e, slot := log[k], log[k].finalizedEpoch % 128;
    assert IndexOf(e.finalizedEpoch) == slot && LastWriter(log, slot) == Some(e);
    RingIsLastWriter(bump, log, slot);
    SlotFields(RingAfter(bump, log), slot, e);
  }

  lemma SlotFields(data: seq<Byte>, slot: nat, e: FinalizationEntry)
    requires |data| == RING_LEN && slot < RING_ENTRIES && SlotOf(data, slot) == EntryBytes(e)
    ensures var at := 2 + 73 * slot;
      && at + 73 <= |data| && data[at] == 3 && data[at + 1..at + 9] == U64LE(e.finalizedEpoch)
      && data[at + 9..at + 41] == e.finalizedRoot && data[at + 41..at + 73] == e.finalizedStateRoot
  {
    OffsetFits(slot);
    var at := Offset(slot);
    assert data[at] == SlotOf(data, slot)[0];
    SubSlice(data, at, RING_ENTRY_LEN, 1, 9);
    SubSlice(data, at, RING_ENTRY_LEN, 9, 41);
    SubSlice(data, at, RING_ENTRY_LEN, 41, 73);
    EntryFields(e);
  }

  /** A slot no epoch was congruent to is zero. */
  lemma RingBlankBytes(bump: Byte, log: History, slot: nat)
    requires slot < 128 && forall j | 0 <= j < |log| :: log[j].finalizedEpoch % 128 != slot
    ensures RingAfter(bump, log)[2 + 73 * slot..75 + 73 * slot] == Zeros(73)
  {
    assert LastWriter(log, slot) == None;
    RingIsLastWriter(bump, log, slot);
  }

  /** Reading a slot gives its last writer. */
  lemma SlotReadsLastWriter(bump: Byte, log: History, slot: nat)
    requires slot < RING_ENTRIES
    ensures Slot(RingAfter(bump, log), slot) == LastWriter(log, slot)
    ensures Header(RingAfter(bump, log)).Ok?
  {
    var data := RingAfter(bump, log);
    RingIsLastWriter(bump, log, slot);
    assert data[0] == data[..2][0];
    match LastWriter(log, slot)
    case Some(e) => WrittenSlotReads(data, slot, e);
    case None =>
      OffsetFits(slot);
      assert data[Offset(slot)] == SlotOf(data, slot)[0];
  }

  // ---------------------------------------------------------------------------
  // Lookup by epoch
  // ---------------------------------------------------------------------------

  /** Entry k has not been overwritten: no later entry's epoch owns its slot. */
  ghost predicate InRing(log: History, k: nat)
    requires k < |log|
  {
    forall j | k < j < |log| :: IndexOf(log[j].finalizedEpoch) != IndexOf(log[k].finalizedEpoch)
  }

  ghost predicate Increasing(log: History) {
    forall i, j | 0 <= i < j < |log| :: log[i].finalizedEpoch < log[j].finalizedEpoch
  }

  lemma EntryIsLastWriter(bump: Byte, log: History, epoch: U64)
    ensures Entry(RingAfter(bump, log), epoch)
         == match LastWriter(log, IndexOf(epoch))
            case Some(e) => if e.finalizedEpoch == epoch then Ok(e) else Err(EpochNotInRing)
            case None => Err(EpochNotInRing)
  {
    SlotReadsLastWriter(bump, log, IndexOf(epoch));
  }

  /** The ring answers for an entry exactly while no later entry has taken its slot. */
  lemma EntryIffInRing(bump: Byte, log: History, k: nat)
    requires k < |log| && Increasing(log)
    ensures Entry(RingAfter(bump, log), log[k].finalizedEpoch)
         == if InRing(log, k) then Ok(log[k]) else Err(EpochNotInRing)
  {
    var epoch := log[k].finalizedEpoch;
    EntryIsLastWriter(bump, log, epoch);
    var last := LastIndex(log, IndexOf(epoch)).value;
    if last == k {
      assert InRing(log, k);
    } else {
      assert k < last;
    }
  }

  /** No answer is given for an epoch the history never accepted. */
  lemma UnknownEpoch(bump: Byte, log: History, epoch: U64)
    requires forall k | 0 <= k < |log| :: log[k].finalizedEpoch != epoch
    ensures Entry(RingAfter(bump, log), epoch) == Err(EpochNotInRing)
  {
    EntryIsLastWriter(bump, log, epoch);
  }

  /** Epochs run on from the bootstrap without a gap. */
  ghost predicate Consecutive(bootstrap: U64, log: History) {
    forall k | 0 <= k < |log| :: log[k].finalizedEpoch == bootstrap + 1 + k
  }

  lemma InWindowIffInRing(bootstrap: U64, log: History, k: nat)
    requires Consecutive(bootstrap, log) && k < |log|
    ensures InRing(log, k) <==> |log| - k <= RING_ENTRIES
  {
    if |log| - k <= RING_ENTRIES {
      forall j | k < j < |log| ensures IndexOf(log[j].finalizedEpoch) != IndexOf(log[k].finalizedEpoch) {
        assert log[j].finalizedEpoch - log[k].finalizedEpoch == j - k;
        assert 0 < j - k < RING_ENTRIES;
      }
    } else {
      var j := k + RING_ENTRIES;
      assert log[j].finalizedEpoch == log[k].finalizedEpoch + RING_ENTRIES;
      assert IndexOf(log[j].finalizedEpoch) == IndexOf(log[k].finalizedEpoch);
    }
  }

  /** The last epoch accepted, and the oldest the ring still carries. */
  function Head(bootstrap: U64, log: History): int {
    bootstrap + |log|
  }

  function Oldest(bootstrap: U64, log: History): int {
    if Head(bootstrap, log) - 127 > bootstrap + 1 then Head(bootstrap, log) - 127 else bootstrap + 1
  }

  lemma AcceptedEpoch(bump: Byte, bootstrap: U64, log: History, epoch: U64, k: nat)
    requires Consecutive(bootstrap, log) && k < |log| && epoch == bootstrap + 1 + k
    ensures Entry(RingAfter(bump, log), epoch) == if |log| - k <= RING_ENTRIES then Ok(log[k]) else Err(EpochNotInRing)
  {
    ConsecutiveIncreases(bootstrap, log);
    InWindowIffInRing(bootstrap, log, k);
    KnownEpoch(bump, log, epoch, k, |log| - k <= RING_ENTRIES);
  }

  lemma KnownEpoch(bump: Byte, log: History, epoch: U64, k: nat, recent: bool)
    requires k < |log| && Increasing(log) && log[k].finalizedEpoch == epoch && (InRing(log, k) <==> recent)
    ensures Entry(RingAfter(bump, log), epoch) == if recent then Ok(log[k]) else Err(EpochNotInRing)
  {
    EntryIffInRing(bump, log, k);
  }

  lemma ConsecutiveIncreases(bootstrap: U64, log: History)
    requires Consecutive(bootstrap, log)
    ensures Increasing(log)
  {
  }

  lemma OtherEpoch(bump: Byte, bootstrap: U64, log: History, epoch: U64)
    requires Consecutive(bootstrap, log) && !(bootstrap < epoch <= Head(bootstrap, log))
    ensures Entry(RingAfter(bump, log), epoch) == Err(EpochNotInRing)
  {
    UnknownEpoch(bump, log, epoch);
  }

  /**
   The ring is the unbounded history seen through a sliding window of 128
   epochs: inside it the history's own record, outside it a refusal, for every
   epoch a u64 can hold.
   */
  lemma RingRefinesHistory(bump: Byte, bootstrap: U64, log: History, epoch: U64)
    requires Consecutive(bootstrap, log)
    ensures Entry(RingAfter(bump, log), epoch)
         == if Oldest(bootstrap, log) <= epoch <= Head(bootstrap, log) then Ok(log[epoch - bootstrap - 1])
            else Err(EpochNotInRing)
  {
    if bootstrap < epoch <= Head(bootstrap, log) {
      AcceptedEpoch(bump, bootstrap, log, epoch, epoch - bootstrap - 1);
    } else {
      OtherEpoch(bump, bootstrap, log, epoch);
    }
  }

  // ---------------------------------------------------------------------------
  // Lookup by state root
  // ---------------------------------------------------------------------------

  lemma SlotNamesLastWriter(bump: Byte, log: History, slot: nat, root: Bytes32)
    requires slot < RING_ENTRIES
    ensures SlotNames(RingAfter(bump, log), slot, root)
       <==> LastWriter(log, slot).Some? && LastWriter(log, slot).value.finalizedStateRoot == root
  {
    SlotReadsLastWriter(bump, log, slot);
  }

  /** The scan's answer is some record still in the ring, and the ring answers for its epoch with it too. */
  lemma FoundRootIsGenuine(bump: Byte, log: History, root: Bytes32, e: FinalizationEntry)
    requires EntryByStateRoot(RingAfter(bump, log), root) == Ok(e)
    ensures e.finalizedStateRoot == root
    ensures exists k: nat | k < |log| :: log[k] == e && InRing(log, k)
    ensures Entry(RingAfter(bump, log), e.finalizedEpoch) == Ok(e)
  {
    var data := RingAfter(bump, log);
    SlotReadsLastWriter(bump, log, 0);
    var slot := FindRoot(data, 0, root).value;
    SlotReadsLastWriter(bump, log, slot);
    SlotNamesLastWriter(bump, log, slot, root);
    var k := LastIndex(log, slot).value;
    assert log[k] == e && InRing(log, k);
    EntryIsLastWriter(bump, log, e.finalizedEpoch);
  }

  /** The scan refuses exactly when no record in the ring names the root; its last `ok_or` never fires. */
  lemma RootFoundIffInRing(bump: Byte, log: History, root: Bytes32)
    ensures EntryByStateRoot(RingAfter(bump, log), root).Ok?
       <==> exists k: nat | k < |log| :: InRing(log, k) && log[k].finalizedStateRoot == root
    ensures EntryByStateRoot(RingAfter(bump, log), root).Err? ==>
              EntryByStateRoot(RingAfter(bump, log), root) == Err(StateRootNotAnchored)
              && FindRoot(RingAfter(bump, log), 0, root).None?
  {
    var data := RingAfter(bump, log);
    SlotReadsLastWriter(bump, log, 0);
    if FindRoot(data, 0, root).Some? {
      var slot := FindRoot(data, 0, root).value;
      SlotReadsLastWriter(bump, log, slot);
      FoundRootIsGenuine(bump, log, root, LastWriter(log, slot).value);
    }
    forall k: nat | k < |log| && InRing(log, k) && log[k].finalizedStateRoot == root
      ensures FindRoot(data, 0, root).Some?
    {
      RecordInRingIsFound(bump, log, k);
    }
  }

  lemma RecordInRingIsFound(bump: Byte, log: History, k: nat)
    requires k < |log| && InRing(log, k)
    ensures FindRoot(RingAfter(bump, log), 0, log[k].finalizedStateRoot).Some?
  {
    var slot := IndexOf(log[k].finalizedEpoch);
    SlotNamesLastWriter(bump, log, slot, log[k].finalizedStateRoot);
    assert LastIndex(log, slot).value == k;
  }

  ghost predicate DistinctRoots(log: History) {
    forall i, j | 0 <= i < j < |log| :: log[i].finalizedStateRoot != log[j].finalizedStateRoot
  }

  /** When no two records share a state root, the scan finds the one record that names it. */
  lemma DistinctRootsFound(bump: Byte, log: History, k: nat)
    requires k < |log| && InRing(log, k) && DistinctRoots(log)
    ensures EntryByStateRoot(RingAfter(bump, log), log[k].finalizedStateRoot) == Ok(log[k])
  {
    var root := log[k].finalizedStateRoot;
    RootFoundIffInRing(bump, log, root);
    var e := EntryByStateRoot(RingAfter(bump, log), root).value;
    FoundRootIsGenuine(bump, log, root, e);
  }
}
