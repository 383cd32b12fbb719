/** The two account layouts and the operations on their bytes (program/src/state.rs). */
module State {
  import opened Bytes
  import opened Errors

  const TAG_LIGHT_CLIENT: Byte := 1
  const TAG_FINALIZATION_RING: Byte := 2
  const TAG_RING_ENTRY: Byte := 3

  /** b"zkasper-state" */
  const SEED_STATE: seq<Byte> := [122, 107, 97, 115, 112, 101, 114, 45, 115, 116, 97, 116, 101]
  /** b"zkasper-ring" */
  const SEED_RING: seq<Byte> := [122, 107, 97, 115, 112, 101, 114, 45, 114, 105, 110, 103]

  // ---------------------------------------------------------------------------
  // LightClientState
  // ---------------------------------------------------------------------------

  const LIGHT_CLIENT_LEN: nat := 186

  datatype LightClientState = LightClientState(
    bump: Byte,
    authority: Bytes32,
    accumulatorCommitment: Bytes32,
    latestStateRoot: Bytes32,
    finalizedEpoch: U64,
    finalizedRoot: Bytes32,
    programVk: Bytes32,
    submissionCount: U64,
    accumulatorEpoch: U64)

  /** The 186 bytes of the layout. */
  function Pack(s: LightClientState): (data: seq<Byte>)
    ensures |data| == LIGHT_CLIENT_LEN
  {
    [TAG_LIGHT_CLIENT, s.bump] + s.authority + s.accumulatorCommitment + s.latestStateRoot + U64LE(s.finalizedEpoch)
    + s.finalizedRoot + s.programVk + U64LE(s.submissionCount) + U64LE(s.accumulatorEpoch)
  }

  function UnpackState(data: seq<Byte>): Result<LightClientState> {
    if |data| < LIGHT_CLIENT_LEN then
      Err(AccountDataTooSmall)
    else if data[0] != TAG_LIGHT_CLIENT then
      Err(WrongAccountTag)
    else
      Ok(LightClientState(data[1], data[2..34], data[34..66], data[66..98], ReadU64(data[98..106]),
                          data[106..138], data[138..170], ReadU64(data[170..178]), ReadU64(data[178..186])))
  }

  method PackInto(s: LightClientState, data: array<Byte>) returns (r: Result<()>)
    modifies data
    ensures data.Length < LIGHT_CLIENT_LEN ==> r == Err(AccountDataTooSmall) && data[..] == old(data[..])
    ensures data.Length >= LIGHT_CLIENT_LEN ==> r == Ok(()) && data[..] == Pack(s) + old(data[LIGHT_CLIENT_LEN..])
  {
    if data.Length < LIGHT_CLIENT_LEN {
      return Err(AccountDataTooSmall);
    }
    ghost var rest := data[LIGHT_CLIENT_LEN..];
    data[0] := TAG_LIGHT_CLIENT;
    data[1] := s.bump;
    assert data[..2] == [TAG_LIGHT_CLIENT, s.bump];
    Extend(data, 2, s.authority);
    Extend(data, 34, s.accumulatorCommitment);
    Extend(data, 66, s.latestStateRoot);
    Extend(data, 98, U64LE(s.finalizedEpoch));
    Extend(data, 106, s.finalizedRoot);
    Extend(data, 138, s.programVk);
    Extend(data, 170, U64LE(s.submissionCount));
    Extend(data, 178, U64LE(s.accumulatorEpoch));
    assert data[..] == data[..186] + data[186..];
    return Ok(());
  }

  /** One field written at its offset: the fields before it and the bytes after it stay. */
  method Extend(data: array<Byte>, off: nat, src: seq<Byte>)
    requires off + |src| <= LIGHT_CLIENT_LEN <= data.Length
    modifies data
    ensures data[..off + |src|] == old(data[..off]) + src
    ensures data[LIGHT_CLIENT_LEN..] == old(data[LIGHT_CLIENT_LEN..])
  {
    CopyInto(data, off, src);
  }

  lemma PackedFields(s: LightClientState, data: seq<Byte>)
    requires |data| >= LIGHT_CLIENT_LEN && data[..LIGHT_CLIENT_LEN] == Pack(s)
    ensures data[0] == TAG_LIGHT_CLIENT == 1 && data[1] == s.bump && data[2..34] == s.authority
    ensures data[34..66] == s.accumulatorCommitment && data[66..98] == s.latestStateRoot
    ensures data[98..106] == U64LE(s.finalizedEpoch) && data[106..138] == s.finalizedRoot
    ensures data[138..170] == s.programVk && data[170..178] == U64LE(s.submissionCount)
    ensures data[178..186] == U64LE(s.accumulatorEpoch)
  {
    var p := data[..LIGHT_CLIENT_LEN];
    assert data[0] == p[0] && data[1] == p[1] && data[2..34] == p[2..34] && data[34..66] == p[34..66];
    assert data[66..98] == p[66..98] && data[98..106] == p[98..106] && data[106..138] == p[106..138];
    assert data[138..170] == p[138..170] && data[170..178] == p[170..178] && data[178..186] == p[178..186];
  }

  lemma FieldsPack(data: seq<Byte>, s: LightClientState)
    requires |data| >= LIGHT_CLIENT_LEN
    requires data[0] == TAG_LIGHT_CLIENT && data[1] == s.bump && data[2..34] == s.authority
    requires data[34..66] == s.accumulatorCommitment && data[66..98] == s.latestStateRoot
    requires data[98..106] == U64LE(s.finalizedEpoch) && data[106..138] == s.finalizedRoot
    requires data[138..170] == s.programVk && data[170..178] == U64LE(s.submissionCount)
    requires data[178..186] == U64LE(s.accumulatorEpoch)
    ensures data[..LIGHT_CLIENT_LEN] == Pack(s)
  {
    assert data[..LIGHT_CLIENT_LEN]
        == [data[0], data[1]] + data[2..34] + data[34..66] + data[66..98] + data[98..106]
           + data[106..138] + data[138..170] + data[170..178] + data[178..186];
  }

  /** Unpacking reads exactly what packing wrote, whatever follows it in the account. */
  lemma UnpackStateIffPacked(data: seq<Byte>, s: LightClientState)
    requires |data| >= LIGHT_CLIENT_LEN
    ensures UnpackState(data) == Ok(s) <==> data[..LIGHT_CLIENT_LEN] == Pack(s)
  {
    if data[..LIGHT_CLIENT_LEN] == Pack(s) {
      PackedFields(s, data);
      U64RoundTrip(s.finalizedEpoch);
      U64RoundTrip(s.submissionCount);
      U64RoundTrip(s.accumulatorEpoch);
    }
    if UnpackState(data) == Ok(s) {
      U64Canonical(data[98..106]);
      U64Canonical(data[170..178]);
      U64Canonical(data[178..186]);
      FieldsPack(data, s);
    }
  }

  // ---------------------------------------------------------------------------
  // FinalizationRing
  // ---------------------------------------------------------------------------

  const RING_ENTRIES: nat := 128
  const RING_HEADER_LEN: nat := 2
  const RING_ENTRY_LEN: nat := 73
  const RING_LEN: nat := RING_HEADER_LEN + RING_ENTRIES * RING_ENTRY_LEN

  datatype FinalizationEntry = FinalizationEntry(finalizedEpoch: U64, finalizedRoot: Bytes32,
                                                 finalizedStateRoot: Bytes32)

  /** The slot an epoch owns. */
  function IndexOf(epoch: U64): (i: nat)
    ensures i < RING_ENTRIES
  {
    epoch % RING_ENTRIES
  }

  function Offset(index: nat): nat {
    RING_HEADER_LEN + index * RING_ENTRY_LEN
  }

  lemma OffsetFits(index: nat)
    requires index < RING_ENTRIES
    ensures Offset(index) + RING_ENTRY_LEN <= RING_LEN
  {
  }

  /** The 73 bytes of a written slot. */
  function EntryBytes(e: FinalizationEntry): (s: seq<Byte>)
    ensures |s| == RING_ENTRY_LEN
  {
    [TAG_RING_ENTRY] + U64LE(e.finalizedEpoch) + e.finalizedRoot + e.finalizedStateRoot
  }

  function Header(data: seq<Byte>): (r: Result<()>)
    ensures r.Ok? ==> |data| >= RING_LEN
  {
    if |data| < RING_LEN then Err(AccountDataTooSmall)
    else if data[0] != TAG_FINALIZATION_RING then Err(WrongAccountTag)
    else Ok(())
  }

  function RingBump(data: seq<Byte>): Result<Byte> {
    var header :- Header(data);
    Ok(data[1])
  }

  /** None when nothing has been written to this slot yet. */
  function Slot(data: seq<Byte>, index: nat): Option<FinalizationEntry>
    requires |data| >= RING_LEN && index < RING_ENTRIES
  {
    var at := Offset(index);
    if data[at] != TAG_RING_ENTRY then None
    else Some(FinalizationEntry(ReadU64(data[at + 1..at + 9]), data[at + 9..at + 41], data[at + 41..at + 73]))
  }

  /** The entry for `epoch`: the slot's, if the slot holds this epoch and not a congruent one. */
  function Entry(data: seq<Byte>, epoch: U64): Result<FinalizationEntry> {
    var header :- Header(data);
    match Slot(data, IndexOf(epoch))
    case Some(e) => if e.finalizedEpoch == epoch then Ok(e) else Err(EpochNotInRing)
    case None => Err(EpochNotInRing)
  }

  /** The slot is written and names `root`, compared in place. */
  predicate SlotNames(data: seq<Byte>, index: nat, root: Bytes32)
    requires |data| >= RING_LEN && index < RING_ENTRIES
  {
    var at := Offset(index);
    data[at] == TAG_RING_ENTRY && data[at + 41..at + 73] == root
  }

  /** The first slot from `index` on that names `root`. */
  function FindRoot(data: seq<Byte>, index: nat, root: Bytes32): (r: Option<nat>)
    requires |data| >= RING_LEN && index <= RING_ENTRIES
    ensures r.Some? ==> index <= r.value < RING_ENTRIES && SlotNames(data, r.value, root)
    ensures r.Some? ==> forall i: nat | index <= i < r.value :: !SlotNames(data, i, root)
    ensures r.None? ==> forall i: nat | index <= i < RING_ENTRIES :: !SlotNames(data, i, root)
    decreases RING_ENTRIES - index
  {
    if index == RING_ENTRIES then None
    else if SlotNames(data, index, root) then Some(index)
    else FindRoot(data, index + 1, root)
  }

  function EntryByStateRoot(data: seq<Byte>, root: Bytes32): Result<FinalizationEntry> {
    var header :- Header(data);
    match FindRoot(data, 0, root)
    case None => Err(StateRootNotAnchored)
    case Some(index) =>
      match Slot(data, index)
      case Some(e) => Ok(e)
      case None => Err(StateRootNotAnchored)
  }

  /** The ring after the slot this entry's epoch owns has been overwritten. */
  function RingWritten(data: seq<Byte>, e: FinalizationEntry): (r: seq<Byte>)
    requires |data| >= RING_LEN
    ensures |r| == |data|
  {
    OffsetFits(IndexOf(e.finalizedEpoch));
    Splice(data, Offset(IndexOf(e.finalizedEpoch)), EntryBytes(e))
  }

  /** A ring nothing has been written to. */
  function FreshRing(bump: Byte): (data: seq<Byte>)
    ensures |data| == RING_LEN
  {
    [TAG_FINALIZATION_RING, bump] + Zeros(RING_LEN - 2)
  }

  method RingInit(data: array<Byte>, bump: Byte) returns (r: Result<()>)
    modifies data
    ensures data.Length < RING_LEN ==> r == Err(AccountDataTooSmall) && data[..] == old(data[..])
    ensures data.Length >= RING_LEN ==> r == Ok(()) && data[..] == [TAG_FINALIZATION_RING, bump] + old(data[2..])
  {
    if data.Length < RING_LEN {
      return Err(AccountDataTooSmall);
    }
    data[0] := TAG_FINALIZATION_RING;
    data[1] := bump;
    return Ok(());
  }

  method RingWrite(data: array<Byte>, e: FinalizationEntry) returns (r: Result<()>)
    modifies data
    ensures r == Header(old(data[..]))
    ensures r.Err? ==> data[..] == old(data[..])
    ensures r.Ok? ==> data[..] == RingWritten(old(data[..]), e)
  {
    var header := Header(data[..]);
    if header.Err? {
      return header;
    }
    var at := Offset(IndexOf(e.finalizedEpoch));
    OffsetFits(IndexOf(e.finalizedEpoch));
    ghost var was := data[..];
    data[at] := TAG_RING_ENTRY;
    CopyInto(data, at + 1, U64LE(e.finalizedEpoch));
    CopyInto(data, at + 9, e.finalizedRoot);
    CopyInto(data, at + 41, e.finalizedStateRoot);
    WrittenInPieces(was, at, e, data[..]);
    return Ok(());
  }

  lemma WrittenInPieces(was: seq<Byte>, at: nat, e: FinalizationEntry, now: seq<Byte>)
    requires at + RING_ENTRY_LEN <= |was|
    requires now == Splice(Splice(Splice(was[at := TAG_RING_ENTRY], at + 1, U64LE(e.finalizedEpoch)),
                                  at + 9, e.finalizedRoot), at + 41, e.finalizedStateRoot)
    ensures now == Splice(was, at, EntryBytes(e))
  {
  }
}
