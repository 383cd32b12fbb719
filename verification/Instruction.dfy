/** Instruction encoding: the decoder and the client-side builders (program/src/instruction.rs). */
module Instruction {
  import opened Bytes
  import opened Errors
  import opened Wire
  import opened Compression

  const IX_INITIALIZE: Byte := 0
  const IX_SUBMIT_FINALIZATION: Byte := 1
  const IX_ASSERT_FINALIZED: Byte := 2
  const IX_ASSERT_ANCHORED: Byte := 3
  const IX_VERIFY_ONLY: Byte := 4

  const INITIALIZE_LEN: nat := 1 + 32 + 32 + 8 + 32 + 32
  const SUBMIT_FINALIZATION_LEN: nat := 1 + COMPRESSED_PROOF_LEN + FINALIZATION_PUBLIC_BYTES
  const ASSERT_FINALIZED_LEN: nat := 1 + 32 + 8 + 32
  const ASSERT_ANCHORED_LEN: nat := 1 + 32 + 32

  type CompressedProof = s: seq<Byte> | |s| == COMPRESSED_PROOF_LEN witness Zeros(COMPRESSED_PROOF_LEN)

  datatype ZkasperInstruction =
    | Initialize(accumulatorCommitment: Bytes32, latestStateRoot: Bytes32, finalizedEpoch: U64,
                 finalizedRoot: Bytes32, programVk: Bytes32)
    | SubmitFinalization(proof: CompressedProof, output: FinalizationOutput)
    | AssertFinalized(authority: Bytes32, epoch: U64, root: Bytes32)
    | AssertAnchored(authority: Bytes32, stateRoot: Bytes32)
    | VerifyOnly(proof: CompressedProof, output: FinalizationOutput)

  /** n bytes from off on, when the data reaches that far. */
  function Split(data: seq<Byte>, off: nat, n: nat): (r: Result<seq<Byte>>)
    ensures r.Ok? ==> |r.value| == n
  {
    if off + n <= |data| then Ok(data[off..off + n]) else Err(InvalidInstructionData)
  }

  function Unpack(data: seq<Byte>): Result<ZkasperInstruction> {
    if data == [] then
      Err(InvalidInstructionData)
    else
      var tag := data[0];
      if tag == IX_INITIALIZE then
        if |data| != INITIALIZE_LEN then
          Err(InvalidInstructionData)
        else
          var accumulator :- Split(data, 1, 32);
          var stateRoot :- Split(data, 33, 32);
          var epoch :- Split(data, 65, 8);
          var root :- Split(data, 73, 32);
          var vk :- Split(data, 105, 32);
          Ok(Initialize(accumulator, stateRoot, ReadU64(epoch), root, vk))
      else if tag == IX_SUBMIT_FINALIZATION || tag == IX_VERIFY_ONLY then
        if |data| != SUBMIT_FINALIZATION_LEN then
          Err(InvalidInstructionData)
        else
          var proof :- Split(data, 1, COMPRESSED_PROOF_LEN);
          var bytes :- Split(data, 1 + COMPRESSED_PROOF_LEN, FINALIZATION_PUBLIC_BYTES);
          var output := FromPublicBytes(bytes);
          if tag == IX_VERIFY_ONLY then Ok(VerifyOnly(proof, output)) else Ok(SubmitFinalization(proof, output))
      else if tag == IX_ASSERT_FINALIZED then
        if |data| != ASSERT_FINALIZED_LEN then
          Err(InvalidInstructionData)
        else
          var authority :- Split(data, 1, 32);
          var epoch :- Split(data, 33, 8);
          var root :- Split(data, 41, 32);
          Ok(AssertFinalized(authority, ReadU64(epoch), root))
      else if tag == IX_ASSERT_ANCHORED then
        if |data| != ASSERT_ANCHORED_LEN then
          Err(InvalidInstructionData)
        else
          var authority :- Split(data, 1, 32);
          var stateRoot :- Split(data, 33, 32);
          Ok(AssertAnchored(authority, stateRoot))
      else
        Err(InvalidInstructionData)
  }

  /** The data each builder writes. */
  function Encode(ix: ZkasperInstruction): seq<Byte> {
    match ix
    case Initialize(accumulator, stateRoot, epoch, root, vk) =>
      [IX_INITIALIZE] + accumulator + stateRoot + U64LE(epoch) + root + vk
    case SubmitFinalization(proof, output) =>
      [IX_SUBMIT_FINALIZATION] + proof + PublicBytes(output)
    case AssertFinalized(authority, epoch, root) =>
      [IX_ASSERT_FINALIZED] + authority + U64LE(epoch) + root
    case AssertAnchored(authority, stateRoot) =>
      [IX_ASSERT_ANCHORED] + authority + stateRoot
    case VerifyOnly(proof, output) =>
      [IX_VERIFY_ONLY] + proof + PublicBytes(output)
  }

  // ---------------------------------------------------------------------------
  // Builders
  // ---------------------------------------------------------------------------

  method InitializeData(accumulator: Bytes32, stateRoot: Bytes32, epoch: U64, root: Bytes32, vk: Bytes32)
    returns (data: seq<Byte>)
    ensures Unpack(data) == Ok(Initialize(accumulator, stateRoot, epoch, root, vk))
    ensures data == Encode(Initialize(accumulator, stateRoot, epoch, root, vk))
  {
    data := [IX_INITIALIZE];
    data := data + accumulator;
    data := data + stateRoot;
    data := data + U64LE(epoch);
    data := data + root;
    data := data + vk;
    UnpackEncode(Initialize(accumulator, stateRoot, epoch, root, vk));
  }

  method SubmitFinalizationData(proof: CompressedProof, output: FinalizationOutput) returns (data: seq<Byte>)
    ensures Unpack(data) == Ok(SubmitFinalization(proof, output))
    ensures data == Encode(SubmitFinalization(proof, output))
  {
    data := [IX_SUBMIT_FINALIZATION];
    data := data + proof;
    var bytes := BuildPublicBytes(output);
    data := data + bytes[..];
    UnpackEncode(SubmitFinalization(proof, output));
  }

  method AssertFinalizedData(authority: Bytes32, epoch: U64, root: Bytes32) returns (data: seq<Byte>)
    ensures Unpack(data) == Ok(AssertFinalized(authority, epoch, root))
    ensures data == Encode(AssertFinalized(authority, epoch, root))
  {
    data := [IX_ASSERT_FINALIZED];
    data := data + authority;
    data := data + U64LE(epoch);
    data := data + root;
    UnpackEncode(AssertFinalized(authority, epoch, root));
  }

  method AssertAnchoredData(authority: Bytes32, stateRoot: Bytes32) returns (data: seq<Byte>)
    ensures Unpack(data) == Ok(AssertAnchored(authority, stateRoot))
    ensures data == Encode(AssertAnchored(authority, stateRoot))
  {
    data := [IX_ASSERT_ANCHORED];
    data := data + authority;
    data := data + stateRoot;
    UnpackEncode(AssertAnchored(authority, stateRoot));
  }

  method VerifyOnlyData(proof: CompressedProof, output: FinalizationOutput) returns (data: seq<Byte>)
    ensures Unpack(data) == Ok(VerifyOnly(proof, output))
    ensures data == Encode(VerifyOnly(proof, output))
  {
    data := [IX_VERIFY_ONLY];
    data := data + proof;
    var bytes := BuildPublicBytes(output);
    data := data + bytes[..];
    UnpackEncode(VerifyOnly(proof, output));
  }

  // ---------------------------------------------------------------------------
  // The codec is a bijection onto what it accepts
  // ---------------------------------------------------------------------------

  lemma InitializeFields(ix: ZkasperInstruction, data: seq<Byte>)
    requires ix.Initialize? && data == Encode(ix)
    ensures |data| == INITIALIZE_LEN && data[0] == IX_INITIALIZE
    ensures data[1..33] == ix.accumulatorCommitment && data[33..65] == ix.latestStateRoot
    ensures data[65..73] == U64LE(ix.finalizedEpoch) && data[73..105] == ix.finalizedRoot
    ensures data[105..137] == ix.programVk
  {
  }

  lemma UnpackEncodeInitialize(ix: ZkasperInstruction)
    requires ix.Initialize?
    ensures Unpack(Encode(ix)) == Ok(ix)
  {
    InitializeFields(ix, Encode(ix));
    U64RoundTrip(ix.finalizedEpoch);
  }

  lemma UnpackEncodeAssertion(ix: ZkasperInstruction)
    requires ix.AssertFinalized? || ix.AssertAnchored?
    ensures Unpack(Encode(ix)) == Ok(ix)
  {
    var data := Encode(ix);
    assert data[1..33] == ix.authority;
    if ix.AssertFinalized? {
      assert data[33..41] == U64LE(ix.epoch) && data[41..73] == ix.root;
      U64RoundTrip(ix.epoch);
    } else {
      assert data[33..65] == ix.stateRoot;
    }
  }

  lemma UnpackEncodeProof(ix: ZkasperInstruction)
    requires ix.SubmitFinalization? || ix.VerifyOnly?
    ensures Unpack(Encode(ix)) == Ok(ix)
  {
    var data := Encode(ix);
    assert data[1..481] == ix.proof && data[481..657] == PublicBytes(ix.output);
    PublicBytesInverse(ix.output, PublicBytes(ix.output));
  }

  lemma UnpackEncode(ix: ZkasperInstruction)
    ensures Unpack(Encode(ix)) == Ok(ix)
  {
    match ix
    case Initialize(_, _, _, _, _) => UnpackEncodeInitialize(ix);
    case SubmitFinalization(_, _) => UnpackEncodeProof(ix);
    case VerifyOnly(_, _) => UnpackEncodeProof(ix);
    case AssertFinalized(_, _, _) => UnpackEncodeAssertion(ix);
    case AssertAnchored(_, _) => UnpackEncodeAssertion(ix);
  }

  lemma EncodeUnpackInitialize(data: seq<Byte>)
    requires |data| == INITIALIZE_LEN && data[0] == IX_INITIALIZE
    ensures Unpack(data).Ok? && Encode(Unpack(data).value) == data
  {
    U64Canonical(data[65..73]);
    assert data == data[..1] + data[1..33] + data[33..65] + data[65..73] + data[73..105] + data[105..137];
  }

  lemma EncodeUnpackFinalized(data: seq<Byte>)
    requires |data| == ASSERT_FINALIZED_LEN && data[0] == IX_ASSERT_FINALIZED
    ensures Unpack(data).Ok? && Encode(Unpack(data).value) == data
  {
    U64Canonical(data[33..41]);
    assert data == data[..1] + data[1..33] + data[33..41] + data[41..73];
  }

  lemma EncodeUnpackAnchored(data: seq<Byte>)
    requires |data| == ASSERT_ANCHORED_LEN && data[0] == IX_ASSERT_ANCHORED
    ensures Unpack(data).Ok? && Encode(Unpack(data).value) == data
  {
    assert data == data[..1] + data[1..33] + data[33..65];
  }

  lemma EncodeUnpackProof(data: seq<Byte>)
    requires |data| == SUBMIT_FINALIZATION_LEN && (data[0] == IX_SUBMIT_FINALIZATION || data[0] == IX_VERIFY_ONLY)
    ensures Unpack(data).Ok? && Encode(Unpack(data).value) == data
  {
    PublicBytesInverse(FromPublicBytes(data[481..657]), data[481..657]);
    assert data == data[..1] + data[1..481] + data[481..657];
  }

  /** Which byte is the tag and which range is which argument, instruction by instruction. */
  lemma EncodedFields(ix: ZkasperInstruction, data: seq<Byte>)
    requires data == Encode(ix)
    ensures ix.Initialize? ==>
              && |data| == 137 && data[0] == 0
              && data[1..33] == ix.accumulatorCommitment && data[33..65] == ix.latestStateRoot
              && data[65..73] == U64LE(ix.finalizedEpoch) && data[73..105] == ix.finalizedRoot
              && data[105..] == ix.programVk
    ensures ix.SubmitFinalization? ==>
              && |data| == 657 && data[0] == 1 && data[1..481] == ix.proof && data[481..] == PublicBytes(ix.output)
    ensures ix.AssertFinalized? ==>
              && |data| == 73 && data[0] == 2
              && data[1..33] == ix.authority && data[33..41] == U64LE(ix.epoch) && data[41..] == ix.root
    ensures ix.AssertAnchored? ==>
              |data| == 65 && data[0] == 3 && data[1..33] == ix.authority && data[33..] == ix.stateRoot
    ensures ix.VerifyOnly? ==>
              && |data| == 657 && data[0] == 4 && data[1..481] == ix.proof && data[481..] == PublicBytes(ix.output)
  {
  }

  /** Data is refused, always with one error, exactly when it is no instruction's encoding. */
  lemma RefusedIffNoEncoding(data: seq<Byte>)
    ensures Unpack(data) == Err(InvalidInstructionData) <==> forall ix: ZkasperInstruction :: data != Encode(ix)
  {
    if Unpack(data).Ok? {
      UnpackIffEncoding(data, Unpack(data).value);
    } else {
      forall ix: ZkasperInstruction ensures data != Encode(ix) {
        UnpackIffEncoding(data, ix);
      }
    }
  }

  /** Data decodes to an instruction exactly when it is that instruction's builder encoding. */
  lemma UnpackIffEncoding(data: seq<Byte>, ix: ZkasperInstruction)
    ensures Unpack(data) == Ok(ix) <==> data == Encode(ix)
  {
    UnpackEncode(ix);
    if Unpack(data) == Ok(ix) {
      if data[0] == IX_INITIALIZE {
        EncodeUnpackInitialize(data);
      } else if data[0] == IX_SUBMIT_FINALIZATION || data[0] == IX_VERIFY_ONLY {
        EncodeUnpackProof(data);
      } else if data[0] == IX_ASSERT_FINALIZED {
        EncodeUnpackFinalized(data);
      } else {
        EncodeUnpackAnchored(data);
      }
    }
  }
}
