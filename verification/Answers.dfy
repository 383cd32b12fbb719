/**
 What a transaction is answered with in every reachable state: from the bytes it
 carries and the accounts it names to the error, or to the ledger it leaves
 (program/src/processor.rs, `process_instruction`).
 */
module Answers {
  import opened Bytes
  import opened Errors
  import opened State
  import opened Ring
  import opened Wire
  import opened Instruction
  import opened Runtime
  import opened Processor
  import opened World
  import opened Invariant
  import opened Verdicts

  // ---------------------------------------------------------------------------
  // Before any handler
  // ---------------------------------------------------------------------------

  lemma Decoded(ctx: Context, w: Ledger, metas: seq<Meta>, data: seq<Byte>, ix: ZkasperInstruction)
    requires data == Encode(ix)
    ensures Process(ctx, w, metas, data) == Dispatched(ctx, w, metas, ix)
  {
    UnpackEncode(ix);
  }

  /** Data that encodes no instruction is refused, whatever the accounts. */
  lemma MalformedAnswer(ctx: Context, w: Ledger, metas: seq<Meta>, data: seq<Byte>)
    requires forall ix: ZkasperInstruction :: data != Encode(ix)
    ensures Process(ctx, w, metas, data) == Err(InvalidInstructionData)
  {
    RefusedIffNoEncoding(data);
  }

  /** So is a transaction that names too few accounts. */
  lemma TooFewAccounts(ctx: Context, w: Ledger, metas: seq<Meta>, data: seq<Byte>, ix: ZkasperInstruction)
    requires data == Encode(ix)
    requires |metas| < if ix.Initialize? then 4 else if ix.SubmitFinalization? then 2 else 1
    ensures Process(ctx, w, metas, data) == Err(NotEnoughAccountKeys)
  {
    Decoded(ctx, w, metas, data, ix);
  }

  // ---------------------------------------------------------------------------
  // On any ledger at all, from the bytes of the accounts
  // ---------------------------------------------------------------------------

  /** What is wrong with an account offered as an authority's ring, if anything. */
  function RingFault(ctx: Context, key: Pubkey, account: Account, a: Pubkey): Option<Error> {
    if account.owner != ctx.programId then Some(InvalidRingAccount)
    else if |account.data| < 9346 then Some(AccountDataTooSmall)
    else if account.data[0] != 2 then Some(WrongAccountTag)
    else if ctx.derive(RingSeed(a, account.data[1])) != Some(key) then Some(InvalidRingAccount)
    else None
  }

  lemma ExpectRingIsFault(ctx: Context, key: Pubkey, account: Account, a: Pubkey)
    ensures var fault := RingFault(ctx, key, account, a);
      ExpectRing(ctx, key, account, a) == if fault.Some? then Err(fault.value) else Ok(())
  {
  }

  /** What is wrong with the bytes of an account offered as a state, before its address is looked at. */
  function StateFault(ctx: Context, account: Account): Option<Error> {
    if account.owner != ctx.programId then Some(InvalidStateAccount)
    else if |account.data| < 186 then Some(AccountDataTooSmall)
    else if account.data[0] != 1 then Some(WrongAccountTag)
    else None
  }

  /** The byte of the ring its epoch's slot begins at. */
  function SlotAt(epoch: U64): nat {
    2 + 73 * (epoch % 128)
  }

  /** `assert_finalized` reads the ring account's own bytes and nothing else. */
  lemma FinalizedOnAnyLedger(ctx: Context, w: Ledger, metas: seq<Meta>, data: seq<Byte>, a: Pubkey, epoch: U64,
                             root: Bytes32)
    requires |metas| >= 1 && data == Encode(AssertFinalized(a, epoch, root))
    ensures var key, at := metas[0].key, SlotAt(epoch);
      var ring, fault := Get(w, key), RingFault(ctx, key, Get(w, key), a);
      var answer := Process(ctx, w, metas, data);
      if fault.Some? then answer == Err(fault.value)
      else if ring.data[at] != 3 || ReadU64(ring.data[at + 1..at + 9]) != epoch then answer == Err(EpochNotInRing)
      else if ring.data[at + 9..at + 41] != root then answer == Err(CheckpointNotFinalized)
      else answer == Ok(w)
  {
    var key := metas[0].key;
    Decoded(ctx, w, metas, data, AssertFinalized(a, epoch, root));
    ExpectRingIsFault(ctx, key, Get(w, key), a);
    OffsetFits(IndexOf(epoch));
  }

  /** `assert_anchored` succeeds exactly when some written slot of the account names the root. */
  lemma AnchoredOnAnyLedger(ctx: Context, w: Ledger, metas: seq<Meta>, data: seq<Byte>, a: Pubkey, root: Bytes32)
    requires |metas| >= 1 && data == Encode(AssertAnchored(a, root))
    ensures var key := metas[0].key;
      var ring, fault := Get(w, key), RingFault(ctx, key, Get(w, key), a);
      var answer := Process(ctx, w, metas, data);
      if fault.Some? then answer == Err(fault.value)
      else answer == if NamesRoot(ring.data, root) then Ok(w) else Err(StateRootNotAnchored)
  {
    var key := metas[0].key;
    Decoded(ctx, w, metas, data, AssertAnchored(a, root));
    ExpectRingIsFault(ctx, key, Get(w, key), a);
    if RingFault(ctx, key, Get(w, key), a).None? {
      ScanFinds(Get(w, key).data, root);
    }
  }

  /** A slot of a ring is written and names the root. */
  ghost predicate NamesRoot(ring: seq<Byte>, root: Bytes32)
    requires |ring| >= 9346
  {
    exists slot: nat | slot < 128 :: ring[SlotAt(slot)] == 3 && ring[SlotAt(slot) + 41..SlotAt(slot) + 73] == root
  }

  lemma ScanFinds(ring: seq<Byte>, root: Bytes32)
    requires |ring| >= 9346 && ring[0] == 2
    ensures EntryByStateRoot(ring, root).Ok? <==> NamesRoot(ring, root)
    ensures EntryByStateRoot(ring, root).Err? ==> EntryByStateRoot(ring, root).error == StateRootNotAnchored
  {
    var found := FindRoot(ring, 0, root);
    forall slot: nat | slot < 128
      ensures SlotNames(ring, slot, root) <==>
                ring[SlotAt(slot)] == 3 && ring[SlotAt(slot) + 41..SlotAt(slot) + 73] == root
    {
      assert SlotAt(slot) == Offset(slot);
    }
    if found.Some? {
      assert SlotNames(ring, found.value, root);
    }
  }

  /** `verify_only` reads the key from bytes 138 to 170 of the account and checks no address. */
  lemma VerifyOnlyOnAnyLedger(ctx: Context, w: Ledger, metas: seq<Meta>, data: seq<Byte>, proof: CompressedProof,
                              o: FinalizationOutput)
    requires |metas| >= 1 && data == Encode(VerifyOnly(proof, o))
    ensures var state := Get(w, metas[0].key);
      var fault, answer := StateFault(ctx, state), Process(ctx, w, metas, data);
      if fault.Some? then answer == Err(fault.value)
      else answer == if ctx.verify(proof, state.data[138..170], o) then Ok(w) else Err(ProofVerificationFailed)
  {
    Decoded(ctx, w, metas, data, VerifyOnly(proof, o));
  }

  /** `submit_finalization`: every refusal in its order, each from the bytes it is about. */
  lemma SubmitOnAnyLedger(ctx: Context, w: Ledger, metas: seq<Meta>, data: seq<Byte>, proof: CompressedProof,
                          o: FinalizationOutput)
    requires |metas| >= 2 && data == Encode(SubmitFinalization(proof, o))
    ensures var key, s := metas[0].key, Get(w, metas[0].key).data;
      var fault, answer := StateFault(ctx, Get(w, key)), Process(ctx, w, metas, data);
      if fault.Some? then answer == Err(fault.value)
      else if ctx.derive(StateSeed(s[2..34], s[1])) != Some(key) then answer == Err(InvalidStateAccount)
      else if o.finalizedEpoch <= ReadU64(s[98..106]) then answer == Err(EpochNotAdvancing)
      else if o.finalizedEpoch != ReadU64(s[178..186]) then answer == Err(AccumulatorEpochMismatch)
      else if o.accumulatorCommitment != s[34..66] then answer == Err(AccumulatorMismatch)
      else
        var ringFault := RingFault(ctx, metas[1].key, Get(w, metas[1].key), s[2..34]);
        if ringFault.Some? then answer == Err(ringFault.value)
        else if !ctx.verify(proof, s[138..170], o) then answer == Err(ProofVerificationFailed)
        else if ReadU64(s[170..178]) == 0xffff_ffff_ffff_ffff then answer == Err(ArithmeticOverflow)
        else answer.Ok?
  {
    Decoded(ctx, w, metas, data, SubmitFinalization(proof, o));
    var s := Get(w, metas[0].key).data;
    if |s| >= 186 {
      ExpectRingIsFault(ctx, metas[1].key, Get(w, metas[1].key), s[2..34]);
    }
  }

  // ---------------------------------------------------------------------------
  // Whose account it is
  // ---------------------------------------------------------------------------

  /** The account is the authority's own ring. */
  predicate OwnsRingAt(ctx: Context, s: System, a: Pubkey, key: Pubkey) {
    a in s.clients && RingAddress(ctx, a).Some? && RingAddress(ctx, a).value.0 == key
  }

  lemma RefusedRing(ctx: Context, run: seq<System>, i: nat, a: Pubkey, key: Pubkey)
    requires Sane(ctx) && Run(ctx, run) && i < |run| && !OwnsRingAt(ctx, run[i], a, key)
    ensures RingFault(ctx, key, Get(run[i].world, key), a).Some?
  {
    RunKeeps(ctx, run, i);
    ExpectRingIsFault(ctx, key, Get(run[i].world, key), a);
    OtherAccountsRefused(ctx, run[i], key, a);
  }

  /** The account is no client's state. */
  ghost predicate NobodysState(ctx: Context, s: System, key: Pubkey) {
    forall a: Pubkey | a in s.clients :: !OwnsStateAt(ctx, a, key)
  }

  lemma NotAState(ctx: Context, run: seq<System>, i: nat, key: Pubkey)
    requires Sane(ctx) && Run(ctx, run) && i < |run| && NobodysState(ctx, run[i], key)
    ensures StateFault(ctx, Get(run[i].world, key)).Some?
  {
    RunKeeps(ctx, run, i);
    if StateFault(ctx, Get(run[i].world, key)).None? {
      var a := TaggedState(ctx, run[i], key);
      assert OwnsStateAt(ctx, a, key);
      assert false;
    }
  }

  // ---------------------------------------------------------------------------
  // assert_finalized
  // ---------------------------------------------------------------------------

  lemma FinalizedDispatched(ctx: Context, w: Ledger, metas: seq<Meta>, data: seq<Byte>, a: Pubkey, epoch: U64,
                            root: Bytes32)
    requires |metas| >= 1 && data == Encode(AssertFinalized(a, epoch, root))
    ensures var asserted := FinalizedAsserted(ctx, metas[0].key, Get(w, metas[0].key), a, epoch, root);
      Process(ctx, w, metas, data) == if asserted.Ok? then Ok(w) else Err(asserted.error)
  {
    Decoded(ctx, w, metas, data, AssertFinalized(a, epoch, root));
  }

  /** An accepted epoch is answered by its own record until a later one takes its slot. */
  lemma FinalizedAnswer(ctx: Context, run: seq<System>, i: nat, a: Pubkey, k: nat, root: Bytes32, metas: seq<Meta>,
                        data: seq<Byte>)
    requires Sane(ctx) && Run(ctx, run) && i < |run| && a in run[i].clients && k < |run[i].clients[a].accepted|
    requires |metas| >= 1 && OwnsRingAt(ctx, run[i], a, metas[0].key)
    requires data == Encode(AssertFinalized(a, run[i].clients[a].accepted[k].output.finalizedEpoch, root))
    ensures var c := run[i].clients[a];
      Process(ctx, run[i].world, metas, data)
      == if !InRing(HistoryOf(c.accepted), k) then Err(EpochNotInRing)
         else if c.accepted[k].output.finalizedRoot == root then Ok(run[i].world)
         else Err(CheckpointNotFinalized)
  {
    FinalizedDispatched(ctx, run[i].world, metas, data, a, run[i].clients[a].accepted[k].output.finalizedEpoch, root);
    AssertFinalizedAccepted(ctx, run, i, a, k, root, metas[0].key);
  }

  /** An epoch never accepted is not in the ring. */
  lemma UnknownEpochAnswer(ctx: Context, run: seq<System>, i: nat, a: Pubkey, epoch: U64, root: Bytes32,
                           metas: seq<Meta>, data: seq<Byte>)
    requires Sane(ctx) && Run(ctx, run) && i < |run| && |metas| >= 1 && OwnsRingAt(ctx, run[i], a, metas[0].key)
    requires forall k: nat | k < |run[i].clients[a].accepted| ::
         run[i].clients[a].accepted[k].output.finalizedEpoch != epoch
    requires data == Encode(AssertFinalized(a, epoch, root))
    ensures Process(ctx, run[i].world, metas, data) == Err(EpochNotInRing)
  {
    FinalizedDispatched(ctx, run[i].world, metas, data, a, epoch, root);
    AssertFinalizedUnknown(ctx, run, i, a, epoch, root, metas[0].key);
  }

  /** Without a gap, every epoch is answered by the history's window. */
  lemma WindowAnswer(ctx: Context, run: seq<System>, i: nat, a: Pubkey, epoch: U64, root: Bytes32,
                     metas: seq<Meta>, data: seq<Byte>)
    requires Sane(ctx) && Run(ctx, run) && i < |run| && |metas| >= 1 && OwnsRingAt(ctx, run[i], a, metas[0].key)
    requires AdjacentBelow(run[i].clients[a], |run[i].clients[a].accepted| - 1)
    requires data == Encode(AssertFinalized(a, epoch, root))
    ensures var verdict := FinalizedVerdict(run[i].clients[a], epoch, root);
      Process(ctx, run[i].world, metas, data) == if verdict.Ok? then Ok(run[i].world) else Err(verdict.error)
  {
    FinalizedDispatched(ctx, run[i].world, metas, data, a, epoch, root);
    AssertFinalizedVerdict(ctx, run, i, a, epoch, root, metas[0].key);
  }

  /** No other account is believed, and what is wrong with it is said. */
  lemma ForeignFinalizedAnswer(ctx: Context, run: seq<System>, i: nat, a: Pubkey, epoch: U64, root: Bytes32,
                               metas: seq<Meta>, data: seq<Byte>)
    requires Sane(ctx) && Run(ctx, run) && i < |run| && |metas| >= 1 && !OwnsRingAt(ctx, run[i], a, metas[0].key)
    requires data == Encode(AssertFinalized(a, epoch, root))
    ensures var fault := RingFault(ctx, metas[0].key, Get(run[i].world, metas[0].key), a);
      fault.Some? && Process(ctx, run[i].world, metas, data) == Err(fault.value)
  {
    RefusedRing(ctx, run, i, a, metas[0].key);
    FinalizedOnAnyLedger(ctx, run[i].world, metas, data, a, epoch, root);
  }

  // ---------------------------------------------------------------------------
  // assert_anchored
  // ---------------------------------------------------------------------------

  lemma AnchoredDispatched(ctx: Context, w: Ledger, metas: seq<Meta>, data: seq<Byte>, a: Pubkey, root: Bytes32)
    requires |metas| >= 1 && data == Encode(AssertAnchored(a, root))
    ensures var asserted := AnchoredAsserted(ctx, metas[0].key, Get(w, metas[0].key), a, root);
      Process(ctx, w, metas, data) == if asserted.Ok? then Ok(w) else Err(asserted.error)
  {
    Decoded(ctx, w, metas, data, AssertAnchored(a, root));
  }

  /** A state root is answered for exactly while a record in the ring names it. */
  lemma AnchoredAnswer(ctx: Context, run: seq<System>, i: nat, a: Pubkey, root: Bytes32, metas: seq<Meta>,
                       data: seq<Byte>)
    requires Sane(ctx) && Run(ctx, run) && i < |run| && |metas| >= 1 && OwnsRingAt(ctx, run[i], a, metas[0].key)
    requires data == Encode(AssertAnchored(a, root))
    ensures Process(ctx, run[i].world, metas, data)
         == if NamedInRing(run[i].clients[a], root) then Ok(run[i].world) else Err(StateRootNotAnchored)
  {
    AnchoredDispatched(ctx, run[i].world, metas, data, a, root);
    AssertAnchoredInRing(ctx, run, i, a, root, metas[0].key);
  }

  lemma ForeignAnchoredAnswer(ctx: Context, run: seq<System>, i: nat, a: Pubkey, root: Bytes32, metas: seq<Meta>,
                              data: seq<Byte>)
    requires Sane(ctx) && Run(ctx, run) && i < |run| && |metas| >= 1 && !OwnsRingAt(ctx, run[i], a, metas[0].key)
    requires data == Encode(AssertAnchored(a, root))
    ensures var fault := RingFault(ctx, metas[0].key, Get(run[i].world, metas[0].key), a);
      fault.Some? && Process(ctx, run[i].world, metas, data) == Err(fault.value)
  {
    RefusedRing(ctx, run, i, a, metas[0].key);
    AnchoredOnAnyLedger(ctx, run[i].world, metas, data, a, root);
  }

  // ---------------------------------------------------------------------------
  // verify_only
  // ---------------------------------------------------------------------------

  /** On a client's state, exactly the verdict on the proof under its pinned key. */
  lemma VerifyOnlyAnswer(ctx: Context, run: seq<System>, i: nat, a: Pubkey, proof: CompressedProof,
                         o: FinalizationOutput, metas: seq<Meta>, data: seq<Byte>)
    requires Sane(ctx) && Run(ctx, run) && i < |run| && a in run[i].clients
    requires |metas| >= 1 && OwnsStateAt(ctx, a, metas[0].key) && data == Encode(VerifyOnly(proof, o))
    ensures Process(ctx, run[i].world, metas, data)
         == if ctx.verify(proof, run[i].clients[a].bootstrap.vk, o) then Ok(run[i].world)
            else Err(ProofVerificationFailed)
  {
    Decoded(ctx, run[i].world, metas, data, VerifyOnly(proof, o));
    ReachableHolds(ctx, run, i, a);
    VerifiedOnlyOf(ctx, run[i].world, a, run[i].clients[a], metas[0].key, proof, o);
  }

  /** On any other account, what is wrong with it. */
  lemma ForeignVerifyOnlyAnswer(ctx: Context, run: seq<System>, i: nat, proof: CompressedProof, o: FinalizationOutput,
                                metas: seq<Meta>, data: seq<Byte>)
    requires Sane(ctx) && Run(ctx, run) && i < |run| && |metas| >= 1 && NobodysState(ctx, run[i], metas[0].key)
    requires data == Encode(VerifyOnly(proof, o))
    ensures var fault := StateFault(ctx, Get(run[i].world, metas[0].key));
      fault.Some? && Process(ctx, run[i].world, metas, data) == Err(fault.value)
  {
    VerifyOnlyOnAnyLedger(ctx, run[i].world, metas, data, proof, o);
    NotAState(ctx, run, i, metas[0].key);
  }

  // ---------------------------------------------------------------------------
  // submit_finalization
  // ---------------------------------------------------------------------------

  /** The first two accounts are one client's own. */
  predicate OwnPair(ctx: Context, s: System, a: Pubkey, metas: seq<Meta>)
    requires |metas| >= 2
  {
    a in s.clients && OwnsStateAt(ctx, a, metas[0].key) && OwnsRingAt(ctx, s, a, metas[1].key)
  }

  /** The same account with these bytes. */
  predicate Rewritten(before: Account, after: Account, data: seq<Byte>) {
    after == before.(data := data)
  }

  /** Every account but these has what it had. */
  ghost predicate ElseUnchanged(w: Ledger, w': Ledger, keys: seq<Pubkey>) {
    forall key: Pubkey | key !in keys :: Get(w', key) == Get(w, key)
  }

  /** On a client's own accounts the history decides, and a refusal says why. */
  lemma SubmitAnswer(ctx: Context, run: seq<System>, i: nat, a: Pubkey, proof: CompressedProof, o: FinalizationOutput,
                     metas: seq<Meta>, data: seq<Byte>)
    requires Sane(ctx) && Run(ctx, run) && i < |run| && |metas| >= 2 && OwnPair(ctx, run[i], a, metas)
    requires data == Encode(SubmitFinalization(proof, o))
    ensures var verdict := Verdict(ctx, run[i].clients[a], proof, o);
      && (verdict.Err? ==> Process(ctx, run[i].world, metas, data) == Err(verdict.error))
      && (verdict.Ok? ==> Process(ctx, run[i].world, metas, data).Ok?)
  {
    Decoded(ctx, run[i].world, metas, data, SubmitFinalization(proof, o));
    SubmissionVerdict(ctx, run, i, a, proof, o, metas[0].key, metas[1].key);
  }

  /**
   What an accepted submission leaves: the state's fields are the output's, the
   count is one more, the ring carries the longer history, and no other byte,
   owner or balance changes.
   */
  lemma SubmitLeaves(ctx: Context, run: seq<System>, i: nat, a: Pubkey, proof: CompressedProof, o: FinalizationOutput,
                     metas: seq<Meta>, data: seq<Byte>, w': Ledger)
    requires Sane(ctx) && Run(ctx, run) && i < |run| && |metas| >= 2 && OwnPair(ctx, run[i], a, metas)
    requires data == Encode(SubmitFinalization(proof, o)) && Process(ctx, run[i].world, metas, data) == Ok(w')
    ensures var c, sk, rk := run[i].clients[a], metas[0].key, metas[1].key;
      && |c.accepted| + 1 < TWO_64
      && |Get(w', sk).data| == 186 && Rewritten(Get(run[i].world, sk), Get(w', sk), Get(w', sk).data)
      && UnpackState(Get(w', sk).data)
         == Ok(LightClientState(StateAddress(ctx, a).value.1, a, o.nextAccumulatorCommitment, o.finalizedStateRoot,
                                o.finalizedEpoch, o.finalizedRoot, c.bootstrap.vk, |c.accepted| + 1,
                                o.justifiedEpoch))
      && Rewritten(Get(run[i].world, rk), Get(w', rk),
                   RingAfter(RingAddress(ctx, a).value.1, HistoryOf(c.accepted + [Accepted(proof, o)])))
      && ElseUnchanged(run[i].world, w', [sk, rk])
  {
    Decoded(ctx, run[i].world, metas, data, SubmitFinalization(proof, o));
    ReachableHolds(ctx, run, i, a);
    SubmitAnswer(ctx, run, i, a, proof, o, metas, data);
    StoredFields(ctx, run[i].world, a, run[i].clients[a], metas, proof, o, w');
    WrittenRing(ctx, run[i].world, a, run[i].clients[a], metas, proof, o, w');
  }

  lemma StoredFields(ctx: Context, w: Ledger, a: Pubkey, c: Client, metas: seq<Meta>, proof: CompressedProof,
                     o: FinalizationOutput, w': Ledger)
    requires Sane(ctx) && Holds(ctx, w, a, c) && |metas| >= 2 && Verdict(ctx, c, proof, o).Ok?
    requires metas[0].key == StateAddress(ctx, a).value.0 && metas[1].key == RingAddress(ctx, a).value.0
    requires SubmitOn(ctx, w, metas, proof, o) == Ok(w')
    ensures |c.accepted| + 1 < TWO_64
    ensures UnpackState(Get(w', metas[0].key).data)
         == Ok(LightClientState(StateAddress(ctx, a).value.1, a, o.nextAccumulatorCommitment, o.finalizedStateRoot,
                                o.finalizedEpoch, o.finalizedRoot, c.bootstrap.vk, |c.accepted| + 1,
                                o.justifiedEpoch))
  {
    StoredAfterSubmit(ctx, w, a, c, metas, proof, o);
    AdvancedFields(c, a, StateAddress(ctx, a).value.1, o);
  }

  lemma AdvancedFields(c: Client, a: Pubkey, bump: Byte, o: FinalizationOutput)
    requires c.bootstrap.epoch + 1 < TWO_64 && |c.accepted| + 1 < TWO_64
    ensures Advanced(StateOf(c, a, bump), o)
         == LightClientState(bump, a, o.nextAccumulatorCommitment, o.finalizedStateRoot, o.finalizedEpoch,
                             o.finalizedRoot, c.bootstrap.vk, |c.accepted| + 1, o.justifiedEpoch)
  {
    StateHolds(c, a, bump);
  }

  lemma WrittenRing(ctx: Context, w: Ledger, a: Pubkey, c: Client, metas: seq<Meta>, proof: CompressedProof,
                    o: FinalizationOutput, w': Ledger)
    requires Sane(ctx) && Holds(ctx, w, a, c) && |metas| >= 2
    requires metas[0].key == StateAddress(ctx, a).value.0 && metas[1].key == RingAddress(ctx, a).value.0
    requires SubmitOn(ctx, w, metas, proof, o) == Ok(w')
    ensures var sk, rk := metas[0].key, metas[1].key;
      && |Get(w', sk).data| == 186 && Rewritten(Get(w, sk), Get(w', sk), Get(w', sk).data)
      && Rewritten(Get(w, rk), Get(w', rk),
                   RingAfter(RingAddress(ctx, a).value.1, HistoryOf(c.accepted + [Accepted(proof, o)])))
      && ElseUnchanged(w, w', [sk, rk])
  {
    var sk, rk := metas[0].key, metas[1].key;
    AddressesApart(ctx, a, a);
    RingAdvances(RingAddress(ctx, a).value.1, c.accepted, Accepted(proof, o));
    var st := SubmittedParts(ctx, sk, Get(w, sk), rk, Get(w, rk), proof, o);
    var state, ring := Pack(Advanced(st, o)) + Get(w, sk).data[LIGHT_CLIENT_LEN..],
                       RingWritten(Get(w, rk).data, EntryOf(o));
    ClientStateWritten(ctx, w, a, c);
    TwoAccounts(w, sk, rk, state, ring, w');
  }

  lemma TwoAccounts(w: Ledger, sk: Pubkey, rk: Pubkey, state: seq<Byte>, ring: seq<Byte>, w': Ledger)
    requires sk != rk && w' == w[sk := Get(w, sk).(data := state)][rk := Get(w, rk).(data := ring)]
    ensures Rewritten(Get(w, sk), Get(w', sk), state) && Rewritten(Get(w, rk), Get(w', rk), ring)
    ensures ElseUnchanged(w, w', [sk, rk])
  {
  }

  /** Nothing is accepted on any other accounts. */
  lemma SubmitAcceptedIff(ctx: Context, run: seq<System>, i: nat, proof: CompressedProof, o: FinalizationOutput,
                          metas: seq<Meta>, data: seq<Byte>)
    requires Sane(ctx) && Run(ctx, run) && i < |run| && |metas| >= 2 && data == Encode(SubmitFinalization(proof, o))
    ensures Process(ctx, run[i].world, metas, data).Ok?
       <==> exists a: Pubkey :: OwnPair(ctx, run[i], a, metas) && Verdict(ctx, run[i].clients[a], proof, o).Ok?
  {
    if Process(ctx, run[i].world, metas, data).Ok? {
      Decoded(ctx, run[i].world, metas, data, SubmitFinalization(proof, o));
      RunKeeps(ctx, run, i);
      var a, state := SubmitIsOwn(ctx, run[i], metas[0].key, metas[1].key, proof, o);
      assert OwnPair(ctx, run[i], a, metas);
      SubmitAnswer(ctx, run, i, a, proof, o, metas, data);
    }
    if a: Pubkey :| OwnPair(ctx, run[i], a, metas) && Verdict(ctx, run[i].clients[a], proof, o).Ok? {
      SubmitAnswer(ctx, run, i, a, proof, o, metas, data);
    }
  }

  /** A first account that is no client's state is refused before anything else is looked at. */
  lemma ForeignStateAnswer(ctx: Context, run: seq<System>, i: nat, proof: CompressedProof, o: FinalizationOutput,
                           metas: seq<Meta>, data: seq<Byte>)
    requires Sane(ctx) && Run(ctx, run) && i < |run| && |metas| >= 2 && NobodysState(ctx, run[i], metas[0].key)
    requires data == Encode(SubmitFinalization(proof, o))
    ensures var fault := StateFault(ctx, Get(run[i].world, metas[0].key));
      fault.Some? && Process(ctx, run[i].world, metas, data) == Err(fault.value)
  {
    SubmitOnAnyLedger(ctx, run[i].world, metas, data, proof, o);
    NotAState(ctx, run, i, metas[0].key);
  }

  /** A ring that is not the client's is refused, after the three checks against the state and before the proof. */
  lemma ForeignRingAnswer(ctx: Context, run: seq<System>, i: nat, a: Pubkey, proof: CompressedProof,
                          o: FinalizationOutput, metas: seq<Meta>, data: seq<Byte>)
    requires Sane(ctx) && Run(ctx, run) && i < |run| && |metas| >= 2 && a in run[i].clients
    requires OwnsStateAt(ctx, a, metas[0].key) && !OwnsRingAt(ctx, run[i], a, metas[1].key)
    requires data == Encode(SubmitFinalization(proof, o))
    ensures var verdict := Verdict(ctx, run[i].clients[a], proof, o);
      var fault := RingFault(ctx, metas[1].key, Get(run[i].world, metas[1].key), a);
      && fault.Some?
      && Process(ctx, run[i].world, metas, data)
         == if verdict.Err? && verdict.error != ProofVerificationFailed then Err(verdict.error) else Err(fault.value)
  {
    var c, bump := run[i].clients[a], StateAddress(ctx, a).value.1;
    Decoded(ctx, run[i].world, metas, data, SubmitFinalization(proof, o));
    ReachableHolds(ctx, run, i, a);
    OwnAccountsExpected(ctx, run[i].world, a, c);
    RefusedRing(ctx, run, i, a, metas[1].key);
    ExpectRingIsFault(ctx, metas[1].key, Get(run[i].world, metas[1].key), a);
    StateHolds(c, a, bump);
    ExtendsIsVerdict(ctx, c, a, bump, proof, o);
    ForeignRingSubmitted(ctx, metas[0].key, Get(run[i].world, metas[0].key), metas[1].key,
                         Get(run[i].world, metas[1].key), proof, o, StateOf(c, a, bump));
  }

  lemma ForeignRingSubmitted(ctx: Context, sk: Pubkey, state: Account, rk: Pubkey, ring: Account,
                             proof: CompressedProof, o: FinalizationOutput, st: LightClientState)
    requires ExpectState(ctx, sk, state) == Ok(st) && ExpectRing(ctx, rk, ring, st.authority).Err?
    ensures Submitted(ctx, sk, state, rk, ring, proof, o)
         == if Extends(st, o).Err? then Err(Extends(st, o).error)
            else Err(ExpectRing(ctx, rk, ring, st.authority).error)
    ensures Extends(st, o).Err? ==> Extends(st, o).error != ProofVerificationFailed
  {
  }

  // ---------------------------------------------------------------------------
  // initialize
  // ---------------------------------------------------------------------------

  lemma InitializeDispatched(ctx: Context, w: Ledger, metas: seq<Meta>, data: seq<Byte>, accumulator: Bytes32,
                             stateRoot: Bytes32, epoch: U64, root: Bytes32, vk: Bytes32)
    requires |metas| >= 4 && data == Encode(Initialize(accumulator, stateRoot, epoch, root, vk))
    ensures Process(ctx, w, metas, data)
         == InitializeOn(ctx, w, metas, Bootstrap(accumulator, stateRoot, epoch, root, vk))
  {
    Decoded(ctx, w, metas, data, Initialize(accumulator, stateRoot, epoch, root, vk));
  }

  /** The refusals that only look at who is named, in order. */
  lemma InitializeRefusals(ctx: Context, w: Ledger, metas: seq<Meta>, data: seq<Byte>, accumulator: Bytes32,
                           stateRoot: Bytes32, epoch: U64, root: Bytes32, vk: Bytes32)
    requires |metas| >= 4 && data == Encode(Initialize(accumulator, stateRoot, epoch, root, vk))
    ensures var state, ring := StateAddress(ctx, metas[0].key), RingAddress(ctx, metas[0].key);
      var answer := Process(ctx, w, metas, data);
      if !metas[0].isSigner then answer == Err(MissingSigner)
      else if metas[3].key != Zeros(32) then answer == Err(IncorrectProgramId)
      else if state.None? then answer == Err(NoViableBump)
      else if metas[1].key != state.value.0 then answer == Err(InvalidStateAccount)
      else if ring.None? then answer == Err(NoViableBump)
      else if metas[2].key != ring.value.0 then answer == Err(InvalidRingAccount)
      else Get(w, metas[1].key).data != [] ==> answer == Err(AccountAlreadyInitialized)
  {
    InitializeDispatched(ctx, w, metas, data, accumulator, stateRoot, epoch, root, vk);
  }

  /** The signer names its own two addresses and the system program. */
  predicate NamesOwn(ctx: Context, metas: seq<Meta>, a: Pubkey) {
    && |metas| >= 4 && metas[0] == Meta(a, true) && metas[3].key == Zeros(32)
    && StateAddress(ctx, a).Some? && metas[1].key == StateAddress(ctx, a).value.0
    && RingAddress(ctx, a).Some? && metas[2].key == RingAddress(ctx, a).value.0
  }

  predicate PlainWallet(account: Account) {
    account.owner == Zeros(32) && account.data == []
  }

  function Max(x: nat, y: nat): nat {
    if x > y then x else y
  }

  /** What the state account costs its authority, given what it already holds. */
  function StateCost(ctx: Context, state: Account): nat {
    Max(ctx.rent(186), state.lamports) - state.lamports
  }

  /** What both accounts cost. */
  function BothCost(ctx: Context, state: Account, ring: Account): nat {
    StateCost(ctx, state) + Max(ctx.rent(9346), ring.lamports) - ring.lamports
  }

  /** The state a bootstrap writes, field by field. */
  function Fresh(b: Bootstrap, a: Pubkey, bump: Byte): LightClientState
    requires b.epoch < 0xffff_ffff_ffff_ffff
  {
    LightClientState(bump, a, b.accumulator, b.stateRoot, b.epoch, b.root, b.vk, 0, b.epoch + 1)
  }

  lemma FreshReads(b: Bootstrap, a: Pubkey, bump: Byte)
    requires b.epoch < 0xffff_ffff_ffff_ffff
    ensures UnpackState(Pack(Fresh(b, a, bump))) == Ok(Fresh(b, a, bump))
  {
    var data := Pack(Fresh(b, a, bump));
    assert data[..LIGHT_CLIENT_LEN] == data;
    UnpackStateIffPacked(data, Fresh(b, a, bump));
  }

  /** The three accounts an accepted bootstrap leaves. */
  function Written(ctx: Context, wallet: Account, state: Account, ring: Account, a: Pubkey, bump: Byte, ringBump: Byte,
                   b: Bootstrap): Three
    requires b.epoch < 0xffff_ffff_ffff_ffff && wallet.lamports >= BothCost(ctx, state, ring)
  {
    Three(wallet.(lamports := wallet.lamports - BothCost(ctx, state, ring)),
          Account(Max(ctx.rent(186), state.lamports), ctx.programId, Pack(Fresh(b, a, bump))),
          Account(Max(ctx.rent(9346), ring.lamports), ctx.programId, [2, ringBump] + Zeros(9344)))
  }

  /** An unused account is created, or the payer is too poor. */
  lemma Created(ctx: Context, payer: Account, target: Account, space: nat, cost: nat)
    requires PlainWallet(payer) && PlainWallet(target)
    requires cost == Max(ctx.rent(space), target.lamports) - target.lamports
    ensures PdaCreated(ctx, payer, target, space)
         == if payer.lamports < cost then Err(InsufficientFunds)
            else Ok((payer.(lamports := payer.lamports - cost),
                     Account(Max(ctx.rent(space), target.lamports), ctx.programId, Zeros(space))))
  {
    PdaIgnoresPriorBalance(ctx, payer, target, space);
  }

  /** Funds and the epoch alone decide, in the source's order, once the addresses are known to be unused. */
  lemma BootstrapOutcome(ctx: Context, key: Pubkey, wallet: Account, state: Account, ring: Account, bump: Byte,
                         ringBump: Byte, b: Bootstrap)
    requires PlainWallet(wallet) && PlainWallet(state) && PlainWallet(ring)
    ensures var outcome := Bootstrapped(ctx, key, wallet, state, ring, bump, ringBump, b);
      if wallet.lamports < StateCost(ctx, state) then outcome == Err(InsufficientFunds)
      else if b.epoch == 0xffff_ffff_ffff_ffff then outcome == Err(ArithmeticOverflow)
      else if wallet.lamports < BothCost(ctx, state, ring) then outcome == Err(InsufficientFunds)
      else outcome == Ok(Written(ctx, wallet, state, ring, key, bump, ringBump, b))
  {
    var cost := StateCost(ctx, state);
    Created(ctx, wallet, state, 186, cost);
    if wallet.lamports >= cost {
      var left := wallet.(lamports := wallet.lamports - cost);
      Created(ctx, left, ring, 9346, BothCost(ctx, state, ring) - cost);
      assert FreshRing(ringBump) == [2, ringBump] + Zeros(9344);
    }
  }

  /** What the handler makes of its own two accounts, for an authority that has bootstrapped and one that has not. */
  lemma OwnInitialized(ctx: Context, run: seq<System>, i: nat, a: Pubkey, metas: seq<Meta>, b: Bootstrap)
    requires Sane(ctx) && Run(ctx, run) && i < |run| && NamesOwn(ctx, metas, a)
    ensures var w, sk, rk := run[i].world, metas[1].key, metas[2].key;
      var outcome := Initialized(ctx, a, true, Get(w, a), sk, Get(w, sk), rk, Get(w, rk), metas[3].key, b);
      if a in run[i].clients then outcome == Err(AccountAlreadyInitialized)
      else
        && PlainWallet(Get(w, sk)) && PlainWallet(Get(w, rk))
        && outcome == Bootstrapped(ctx, a, Get(w, a), Get(w, sk), Get(w, rk), StateAddress(ctx, a).value.1,
                                   RingAddress(ctx, a).value.1, b)
  {
    var w, sk, rk := run[i].world, metas[1].key, metas[2].key;
    RunKeeps(ctx, run, i);
    InitializedVerdict(ctx, a, Get(w, a), sk, StateAddress(ctx, a).value.1, Get(w, sk), rk, RingAddress(ctx, a).value.1,
                       Get(w, rk), b);
    if a in run[i].clients {
      ClientStateWritten(ctx, w, a, run[i].clients[a]);
    } else {
      UnusedAddresses(ctx, run[i], a, sk);
      UnusedAddresses(ctx, run[i], a, rk);
    }
  }

  /**
   An authority's wallet bootstraps exactly once: after that it is told so, and
   before it funds and the epoch alone decide, whatever its addresses hold.
   */
  lemma InitializeAnswer(ctx: Context, run: seq<System>, i: nat, a: Pubkey, metas: seq<Meta>, data: seq<Byte>,
                         b: Bootstrap)
    requires Sane(ctx) && Run(ctx, run) && i < |run| && NamesOwn(ctx, metas, a) && PlainWallet(Get(run[i].world, a))
    requires data == Encode(Initialize(b.accumulator, b.stateRoot, b.epoch, b.root, b.vk))
    ensures var w, answer := run[i].world, Process(ctx, run[i].world, metas, data);
      var wallet, state, ring := Get(w, a), Get(w, metas[1].key), Get(w, metas[2].key);
      if a in run[i].clients then answer == Err(AccountAlreadyInitialized)
      else if wallet.lamports < StateCost(ctx, state) then answer == Err(InsufficientFunds)
      else if b.epoch == 0xffff_ffff_ffff_ffff then answer == Err(ArithmeticOverflow)
      else if wallet.lamports < BothCost(ctx, state, ring) then answer == Err(InsufficientFunds)
      else answer.Ok?
  {
    var w := run[i].world;
    InitializeDispatched(ctx, w, metas, data, b.accumulator, b.stateRoot, b.epoch, b.root, b.vk);
    OwnInitialized(ctx, run, i, a, metas, b);
    if a !in run[i].clients {
      BootstrapOutcome(ctx, a, Get(w, a), Get(w, metas[1].key), Get(w, metas[2].key), StateAddress(ctx, a).value.1,
                       RingAddress(ctx, a).value.1, b);
    }
  }

  /** An accepted bootstrap installs the three written accounts. */
  lemma InitializeInstalls(ctx: Context, run: seq<System>, i: nat, a: Pubkey, metas: seq<Meta>, data: seq<Byte>,
                           b: Bootstrap, w': Ledger) returns (three: Three)
    requires Sane(ctx) && Run(ctx, run) && i < |run| && NamesOwn(ctx, metas, a) && PlainWallet(Get(run[i].world, a))
    requires data == Encode(Initialize(b.accumulator, b.stateRoot, b.epoch, b.root, b.vk))
    requires Process(ctx, run[i].world, metas, data) == Ok(w')
    ensures var w, sk, rk := run[i].world, metas[1].key, metas[2].key;
      && b.epoch < 0xffff_ffff_ffff_ffff && Get(w, a).lamports >= BothCost(ctx, Get(w, sk), Get(w, rk))
      && three == Written(ctx, Get(w, a), Get(w, sk), Get(w, rk), a, StateAddress(ctx, a).value.1,
                          RingAddress(ctx, a).value.1, b)
      && w' == w[a := three.authority][sk := three.state][rk := three.ring]
  {
    var w, sk, rk := run[i].world, metas[1].key, metas[2].key;
    var bump, ringBump := StateAddress(ctx, a).value.1, RingAddress(ctx, a).value.1;
    InitializeDispatched(ctx, w, metas, data, b.accumulator, b.stateRoot, b.epoch, b.root, b.vk);
    OwnInitialized(ctx, run, i, a, metas, b);
    BootstrapOutcome(ctx, a, Get(w, a), Get(w, sk), Get(w, rk), bump, ringBump, b);
    three := Bootstrapped(ctx, a, Get(w, a), Get(w, sk), Get(w, rk), bump, ringBump, b).value;
  }

  /**
   The arguments are in the fields they are for, an empty ring stands under its
   header, both accounts are funded, the wallet is debited, and nothing else has
   changed.
   */
  ghost predicate Bootstraps(ctx: Context, w: Ledger, w': Ledger, a: Pubkey, sk: Pubkey, bump: Byte, rk: Pubkey,
                             ringBump: Byte, b: Bootstrap)
    requires b.epoch < 0xffff_ffff_ffff_ffff
  {
    && Get(w', sk).owner == ctx.programId && Get(w', sk).lamports == Max(ctx.rent(186), Get(w, sk).lamports)
    && |Get(w', sk).data| == 186
    && UnpackState(Get(w', sk).data)
       == Ok(LightClientState(bump, a, b.accumulator, b.stateRoot, b.epoch, b.root, b.vk, 0, b.epoch + 1))
    && Get(w', rk) == Account(Max(ctx.rent(9346), Get(w, rk).lamports), ctx.programId, [2, ringBump] + Zeros(9344))
    && Get(w', a) == Get(w, a).(lamports := Get(w', a).lamports)
    && Get(w', a).lamports == Get(w, a).lamports - BothCost(ctx, Get(w, sk), Get(w, rk))
    && ElseUnchanged(w, w', [a, sk, rk])
  }

  lemma WrittenBootstraps(ctx: Context, w: Ledger, w': Ledger, a: Pubkey, sk: Pubkey, bump: Byte, rk: Pubkey,
                          ringBump: Byte, b: Bootstrap, three: Three)
    requires a != sk && a != rk && sk != rk && w' == w[a := three.authority][sk := three.state][rk := three.ring]
    requires b.epoch < 0xffff_ffff_ffff_ffff && Get(w, a).lamports >= BothCost(ctx, Get(w, sk), Get(w, rk))
    requires three == Written(ctx, Get(w, a), Get(w, sk), Get(w, rk), a, bump, ringBump, b)
    ensures Bootstraps(ctx, w, w', a, sk, bump, rk, ringBump, b)
  {
    ThreeAccounts(w, a, sk, rk, three, w');
    FreshReads(b, a, bump);
  }

  /** What an accepted bootstrap leaves. */
  lemma InitializeLeaves(ctx: Context, run: seq<System>, i: nat, a: Pubkey, metas: seq<Meta>, data: seq<Byte>,
                         b: Bootstrap, w': Ledger)
    requires Sane(ctx) && Run(ctx, run) && i < |run| && NamesOwn(ctx, metas, a) && PlainWallet(Get(run[i].world, a))
    requires data == Encode(Initialize(b.accumulator, b.stateRoot, b.epoch, b.root, b.vk)) && Signable(ctx, metas)
    requires Process(ctx, run[i].world, metas, data) == Ok(w')
    ensures b.epoch < 0xffff_ffff_ffff_ffff
    ensures Bootstraps(ctx, run[i].world, w', a, metas[1].key, StateAddress(ctx, a).value.1, metas[2].key,
                       RingAddress(ctx, a).value.1, b)
  {
    var w, sk, rk := run[i].world, metas[1].key, metas[2].key;
    var bump, ringBump := StateAddress(ctx, a).value.1, RingAddress(ctx, a).value.1;
    var three := InitializeInstalls(ctx, run, i, a, metas, data, b, w');
    DistinctAccounts(ctx, a, sk, rk, bump, ringBump);
    WrittenBootstraps(ctx, w, w', a, sk, bump, rk, ringBump, b, three);
  }

  lemma ThreeAccounts(w: Ledger, a: Pubkey, sk: Pubkey, rk: Pubkey, three: Three, w': Ledger)
    requires a != sk && a != rk && sk != rk && w' == w[a := three.authority][sk := three.state][rk := three.ring]
    ensures Get(w', a) == three.authority && Get(w', sk) == three.state && Get(w', rk) == three.ring
    ensures ElseUnchanged(w, w', [a, sk, rk])
  {
  }
}
