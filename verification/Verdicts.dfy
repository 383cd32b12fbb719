/** The exact verdict of every instruction on a client's own accounts, in every reachable state. */
module Verdicts {
  import opened Bytes
  import opened Errors
  import opened State
  import opened Ring
  import opened Wire
  import opened Compression
  import opened Instruction
  import opened Runtime
  import opened Processor
  import opened World
  import opened Invariant
  import opened Safety

  /** Accepted output k names the epoch after its own as justified, which is what the guest proves. */
  predicate AdjacentAt(c: Client, k: nat)
    requires k < |c.accepted|
  {
    c.accepted[k].output.justifiedEpoch == c.accepted[k].output.finalizedEpoch + 1
  }

  /** So do the first n of this client's outputs. */
  predicate AdjacentBelow(c: Client, n: int) {
    forall k: nat | k < n && k < |c.accepted| :: AdjacentAt(c, k)
  }

  /** In every state of every run, a client's two accounts are its history's bytes. */
  lemma ReachableHolds(ctx: Context, run: seq<System>, i: nat, a: Pubkey)
    requires Sane(ctx) && Run(ctx, run) && i < |run| && a in run[i].clients
    ensures Holds(ctx, run[i].world, a, run[i].clients[a])
  {
    RunKeeps(ctx, run, i);
  }

  // ---------------------------------------------------------------------------
  // The chain
  // ---------------------------------------------------------------------------

  /** A client's epochs strictly increase, whatever the guest guarantees. */
  lemma EpochsIncrease(ctx: Context, c: Client, i: nat, j: nat)
    requires Chained(ctx, c) && i < j < |c.accepted|
    ensures c.accepted[i].output.finalizedEpoch < c.accepted[j].output.finalizedEpoch
    ensures c.bootstrap.epoch < c.accepted[i].output.finalizedEpoch
  {
    HeadRises(ctx, c, i + 1, j + 1);
    HeadRises(ctx, c, 0, i + 1);
  }

  /** After k entries the head is bootstrap + k exactly when all of them but the last were adjacent. */
  lemma {:induction false} EpochsConsecutive(ctx: Context, c: Client, k: nat)
    requires Chained(ctx, c) && k <= |c.accepted|
    ensures HeadEpoch(c, k) == c.bootstrap.epoch + k <==> AdjacentBelow(c, k - 1)
  {
    if k == 0 {
    } else if k == 1 {
      assert Linked(ctx, c, 0);
    } else {
      EpochsConsecutive(ctx, c, k - 1);
      HeadRises(ctx, c, 0, k - 1);
      assert Linked(ctx, c, k - 1);
      if HeadEpoch(c, k) == c.bootstrap.epoch + k {
        forall j: nat | j < k - 1 ensures AdjacentAt(c, j) {
          assert j < k - 2 ==> AdjacentAt(c, j);
        }
      }
      if AdjacentBelow(c, k - 1) {
        assert AdjacentAt(c, k - 2);
      }
    }
  }

  /**
   Every client of every run is one unbroken chain from its bootstrap: entry k
   was proved under the pinned key and starts from the accumulator its
   predecessor ended at. It finalizes epoch bootstrap + 1 + k exactly when the
   entries before it were adjacent.
   */
  lemma UnbrokenChain(ctx: Context, run: seq<System>, i: nat, a: Pubkey, k: nat)
    requires Sane(ctx) && Run(ctx, run) && i < |run| && a in run[i].clients
    requires k < |run[i].clients[a].accepted|
    ensures var c := run[i].clients[a];
      var o := c.accepted[k].output;
      && ctx.verify(c.accepted[k].proof, c.bootstrap.vk, o)
      && (o.finalizedEpoch == c.bootstrap.epoch + 1 + k <==> AdjacentBelow(c, k))
      && o.accumulatorCommitment == (if k == 0 then c.bootstrap.accumulator
                                     else c.accepted[k - 1].output.nextAccumulatorCommitment)
  {
    ReachableHolds(ctx, run, i, a);
    var c := run[i].clients[a];
    assert Linked(ctx, c, k);
    EpochsConsecutive(ctx, c, k + 1);
  }

  /**
   In every reachable state the stored `accumulator_epoch` is one above
   `finalized_epoch` exactly when nothing has been accepted or the last output
   was adjacent.
   */
  lemma StoredStateFollowsHistory(ctx: Context, run: seq<System>, i: nat, a: Pubkey)
    requires Sane(ctx) && Run(ctx, run) && i < |run| && a in run[i].clients
    ensures StateAddress(ctx, a).Some?
    ensures var state := UnpackState(Get(run[i].world, StateAddress(ctx, a).value.0).data);
      var c := run[i].clients[a];
      var n := |c.accepted|;
      && state.Ok?
      && (state.value.accumulatorEpoch == state.value.finalizedEpoch + 1 <==> n == 0 || AdjacentAt(c, n - 1))
      && (state.value.finalizedEpoch == c.bootstrap.epoch + n <==> AdjacentBelow(c, n - 1))
      && state.value.submissionCount == n
      && state.value.programVk == c.bootstrap.vk
  {
    ReachableHolds(ctx, run, i, a);
    var c := run[i].clients[a];
    ClientStateReads(ctx, run[i].world, a, c);
    StateHolds(c, a, StateAddress(ctx, a).value.1);
    EpochsConsecutive(ctx, c, |c.accepted|);
  }

  /** Every field of a state: the bootstrap's at first, and then the last accepted output's. */
  lemma StateFields(c: Client, a: Pubkey, bump: Byte)
    requires c.bootstrap.epoch + 1 < TWO_64 && |c.accepted| < TWO_64
    ensures var b, log := c.bootstrap, c.accepted;
      StateOf(c, a, bump)
      == if log == [] then
           LightClientState(bump, a, b.accumulator, b.stateRoot, b.epoch, b.root, b.vk, 0, b.epoch + 1)
         else
           var o := log[|log| - 1].output;
           LightClientState(bump, a, o.nextAccumulatorCommitment, o.finalizedStateRoot, o.finalizedEpoch,
                            o.finalizedRoot, b.vk, |log|, o.justifiedEpoch)
  {
  }

  /** And a client's account reads as exactly that, in every state of every run. */
  lemma StoredStateExact(ctx: Context, run: seq<System>, i: nat, a: Pubkey)
    requires Sane(ctx) && Run(ctx, run) && i < |run| && a in run[i].clients
    ensures StateAddress(ctx, a).Some?
    ensures run[i].clients[a].bootstrap.epoch + 1 < TWO_64 && |run[i].clients[a].accepted| < TWO_64
    ensures var (key, bump) := StateAddress(ctx, a).value;
      UnpackState(Get(run[i].world, key).data) == Ok(StateOf(run[i].clients[a], a, bump))
  {
    ReachableHolds(ctx, run, i, a);
    ClientStateReads(ctx, run[i].world, a, run[i].clients[a]);
  }

  // ---------------------------------------------------------------------------
  // submit_finalization
  // ---------------------------------------------------------------------------

  /** What becomes of a submission, from the client's history alone. */
  function Verdict(ctx: Context, c: Client, proof: CompressedProof, o: FinalizationOutput): Result<()> {
    if o.finalizedEpoch <= HeadEpoch(c, |c.accepted|) then Err(EpochNotAdvancing)
    else if o.finalizedEpoch != HeldEpoch(c, |c.accepted|) then Err(AccumulatorEpochMismatch)
    else if o.accumulatorCommitment != HeldAccumulator(c, |c.accepted|) then Err(AccumulatorMismatch)
    else if !ctx.verify(proof, c.bootstrap.vk, o) then Err(ProofVerificationFailed)
    else Ok(())
  }

  /** The two accounts of a client pass every account check. */
  lemma OwnAccountsExpected(ctx: Context, w: Ledger, a: Pubkey, c: Client)
    requires Holds(ctx, w, a, c)
    ensures var (sk, bump) := StateAddress(ctx, a).value;
      ExpectState(ctx, sk, Get(w, sk)) == Ok(StateOf(c, a, bump))
    ensures var rk := RingAddress(ctx, a).value.0;
      ExpectRing(ctx, rk, Get(w, rk), a) == Ok(())
  {
    ClientStateReads(ctx, w, a, c);
    StateHolds(c, a, StateAddress(ctx, a).value.1);
  }

  lemma ExtendsIsVerdict(ctx: Context, c: Client, a: Pubkey, bump: Byte, proof: CompressedProof, o: FinalizationOutput)
    requires Chained(ctx, c) && |c.accepted| < TWO_64
    ensures var s := StateOf(c, a, bump);
      Verdict(ctx, c, proof, o)
      == if Extends(s, o).Err? then Extends(s, o)
         else if !ctx.verify(proof, s.programVk, o) then Err(ProofVerificationFailed) else Ok(())
    ensures Verdict(ctx, c, proof, o).Ok? ==> StateOf(c, a, bump).submissionCount + 1 < TWO_64
  {
    StateHolds(c, a, bump);
    HeadRises(ctx, c, 0, |c.accepted|);
  }

  lemma SubmittedVerdict(ctx: Context, sk: Pubkey, state: Account, rk: Pubkey, ring: Account,
                         proof: CompressedProof, o: FinalizationOutput, st: LightClientState)
    requires ExpectState(ctx, sk, state) == Ok(st) && ExpectRing(ctx, rk, ring, st.authority) == Ok(())
    ensures var submitted := Submitted(ctx, sk, state, rk, ring, proof, o);
      && (Extends(st, o).Err? ==> submitted == Err(Extends(st, o).error))
      && (Extends(st, o).Ok? && !ctx.verify(proof, st.programVk, o) ==> submitted == Err(ProofVerificationFailed))
      && (Extends(st, o).Ok? && ctx.verify(proof, st.programVk, o) && st.submissionCount + 1 < TWO_64 ==> submitted.Ok?)
  {
  }

  lemma SubmissionVerdictOf(ctx: Context, w: Ledger, a: Pubkey, c: Client, proof: CompressedProof,
                            o: FinalizationOutput,
                            sk: Pubkey, rk: Pubkey)
    requires Holds(ctx, w, a, c) && sk == StateAddress(ctx, a).value.0 && rk == RingAddress(ctx, a).value.0
    ensures var submitted := Submitted(ctx, sk, Get(w, sk), rk, Get(w, rk), proof, o);
      var verdict := Verdict(ctx, c, proof, o);
      (submitted.Ok? <==> verdict.Ok?) && (submitted.Err? ==> submitted.error == verdict.error)
  {
    var bump := StateAddress(ctx, a).value.1;
    var state := StateOf(c, a, bump);
    OwnAccountsExpected(ctx, w, a, c);
    assert state.authority == a;
    SubmittedVerdict(ctx, sk, Get(w, sk), rk, Get(w, rk), proof, o, state);
    ExtendsIsVerdict(ctx, c, a, bump, proof, o);
  }

  /**
   In every reachable state a submission naming a client's own accounts is
   decided by the client's history alone, and the counter never overflows.
   */
  lemma SubmissionVerdict(ctx: Context, run: seq<System>, i: nat, a: Pubkey, proof: CompressedProof,
                          o: FinalizationOutput,
                          sk: Pubkey, rk: Pubkey)
    requires Sane(ctx) && Run(ctx, run) && i < |run| && a in run[i].clients
    requires StateAddress(ctx, a).Some? && sk == StateAddress(ctx, a).value.0
    requires RingAddress(ctx, a).Some? && rk == RingAddress(ctx, a).value.0
    ensures var submitted := Submitted(ctx, sk, Get(run[i].world, sk), rk, Get(run[i].world, rk), proof, o);
      var verdict := Verdict(ctx, run[i].clients[a], proof, o);
      (submitted.Ok? <==> verdict.Ok?) && (submitted.Err? ==> submitted.error == verdict.error)
  {
    ReachableHolds(ctx, run, i, a);
    SubmissionVerdictOf(ctx, run[i].world, a, run[i].clients[a], proof, o, sk, rk);
  }

  /**
   Refusals name the right thing: a stale epoch is stale, any gap is a gap even
   when the accumulator differs too, and a branch is reported only at the epoch
   after the head.
   */
  ghost predicate Classified(ctx: Context, c: Client) {
    var head := HeadEpoch(c, |c.accepted|);
    forall proof: CompressedProof, o: FinalizationOutput ::
      var verdict := Verdict(ctx, c, proof, o);
      && (verdict == Err(EpochNotAdvancing) <==> o.finalizedEpoch <= head)
      && (verdict == Err(AccumulatorEpochMismatch) <==> o.finalizedEpoch > head + 1)
      && (verdict == Err(AccumulatorMismatch) <==>
            o.finalizedEpoch == head + 1 && o.accumulatorCommitment != HeldAccumulator(c, |c.accepted|))
  }

  /** They do exactly when the client holds the epoch after its head, or its head is the last there is. */
  lemma RefusalsClassified(ctx: Context, c: Client)
    ensures Classified(ctx, c)
       <==> HeldEpoch(c, |c.accepted|) == HeadEpoch(c, |c.accepted|) + 1 || HeadEpoch(c, |c.accepted|) == TWO_64 - 1
  {
    var head, held := HeadEpoch(c, |c.accepted|), HeldEpoch(c, |c.accepted|);
    if held != head + 1 && head < TWO_64 - 1 {
      var zero := Zeros(32);
      var next := FinalizationOutput(zero, zero, head + 1, zero, zero, 0, zero);
      assert Verdict(ctx, c, Zeros(COMPRESSED_PROOF_LEN), next) == Err(AccumulatorEpochMismatch);
    }
  }

  /**
   A verified output that is not adjacent is accepted like any other, and the
   stored state then breaks the rule: its accumulator epoch is not one above its
   finalized epoch.
   */
  lemma NonAdjacentIsStored(ctx: Context, run: seq<System>, i: nat, a: Pubkey, metas: seq<Meta>,
                            proof: CompressedProof, o: FinalizationOutput)
    requires Sane(ctx) && Run(ctx, run) && i < |run| && a in run[i].clients && |metas| >= 2
    requires StateAddress(ctx, a).Some? && metas[0].key == StateAddress(ctx, a).value.0
    requires RingAddress(ctx, a).Some? && metas[1].key == RingAddress(ctx, a).value.0
    requires Verdict(ctx, run[i].clients[a], proof, o).Ok? && o.justifiedEpoch != o.finalizedEpoch + 1
    ensures SubmitOn(ctx, run[i].world, metas, proof, o).Ok?
    ensures var after := UnpackState(Get(SubmitOn(ctx, run[i].world, metas, proof, o).value, metas[0].key).data);
      after.Ok? && after.value.accumulatorEpoch == o.justifiedEpoch != after.value.finalizedEpoch + 1
  {
    ReachableHolds(ctx, run, i, a);
    StoredAfterSubmit(ctx, run[i].world, a, run[i].clients[a], metas, proof, o);
  }

  lemma StoredAfterSubmit(ctx: Context, w: Ledger, a: Pubkey, c: Client, metas: seq<Meta>,
                          proof: CompressedProof, o: FinalizationOutput)
    requires Sane(ctx) && Holds(ctx, w, a, c) && |metas| >= 2 && Verdict(ctx, c, proof, o).Ok?
    requires metas[0].key == StateAddress(ctx, a).value.0 && metas[1].key == RingAddress(ctx, a).value.0
    ensures SubmitOn(ctx, w, metas, proof, o).Ok?
    ensures var bump := StateAddress(ctx, a).value.1;
      |c.accepted| + 1 < TWO_64
      && UnpackState(Get(SubmitOn(ctx, w, metas, proof, o).value, metas[0].key).data)
          == Ok(Advanced(StateOf(c, a, bump), o))
  {
    var sk, rk, bump := metas[0].key, metas[1].key, StateAddress(ctx, a).value.1;
    var state := StateOf(c, a, bump);
    SubmissionVerdictOf(ctx, w, a, c, proof, o, sk, rk);
    var st := SubmittedParts(ctx, sk, Get(w, sk), rk, Get(w, rk), proof, o);
    OwnAccountsExpected(ctx, w, a, c);
    StateHolds(c, a, bump);
    AddressesApart(ctx, a, a);
    var data := Pack(Advanced(state, o)) + Get(w, sk).data[LIGHT_CLIENT_LEN..];
    assert data[..LIGHT_CLIENT_LEN] == Pack(Advanced(state, o));
    UnpackStateIffPacked(data, Advanced(state, o));
  }

  /** The epoch the client's accumulator belongs to is not above its head: nothing can extend it. */
  predicate Stranded(c: Client) {
    HeldEpoch(c, |c.accepted|) <= HeadEpoch(c, |c.accepted|)
  }

  lemma StrandedStep(ctx: Context, s: System, s': System, a: Pubkey)
    requires Sane(ctx) && Inv(ctx, s) && Step(ctx, s, s') && a in s.clients && Stranded(s.clients[a])
    ensures a in s'.clients && s'.clients[a] == s.clients[a]
  {
    StepContinues(ctx, s, s', a);
    if metas: seq<Meta>, data: seq<Byte> :| Transaction(ctx, s, metas, data, s') {
      var e := TransactionEffect(ctx, s, metas, data, s');
      assert Holds(ctx, s'.world, a, s'.clients[a]);
      StrandedEffect(ctx, s, s', e, a);
    }
  }

  lemma StrandedEffect(ctx: Context, s: System, s': System, e: Effect, a: Pubkey)
    requires HasEffect(ctx, s, s', e) && a in s.clients && a in s'.clients
    requires Stranded(s.clients[a]) && Chained(ctx, s'.clients[a])
    ensures s'.clients[a] == s.clients[a]
  {
    if e.Advances? && e.authority == a {
      NothingExtendsStranded(ctx, s.clients[a], e.proof, e.output);
      assert false;
    }
  }

  lemma NothingExtendsStranded(ctx: Context, c: Client, proof: CompressedProof, o: FinalizationOutput)
    requires Stranded(c)
    ensures !Chained(ctx, Next(c, proof, o))
  {
    var c', n := Next(c, proof, o), |c.accepted|;
    assert HeldEpoch(c', n) == HeldEpoch(c, n) && HeadEpoch(c', n) == HeadEpoch(c, n);
    assert !Linked(ctx, c', n);
  }

  /** A client that accepted a `justified_epoch` not above its `finalized_epoch` never accepts again. */
  lemma {:induction false} StrandedForever(ctx: Context, run: seq<System>, i: nat, j: nat, a: Pubkey)
    requires Sane(ctx) && Run(ctx, run) && i <= j < |run| && a in run[i].clients && Stranded(run[i].clients[a])
    ensures a in run[j].clients && run[j].clients[a] == run[i].clients[a]
    decreases j
  {
    if i == j {
    } else {
      StrandedForever(ctx, run, i, j - 1, a);
      RunStep(ctx, run, j, run[j - 1], run[j]);
      StrandedStep(ctx, run[j - 1], run[j], a);
    }
  }

  // ---------------------------------------------------------------------------
  // The read path
  // ---------------------------------------------------------------------------

  lemma HistoryIsConsecutive(ctx: Context, c: Client)
    requires Chained(ctx, c) && AdjacentBelow(c, |c.accepted| - 1)
    ensures Consecutive(c.bootstrap.epoch, HistoryOf(c.accepted))
  {
    var log := HistoryOf(c.accepted);
    forall k | 0 <= k < |log| ensures log[k].finalizedEpoch == c.bootstrap.epoch + 1 + k {
      EpochsConsecutive(ctx, c, k + 1);
    }
  }

  lemma HistoryIsIncreasing(ctx: Context, c: Client)
    requires Chained(ctx, c)
    ensures Increasing(HistoryOf(c.accepted))
  {
    var log := HistoryOf(c.accepted);
    forall i, j | 0 <= i < j < |log| ensures log[i].finalizedEpoch < log[j].finalizedEpoch {
      EpochsIncrease(ctx, c, i, j);
    }
  }

  /** No ring answers for an authority but its own. */
  lemma OtherAccountsRefused(ctx: Context, s: System, key: Pubkey, a: Pubkey)
    requires Sane(ctx) && Inv(ctx, s)
    requires !(a in s.clients && RingAddress(ctx, a).Some? && key == RingAddress(ctx, a).value.0)
    ensures ExpectRing(ctx, key, Get(s.world, key), a).Err?
  {
    if ExpectRing(ctx, key, Get(s.world, key), a).Ok? {
      ExpectedRingIsOwn(ctx, s, key, a);
      assert false;
    }
  }

  /** The ring account of a client carries its history, and passes for its authority. */
  lemma OwnRing(ctx: Context, run: seq<System>, i: nat, a: Pubkey, key: Pubkey)
    requires Sane(ctx) && Run(ctx, run) && i < |run| && a in run[i].clients
    requires RingAddress(ctx, a).Some? && key == RingAddress(ctx, a).value.0
    ensures Chained(ctx, run[i].clients[a]) && ExpectRing(ctx, key, Get(run[i].world, key), a) == Ok(())
    ensures Get(run[i].world, key).data == RingAfter(RingAddress(ctx, a).value.1, HistoryOf(run[i].clients[a].accepted))
  {
    ReachableHolds(ctx, run, i, a);
    OwnAccountsExpected(ctx, run[i].world, a, run[i].clients[a]);
  }

  /**
   `assert_finalized` at an epoch the client accepted, whatever the guest
   guarantees: the record answers until a later one takes its slot.
   */
  lemma AssertFinalizedAccepted(ctx: Context, run: seq<System>, i: nat, a: Pubkey, k: nat, root: Bytes32, key: Pubkey)
    requires Sane(ctx) && Run(ctx, run) && i < |run| && a in run[i].clients && k < |run[i].clients[a].accepted|
    requires RingAddress(ctx, a).Some? && key == RingAddress(ctx, a).value.0
    ensures var c := run[i].clients[a];
      var o := c.accepted[k].output;
      FinalizedAsserted(ctx, key, Get(run[i].world, key), a, o.finalizedEpoch, root)
      == if !InRing(HistoryOf(c.accepted), k) then Err(EpochNotInRing)
         else if o.finalizedRoot == root then Ok(()) else Err(CheckpointNotFinalized)
  {
    OwnRing(ctx, run, i, a, key);
    var c := run[i].clients[a];
    HistoryIsIncreasing(ctx, c);
    EntryIffInRing(RingAddress(ctx, a).value.1, HistoryOf(c.accepted), k);
  }

  /** And at any other epoch there is no answer. */
  lemma AssertFinalizedUnknown(ctx: Context, run: seq<System>, i: nat, a: Pubkey, epoch: U64, root: Bytes32,
                               key: Pubkey)
    requires Sane(ctx) && Run(ctx, run) && i < |run| && a in run[i].clients
    requires RingAddress(ctx, a).Some? && key == RingAddress(ctx, a).value.0
    requires forall k: nat | k < |run[i].clients[a].accepted| ::
         run[i].clients[a].accepted[k].output.finalizedEpoch != epoch
    ensures FinalizedAsserted(ctx, key, Get(run[i].world, key), a, epoch, root) == Err(EpochNotInRing)
  {
    OwnRing(ctx, run, i, a, key);
    UnknownEpoch(RingAddress(ctx, a).value.1, HistoryOf(run[i].clients[a].accepted), epoch);
  }

  /** Some accepted output whose record is still in the ring named the root. */
  ghost predicate NamedInRing(c: Client, root: Bytes32) {
    exists k: nat | k < |c.accepted| :: InRing(HistoryOf(c.accepted), k)
        && c.accepted[k].output.finalizedStateRoot == root
  }

  lemma ScanAnswer(bump: Byte, c: Client, root: Bytes32)
    ensures var found := EntryByStateRoot(RingAfter(bump, HistoryOf(c.accepted)), root);
      (found.Ok? <==> NamedInRing(c, root)) && (found.Err? ==> found.error == StateRootNotAnchored)
  {
    var log := HistoryOf(c.accepted);
    RootFoundIffInRing(bump, log, root);
    assert forall k: nat | k < |log| :: log[k].finalizedStateRoot == c.accepted[k].output.finalizedStateRoot;
  }

  /** `assert_anchored`, whatever the guest guarantees: exactly the roots of the records still in the ring. */
  lemma AssertAnchoredInRing(ctx: Context, run: seq<System>, i: nat, a: Pubkey, root: Bytes32, key: Pubkey)
    requires Sane(ctx) && Run(ctx, run) && i < |run| && a in run[i].clients
    requires RingAddress(ctx, a).Some? && key == RingAddress(ctx, a).value.0
    ensures AnchoredAsserted(ctx, key, Get(run[i].world, key), a, root)
         == if NamedInRing(run[i].clients[a], root) then Ok(()) else Err(StateRootNotAnchored)
  {
    OwnRing(ctx, run, i, a, key);
    ScanAnswer(RingAddress(ctx, a).value.1, run[i].clients[a], root);
  }

  /** What `assert_finalized` answers, from the client's history alone. */
  function FinalizedVerdict(c: Client, epoch: U64, root: Bytes32): Result<()> {
    var head := c.bootstrap.epoch + |c.accepted|;
    var oldest := if head - 127 > c.bootstrap.epoch + 1 then head - 127 else c.bootstrap.epoch + 1;
    if !(oldest <= epoch <= head) then Err(EpochNotInRing)
    else if c.accepted[epoch - c.bootstrap.epoch - 1].output.finalizedRoot == root then Ok(())
    else Err(CheckpointNotFinalized)
  }

  lemma WindowVerdict(c: Client, epoch: U64, root: Bytes32, answer: Result<FinalizationEntry>)
    requires var bootstrap, log := c.bootstrap.epoch, HistoryOf(c.accepted);
      answer == if Oldest(bootstrap, log) <= epoch <= Head(bootstrap, log) then Ok(log[epoch - bootstrap - 1])
                else Err(EpochNotInRing)
    ensures FinalizedVerdict(c, epoch, root)
         == match answer
            case Err(error) => Err(error)
            case Ok(entry) => if entry.finalizedRoot != root then Err(CheckpointNotFinalized) else Ok(())
  {
  }

  lemma EntryVerdict(bump: Byte, c: Client, epoch: U64, root: Bytes32, ring: seq<Byte>)
    requires Consecutive(c.bootstrap.epoch, HistoryOf(c.accepted)) && ring == RingAfter(bump, HistoryOf(c.accepted))
    ensures FinalizedVerdict(c, epoch, root)
         == match Entry(ring, epoch)
            case Err(error) => Err(error)
            case Ok(entry) => if entry.finalizedRoot != root then Err(CheckpointNotFinalized) else Ok(())
  {
    RingRefinesHistory(bump, c.bootstrap.epoch, HistoryOf(c.accepted), epoch);
    WindowVerdict(c, epoch, root, Entry(ring, epoch));
  }

  /**
   `assert_finalized` on an authority's ring, in every reachable state, for a
   client whose epochs have run on without a gap: inside the window of 128 epochs
   it says whether the history finalized that root, and outside it says only that
   the ring does not carry the epoch.
   */
  lemma AssertFinalizedVerdict(ctx: Context, run: seq<System>, i: nat, a: Pubkey, epoch: U64, root: Bytes32,
                               key: Pubkey)
    requires Sane(ctx) && Run(ctx, run) && i < |run| && a in run[i].clients
    requires AdjacentBelow(run[i].clients[a], |run[i].clients[a].accepted| - 1)
    requires RingAddress(ctx, a).Some? && key == RingAddress(ctx, a).value.0
    ensures FinalizedAsserted(ctx, key, Get(run[i].world, key), a, epoch, root)
         == FinalizedVerdict(run[i].clients[a], epoch, root)
  {
    OwnRing(ctx, run, i, a, key);
    var c := run[i].clients[a];
    HistoryIsConsecutive(ctx, c);
    EntryVerdict(RingAddress(ctx, a).value.1, c, epoch, root, Get(run[i].world, key).data);
  }

  /** One of the last 128 accepted outputs named the root. */
  predicate RecentlyNamed(c: Client, root: Bytes32) {
    exists k: nat | k < |c.accepted| :: |c.accepted| - k <= RING_ENTRIES
        && c.accepted[k].output.finalizedStateRoot == root
  }

  lemma RecentIsInRing(c: Client, root: Bytes32)
    requires Consecutive(c.bootstrap.epoch, HistoryOf(c.accepted))
    ensures NamedInRing(c, root) <==> RecentlyNamed(c, root)
  {
    var log := HistoryOf(c.accepted);
    forall k: nat | k < |log| ensures InRing(log, k) <==> |log| - k <= RING_ENTRIES {
      InWindowIffInRing(c.bootstrap.epoch, log, k);
    }
  }

  /** Without a gap, `assert_anchored` succeeds exactly when one of the last 128 outputs named the root. */
  lemma AssertAnchoredVerdict(ctx: Context, run: seq<System>, i: nat, a: Pubkey, root: Bytes32, key: Pubkey)
    requires Sane(ctx) && Run(ctx, run) && i < |run| && a in run[i].clients
    requires AdjacentBelow(run[i].clients[a], |run[i].clients[a].accepted| - 1)
    requires RingAddress(ctx, a).Some? && key == RingAddress(ctx, a).value.0
    ensures AnchoredAsserted(ctx, key, Get(run[i].world, key), a, root)
         == if RecentlyNamed(run[i].clients[a], root) then Ok(()) else Err(StateRootNotAnchored)
  {
    OwnRing(ctx, run, i, a, key);
    AssertAnchoredInRing(ctx, run, i, a, root, key);
    HistoryIsConsecutive(ctx, run[i].clients[a]);
    RecentIsInRing(run[i].clients[a], root);
  }

  /** The account is a client's state, and the proof is good for the key that client pinned. */
  ghost predicate VerifiableAt(ctx: Context, s: System, key: Pubkey, proof: CompressedProof, o: FinalizationOutput) {
    exists a: Pubkey :: a in s.clients && OwnsStateAt(ctx, a, key) && ctx.verify(proof, s.clients[a].bootstrap.vk, o)
  }

  predicate OwnsStateAt(ctx: Context, a: Pubkey, key: Pubkey) {
    StateAddress(ctx, a).Some? && StateAddress(ctx, a).value.0 == key
  }

  lemma VerifiedOnlyOf(ctx: Context, w: Ledger, a: Pubkey, c: Client, key: Pubkey, proof: CompressedProof,
                       o: FinalizationOutput)
    requires Holds(ctx, w, a, c) && OwnsStateAt(ctx, a, key)
    ensures VerifiedOnly(ctx, Get(w, key), proof, o)
         == if ctx.verify(proof, c.bootstrap.vk, o) then Ok(()) else Err(ProofVerificationFailed)
  {
    ClientStateReads(ctx, w, a, c);
    StateHolds(c, a, StateAddress(ctx, a).value.1);
  }

  /**
   `verify_only` on any account in every reachable state: it succeeds exactly
   when the account is some client's state and the proof is good for the key
   that client pinned at its bootstrap.
   */
  lemma VerifyOnlyVerdict(ctx: Context, run: seq<System>, i: nat, key: Pubkey, proof: CompressedProof,
                          o: FinalizationOutput)
    requires Sane(ctx) && Run(ctx, run) && i < |run|
    ensures VerifiedOnly(ctx, Get(run[i].world, key), proof, o).Ok? <==> VerifiableAt(ctx, run[i], key, proof, o)
  {
    RunKeeps(ctx, run, i);
    VerifyOnlyIn(ctx, run[i], key, proof, o);
  }

  lemma VerifyOnlyIn(ctx: Context, s: System, key: Pubkey, proof: CompressedProof, o: FinalizationOutput)
    requires Sane(ctx) && Inv(ctx, s)
    ensures VerifiedOnly(ctx, Get(s.world, key), proof, o).Ok? <==> VerifiableAt(ctx, s, key, proof, o)
  {
    if VerifiedOnly(ctx, Get(s.world, key), proof, o).Ok? {
      var a := TaggedState(ctx, s, key);
      VerifiedOnlyOf(ctx, s.world, a, s.clients[a], key, proof, o);
      assert OwnsStateAt(ctx, a, key);
    }
    forall a: Pubkey | a in s.clients && OwnsStateAt(ctx, a, key) && ctx.verify(proof, s.clients[a].bootstrap.vk, o)
      ensures VerifiedOnly(ctx, Get(s.world, key), proof, o).Ok?
    {
      VerifiedOnlyOf(ctx, s.world, a, s.clients[a], key, proof, o);
    }
  }

  // ---------------------------------------------------------------------------
  // initialize
  // ---------------------------------------------------------------------------

  /** What bootstrapping costs, given what the two addresses already hold. */
  function BootstrapCost(ctx: Context, state: Account, ring: Account): nat {
    Due(ctx.rent(LIGHT_CLIENT_LEN), state.lamports) + Due(ctx.rent(RING_LEN), ring.lamports)
  }

  lemma BootstrapVerdict(ctx: Context, key: Pubkey, authority: Account, state: Account, ring: Account,
                         bump: Byte, ringBump: Byte, b: Bootstrap)
    requires authority.owner == SYSTEM_PROGRAM && authority.data == []
    requires state.owner == SYSTEM_PROGRAM && state.data == [] && ring.owner == SYSTEM_PROGRAM && ring.data == []
    ensures Bootstrapped(ctx, key, authority, state, ring, bump, ringBump, b).Ok?
       <==> b.epoch + 1 < TWO_64 && authority.lamports >= BootstrapCost(ctx, state, ring)
    ensures Bootstrapped(ctx, key, authority, state, ring, bump, ringBump, b).Ok? ==>
              var three := Bootstrapped(ctx, key, authority, state, ring, bump, ringBump, b).value;
              && three.authority.lamports == authority.lamports - BootstrapCost(ctx, state, ring)
              && three.authority.lamports + three.state.lamports + three.ring.lamports
                 == authority.lamports + state.lamports + ring.lamports
  {
    PdaIgnoresPriorBalance(ctx, authority, state, LIGHT_CLIENT_LEN);
    if authority.lamports >= Due(ctx.rent(LIGHT_CLIENT_LEN), state.lamports) {
      var payer := authority.(lamports := authority.lamports - Due(ctx.rent(LIGHT_CLIENT_LEN), state.lamports));
      PdaIgnoresPriorBalance(ctx, payer, ring, RING_LEN);
    }
  }

  /** An authority's addresses before it bootstraps: unused, whatever lamports they hold. */
  lemma UnusedAddresses(ctx: Context, s: System, a: Pubkey, key: Pubkey)
    requires Sane(ctx) && Inv(ctx, s) && StateAddress(ctx, a).Some? && RingAddress(ctx, a).Some? && a !in s.clients
    requires key == StateAddress(ctx, a).value.0 || key == RingAddress(ctx, a).value.0
    ensures Get(s.world, key).owner == SYSTEM_PROGRAM && Get(s.world, key).data == []
  {
    AddressesApart(ctx, a, a);
    NotBelonging(ctx, s, a, key);
    assert Accounted(ctx, s, key);
  }

  /** `initialize` on an authority's own addresses, past the checks that only name them. */
  lemma InitializedVerdict(ctx: Context, a: Pubkey, authority: Account, sk: Pubkey, bump: Byte, state: Account,
                           rk: Pubkey, ringBump: Byte, ring: Account, b: Bootstrap)
    requires StateAddress(ctx, a) == Some((sk, bump)) && RingAddress(ctx, a) == Some((rk, ringBump))
    ensures Initialized(ctx, a, true, authority, sk, state, rk, ring, SYSTEM_PROGRAM, b)
         == if state.data != [] then Err(AccountAlreadyInitialized)
            else Bootstrapped(ctx, a, authority, state, ring, bump, ringBump, b)
  {
  }

  /**
   In every reachable state an authority's wallet can bootstrap exactly once:
   no balance anyone sends to its two addresses can block it, and nothing but a
   bootstrap already made, the last epoch, or too poor a wallet can.
   */
  lemma InitializeVerdict(ctx: Context, run: seq<System>, i: nat, a: Pubkey, b: Bootstrap, sk: Pubkey, rk: Pubkey)
    requires Sane(ctx) && Run(ctx, run) && i < |run|
    requires StateAddress(ctx, a).Some? && sk == StateAddress(ctx, a).value.0
    requires RingAddress(ctx, a).Some? && rk == RingAddress(ctx, a).value.0
    requires Get(run[i].world, a).owner == SYSTEM_PROGRAM && Get(run[i].world, a).data == []
    ensures var w := run[i].world;
      var outcome := Initialized(ctx, a, true, Get(w, a), sk, Get(w, sk), rk, Get(w, rk), SYSTEM_PROGRAM, b);
      && (outcome.Ok? <==> a !in run[i].clients && b.epoch + 1 < TWO_64
                           && Get(w, a).lamports >= BootstrapCost(ctx, Get(w, sk), Get(w, rk)))
      && (a in run[i].clients ==> outcome == Err(AccountAlreadyInitialized))
  {
    RunKeeps(ctx, run, i);
    var w, bump, ringBump := run[i].world, StateAddress(ctx, a).value.1, RingAddress(ctx, a).value.1;
    InitializedVerdict(ctx, a, Get(w, a), sk, bump, Get(w, sk), rk, ringBump, Get(w, rk), b);
    if a in run[i].clients {
      ClientStateWritten(ctx, w, a, run[i].clients[a]);
    } else {
      UnusedAddresses(ctx, run[i], a, sk);
      UnusedAddresses(ctx, run[i], a, rk);
      BootstrapVerdict(ctx, a, Get(w, a), Get(w, sk), Get(w, rk), bump, ringBump, b);
    }
  }
}
