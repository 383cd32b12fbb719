/**
 The whole chain as the program sees it: a map from addresses to accounts, the
 transactions anyone may send, and everything other programs may do meanwhile.
 */
module World {
  import opened Bytes
  import opened Errors
  import opened State
  import opened Ring
  import opened Wire
  import opened Instruction
  import opened Runtime
  import opened Processor

  type Ledger = map<Pubkey, Account>

  /** An address nobody has touched holds nothing and belongs to the system program. */
  function Get(w: Ledger, key: Pubkey): Account {
    if key in w then w[key] else Account(0, SYSTEM_PROGRAM, [])
  }

  /** An account a transaction names, and whether its key signed. */
  datatype Meta = Meta(key: Pubkey, isSigner: bool)

  function BootstrapOf(ix: ZkasperInstruction): Bootstrap
    requires ix.Initialize?
  {
    Bootstrap(ix.accumulatorCommitment, ix.latestStateRoot, ix.finalizedEpoch, ix.finalizedRoot, ix.programVk)
  }

  /** `process_instruction` over the ledger; a refusal is rolled back. */
  function Process(ctx: Context, w: Ledger, metas: seq<Meta>, data: seq<Byte>): Result<Ledger> {
    var ix :- Instruction.Unpack(data);
    Dispatched(ctx, w, metas, ix)
  }

  /** `submit_finalization` over the ledger. */
  function SubmitOn(ctx: Context, w: Ledger, metas: seq<Meta>, proof: CompressedProof,
                    o: FinalizationOutput): Result<Ledger>
    requires |metas| >= 2
  {
    var s, r := metas[0].key, metas[1].key;
    var bytes :- Submitted(ctx, s, Get(w, s), r, Get(w, r), proof, o);
    Ok(w[s := Get(w, s).(data := bytes.0)][r := Get(w, r).(data := bytes.1)])
  }

  /** `initialize` over the ledger. */
  function InitializeOn(ctx: Context, w: Ledger, metas: seq<Meta>, b: Bootstrap): Result<Ledger>
    requires |metas| >= 4
  {
    var a, s, r := metas[0].key, metas[1].key, metas[2].key;
    var three :- Initialized(ctx, a, metas[0].isSigner, Get(w, a), s, Get(w, s), r, Get(w, r), metas[3].key, b);
    Ok(w[a := three.authority][s := three.state][r := three.ring])
  }

  /** The ledger after one decoded instruction. */
  function Dispatched(ctx: Context, w: Ledger, metas: seq<Meta>, ix: ZkasperInstruction): Result<Ledger> {
    match ix
    case Initialize(_, _, _, _, _) =>
      if |metas| < 4 then Err(NotEnoughAccountKeys) else InitializeOn(ctx, w, metas, BootstrapOf(ix))
    case SubmitFinalization(proof, o) =>
      if |metas| < 2 then Err(NotEnoughAccountKeys) else SubmitOn(ctx, w, metas, proof, o)
    case AssertFinalized(authority, epoch, root) =>
      if |metas| < 1 then Err(NotEnoughAccountKeys)
      else
        var asserted :- FinalizedAsserted(ctx, metas[0].key, Get(w, metas[0].key), authority, epoch, root);
        Ok(w)
    case AssertAnchored(authority, root) =>
      if |metas| < 1 then Err(NotEnoughAccountKeys)
      else
        var asserted :- AnchoredAsserted(ctx, metas[0].key, Get(w, metas[0].key), authority, root);
        Ok(w)
    case VerifyOnly(proof, o) =>
      if |metas| < 1 then Err(NotEnoughAccountKeys)
      else
        var verified :- VerifiedOnly(ctx, Get(w, metas[0].key), proof, o);
        Ok(w)
  }

  // ---------------------------------------------------------------------------
  // What each authority's client has been through
  // ---------------------------------------------------------------------------

  datatype Accepted = Accepted(proof: CompressedProof, output: FinalizationOutput)

  /** A light client: what it was bootstrapped with, and every finalization it accepted. */
  datatype Client = Client(bootstrap: Bootstrap, accepted: seq<Accepted>)

  datatype System = System(world: Ledger, clients: map<Pubkey, Client>)

  /** The bookkeeping of an accepted transaction. */
  function Recorded(s: System, metas: seq<Meta>, ix: ZkasperInstruction): map<Pubkey, Client> {
    if ix.Initialize? && |metas| > 0 then
      s.clients[metas[0].key := Client(BootstrapOf(ix), [])]
    else if ix.SubmitFinalization? && |metas| > 0 then
      match UnpackState(Get(s.world, metas[0].key).data)
      case Err(_) => s.clients
      case Ok(state) =>
        if state.authority in s.clients then
          s.clients[state.authority := Next(s.clients[state.authority], ix.proof, ix.output)]
        else s.clients
    else s.clients
  }

  /** The client after one more accepted finalization. */
  function Next(c: Client, proof: CompressedProof, o: FinalizationOutput): Client {
    c.(accepted := c.accepted + [Accepted(proof, o)])
  }

  predicate AllZero(data: seq<Byte>) {
    forall i | 0 <= i < |data| :: data[i] == 0
  }

  /**
   What happens between this program's transactions: lamports may move in
   anywhere; other programs do as they like with their own accounts, and may
   hand this program a zero-filled account, though never at an address it
   derives. This program's accounts and addresses are otherwise left alone.
   */
  ghost predicate Elsewhere(ctx: Context, w: Ledger, w': Ledger) {
    forall key: Pubkey {:trigger Get(w', key)} ::
      var before, after := Get(w, key), Get(w', key);
      if before.owner == ctx.programId then
        after.owner == ctx.programId && after.data == before.data && after.lamports >= before.lamports
      else if IsDerived(ctx, key) then
        after.owner == before.owner && after.data == before.data && after.lamports >= before.lamports
      else
        after.owner == ctx.programId ==> AllZero(after.data)
  }

  /** No address this program derives has a private key. */
  ghost predicate Signable(ctx: Context, metas: seq<Meta>) {
    forall i | 0 <= i < |metas| && metas[i].isSigner :: !IsDerived(ctx, metas[i].key)
  }

  /** One transaction, accepted or refused. */
  ghost predicate Transaction(ctx: Context, s: System, metas: seq<Meta>, data: seq<Byte>, s': System) {
    && Signable(ctx, metas)
    && match Process(ctx, s.world, metas, data)
       case Err(_) => s' == s
       case Ok(w) => s' == System(w, Recorded(s, metas, Instruction.Unpack(data).value))
  }

  ghost predicate Step(ctx: Context, s: System, s': System) {
    || (exists metas: seq<Meta>, data: seq<Byte> :: Transaction(ctx, s, metas, data, s'))
    || (Elsewhere(ctx, s.world, s'.world) && s'.clients == s.clients)
  }

  /** Before the program has run: its accounts are blank and its addresses are unused. */
  ghost predicate Start(ctx: Context, s: System) {
    && s.clients == map[]
    && forall key: Pubkey {:trigger Get(s.world, key)} ::
         var account := Get(s.world, key);
         && (account.owner == ctx.programId ==> AllZero(account.data) && !IsDerived(ctx, key))
         && (IsDerived(ctx, key) ==> account.owner == SYSTEM_PROGRAM && account.data == [])
  }

  ghost predicate StepAt(ctx: Context, run: seq<System>, i: nat)
    requires 0 < i < |run|
  {
    Step(ctx, run[i - 1], run[i])
  }

  ghost predicate Run(ctx: Context, run: seq<System>) {
    && |run| > 0
    && Start(ctx, run[0])
    && forall i: nat | 0 < i < |run| :: StepAt(ctx, run, i)
  }

  // ---------------------------------------------------------------------------
  // The bytes a client's history determines
  // ---------------------------------------------------------------------------

  /** The state after a history, its fields taken from the last accepted output. */
  function StateOf(c: Client, authority: Pubkey, bump: Byte): LightClientState
    requires c.bootstrap.epoch + 1 < TWO_64 && |c.accepted| < TWO_64
  {
    if c.accepted == [] then InitialState(c.bootstrap, authority, bump)
    else
      var o := c.accepted[|c.accepted| - 1].output;
      LightClientState(bump, authority, o.nextAccumulatorCommitment, o.finalizedStateRoot, o.finalizedEpoch,
                       o.finalizedRoot, c.bootstrap.vk, |c.accepted|, o.justifiedEpoch)
  }

  /** The entries a history wrote, in order. */
  function HistoryOf(accepted: seq<Accepted>): (log: History)
    ensures |log| == |accepted|
    ensures forall k | 0 <= k < |log| :: log[k] == EntryOf(accepted[k].output)
  {
    seq(|accepted|, k requires 0 <= k < |accepted| => EntryOf(accepted[k].output))
  }

  /** The epoch and accumulator entry k must start from. */
  function HeldEpoch(c: Client, k: nat): int
    requires k <= |c.accepted|
  {
    if k == 0 then c.bootstrap.epoch + 1 else c.accepted[k - 1].output.justifiedEpoch
  }

  function HeldAccumulator(c: Client, k: nat): Bytes32
    requires k <= |c.accepted|
  {
    if k == 0 then c.bootstrap.accumulator else c.accepted[k - 1].output.nextAccumulatorCommitment
  }

  function HeadEpoch(c: Client, k: nat): int
    requires k <= |c.accepted|
  {
    if k == 0 then c.bootstrap.epoch else c.accepted[k - 1].output.finalizedEpoch
  }

  /** Entry k was proved under the pinned key and links on to what the client then held. */
  ghost predicate Linked(ctx: Context, c: Client, k: nat)
    requires k < |c.accepted|
  {
    var o := c.accepted[k].output;
    && ctx.verify(c.accepted[k].proof, c.bootstrap.vk, o)
    && o.finalizedEpoch == HeldEpoch(c, k)
    && o.finalizedEpoch > HeadEpoch(c, k)
    && o.accumulatorCommitment == HeldAccumulator(c, k)
  }

  ghost predicate Chained(ctx: Context, c: Client) {
    && c.bootstrap.epoch + 1 < TWO_64
    && forall k: nat | k < |c.accepted| :: Linked(ctx, c, k)
  }

  /** Both of an authority's accounts exist and hold exactly what its history determines. */
  ghost predicate Holds(ctx: Context, w: Ledger, authority: Pubkey, c: Client) {
    && Chained(ctx, c)
    && |c.accepted| < TWO_64
    && StateAddress(ctx, authority).Some? && RingAddress(ctx, authority).Some?
    && var (stateKey, bump) := StateAddress(ctx, authority).value;
       var (ringKey, ringBump) := RingAddress(ctx, authority).value;
       && Get(w, stateKey).owner == ctx.programId
       && Get(w, stateKey).data == Pack(StateOf(c, authority, bump))
       && Get(w, ringKey).owner == ctx.programId
       && Get(w, ringKey).data == RingAfter(ringBump, HistoryOf(c.accepted))
  }

  /** The address is the state or ring address of a client. */
  ghost predicate Belongs(ctx: Context, clients: map<Pubkey, Client>, key: Pubkey, authority: Pubkey) {
    && authority in clients
    && ((StateAddress(ctx, authority).Some? && StateAddress(ctx, authority).value.0 == key)
        || (RingAddress(ctx, authority).Some? && RingAddress(ctx, authority).value.0 == key))
  }

  /** Nothing else: an account of the program's that is not blank, or is at a derived address, is a client's. */
  ghost predicate Accounted(ctx: Context, s: System, key: Pubkey) {
    var account := Get(s.world, key);
    && (account.owner == ctx.programId && (IsDerived(ctx, key) || !AllZero(account.data)) ==>
          exists authority: Pubkey :: Belongs(ctx, s.clients, key, authority))
    && (account.owner != ctx.programId && IsDerived(ctx, key) ==> account.owner == SYSTEM_PROGRAM && account.data == [])
  }

  /** The invariant: every client's accounts are its history's bytes, and there are no others. */
  ghost predicate Inv(ctx: Context, s: System) {
    && (forall authority: Pubkey | authority in s.clients :: Holds(ctx, s.world, authority, s.clients[authority]))
    && (forall key: Pubkey :: Accounted(ctx, s, key))
  }
}
