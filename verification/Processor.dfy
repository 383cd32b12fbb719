/** The instruction handlers (program/src/processor.rs). */
module Processor {
  import opened Bytes
  import opened Errors
  import opened State
  import opened Wire
  import opened Instruction
  import opened Runtime

  /** An account as the runtime hands it to the program: the buffers are updated in place. */
  class AccountInfo {
    const key: Pubkey
    const isSigner: bool
    var lamports: nat
    var owner: Pubkey
    var data: array<Byte>

    constructor (key: Pubkey, isSigner: bool, account: Account)
      ensures this.key == key && this.isSigner == isSigner && Value() == account && fresh(data)
    {
      this.key := key;
      this.isSigner := isSigner;
      lamports := account.lamports;
      owner := account.owner;
      data := new Byte[|account.data|](i requires 0 <= i < |account.data| => account.data[i]);
    }

    /** What the account holds. */
    function Value(): Account
      reads this, data
    {
      Account(lamports, owner, data[..])
    }
  }

  /** One object per address, one buffer per object. */
  ghost predicate Loaded(accounts: seq<AccountInfo>)
    reads accounts
  {
    forall i, j | 0 <= i < |accounts| && 0 <= j < |accounts| ::
      && (accounts[i].key == accounts[j].key ==> accounts[i] == accounts[j])
      && (accounts[i].data == accounts[j].data ==> accounts[i] == accounts[j])
  }

  // ---------------------------------------------------------------------------
  // Helpers
  // ---------------------------------------------------------------------------

  /** `expect_ring`: the owner, the ring's own bump, and one derivation. */
  function ExpectRing(ctx: Context, key: Pubkey, ring: Account, authority: Pubkey): Result<()> {
    if ring.owner != ctx.programId then
      Err(InvalidRingAccount)
    else
      var bump :- RingBump(ring.data);
      if ctx.derive(RingSeed(authority, bump)) != Some(key) then Err(InvalidRingAccount) else Ok(())
  }

  /** `expect_pda`: the account is the address the seeds find, and this is its bump. */
  function ExpectPda(key: Pubkey, found: Option<(Pubkey, Byte)>, error: Error): Result<Byte> {
    match found
    case None => Err(NoViableBump)
    case Some(pda) => if key != pda.0 then Err(error) else Ok(pda.1)
  }

  // ---------------------------------------------------------------------------
  // create_pda
  // ---------------------------------------------------------------------------

  /** The lamports an account needs beyond what it has. */
  function Due(rent: nat, prior: nat): nat {
    if rent > prior then rent - prior else 0
  }

  /** Payer and target after `create_pda`, branch by branch. */
  function PdaCreated(ctx: Context, payer: Account, target: Account, space: nat): Result<(Account, Account)> {
    var rent := ctx.rent(space);
    if target.lamports == 0 then
      CreateAccount(payer, target, rent, space, ctx.programId)
    else
      var funded :- if Due(rent, target.lamports) > 0 then Transfer(payer, target, Due(rent, target.lamports))
          else Ok((payer, target));
      var zeroed :- Allocate(funded.1, space);
      Ok((funded.0, zeroed.(owner := ctx.programId)))
  }

  method CreatePda(ctx: Context, payer: AccountInfo, target: AccountInfo, space: nat) returns (r: Result<()>)
    requires payer != target && payer.data != target.data
    modifies payer`lamports, target`lamports, target`owner, target`data
    ensures var spec := old(PdaCreated(ctx, payer.Value(), target.Value(), space));
      && (spec.Err? ==> r == Err(spec.error))
      && (spec.Ok? ==> r.Ok? && payer.Value() == spec.value.0 && target.Value() == spec.value.1 && fresh(target.data))
  {
    var rent := ctx.rent(space);
    if target.lamports == 0 {
      var created :- CreateAccount(payer.Value(), target.Value(), rent, space, ctx.programId);
      payer.lamports := created.0.lamports;
      target.lamports := created.1.lamports;
      target.data := new Byte[space](_ => 0);
      target.owner := ctx.programId;
      assert target.data[..] == Zeros(space);
      return Ok(());
    }
    var topUp := Due(rent, target.lamports);
    if topUp > 0 {
      var funded :- Transfer(payer.Value(), target.Value(), topUp);
      payer.lamports := funded.0.lamports;
      target.lamports := funded.1.lamports;
    }
    var zeroed :- Allocate(target.Value(), space);
    target.data := new Byte[space](_ => 0);
    assert target.data[..] == Zeros(space);
    target.owner := ctx.programId;
    return Ok(());
  }

  /**
   An empty target ends up the same account whatever it held before: zeroed,
   owned by the program, with the larger of its balance and the rent. The payer
   is debited exactly the difference, and nothing is minted or lost. It is
   refused exactly when the payer cannot cover what is due.
   */
  lemma PdaIgnoresPriorBalance(ctx: Context, payer: Account, target: Account, space: nat)
    requires target.owner == SYSTEM_PROGRAM && target.data == []
    requires payer.owner == SYSTEM_PROGRAM && payer.data == []
    ensures var rent := ctx.rent(space);
      var due := Due(rent, target.lamports);
      PdaCreated(ctx, payer, target, space)
      == if payer.lamports < due then Err(InsufficientFunds)
         else Ok((payer.(lamports := payer.lamports - due),
                  Account(if target.lamports > rent then target.lamports else rent, ctx.programId, Zeros(space))))
  {
  }

  /** Whatever the accounts, success conserves lamports. */
  lemma PdaConservesLamports(ctx: Context, payer: Account, target: Account, space: nat)
    ensures PdaCreated(ctx, payer, target, space).Ok? ==>
              var after := PdaCreated(ctx, payer, target, space).value;
              after.0.lamports + after.1.lamports == payer.lamports + target.lamports
  {
  }

  // ---------------------------------------------------------------------------
  // initialize
  // ---------------------------------------------------------------------------

  /** The bootstrap checkpoint and the guest key: `initialize`'s arguments. */
  datatype Bootstrap = Bootstrap(accumulator: Bytes32, stateRoot: Bytes32, epoch: U64, root: Bytes32, vk: Bytes32)

  /** The state a bootstrap writes. */
  function InitialState(b: Bootstrap, authority: Pubkey, bump: Byte): LightClientState
    requires b.epoch + 1 < TWO_64
  {
    LightClientState(bump, authority, b.accumulator, b.stateRoot, b.epoch, b.root, b.vk, 0, b.epoch + 1)
  }

  datatype Three = Three(authority: Account, state: Account, ring: Account)

  /** What creating and stamping the two accounts leaves, once the checks have passed. */
  function Bootstrapped(ctx: Context, authorityKey: Pubkey, authority: Account, state: Account, ring: Account,
                        bump: Byte, ringBump: Byte, b: Bootstrap): Result<Three> {
    var first :- PdaCreated(ctx, authority, state, LIGHT_CLIENT_LEN);
    if b.epoch + 1 >= TWO_64 then Err(ArithmeticOverflow)
    else
      var second :- PdaCreated(ctx, first.0, ring, RING_LEN);
      Ok(Three(second.0, first.1.(data := Pack(InitialState(b, authorityKey, bump))),
               second.1.(data := FreshRing(ringBump))))
  }

  /** Authority, state and ring accounts after `initialize`. */
  function Initialized(ctx: Context, authorityKey: Pubkey, signed: bool, authority: Account, stateKey: Pubkey,
                       state: Account,
                       ringKey: Pubkey, ring: Account, systemKey: Pubkey, b: Bootstrap): Result<Three> {
    if !signed then Err(MissingSigner)
    else if systemKey != SYSTEM_PROGRAM then Err(IncorrectProgramId)
    else
      var bump :- ExpectPda(stateKey, StateAddress(ctx, authorityKey), InvalidStateAccount);
      var ringBump :- ExpectPda(ringKey, RingAddress(ctx, authorityKey), InvalidRingAccount);
      if state.data != [] then Err(AccountAlreadyInitialized)
      else Bootstrapped(ctx, authorityKey, authority, state, ring, bump, ringBump, b)
  }

  method CreateAccounts(ctx: Context, authority: AccountInfo, state: AccountInfo, ring: AccountInfo,
                        bump: Byte, ringBump: Byte, b: Bootstrap) returns (r: Result<()>)
    requires authority != state && authority != ring && state != ring
    requires authority.data != state.data && authority.data != ring.data && state.data != ring.data
    modifies authority, state, ring
    ensures var spec :=
         old(Bootstrapped(ctx, authority.key, authority.Value(), state.Value(), ring.Value(), bump, ringBump, b));
      && (spec.Err? ==> r == Err(spec.error))
      && (spec.Ok? ==> r.Ok? && authority.Value() == spec.value.authority
                       && state.Value() == spec.value.state && ring.Value() == spec.value.ring)
  {
    var created := CreatePda(ctx, authority, state, LIGHT_CLIENT_LEN);
    if created.Err? {
      return created;
    }
    if b.epoch + 1 >= TWO_64 {
      return Err(ArithmeticOverflow);
    }
    var packed := PackInto(InitialState(b, authority.key, bump), state.data);

    created := CreatePda(ctx, authority, ring, RING_LEN);
    if created.Err? {
      return created;
    }
    ghost var zeroed := ring.data[..];
    var stamped := RingInit(ring.data, ringBump);
    assert packed.Ok? && stamped.Ok?;
    assert zeroed == Zeros(RING_LEN);
    assert ring.data[..] == FreshRing(ringBump);
    return Ok(());
  }

  method Initialize(ctx: Context, accounts: seq<AccountInfo>, b: Bootstrap) returns (r: Result<()>)
    requires Loaded(accounts) && CollisionFree(ctx)
    requires forall i | 0 <= i < |accounts| && accounts[i].isSigner :: !IsDerived(ctx, accounts[i].key)
    modifies if |accounts| < 3 then {} else {accounts[0], accounts[1], accounts[2]}
    ensures |accounts| < 4 ==> r == Err(NotEnoughAccountKeys)
    ensures |accounts| >= 4 ==>
              var spec := old(Initialized(ctx, accounts[0].key, accounts[0].isSigner, accounts[0].Value(),
                                          accounts[1].key, accounts[1].Value(), accounts[2].key, accounts[2].Value(),
                                          accounts[3].key, b));
              && (spec.Err? ==> r == Err(spec.error))
              && (spec.Ok? ==> r.Ok? && accounts[0].Value() == spec.value.authority
                               && accounts[1].Value() == spec.value.state && accounts[2].Value() == spec.value.ring)
  {
    if |accounts| < 4 {
      return Err(NotEnoughAccountKeys);
    }
    var authority, state, ring, system := accounts[0], accounts[1], accounts[2], accounts[3];
    if !authority.isSigner {
      return Err(MissingSigner);
    }
    if system.key != SYSTEM_PROGRAM {
      return Err(IncorrectProgramId);
    }
    var bump :- ExpectPda(state.key, StateAddress(ctx, authority.key), InvalidStateAccount);
    var ringBump :- ExpectPda(ring.key, RingAddress(ctx, authority.key), InvalidRingAccount);
    DistinctAccounts(ctx, authority.key, state.key, ring.key, bump, ringBump);
    if state.data.Length != 0 {
      return Err(AccountAlreadyInitialized);
    }
    assert state.Value().data == [];
    r := CreateAccounts(ctx, authority, state, ring, bump, ringBump, b);
  }

  /** The signer is no derived address, and the two seed strings do not collide. */
  lemma DistinctAccounts(ctx: Context, authority: Pubkey, stateKey: Pubkey, ringKey: Pubkey, bump: Byte, ringBump: Byte)
    requires CollisionFree(ctx) && !IsDerived(ctx, authority)
    requires ctx.derive(StateSeed(authority, bump)) == Some(stateKey)
    requires ctx.derive(RingSeed(authority, ringBump)) == Some(ringKey)
    ensures authority != stateKey && authority != ringKey && stateKey != ringKey
  {
    SeedsInjective(authority, bump, authority, ringBump);
  }

  // ---------------------------------------------------------------------------
  // submit_finalization
  // ---------------------------------------------------------------------------

  /** The state an accepted output moves the client to. */
  function Advanced(s: LightClientState, o: FinalizationOutput): LightClientState
    requires s.submissionCount + 1 < TWO_64
  {
    s.(accumulatorCommitment := o.nextAccumulatorCommitment,
       accumulatorEpoch := o.justifiedEpoch,
       latestStateRoot := o.finalizedStateRoot,
       finalizedEpoch := o.finalizedEpoch,
       finalizedRoot := o.finalizedRoot,
       submissionCount := s.submissionCount + 1)
  }

  function EntryOf(o: FinalizationOutput): FinalizationEntry {
    FinalizationEntry(o.finalizedEpoch, o.finalizedRoot, o.finalizedStateRoot)
  }

  /** The state a submission may run against: the program's own account, at the address it names. */
  function ExpectState(ctx: Context, key: Pubkey, account: Account): Result<LightClientState> {
    if account.owner != ctx.programId then
      Err(InvalidStateAccount)
    else
      var state :- UnpackState(account.data);
      if ctx.derive(StateSeed(state.authority, state.bump)) != Some(key) then Err(InvalidStateAccount) else Ok(state)
  }

  /** The three cheap refusals, in the order that names the right one. */
  function Extends(s: LightClientState, o: FinalizationOutput): Result<()> {
    if o.finalizedEpoch <= s.finalizedEpoch then Err(EpochNotAdvancing)
    else if s.accumulatorEpoch != o.finalizedEpoch then Err(AccumulatorEpochMismatch)
    else if s.accumulatorCommitment != o.accumulatorCommitment then Err(AccumulatorMismatch)
    else Ok(())
  }

  /** State and ring bytes after `submit_finalization`. */
  function Submitted(ctx: Context, stateKey: Pubkey, state: Account, ringKey: Pubkey, ring: Account,
                     proof: CompressedProof, o: FinalizationOutput): (r: Result<(seq<Byte>, seq<Byte>)>)
    ensures r.Ok? ==> |state.data| >= LIGHT_CLIENT_LEN && |ring.data| >= RING_LEN
    ensures r.Ok? ==> state.data[0] == TAG_LIGHT_CLIENT && ring.data[0] == TAG_FINALIZATION_RING
  {
    var s :- ExpectState(ctx, stateKey, state);
    var advancing :- Extends(s, o);
    var expected :- ExpectRing(ctx, ringKey, ring, s.authority);
    if !ctx.verify(proof, s.programVk, o) then Err(ProofVerificationFailed)
    else if s.submissionCount + 1 >= TWO_64 then Err(ArithmeticOverflow)
    else Ok((Pack(Advanced(s, o)) + state.data[LIGHT_CLIENT_LEN..], RingWritten(ring.data, EntryOf(o))))
  }

  /**
   Both buffers change or neither does, with no help from the runtime: every
   refusal comes before the first write. The two accounts may be one object.
   */
  method SubmitFinalization(ctx: Context, accounts: seq<AccountInfo>, proof: CompressedProof, o: FinalizationOutput)
    returns (r: Result<()>)
    requires Loaded(accounts)
    modifies set a | a in accounts :: a.data
    ensures |accounts| < 2 ==> r == Err(NotEnoughAccountKeys)
    ensures |accounts| >= 2 ==>
              var spec := old(Submitted(ctx, accounts[0].key, accounts[0].Value(), accounts[1].key, accounts[1].Value(),
                                        proof, o));
              && (spec.Err? ==> r == Err(spec.error))
              && (spec.Ok? ==> r.Ok? && accounts[0] != accounts[1]
                               && accounts[0].data[..] == spec.value.0 && accounts[1].data[..] == spec.value.1)
    ensures r.Err? ==> forall a | a in accounts :: a.data[..] == old(a.data[..])
    ensures forall i | 0 <= i < |accounts| && accounts[i] != accounts[0] && accounts[i] != accounts[1] ::
              accounts[i].data[..] == old(accounts[i].data[..])
  {
    if |accounts| < 2 {
      return Err(NotEnoughAccountKeys);
    }
    var stateInfo, ringInfo := accounts[0], accounts[1];
    if stateInfo.owner != ctx.programId {
      return Err(InvalidStateAccount);
    }
    var state :- UnpackState(stateInfo.data[..]);
    var authority := state.authority;
    if ctx.derive(StateSeed(authority, state.bump)) != Some(stateInfo.key) {
      return Err(InvalidStateAccount);
    }
    if o.finalizedEpoch <= state.finalizedEpoch {
      return Err(EpochNotAdvancing);
    }
    if state.accumulatorEpoch != o.finalizedEpoch {
      return Err(AccumulatorEpochMismatch);
    }
    if state.accumulatorCommitment != o.accumulatorCommitment {
      return Err(AccumulatorMismatch);
    }
    var expected :- ExpectRing(ctx, ringInfo.key, ringInfo.Value(), authority);
    if !ctx.verify(proof, state.programVk, o) {
      return Err(ProofVerificationFailed);
    }
    assert stateInfo != ringInfo;

    state := state.(accumulatorCommitment := o.nextAccumulatorCommitment);
    state := state.(accumulatorEpoch := o.justifiedEpoch);
    state := state.(latestStateRoot := o.finalizedStateRoot);
    state := state.(finalizedEpoch := o.finalizedEpoch);
    state := state.(finalizedRoot := o.finalizedRoot);
    if state.submissionCount + 1 >= TWO_64 {
      return Err(ArithmeticOverflow);
    }
    state := state.(submissionCount := state.submissionCount + 1);
    var packed := PackInto(state, stateInfo.data);
    var written := RingWrite(ringInfo.data, EntryOf(o));
    assert packed.Ok? && written.Ok?;
    return Ok(());
  }

  // ---------------------------------------------------------------------------
  // verify_only and the read path
  // ---------------------------------------------------------------------------

  /** `verify_only`: no authority, no derivation, nothing written. */
  function VerifiedOnly(ctx: Context, account: Account, proof: CompressedProof, o: FinalizationOutput): Result<()> {
    if account.owner != ctx.programId then
      Err(InvalidStateAccount)
    else
      var state :- UnpackState(account.data);
      if ctx.verify(proof, state.programVk, o) then Ok(()) else Err(ProofVerificationFailed)
  }

  function FinalizedAsserted(ctx: Context, key: Pubkey, ring: Account, authority: Pubkey, epoch: U64,
                             root: Bytes32): Result<()> {
    var expected :- ExpectRing(ctx, key, ring, authority);
    var entry :- Entry(ring.data, epoch);
    if entry.finalizedRoot != root then Err(CheckpointNotFinalized) else Ok(())
  }

  function AnchoredAsserted(ctx: Context, key: Pubkey, ring: Account, authority: Pubkey, root: Bytes32): Result<()> {
    var expected :- ExpectRing(ctx, key, ring, authority);
    var entry :- EntryByStateRoot(ring.data, root);
    Ok(())
  }

  method VerifyOnly(ctx: Context, accounts: seq<AccountInfo>, proof: CompressedProof, o: FinalizationOutput)
    returns (r: Result<()>)
    ensures r == if accounts == [] then Err(NotEnoughAccountKeys) else VerifiedOnly(ctx, accounts[0].Value(), proof, o)
  {
    if |accounts| < 1 {
      return Err(NotEnoughAccountKeys);
    }
    var stateInfo := accounts[0];
    if stateInfo.owner != ctx.programId {
      return Err(InvalidStateAccount);
    }
    var state :- UnpackState(stateInfo.data[..]);
    if !ctx.verify(proof, state.programVk, o) {
      return Err(ProofVerificationFailed);
    }
    return Ok(());
  }

  method AssertFinalized(ctx: Context, accounts: seq<AccountInfo>, authority: Pubkey, epoch: U64, root: Bytes32)
    returns (r: Result<()>)
    ensures r == if accounts == [] then Err(NotEnoughAccountKeys)
                 else FinalizedAsserted(ctx, accounts[0].key, accounts[0].Value(), authority, epoch, root)
  {
    if |accounts| < 1 {
      return Err(NotEnoughAccountKeys);
    }
    var ringInfo := accounts[0];
    var expected :- ExpectRing(ctx, ringInfo.key, ringInfo.Value(), authority);
    var entry :- Entry(ringInfo.data[..], epoch);
    if entry.finalizedRoot != root {
      return Err(CheckpointNotFinalized);
    }
    return Ok(());
  }

  method AssertAnchored(ctx: Context, accounts: seq<AccountInfo>, authority: Pubkey, root: Bytes32)
    returns (r: Result<()>)
    ensures r == if accounts == [] then Err(NotEnoughAccountKeys)
                 else AnchoredAsserted(ctx, accounts[0].key, accounts[0].Value(), authority, root)
  {
    if |accounts| < 1 {
      return Err(NotEnoughAccountKeys);
    }
    var ringInfo := accounts[0];
    var expected :- ExpectRing(ctx, ringInfo.key, ringInfo.Value(), authority);
    var entry :- EntryByStateRoot(ringInfo.data[..], root);
    return Ok(());
  }
}
