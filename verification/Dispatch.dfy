/**
 `process_instruction` on the accounts the runtime loads, and that it does to
 them what the ledger model says it does (program/src/processor.rs).
 */
module Dispatch {
  import opened Bytes
  import opened Errors
  import opened Wire
  import opened Instruction
  import opened Runtime
  import opened Processor
  import opened World

  /** The accounts are these entries of the ledger. */
  ghost predicate Carries(accounts: seq<AccountInfo>, metas: seq<Meta>, w: Ledger)
    reads accounts, set a | a in accounts :: a.data
  {
    && |accounts| == |metas|
    && forall i | 0 <= i < |accounts| ::
         && accounts[i].key == metas[i].key && accounts[i].isSigner == metas[i].isSigner
         && accounts[i].Value() == Get(w, metas[i].key)
  }

  lemma TwoRewritten(w: Ledger, k: Pubkey, k': Pubkey, x: Account, y: Account, key: Pubkey)
    ensures Get(w[k := x][k' := y], key) == if key == k' then y else if key == k then x else Get(w, key)
  {
  }

  lemma ThreeRewritten(w: Ledger, k: Pubkey, k': Pubkey, k'': Pubkey, x: Account, y: Account, z: Account, key: Pubkey)
    ensures Get(w[k := x][k' := y][k'' := z], key)
         == if key == k'' then z else if key == k' then y else if key == k then x else Get(w, key)
  {
  }

  /** `initialize` on loaded accounts, every account accounted for. */
  method InitializeLoaded(ctx: Context, accounts: seq<AccountInfo>, b: Bootstrap, ghost spec: Result<Three>)
    returns (r: Result<()>)
    requires Loaded(accounts) && CollisionFree(ctx) && |accounts| >= 4
    requires forall i | 0 <= i < |accounts| && accounts[i].isSigner :: !IsDerived(ctx, accounts[i].key)
    requires spec
         == Initialized(ctx, accounts[0].key, accounts[0].isSigner, accounts[0].Value(),
                        accounts[1].key, accounts[1].Value(),
                                 accounts[2].key, accounts[2].Value(), accounts[3].key, b)
    modifies {accounts[0], accounts[1], accounts[2]}
    ensures spec.Err? ==> r == Err(spec.error)
    ensures spec.Ok? ==> r.Ok? && forall i | 0 <= i < |accounts| ::
              accounts[i].Value() == if accounts[i].key == accounts[2].key then spec.value.ring
                                     else if accounts[i].key == accounts[1].key then spec.value.state
                                     else if accounts[i].key == accounts[0].key then spec.value.authority
                                     else old(accounts[i].Value())
  {
    r := Processor.Initialize(ctx, accounts, b);
  }

  /** A key names one loaded object. */
  lemma SameObject(accounts: seq<AccountInfo>, i: nat, j: nat)
    requires Loaded(accounts) && i < |accounts| && j < |accounts|
    ensures accounts[i].key == accounts[j].key <==> accounts[i] == accounts[j]
  {
  }

  /** `submit_finalization` on loaded accounts, every account accounted for. */
  method SubmitLoaded(ctx: Context, accounts: seq<AccountInfo>, proof: CompressedProof, o: FinalizationOutput,
                      ghost spec: Result<(seq<Byte>, seq<Byte>)>) returns (r: Result<()>)
    requires Loaded(accounts) && |accounts| >= 2
    requires spec
         == Submitted(ctx, accounts[0].key, accounts[0].Value(), accounts[1].key, accounts[1].Value(), proof, o)
    modifies set a | a in accounts :: a.data
    ensures spec.Err? ==> r == Err(spec.error)
    ensures spec.Err? ==> forall i | 0 <= i < |accounts| :: accounts[i].Value() == old(accounts[i].Value())
    ensures spec.Ok? ==> r.Ok? && forall i | 0 <= i < |accounts| ::
              accounts[i].Value()
              == if accounts[i].key == accounts[1].key then old(accounts[1].Value()).(data := spec.value.1)
                 else if accounts[i].key == accounts[0].key then old(accounts[0].Value()).(data := spec.value.0)
                 else old(accounts[i].Value())
  {
    forall i: nat | i < |accounts|
      ensures accounts[i].key == accounts[0].key <==> accounts[i] == accounts[0]
      ensures accounts[i].key == accounts[1].key <==> accounts[i] == accounts[1]
    {
      SameObject(accounts, i, 0);
      SameObject(accounts, i, 1);
    }
    r := Processor.SubmitFinalization(ctx, accounts, proof, o);
    if spec.Err? {
      forall i | 0 <= i < |accounts| ensures accounts[i].Value() == old(accounts[i].Value()) {
        assert accounts[i] in accounts;
      }
    } else {
      assert accounts[0].Value() == old(accounts[0].Value()).(data := spec.value.0);
      assert accounts[1].Value() == old(accounts[1].Value()).(data := spec.value.1);
    }
  }

  method RunInitialize(ctx: Context, accounts: seq<AccountInfo>, ghost metas: seq<Meta>, ghost w: Ledger, b: Bootstrap)
    returns (r: Result<()>)
    requires Loaded(accounts) && Carries(accounts, metas, w) && CollisionFree(ctx) && Signable(ctx, metas)
    modifies if |accounts| < 3 then {} else {accounts[0], accounts[1], accounts[2]}
    ensures |accounts| < 4 ==> r == Err(NotEnoughAccountKeys)
    ensures |accounts| >= 4 ==>
              var after := InitializeOn(ctx, w, metas, b);
              && (after.Err? ==> r == Err(after.error))
              && (after.Ok? ==> r.Ok? && Carries(accounts, metas, after.value))
  {
    if |accounts| < 4 {
      return Err(NotEnoughAccountKeys);
    }
    ghost var spec :=
        Initialized(ctx, metas[0].key, metas[0].isSigner, Get(w, metas[0].key), metas[1].key, Get(w, metas[1].key),
                                  metas[2].key, Get(w, metas[2].key), metas[3].key, b);
    r := InitializeLoaded(ctx, accounts, b, spec);
    if spec.Ok? {
      forall i | 0 <= i < |accounts|
        ensures accounts[i].Value() == Get(InitializeOn(ctx, w, metas, b).value, metas[i].key)
      {
        ThreeRewritten(w, metas[0].key, metas[1].key, metas[2].key, spec.value.authority, spec.value.state,
                       spec.value.ring,
                       metas[i].key);
      }
    }
  }

  method RunSubmit(ctx: Context, accounts: seq<AccountInfo>, ghost metas: seq<Meta>, ghost w: Ledger,
                   proof: CompressedProof, o: FinalizationOutput) returns (r: Result<()>)
    requires Loaded(accounts) && Carries(accounts, metas, w)
    modifies set a | a in accounts :: a.data
    ensures r.Err? ==> Carries(accounts, metas, w)
    ensures |accounts| < 2 ==> r == Err(NotEnoughAccountKeys)
    ensures |accounts| >= 2 ==>
              var after := SubmitOn(ctx, w, metas, proof, o);
              && (after.Err? ==> r == Err(after.error))
              && (after.Ok? ==> r.Ok? && Carries(accounts, metas, after.value))
  {
    if |accounts| < 2 {
      return Err(NotEnoughAccountKeys);
    }
    ghost var s, k := metas[0].key, metas[1].key;
    ghost var spec := Submitted(ctx, s, Get(w, s), k, Get(w, k), proof, o);
    r := SubmitLoaded(ctx, accounts, proof, o, spec);
    if spec.Ok? {
      forall i | 0 <= i < |accounts|
        ensures accounts[i].Value() == Get(SubmitOn(ctx, w, metas, proof, o).value, metas[i].key)
      {
        TwoRewritten(w, s, k, Get(w, s).(data := spec.value.0), Get(w, k).(data := spec.value.1), metas[i].key);
      }
    }
  }

  /**
   Running an instruction on loaded accounts leaves in them what the ledger
   model leaves, and refuses with the same error. Only a refused `initialize`
   needs the runtime to put the accounts back.
   */
  method ProcessInstruction(ctx: Context, accounts: seq<AccountInfo>, data: seq<Byte>, ghost metas: seq<Meta>,
                            ghost w: Ledger)
    returns (r: Result<()>)
    requires Loaded(accounts) && Carries(accounts, metas, w) && CollisionFree(ctx) && Signable(ctx, metas)
    modifies accounts, set a | a in accounts :: a.data
    ensures var after := Process(ctx, w, metas, data);
      && (after.Err? ==> r == Err(after.error))
      && (after.Ok? ==> r.Ok? && Carries(accounts, metas, after.value))
    ensures r.Err? && !(Instruction.Unpack(data).Ok? && Instruction.Unpack(data).value.Initialize?)
         ==> Carries(accounts, metas, w)
  {
    var ix :- Instruction.Unpack(data);
    match ix {
      case Initialize(_, _, _, _, _) =>
        r := RunInitialize(ctx, accounts, metas, w, BootstrapOf(ix));
      case SubmitFinalization(proof, o) =>
        r := RunSubmit(ctx, accounts, metas, w, proof, o);
      case AssertFinalized(authority, epoch, root) =>
        r := Processor.AssertFinalized(ctx, accounts, authority, epoch, root);
      case AssertAnchored(authority, root) =>
        r := Processor.AssertAnchored(ctx, accounts, authority, root);
      case VerifyOnly(proof, o) =>
        r := Processor.VerifyOnly(ctx, accounts, proof, o);
    }
  }
}
