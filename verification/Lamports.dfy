/**
 Balances over whole runs: nothing drains a client's accounts, and no
 transaction mints (program/src/processor.rs).
 */
module Lamports {
  import opened Bytes
  import opened Errors
  import opened State
  import opened Wire
  import opened Instruction
  import opened Runtime
  import opened Processor
  import opened World
  import opened Invariant
  import opened Safety

  // ---------------------------------------------------------------------------
  // One instruction
  // ---------------------------------------------------------------------------

  /** Creating an account leaves it with its rent, takes nothing from it, and charges no program's account. */
  lemma CreatedBalances(ctx: Context, payer: Account, target: Account, space: nat)
    requires PdaCreated(ctx, payer, target, space).Ok?
    ensures var after := PdaCreated(ctx, payer, target, space).value;
      && after.0.lamports + after.1.lamports == payer.lamports + target.lamports
      && after.0.owner == payer.owner && after.1.lamports >= target.lamports && after.1.lamports >= ctx.rent(space)
      && (payer.owner != SYSTEM_PROGRAM ==> after.0.lamports == payer.lamports)
  {
  }

  /** What `initialize` does to the three balances. */
  lemma BootstrapBalances(ctx: Context, key: Pubkey, authority: Account, state: Account, ring: Account,
                          bump: Byte, ringBump: Byte, b: Bootstrap, three: Three)
    requires Bootstrapped(ctx, key, authority, state, ring, bump, ringBump, b) == Ok(three)
    ensures three.authority.lamports + three.state.lamports + three.ring.lamports
         == authority.lamports + state.lamports + ring.lamports
    ensures three.state.lamports >= state.lamports && three.state.lamports >= ctx.rent(LIGHT_CLIENT_LEN)
    ensures three.ring.lamports >= ring.lamports && three.ring.lamports >= ctx.rent(RING_LEN)
    ensures authority.owner != SYSTEM_PROGRAM ==> three.authority.lamports == authority.lamports
  {
    CreatedBalances(ctx, authority, state, LIGHT_CLIENT_LEN);
    CreatedBalances(ctx, PdaCreated(ctx, authority, state, LIGHT_CLIENT_LEN).value.0, ring, RING_LEN);
  }

  /** An accepted `initialize`, its three accounts and their addresses. */
  lemma InitializeParts(ctx: Context, w: Ledger, metas: seq<Meta>, b: Bootstrap, w': Ledger) returns (three: Three)
    requires Sane(ctx) && Signable(ctx, metas) && |metas| >= 4 && InitializeOn(ctx, w, metas, b) == Ok(w')
    ensures var a, s, r := metas[0].key, metas[1].key, metas[2].key;
      && a != s && a != r && s != r
      && w' == w[a := three.authority][s := three.state][r := three.ring]
      && StateAddress(ctx, a).Some? && StateAddress(ctx, a).value.0 == s
      && RingAddress(ctx, a).Some? && RingAddress(ctx, a).value.0 == r
      && three.authority.lamports + three.state.lamports + three.ring.lamports
         == Get(w, a).lamports + Get(w, s).lamports + Get(w, r).lamports
      && three.state.lamports >= Get(w, s).lamports && three.state.lamports >= ctx.rent(LIGHT_CLIENT_LEN)
      && three.ring.lamports >= Get(w, r).lamports && three.ring.lamports >= ctx.rent(RING_LEN)
      && (Get(w, a).owner != SYSTEM_PROGRAM ==> three.authority.lamports == Get(w, a).lamports)
  {
    var a, s, r := metas[0].key, metas[1].key, metas[2].key;
    three := Initialized(ctx, a, metas[0].isSigner, Get(w, a), s, Get(w, s), r, Get(w, r), metas[3].key, b).value;
    InitializeFacts(ctx, a, metas[0].isSigner, Get(w, a), s, Get(w, s), r, Get(w, r), metas[3].key, b, three);
    var bump, ringBump := StateAddress(ctx, a).value.1, RingAddress(ctx, a).value.1;
    BootstrapBalances(ctx, a, Get(w, a), Get(w, s), Get(w, r), bump, ringBump, b, three);
    DistinctAccounts(ctx, a, s, r, bump, ringBump);
  }

  /** `submit_finalization` moves no lamports. */
  lemma SubmitBalances(ctx: Context, w: Ledger, metas: seq<Meta>, proof: CompressedProof, o: FinalizationOutput,
                       w': Ledger,
                       key: Pubkey)
    requires |metas| >= 2 && SubmitOn(ctx, w, metas, proof, o) == Ok(w')
    ensures Get(w', key).lamports == Get(w, key).lamports
  {
  }

  // ---------------------------------------------------------------------------
  // Nothing is drained
  // ---------------------------------------------------------------------------

  lemma InitializeSpares(ctx: Context, w: Ledger, metas: seq<Meta>, b: Bootstrap, w': Ledger, key: Pubkey)
    requires Sane(ctx) && Signable(ctx, metas) && |metas| >= 4 && InitializeOn(ctx, w, metas, b) == Ok(w')
    requires Get(w, key).owner == ctx.programId
    ensures Get(w', key).lamports >= Get(w, key).lamports
  {
    var three := InitializeParts(ctx, w, metas, b, w');
  }

  /** No transaction takes lamports from an account of the program's. */
  lemma TransactionSpares(ctx: Context, s: System, metas: seq<Meta>, data: seq<Byte>, s': System, key: Pubkey)
    requires Sane(ctx) && Transaction(ctx, s, metas, data, s') && Get(s.world, key).owner == ctx.programId
    ensures Get(s'.world, key).lamports >= Get(s.world, key).lamports
  {
    if Process(ctx, s.world, metas, data).Ok? {
      var ix := Instruction.Unpack(data).value;
      if ix.Initialize? {
        InitializeSpares(ctx, s.world, metas, BootstrapOf(ix), s'.world, key);
      } else if ix.SubmitFinalization? {
        SubmitBalances(ctx, s.world, metas, ix.proof, ix.output, s'.world, key);
      } else {
        ReadingTransaction(ctx, s, metas, ix, s'.world);
      }
    }
  }

  /** Nor does any other step. */
  lemma StepSpares(ctx: Context, s: System, s': System, key: Pubkey)
    requires Sane(ctx) && Step(ctx, s, s') && Get(s.world, key).owner == ctx.programId
    ensures Get(s'.world, key).lamports >= Get(s.world, key).lamports
  {
    if metas: seq<Meta>, data: seq<Byte> :| Transaction(ctx, s, metas, data, s') {
      TransactionSpares(ctx, s, metas, data, s', key);
    }
  }

  /** A client's accounts hold the rent they were created with. */
  ghost predicate Funded(ctx: Context, w: Ledger, a: Pubkey) {
    && StateAddress(ctx, a).Some? && RingAddress(ctx, a).Some?
    && Get(w, StateAddress(ctx, a).value.0).lamports >= ctx.rent(LIGHT_CLIENT_LEN)
    && Get(w, RingAddress(ctx, a).value.0).lamports >= ctx.rent(RING_LEN)
  }

  lemma NewClientFunded(ctx: Context, s: System, s': System, metas: seq<Meta>, data: seq<Byte>, a: Pubkey)
    requires Sane(ctx) && Inv(ctx, s) && Transaction(ctx, s, metas, data, s') && a !in s.clients && a in s'.clients
    ensures Funded(ctx, s'.world, a)
  {
    var ix := Instruction.Unpack(data).value;
    if ix.Initialize? {
      assert a == metas[0].key;
      var three := InitializeParts(ctx, s.world, metas, BootstrapOf(ix), s'.world);
    } else if ix.SubmitFinalization? {
      var b := SubmitTransaction(ctx, s, metas, ix, s'.world);
      assert false;
    } else {
      ReadingTransaction(ctx, s, metas, ix, s'.world);
      assert false;
    }
  }

  lemma StepFunds(ctx: Context, s: System, s': System, a: Pubkey)
    requires Sane(ctx) && Inv(ctx, s) && Step(ctx, s, s') && a in s'.clients
    requires a in s.clients ==> Funded(ctx, s.world, a)
    ensures Funded(ctx, s'.world, a)
  {
    if a in s.clients {
      assert Holds(ctx, s.world, a, s.clients[a]);
      StepSpares(ctx, s, s', StateAddress(ctx, a).value.0);
      StepSpares(ctx, s, s', RingAddress(ctx, a).value.0);
    } else {
      var metas: seq<Meta>, data: seq<Byte> :| Transaction(ctx, s, metas, data, s');
      NewClientFunded(ctx, s, s', metas, data, a);
    }
  }

  lemma NextFunded(ctx: Context, run: seq<System>, i: nat, a: Pubkey)
    requires Sane(ctx) && Run(ctx, run) && 0 < i < |run| && a in run[i].clients
    requires a in run[i - 1].clients ==> Funded(ctx, run[i - 1].world, a)
    ensures Funded(ctx, run[i].world, a)
  {
    RunStep(ctx, run, i, run[i - 1], run[i]);
    StepFunds(ctx, run[i - 1], run[i], a);
  }

  lemma NoneAtStart(ctx: Context, run: seq<System>)
    requires Run(ctx, run)
    ensures run[0].clients == map[]
  {
  }

  /** In every state of every run, a client's accounts hold at least their rent. */
  lemma {:induction false} AlwaysFunded(ctx: Context, run: seq<System>, i: nat, a: Pubkey)
    requires Sane(ctx) && Run(ctx, run) && i < |run| && a in run[i].clients
    ensures Funded(ctx, run[i].world, a)
    decreases i
  {
    if i == 0 {
      NoneAtStart(ctx, run);
      assert false;
    } else {
      if a in run[i - 1].clients {
        AlwaysFunded(ctx, run, i - 1, a);
      }
      NextFunded(ctx, run, i, a);
    }
  }

  lemma NextSpares(ctx: Context, run: seq<System>, j: nat, a: Pubkey, key: Pubkey)
    requires Sane(ctx) && Run(ctx, run) && 0 < j < |run| && Belongs(ctx, run[j - 1].clients, key, a)
    ensures Get(run[j].world, key).lamports >= Get(run[j - 1].world, key).lamports
  {
    RunStep(ctx, run, j, run[j - 1], run[j]);
    assert Holds(ctx, run[j - 1].world, a, run[j - 1].clients[a]);
    StepSpares(ctx, run[j - 1], run[j], key);
  }

  lemma StillBelongs(ctx: Context, run: seq<System>, i: nat, j: nat, a: Pubkey, key: Pubkey)
    requires Sane(ctx) && Run(ctx, run) && i <= j < |run| && Belongs(ctx, run[i].clients, key, a)
    ensures Belongs(ctx, run[j].clients, key, a)
  {
    RunContinues(ctx, run, i, j, a);
  }

  /** And their balances never fall. */
  lemma {:induction false} BalanceNeverFalls(ctx: Context, run: seq<System>, i: nat, j: nat, a: Pubkey, key: Pubkey)
    requires Sane(ctx) && Run(ctx, run) && i <= j < |run| && Belongs(ctx, run[i].clients, key, a)
    ensures Get(run[j].world, key).lamports >= Get(run[i].world, key).lamports
    decreases j
  {
    if i == j {
    } else {
      BalanceNeverFalls(ctx, run, i, j - 1, a, key);
      StillBelongs(ctx, run, i, j - 1, a, key);
      NextSpares(ctx, run, j, a, key);
    }
  }

  // ---------------------------------------------------------------------------
  // Nothing is minted
  // ---------------------------------------------------------------------------

  /** What these addresses hold together. */
  function Total(w: Ledger, keys: seq<Pubkey>): nat {
    if keys == [] then 0 else Get(w, keys[0]).lamports + Total(w, keys[1..])
  }

  ghost predicate NoRepeats(keys: seq<Pubkey>) {
    forall i, j | 0 <= i < j < |keys| :: keys[i] != keys[j]
  }

  /** Rewriting one entry moves the total by the difference, where the entry is counted. */
  lemma {:induction false} TotalUpdated(w: Ledger, key: Pubkey, account: Account, keys: seq<Pubkey>)
    requires NoRepeats(keys)
    ensures Total(w[key := account], keys)
         == if key in keys then Total(w, keys) - Get(w, key).lamports + account.lamports else Total(w, keys)
    decreases |keys|
  {
    if keys == [] {
    } else {
      TotalUpdated(w, key, account, keys[1..]);
      assert key in keys <==> key == keys[0] || key in keys[1..];
      assert keys[0] !in keys[1..];
    }
  }

  lemma {:induction false} TotalUnchanged(w: Ledger, w': Ledger, keys: seq<Pubkey>)
    requires forall key: Pubkey | key in keys :: Get(w', key).lamports == Get(w, key).lamports
    ensures Total(w', keys) == Total(w, keys)
    decreases |keys|
  {
    if keys == [] {
    } else {
      TotalUnchanged(w, w', keys[1..]);
    }
  }

  lemma InitializeConserves(ctx: Context, w: Ledger, metas: seq<Meta>, b: Bootstrap, w': Ledger, keys: seq<Pubkey>)
    requires Sane(ctx) && Signable(ctx, metas) && |metas| >= 4 && InitializeOn(ctx, w, metas, b) == Ok(w')
    requires NoRepeats(keys) && metas[0].key in keys && metas[1].key in keys && metas[2].key in keys
    ensures Total(w', keys) == Total(w, keys)
  {
    var three := InitializeParts(ctx, w, metas, b, w');
    var a, s, r := metas[0].key, metas[1].key, metas[2].key;
    var first := w[a := three.authority];
    var second := first[s := three.state];
    TotalUpdated(w, a, three.authority, keys);
    TotalUpdated(first, s, three.state, keys);
    TotalUpdated(second, r, three.ring, keys);
  }

  /** Over any addresses that include the ones it names, a transaction conserves lamports. */
  lemma TransactionConserves(ctx: Context, s: System, metas: seq<Meta>, data: seq<Byte>, s': System, keys: seq<Pubkey>)
    requires Sane(ctx) && Transaction(ctx, s, metas, data, s') && NoRepeats(keys)
    requires forall i | 0 <= i < |metas| :: metas[i].key in keys
    ensures Total(s'.world, keys) == Total(s.world, keys)
  {
    if Process(ctx, s.world, metas, data).Ok? {
      var ix := Instruction.Unpack(data).value;
      if ix.Initialize? {
        InitializeConserves(ctx, s.world, metas, BootstrapOf(ix), s'.world, keys);
      } else if ix.SubmitFinalization? {
        forall key: Pubkey | key in keys ensures Get(s'.world, key).lamports == Get(s.world, key).lamports {
          SubmitBalances(ctx, s.world, metas, ix.proof, ix.output, s'.world, key);
        }
        TotalUnchanged(s.world, s'.world, keys);
      } else {
        ReadingTransaction(ctx, s, metas, ix, s'.world);
      }
    }
  }
}
