/** What holds in every state every run reaches, whoever sent what in whichever order. */
module Safety {
  import opened Bytes
  import opened State
  import opened Runtime
  import opened World
  import opened Invariant

  // ---------------------------------------------------------------------------
  // Accounts
  // ---------------------------------------------------------------------------

  /** The account is this authority's state account, under the canonical bump. */
  predicate IsStateOf(ctx: Context, key: Pubkey, account: Account, a: Pubkey) {
    |account.data| == LIGHT_CLIENT_LEN && StateAddress(ctx, a) == Some((key, account.data[1]))
        && account.data[2..34] == a
  }

  predicate IsRingOf(ctx: Context, key: Pubkey, account: Account, a: Pubkey) {
    |account.data| == RING_LEN && RingAddress(ctx, a) == Some((key, account.data[1]))
  }

  /** Every account of the program's tagged 1 is the state account of exactly one authority, and a client's. */
  lemma TaggedStateIsCanonical(ctx: Context, s: System, key: Pubkey) returns (a: Pubkey)
    requires Sane(ctx) && Inv(ctx, s) && Get(s.world, key).owner == ctx.programId
    requires |Get(s.world, key).data| > 0 && Get(s.world, key).data[0] == TAG_LIGHT_CLIENT
    ensures a in s.clients && IsStateOf(ctx, key, Get(s.world, key), a)
    ensures forall b: Pubkey :: IsStateOf(ctx, key, Get(s.world, key), b) ==> b == a
    ensures forall b: Pubkey :: !IsRingOf(ctx, key, Get(s.world, key), b)
  {
    a := TaggedState(ctx, s, key);
    HeldStateIs(ctx, s.world, a, s.clients[a], key);
    OnlyStateOf(ctx, key, Get(s.world, key), a);
  }

  lemma HeldStateIs(ctx: Context, w: Ledger, a: Pubkey, c: Client, key: Pubkey)
    requires Holds(ctx, w, a, c) && StateAddress(ctx, a).value.0 == key
    ensures IsStateOf(ctx, key, Get(w, key), a)
  {
    var bump := StateAddress(ctx, a).value.1;
    var state := StateOf(c, a, bump);
    assert Pack(state)[..LIGHT_CLIENT_LEN] == Pack(state);
    PackedFields(state, Pack(state));
    StateHolds(c, a, bump);
  }

  lemma OnlyStateOf(ctx: Context, key: Pubkey, account: Account, a: Pubkey)
    requires IsStateOf(ctx, key, account, a)
    ensures forall b: Pubkey :: IsStateOf(ctx, key, account, b) ==> b == a
    ensures forall b: Pubkey :: !IsRingOf(ctx, key, account, b)
  {
  }

  /** Every account of the program's tagged 2 is the ring of exactly one authority, and a client's. */
  lemma TaggedRingIsCanonical(ctx: Context, s: System, key: Pubkey) returns (a: Pubkey)
    requires Sane(ctx) && Inv(ctx, s) && Get(s.world, key).owner == ctx.programId
    requires |Get(s.world, key).data| > 0 && Get(s.world, key).data[0] == TAG_FINALIZATION_RING
    ensures a in s.clients && IsRingOf(ctx, key, Get(s.world, key), a)
    ensures forall b: Pubkey :: IsRingOf(ctx, key, Get(s.world, key), b) ==> b == a
    ensures forall b: Pubkey :: !IsStateOf(ctx, key, Get(s.world, key), b)
  {
    a := TaggedRing(ctx, s, key);
    ClientStateReads(ctx, s.world, a, s.clients[a]);
    var bump := RingAddress(ctx, a).value.1;
    forall b: Pubkey | IsRingOf(ctx, key, Get(s.world, key), b) ensures b == a {
      OneAuthority(ctx, key, a, bump, b, bump);
    }
  }

  /** State and ring exist together, exactly for the authorities that have bootstrapped. */
  lemma StateIffRing(ctx: Context, s: System, a: Pubkey)
    requires Sane(ctx) && Inv(ctx, s) && StateAddress(ctx, a).Some? && RingAddress(ctx, a).Some?
    ensures Get(s.world, StateAddress(ctx, a).value.0).owner == ctx.programId <==> a in s.clients
    ensures Get(s.world, RingAddress(ctx, a).value.0).owner == ctx.programId <==> a in s.clients
    ensures a !in s.clients ==> Get(s.world, StateAddress(ctx, a).value.0).data == []
                                && Get(s.world, RingAddress(ctx, a).value.0).data == []
  {
    var sk, rk := StateAddress(ctx, a).value.0, RingAddress(ctx, a).value.0;
    AddressesApart(ctx, a, a);
    assert Accounted(ctx, s, sk) && Accounted(ctx, s, rk);
    if a in s.clients {
      assert Holds(ctx, s.world, a, s.clients[a]);
    } else {
      NotBelonging(ctx, s, a, sk);
      NotBelonging(ctx, s, a, rk);
    }
  }

  lemma NotBelonging(ctx: Context, s: System, a: Pubkey, key: Pubkey)
    requires Sane(ctx) && Inv(ctx, s) && StateAddress(ctx, a).Some? && RingAddress(ctx, a).Some? && a !in s.clients
    requires key == StateAddress(ctx, a).value.0 || key == RingAddress(ctx, a).value.0
    ensures forall b: Pubkey :: !Belongs(ctx, s.clients, key, b)
  {
    forall b: Pubkey | b in s.clients ensures !Belongs(ctx, s.clients, key, b) {
      assert Holds(ctx, s.world, b, s.clients[b]);
      AddressesApart(ctx, a, b);
      AddressesApart(ctx, b, a);
    }
  }

  // ---------------------------------------------------------------------------
  // Write-once configuration
  // ---------------------------------------------------------------------------

  /** Later is the same client with at least the same history. */
  predicate Continues(earlier: Client, later: Client) {
    later.bootstrap == earlier.bootstrap && earlier.accepted <= later.accepted
  }

  lemma EffectContinues(ctx: Context, s: System, s': System, e: Effect, a: Pubkey)
    requires HasEffect(ctx, s, s', e) && a in s.clients
    ensures a in s'.clients && Continues(s.clients[a], s'.clients[a])
  {
  }

  lemma StepContinues(ctx: Context, s: System, s': System, a: Pubkey)
    requires Sane(ctx) && Inv(ctx, s) && Step(ctx, s, s') && a in s.clients
    ensures a in s'.clients && Continues(s.clients[a], s'.clients[a])
  {
    if metas: seq<Meta>, data: seq<Byte> :| Transaction(ctx, s, metas, data, s') {
      var e := TransactionEffect(ctx, s, metas, data, s');
      EffectContinues(ctx, s, s', e, a);
    }
  }

  /** A step of a run, from a state that meets the invariant. */
  lemma RunStep(ctx: Context, run: seq<System>, j: nat, s: System, s': System)
    requires Sane(ctx) && Run(ctx, run) && 0 < j < |run| && s == run[j - 1] && s' == run[j]
    ensures Inv(ctx, s) && Step(ctx, s, s')
  {
    RunKeeps(ctx, run, j - 1);
    assert StepAt(ctx, run, j);
  }

  lemma StepContinuesFrom(ctx: Context, earlier: Client, s: System, s': System, a: Pubkey)
    requires Sane(ctx) && Inv(ctx, s) && Step(ctx, s, s') && a in s.clients && Continues(earlier, s.clients[a])
    ensures a in s'.clients && Continues(earlier, s'.clients[a])
  {
    StepContinues(ctx, s, s', a);
  }

  /** Once bootstrapped, always bootstrapped, with the same bootstrap and an only-growing history. */
  lemma {:induction false} RunContinues(ctx: Context, run: seq<System>, i: nat, j: nat, a: Pubkey)
    requires Sane(ctx) && Run(ctx, run) && i <= j < |run| && a in run[i].clients
    ensures a in run[j].clients && Continues(run[i].clients[a], run[j].clients[a])
    decreases j
  {
    if i == j {
    } else {
      RunContinues(ctx, run, i, j - 1, a);
      RunStep(ctx, run, j, run[j - 1], run[j]);
      StepContinuesFrom(ctx, run[i].clients[a], run[j - 1], run[j], a);
    }
  }

  /** Authority, bump and guest key, as the account's bytes spell them, never change after bootstrap. */
  lemma ConfigurationIsWriteOnce(ctx: Context, run: seq<System>, i: nat, j: nat, a: Pubkey)
    requires Sane(ctx) && Run(ctx, run) && i <= j < |run| && a in run[i].clients
    ensures StateAddress(ctx, a).Some?
    ensures var key := StateAddress(ctx, a).value.0;
      var before, after := UnpackState(Get(run[i].world, key).data), UnpackState(Get(run[j].world, key).data);
      && before.Ok? && after.Ok?
      && after.value.authority == before.value.authority == a
      && after.value.bump == before.value.bump == StateAddress(ctx, a).value.1
      && after.value.programVk == before.value.programVk
      && after.value.submissionCount >= before.value.submissionCount
      && after.value.finalizedEpoch >= before.value.finalizedEpoch
  {
    RunKeeps(ctx, run, i);
    RunKeeps(ctx, run, j);
    RunContinues(ctx, run, i, j, a);
    var c, c', bump := run[i].clients[a], run[j].clients[a], StateAddress(ctx, a).value.1;
    assert Holds(ctx, run[i].world, a, c) && Holds(ctx, run[j].world, a, c');
    ClientStateReads(ctx, run[i].world, a, c);
    ClientStateReads(ctx, run[j].world, a, c');
    StateHolds(c, a, bump);
    StateHolds(c', a, bump);
    HeadRises(ctx, c', |c.accepted|, |c'.accepted|);
    if c.accepted != [] {
      assert c'.accepted[|c.accepted| - 1] == c.accepted[|c.accepted| - 1];
    }
  }

  lemma {:induction false} HeadRises(ctx: Context, c: Client, i: nat, j: nat)
    requires Chained(ctx, c) && i <= j <= |c.accepted|
    ensures HeadEpoch(c, j) >= HeadEpoch(c, i) + (j - i)
  {
    if i == j {
    } else {
      HeadRises(ctx, c, i, j - 1);
      assert Linked(ctx, c, j - 1);
    }
  }

  // ---------------------------------------------------------------------------
  // Isolation
  // ---------------------------------------------------------------------------

  lemma EffectIsolated(ctx: Context, s: System, s': System, e: Effect) returns (a: Pubkey)
    requires HasEffect(ctx, s, s', e)
    ensures s' == s
         || (StateAddress(ctx, a).Some? && RingAddress(ctx, a).Some? && OnlyTouches(ctx, s.world, s'.world, a))
    ensures forall b: Pubkey | b in s.clients && b != a :: b in s'.clients && s'.clients[b] == s.clients[b]
  {
    a := if e.Nothing? then SYSTEM_PROGRAM else e.authority;
  }

  /** A transaction changes the bytes, and the history, of at most one authority. */
  lemma TransactionTouchesOneAuthority(ctx: Context, s: System, metas: seq<Meta>, data: seq<Byte>, s': System)
    returns (a: Pubkey)
    requires Sane(ctx) && Inv(ctx, s) && Transaction(ctx, s, metas, data, s')
    ensures s' == s
         || (StateAddress(ctx, a).Some? && RingAddress(ctx, a).Some? && OnlyTouches(ctx, s.world, s'.world, a))
    ensures forall b: Pubkey | b in s.clients && b != a :: b in s'.clients && s'.clients[b] == s.clients[b]
  {
    var e := TransactionEffect(ctx, s, metas, data, s');
    a := EffectIsolated(ctx, s, s', e);
  }
}
