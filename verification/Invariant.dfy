/** Every step, of this program or of others, keeps the invariant of the whole ledger. */
module Invariant {
  import opened Bytes
  import opened Errors
  import opened State
  import opened Ring
  import opened Wire
  import opened Instruction
  import opened Runtime
  import opened Processor
  import opened World

  /** What the runtime guarantees: no address collisions, and the program is not the system program. */
  ghost predicate Sane(ctx: Context) {
    CollisionFree(ctx) && ctx.programId != SYSTEM_PROGRAM
  }

  // ---------------------------------------------------------------------------
  // Addresses belong to one authority
  // ---------------------------------------------------------------------------

  /** Two derivations to one state or ring address are the same derivation. */
  lemma OneAuthority(ctx: Context, key: Pubkey, a: Pubkey, bump: Byte, b: Pubkey, bump': Byte)
    requires CollisionFree(ctx)
    ensures ctx.derive(StateSeed(a, bump)) == Some(key) && ctx.derive(StateSeed(b, bump')) == Some(key)
         ==> a == b && bump == bump'
    ensures ctx.derive(RingSeed(a, bump)) == Some(key) && ctx.derive(RingSeed(b, bump')) == Some(key)
         ==> a == b && bump == bump'
    ensures !(ctx.derive(StateSeed(a, bump)) == Some(key) && ctx.derive(RingSeed(b, bump')) == Some(key))
  {
    SeedsInjective(a, bump, b, bump');
  }

  /** The addresses of two authorities, and the two addresses of one, are all different. */
  lemma AddressesApart(ctx: Context, a: Pubkey, b: Pubkey)
    requires CollisionFree(ctx)
    requires StateAddress(ctx, a).Some? && RingAddress(ctx, a).Some?
    requires StateAddress(ctx, b).Some? && RingAddress(ctx, b).Some?
    ensures StateAddress(ctx, a).value.0 != RingAddress(ctx, b).value.0
    ensures a != b ==> StateAddress(ctx, a).value.0 != StateAddress(ctx, b).value.0
    ensures a != b ==> RingAddress(ctx, a).value.0 != RingAddress(ctx, b).value.0
    ensures IsDerived(ctx, StateAddress(ctx, a).value.0) && IsDerived(ctx, RingAddress(ctx, a).value.0)
  {
    var (sk, sb) := StateAddress(ctx, a).value;
    var (rk, rb) := RingAddress(ctx, a).value;
    OneAuthority(ctx, sk, a, sb, b, RingAddress(ctx, b).value.1);
    OneAuthority(ctx, sk, a, sb, b, StateAddress(ctx, b).value.1);
    OneAuthority(ctx, rk, a, rb, b, RingAddress(ctx, b).value.1);
    assert ctx.derive(StateSeed(a, sb)) == Some(sk) && ctx.derive(RingSeed(a, rb)) == Some(rk);
  }

  /** Owner and data of an address are as they were. */
  predicate SameBytes(w: Ledger, w': Ledger, key: Pubkey) {
    Get(w', key).owner == Get(w, key).owner && Get(w', key).data == Get(w, key).data
  }

  lemma HoldsFrame(ctx: Context, w: Ledger, w': Ledger, authority: Pubkey, c: Client)
    requires Holds(ctx, w, authority, c)
    requires SameBytes(w, w', StateAddress(ctx, authority).value.0)
    requires SameBytes(w, w', RingAddress(ctx, authority).value.0)
    ensures Holds(ctx, w', authority, c)
  {
  }

  lemma AccountedFrame(ctx: Context, s: System, s': System, key: Pubkey)
    requires Accounted(ctx, s, key) && SameBytes(s.world, s'.world, key)
    requires forall a: Pubkey | a in s.clients :: a in s'.clients
    ensures Accounted(ctx, s', key)
  {
    if a: Pubkey :| Belongs(ctx, s.clients, key, a) {
      assert Belongs(ctx, s'.clients, key, a);
    }
  }

  // ---------------------------------------------------------------------------
  // Other programs
  // ---------------------------------------------------------------------------

  lemma StartKeeps(ctx: Context, s: System)
    requires Sane(ctx) && Start(ctx, s)
    ensures Inv(ctx, s)
  {
    forall key: Pubkey ensures Accounted(ctx, s, key) {
      var account := Get(s.world, key);
    }
  }

  lemma ElsewhereKeeps(ctx: Context, s: System, w': Ledger)
    requires Sane(ctx) && Inv(ctx, s) && Elsewhere(ctx, s.world, w')
    ensures Inv(ctx, System(w', s.clients))
  {
    var s' := System(w', s.clients);
    forall a: Pubkey | a in s.clients ensures Holds(ctx, w', a, s.clients[a]) {
      assert Holds(ctx, s.world, a, s.clients[a]);
      HoldsFrame(ctx, s.world, w', a, s.clients[a]);
    }
    forall key: Pubkey ensures Accounted(ctx, s', key) {
      assert Accounted(ctx, s, key);
      var before, after := Get(s.world, key), Get(w', key);
      if before.owner == ctx.programId || IsDerived(ctx, key) {
        AccountedFrame(ctx, s, s', key);
      }
    }
  }

  // ---------------------------------------------------------------------------
  // initialize
  // ---------------------------------------------------------------------------

  lemma CreatedAccounts(ctx: Context, payer: Account, target: Account, space: nat)
    requires PdaCreated(ctx, payer, target, space).Ok?
    ensures var after := PdaCreated(ctx, payer, target, space).value;
      && after.0.owner == payer.owner && after.0.data == payer.data
      && after.1.owner == ctx.programId
  {
  }

  /** What a successful `initialize` checked and left. */
  lemma InitializeFacts(ctx: Context, authorityKey: Pubkey, signed: bool, authority: Account, stateKey: Pubkey,
                        state: Account,
                        ringKey: Pubkey, ring: Account, systemKey: Pubkey, b: Bootstrap, three: Three)
    requires Initialized(ctx, authorityKey, signed, authority, stateKey, state, ringKey, ring, systemKey, b)
         == Ok(three)
    ensures signed && state.data == [] && b.epoch + 1 < TWO_64
    ensures StateAddress(ctx, authorityKey).Some? && StateAddress(ctx, authorityKey).value.0 == stateKey
    ensures RingAddress(ctx, authorityKey).Some? && RingAddress(ctx, authorityKey).value.0 == ringKey
    ensures three.authority.owner == authority.owner && three.authority.data == authority.data
    ensures three.state.owner == ctx.programId && three.ring.owner == ctx.programId
    ensures three.state.data == Pack(InitialState(b, authorityKey, StateAddress(ctx, authorityKey).value.1))
    ensures three.ring.data == FreshRing(RingAddress(ctx, authorityKey).value.1)
  {
    var first := PdaCreated(ctx, authority, state, LIGHT_CLIENT_LEN).value;
    CreatedAccounts(ctx, authority, state, LIGHT_CLIENT_LEN);
    CreatedAccounts(ctx, first.0, ring, RING_LEN);
  }

  lemma NewClientHolds(ctx: Context, w: Ledger, a: Pubkey, b: Bootstrap)
    requires b.epoch + 1 < TWO_64 && StateAddress(ctx, a).Some? && RingAddress(ctx, a).Some?
    requires Get(w, StateAddress(ctx, a).value.0).owner == ctx.programId
    requires Get(w, StateAddress(ctx, a).value.0).data == Pack(InitialState(b, a, StateAddress(ctx, a).value.1))
    requires Get(w, RingAddress(ctx, a).value.0).owner == ctx.programId
    requires Get(w, RingAddress(ctx, a).value.0).data == FreshRing(RingAddress(ctx, a).value.1)
    ensures Holds(ctx, w, a, Client(b, []))
  {
    assert HistoryOf([]) == [];
  }

  /** Only the two accounts of this authority changed their bytes. */
  ghost predicate OnlyTouches(ctx: Context, w: Ledger, w': Ledger, a: Pubkey)
    requires StateAddress(ctx, a).Some? && RingAddress(ctx, a).Some?
  {
    forall key: Pubkey | key != StateAddress(ctx, a).value.0 && key != RingAddress(ctx, a).value.0 ::
        SameBytes(w, w', key)
  }

  /** No step on one authority's accounts reaches another's. */
  lemma Isolated(ctx: Context, w: Ledger, w': Ledger, a: Pubkey, other: Pubkey, c: Client)
    requires Sane(ctx) && StateAddress(ctx, a).Some? && RingAddress(ctx, a).Some?
    requires OnlyTouches(ctx, w, w', a) && other != a && Holds(ctx, w, other, c)
    ensures Holds(ctx, w', other, c)
  {
    AddressesApart(ctx, a, other);
    AddressesApart(ctx, other, a);
    HoldsFrame(ctx, w, w', other, c);
  }

  lemma StillAccounted(ctx: Context, s: System, s': System, a: Pubkey, key: Pubkey)
    requires StateAddress(ctx, a).Some? && RingAddress(ctx, a).Some? && OnlyTouches(ctx, s.world, s'.world, a)
    requires Accounted(ctx, s, key) && a in s'.clients && forall b: Pubkey | b in s.clients :: b in s'.clients
    requires Get(s'.world, StateAddress(ctx, a).value.0).owner == ctx.programId
    requires Get(s'.world, RingAddress(ctx, a).value.0).owner == ctx.programId
    ensures Accounted(ctx, s', key)
  {
    if key == StateAddress(ctx, a).value.0 || key == RingAddress(ctx, a).value.0 {
      assert Belongs(ctx, s'.clients, key, a);
    } else {
      AccountedFrame(ctx, s, s', key);
    }
  }

  /** One client appears or moves on, and nothing else's bytes change. */
  lemma ClientUpdated(ctx: Context, s: System, w': Ledger, a: Pubkey, c: Client)
    requires Sane(ctx) && Inv(ctx, s) && Holds(ctx, w', a, c) && OnlyTouches(ctx, s.world, w', a)
    ensures Inv(ctx, System(w', s.clients[a := c]))
  {
    var s' := System(w', s.clients[a := c]);
    forall other: Pubkey | other in s'.clients ensures Holds(ctx, w', other, s'.clients[other]) {
      if other != a {
        Isolated(ctx, s.world, w', a, other, s.clients[other]);
      }
    }
    forall key: Pubkey ensures Accounted(ctx, s', key) {
      StillAccounted(ctx, s, s', a, key);
    }
  }

  /** What the ledger looks like after a successful `initialize`. */
  lemma InitializeEffect(ctx: Context, w: Ledger, metas: seq<Meta>, b: Bootstrap, three: Three, w': Ledger)
    requires Sane(ctx) && Signable(ctx, metas) && |metas| >= 4
    requires Initialized(ctx, metas[0].key, metas[0].isSigner, Get(w, metas[0].key), metas[1].key, Get(w, metas[1].key),
                         metas[2].key, Get(w, metas[2].key), metas[3].key, b) == Ok(three)
    requires w' == w[metas[0].key := three.authority][metas[1].key := three.state][metas[2].key := three.ring]
    ensures Holds(ctx, w', metas[0].key, Client(b, []))
    ensures Get(w, StateAddress(ctx, metas[0].key).value.0).data == []
    ensures OnlyTouches(ctx, w, w', metas[0].key)
  {
    var a, sk, rk := metas[0].key, metas[1].key, metas[2].key;
    InitializeFacts(ctx, a, metas[0].isSigner, Get(w, a), sk, Get(w, sk), rk, Get(w, rk), metas[3].key, b, three);
    DistinctAccounts(ctx, a, sk, rk, StateAddress(ctx, a).value.1, RingAddress(ctx, a).value.1);
    NewClientHolds(ctx, w', a, b);
  }

  lemma InitializeKeeps(ctx: Context, s: System, metas: seq<Meta>, b: Bootstrap, three: Three, w': Ledger)
    requires Sane(ctx) && Inv(ctx, s) && Signable(ctx, metas) && |metas| >= 4
    requires Initialized(ctx, metas[0].key, metas[0].isSigner, Get(s.world, metas[0].key),
                         metas[1].key, Get(s.world, metas[1].key), metas[2].key, Get(s.world, metas[2].key),
                         metas[3].key, b) == Ok(three)
    requires w' == s.world[metas[0].key := three.authority][metas[1].key := three.state][metas[2].key := three.ring]
    ensures metas[0].key !in s.clients
    ensures Inv(ctx, System(w', s.clients[metas[0].key := Client(b, [])]))
  {
    var a := metas[0].key;
    InitializeEffect(ctx, s.world, metas, b, three, w');
    if a in s.clients {
      ClientStateWritten(ctx, s.world, a, s.clients[a]);
      assert false;
    }
    ClientUpdated(ctx, s, w', a, Client(b, []));
  }

  lemma ClientStateWritten(ctx: Context, w: Ledger, a: Pubkey, c: Client)
    requires Holds(ctx, w, a, c)
    ensures |Get(w, StateAddress(ctx, a).value.0).data| == LIGHT_CLIENT_LEN
  {
  }

  // ---------------------------------------------------------------------------
  // submit_finalization
  // ---------------------------------------------------------------------------

  /** A client's state account unpacks to the state of its history. */
  lemma ClientStateReads(ctx: Context, w: Ledger, a: Pubkey, c: Client)
    requires Holds(ctx, w, a, c)
    ensures UnpackState(Get(w, StateAddress(ctx, a).value.0).data) == Ok(StateOf(c, a, StateAddress(ctx, a).value.1))
    ensures Get(w, StateAddress(ctx, a).value.0).data[0] == TAG_LIGHT_CLIENT
    ensures Get(w, RingAddress(ctx, a).value.0).data[0] == TAG_FINALIZATION_RING
    ensures RingBump(Get(w, RingAddress(ctx, a).value.0).data) == Ok(RingAddress(ctx, a).value.1)
  {
    var data := Get(w, StateAddress(ctx, a).value.0).data;
    assert data[..LIGHT_CLIENT_LEN] == data;
    UnpackStateIffPacked(data, StateOf(c, a, StateAddress(ctx, a).value.1));
    var ring := RingAfter(RingAddress(ctx, a).value.1, HistoryOf(c.accepted));
    RingIsLastWriter(RingAddress(ctx, a).value.1, HistoryOf(c.accepted), 0);
    assert ring[0] == ring[..2][0] && ring[1] == ring[..2][1];
  }

  /** An account of the program's that is tagged as a state is some client's state account. */
  lemma TaggedState(ctx: Context, s: System, key: Pubkey) returns (a: Pubkey)
    requires Inv(ctx, s) && Get(s.world, key).owner == ctx.programId
    requires |Get(s.world, key).data| > 0 && Get(s.world, key).data[0] == TAG_LIGHT_CLIENT
    ensures a in s.clients && Holds(ctx, s.world, a, s.clients[a]) && StateAddress(ctx, a).value.0 == key
  {
    assert Accounted(ctx, s, key);
    a :| Belongs(ctx, s.clients, key, a);
    assert Holds(ctx, s.world, a, s.clients[a]);
    ClientStateReads(ctx, s.world, a, s.clients[a]);
  }

  lemma TaggedRing(ctx: Context, s: System, key: Pubkey) returns (a: Pubkey)
    requires Inv(ctx, s) && Get(s.world, key).owner == ctx.programId
    requires |Get(s.world, key).data| > 0 && Get(s.world, key).data[0] == TAG_FINALIZATION_RING
    ensures a in s.clients && Holds(ctx, s.world, a, s.clients[a]) && RingAddress(ctx, a).value.0 == key
  {
    assert Accounted(ctx, s, key);
    a :| Belongs(ctx, s.clients, key, a);
    assert Holds(ctx, s.world, a, s.clients[a]);
    ClientStateReads(ctx, s.world, a, s.clients[a]);
  }

  /** Whatever ring `expect_ring` lets through for an authority is that authority's own. */
  lemma ExpectedRingIsOwn(ctx: Context, s: System, key: Pubkey, authority: Pubkey)
    requires Sane(ctx) && Inv(ctx, s) && ExpectRing(ctx, key, Get(s.world, key), authority).Ok?
    ensures authority in s.clients && Holds(ctx, s.world, authority, s.clients[authority])
    ensures RingAddress(ctx, authority).value.0 == key
  {
    var a := TaggedRing(ctx, s, key);
    ClientStateReads(ctx, s.world, a, s.clients[a]);
    var bump := RingAddress(ctx, a).value.1;
    OneAuthority(ctx, key, a, bump, authority, bump);
  }

  /** The state a submission runs against is the one its history determines. */
  lemma ExpectedStateIsOwn(ctx: Context, s: System, key: Pubkey, state: LightClientState)
    requires Sane(ctx) && Inv(ctx, s) && ExpectState(ctx, key, Get(s.world, key)) == Ok(state)
    ensures var a := state.authority;
      && a in s.clients && Holds(ctx, s.world, a, s.clients[a]) && StateAddress(ctx, a).value.0 == key
      && state == StateOf(s.clients[a], a, StateAddress(ctx, a).value.1)
  {
    var a := TaggedState(ctx, s, key);
    ClientStateReads(ctx, s.world, a, s.clients[a]);
  }

  lemma HistoryGrows(accepted: seq<Accepted>, next: Accepted)
    ensures HistoryOf(accepted + [next]) == HistoryOf(accepted) + [EntryOf(next.output)]
  {
  }

  lemma ChainGrows(ctx: Context, c: Client, next: Accepted)
    requires Chained(ctx, c) && ctx.verify(next.proof, c.bootstrap.vk, next.output)
    requires next.output.finalizedEpoch == HeldEpoch(c, |c.accepted|)
    requires next.output.finalizedEpoch > HeadEpoch(c, |c.accepted|)
    requires next.output.accumulatorCommitment == HeldAccumulator(c, |c.accepted|)
    ensures Chained(ctx, c.(accepted := c.accepted + [next]))
  {
    var c' := c.(accepted := c.accepted + [next]);
    forall k: nat | k < |c'.accepted| ensures Linked(ctx, c', k) {
      if k < |c.accepted| {
        assert Linked(ctx, c, k);
      }
    }
  }

  /** The state's fields name what the client holds. */
  lemma StateHolds(c: Client, a: Pubkey, bump: Byte)
    requires c.bootstrap.epoch + 1 < TWO_64 && |c.accepted| < TWO_64
    ensures var s := StateOf(c, a, bump);
      && s.authority == a && s.bump == bump && s.programVk == c.bootstrap.vk && s.submissionCount == |c.accepted|
      && s.finalizedEpoch == HeadEpoch(c, |c.accepted|) && s.accumulatorEpoch == HeldEpoch(c, |c.accepted|)
      && s.accumulatorCommitment == HeldAccumulator(c, |c.accepted|)
  {
  }

  lemma StateAdvances(c: Client, next: Accepted, a: Pubkey, bump: Byte)
    requires c.bootstrap.epoch + 1 < TWO_64 && |c.accepted| + 1 < TWO_64
    ensures StateOf(c.(accepted := c.accepted + [next]), a, bump) == Advanced(StateOf(c, a, bump), next.output)
  {
  }

  lemma RingAdvances(bump: Byte, accepted: seq<Accepted>, next: Accepted)
    ensures RingAfter(bump, HistoryOf(accepted + [next]))
         == RingWritten(RingAfter(bump, HistoryOf(accepted)), EntryOf(next.output))
  {
    HistoryGrows(accepted, next);
    var log := HistoryOf(accepted);
    assert (log + [EntryOf(next.output)])[..|log|] == log;
  }

  /** What an accepted submission passed, and what it wrote. */
  lemma SubmittedParts(ctx: Context, sk: Pubkey, state: Account, rk: Pubkey, ring: Account, proof: CompressedProof,
                       o: FinalizationOutput) returns (st: LightClientState)
    requires Submitted(ctx, sk, state, rk, ring, proof, o).Ok?
    ensures ExpectState(ctx, sk, state) == Ok(st) && ExpectRing(ctx, rk, ring, st.authority).Ok?
    ensures Extends(st, o).Ok? && ctx.verify(proof, st.programVk, o) && st.submissionCount + 1 < TWO_64
    ensures Submitted(ctx, sk, state, rk, ring, proof, o)
         == Ok((Pack(Advanced(st, o)) + state.data[LIGHT_CLIENT_LEN..], RingWritten(ring.data, EntryOf(o))))
  {
    st := ExpectState(ctx, sk, state).value;
  }

  /** What extends a client's state is the next link of its chain. */
  lemma NextLinks(ctx: Context, c: Client, a: Pubkey, bump: Byte, state: LightClientState, proof: CompressedProof,
                  o: FinalizationOutput)
    requires Chained(ctx, c) && |c.accepted| < TWO_64 && state == StateOf(c, a, bump)
    requires Extends(state, o).Ok? && ctx.verify(proof, state.programVk, o) && state.submissionCount + 1 < TWO_64
    ensures Chained(ctx, Next(c, proof, o)) && |Next(c, proof, o).accepted| < TWO_64
    ensures StateOf(Next(c, proof, o), a, bump) == Advanced(state, o)
  {
    StateHolds(c, a, bump);
    ChainGrows(ctx, c, Accepted(proof, o));
    StateAdvances(c, Accepted(proof, o), a, bump);
  }

  /** The accounts after an accepted submission are those of the longer history. */
  lemma SubmitEffect(ctx: Context, w: Ledger, a: Pubkey, c: Client, state: LightClientState,
                     proof: CompressedProof, o: FinalizationOutput, w': Ledger)
    requires Sane(ctx) && Holds(ctx, w, a, c) && state == StateOf(c, a, StateAddress(ctx, a).value.1)
    requires Extends(state, o).Ok? && ctx.verify(proof, state.programVk, o) && state.submissionCount + 1 < TWO_64
    requires var sk, rk := StateAddress(ctx, a).value.0, RingAddress(ctx, a).value.0;
      w' == w[sk := Get(w, sk).(data := Pack(Advanced(state, o)))]
             [rk := Get(w, rk).(data := RingWritten(Get(w, rk).data, EntryOf(o)))]
    ensures Holds(ctx, w', a, Next(c, proof, o)) && OnlyTouches(ctx, w, w', a)
  {
    AddressesApart(ctx, a, a);
    NextLinks(ctx, c, a, StateAddress(ctx, a).value.1, state, proof, o);
    RingAdvances(RingAddress(ctx, a).value.1, c.accepted, Accepted(proof, o));
  }

  /** The step itself, once the accounts are known to be one client's own. */
  lemma AdvanceKeeps(ctx: Context, s: System, a: Pubkey, state: LightClientState, proof: CompressedProof,
                     o: FinalizationOutput, sk: Pubkey, rk: Pubkey, w': Ledger)
    requires Sane(ctx) && Inv(ctx, s) && a in s.clients && Holds(ctx, s.world, a, s.clients[a])
    requires StateAddress(ctx, a).value.0 == sk && RingAddress(ctx, a).value.0 == rk
    requires state == StateOf(s.clients[a], a, StateAddress(ctx, a).value.1)
    requires Extends(state, o).Ok? && ctx.verify(proof, state.programVk, o) && state.submissionCount + 1 < TWO_64
    requires w' == s.world[sk := Get(s.world, sk).(data := Pack(Advanced(state, o)))]
                          [rk := Get(s.world, rk).(data := RingWritten(Get(s.world, rk).data, EntryOf(o)))]
    ensures OnlyTouches(ctx, s.world, w', a)
    ensures Inv(ctx, System(w', s.clients[a := Next(s.clients[a], proof, o)]))
  {
    SubmitEffect(ctx, s.world, a, s.clients[a], state, proof, o, w');
    ClientUpdated(ctx, s, w', a, Next(s.clients[a], proof, o));
  }

  /** An accepted submission names one client's own two accounts and extends its state. */
  lemma SubmitIsOwn(ctx: Context, s: System, sk: Pubkey, rk: Pubkey, proof: CompressedProof, o: FinalizationOutput)
    returns (a: Pubkey, state: LightClientState)
    requires Sane(ctx) && Inv(ctx, s) && Submitted(ctx, sk, Get(s.world, sk), rk, Get(s.world, rk), proof, o).Ok?
    ensures a in s.clients && Holds(ctx, s.world, a, s.clients[a]) && a == state.authority
    ensures StateAddress(ctx, a).value.0 == sk && RingAddress(ctx, a).value.0 == rk
    ensures state == StateOf(s.clients[a], a, StateAddress(ctx, a).value.1)
    ensures UnpackState(Get(s.world, sk).data) == Ok(state)
    ensures Extends(state, o).Ok? && ctx.verify(proof, state.programVk, o) && state.submissionCount + 1 < TWO_64
    ensures |Get(s.world, sk).data| == LIGHT_CLIENT_LEN && |Get(s.world, rk).data| == RING_LEN
    ensures Submitted(ctx, sk, Get(s.world, sk), rk, Get(s.world, rk), proof, o)
         == Ok((Pack(Advanced(state, o)) + Get(s.world, sk).data[LIGHT_CLIENT_LEN..],
                RingWritten(Get(s.world, rk).data, EntryOf(o))))
  {
    state := SubmittedParts(ctx, sk, Get(s.world, sk), rk, Get(s.world, rk), proof, o);
    a := state.authority;
    ExpectedStateIsOwn(ctx, s, sk, state);
    ExpectedRingIsOwn(ctx, s, rk, a);
    ClientStateWritten(ctx, s.world, a, s.clients[a]);
  }

  lemma SubmitKeeps(ctx: Context, s: System, sk: Pubkey, rk: Pubkey, proof: CompressedProof, o: FinalizationOutput,
                    bytes: (seq<Byte>, seq<Byte>), a: Pubkey, state: LightClientState, w': Ledger)
    requires Sane(ctx) && Inv(ctx, s) && a in s.clients && Holds(ctx, s.world, a, s.clients[a])
    requires StateAddress(ctx, a).value.0 == sk && RingAddress(ctx, a).value.0 == rk
    requires state == StateOf(s.clients[a], a, StateAddress(ctx, a).value.1)
    requires Extends(state, o).Ok? && ctx.verify(proof, state.programVk, o) && state.submissionCount + 1 < TWO_64
    requires |Get(s.world, sk).data| == LIGHT_CLIENT_LEN && |Get(s.world, rk).data| == RING_LEN
    requires bytes
         == (Pack(Advanced(state, o)) + Get(s.world, sk).data[LIGHT_CLIENT_LEN..],
             RingWritten(Get(s.world, rk).data, EntryOf(o)))
    requires w' == s.world[sk := Get(s.world, sk).(data := bytes.0)][rk := Get(s.world, rk).(data := bytes.1)]
    ensures OnlyTouches(ctx, s.world, w', a)
    ensures Inv(ctx, System(w', s.clients[a := Next(s.clients[a], proof, o)]))
  {
    NothingFollows(Pack(Advanced(state, o)), Get(s.world, sk).data);
    AdvanceKeeps(ctx, s, a, state, proof, o, sk, rk, w');
  }

  /** A state account holds nothing beside the state. */
  lemma NothingFollows(packed: seq<Byte>, data: seq<Byte>)
    requires |data| == LIGHT_CLIENT_LEN
    ensures packed + data[LIGHT_CLIENT_LEN..] == packed
  {
  }

  // ---------------------------------------------------------------------------
  // Every run
  // ---------------------------------------------------------------------------

  /** What a transaction did to the clients. */
  datatype Effect =
    | Nothing
    | Appears(authority: Pubkey, bootstrap: Bootstrap)
    | Advances(authority: Pubkey, proof: CompressedProof, output: FinalizationOutput)

  /** s' is s with exactly this effect, and no bytes changed but those of the one authority. */
  ghost predicate HasEffect(ctx: Context, s: System, s': System, e: Effect) {
    match e
    case Nothing => s' == s
    case Appears(a, b) =>
      && a !in s.clients && s'.clients == s.clients[a := Client(b, [])]
      && StateAddress(ctx, a).Some? && RingAddress(ctx, a).Some? && OnlyTouches(ctx, s.world, s'.world, a)
    case Advances(a, proof, o) =>
      && a in s.clients && s'.clients == s.clients[a := Next(s.clients[a], proof, o)]
      && StateAddress(ctx, a).Some? && RingAddress(ctx, a).Some? && OnlyTouches(ctx, s.world, s'.world, a)
  }

  lemma InitializeTransaction(ctx: Context, s: System, metas: seq<Meta>, ix: ZkasperInstruction, w': Ledger)
    requires Sane(ctx) && Inv(ctx, s) && Signable(ctx, metas) && ix.Initialize?
    requires Dispatched(ctx, s.world, metas, ix) == Ok(w')
    ensures |metas| >= 4
    ensures var s' := System(w', Recorded(s, metas, ix));
      Inv(ctx, s') && HasEffect(ctx, s, s', Appears(metas[0].key, BootstrapOf(ix)))
  {
    var a, sk, rk, b := metas[0].key, metas[1].key, metas[2].key, BootstrapOf(ix);
    var three := Initialized(ctx, a, metas[0].isSigner, Get(s.world, a), sk, Get(s.world, sk), rk, Get(s.world, rk),
                             metas[3].key, b).value;
    InitializeKeeps(ctx, s, metas, b, three, w');
    InitializeEffect(ctx, s.world, metas, b, three, w');
  }

  lemma SubmitTransaction(ctx: Context, s: System, metas: seq<Meta>, ix: ZkasperInstruction, w': Ledger)
    returns (a: Pubkey)
    requires Sane(ctx) && Inv(ctx, s) && ix.SubmitFinalization?
    requires Dispatched(ctx, s.world, metas, ix) == Ok(w')
    ensures var s' := System(w', Recorded(s, metas, ix));
      Inv(ctx, s') && HasEffect(ctx, s, s', Advances(a, ix.proof, ix.output))
  {
    var sk, rk := metas[0].key, metas[1].key;
    var bytes := Submitted(ctx, sk, Get(s.world, sk), rk, Get(s.world, rk), ix.proof, ix.output).value;
    var state;
    a, state := SubmitIsOwn(ctx, s, sk, rk, ix.proof, ix.output);
    SubmitKeeps(ctx, s, sk, rk, ix.proof, ix.output, bytes, a, state, w');
  }

  lemma ReadingTransaction(ctx: Context, s: System, metas: seq<Meta>, ix: ZkasperInstruction, w': Ledger)
    requires !ix.Initialize? && !ix.SubmitFinalization? && Dispatched(ctx, s.world, metas, ix) == Ok(w')
    ensures System(w', Recorded(s, metas, ix)) == s
  {
  }

  /** Every transaction bootstraps one new client, advances one client, or does nothing. */
  lemma TransactionEffect(ctx: Context, s: System, metas: seq<Meta>, data: seq<Byte>, s': System) returns (e: Effect)
    requires Sane(ctx) && Inv(ctx, s) && Transaction(ctx, s, metas, data, s')
    ensures Inv(ctx, s') && HasEffect(ctx, s, s', e)
  {
    e := Nothing;
    if Process(ctx, s.world, metas, data).Ok? {
      var ix := Instruction.Unpack(data).value;
      if ix.Initialize? {
        InitializeTransaction(ctx, s, metas, ix, s'.world);
        e := Appears(metas[0].key, BootstrapOf(ix));
      } else if ix.SubmitFinalization? {
        var a := SubmitTransaction(ctx, s, metas, ix, s'.world);
        e := Advances(a, ix.proof, ix.output);
      } else {
        ReadingTransaction(ctx, s, metas, ix, s'.world);
      }
    }
  }

  /** Every step keeps the invariant. */
  lemma StepKeeps(ctx: Context, s: System, s': System)
    requires Sane(ctx) && Inv(ctx, s) && Step(ctx, s, s')
    ensures Inv(ctx, s')
  {
    if metas: seq<Meta>, data: seq<Byte> :| Transaction(ctx, s, metas, data, s') {
      var e := TransactionEffect(ctx, s, metas, data, s');
    } else {
      ElsewhereKeeps(ctx, s, s'.world);
      assert s' == System(s'.world, s.clients);
    }
  }

  /** So it holds throughout every run. */
  lemma {:induction false} RunKeeps(ctx: Context, run: seq<System>, i: nat)
    requires Sane(ctx) && Run(ctx, run) && i < |run|
    ensures Inv(ctx, run[i])
  {
    if i == 0 {
      StartKeeps(ctx, run[0]);
    } else {
      RunKeeps(ctx, run, i - 1);
      assert StepAt(ctx, run, i);
      StepKeeps(ctx, run[i - 1], run[i]);
    }
  }
}
