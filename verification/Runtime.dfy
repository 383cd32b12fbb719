/** Accounts, program-derived addresses and the system program, as the program meets them. */
module Runtime {
  import opened Bytes
  import opened Errors
  import opened State
  import opened Wire
  import opened Instruction

  type Pubkey = Bytes32

  const SYSTEM_PROGRAM: Pubkey := Zeros(32)

  datatype Account = Account(lamports: nat, owner: Pubkey, data: seq<Byte>)

  /**
   What the program calls into: address derivation from concatenated seeds
   (`create_program_address`, none when the result is on the curve), the rent
   price of an account, and proof verification.
   */
  datatype Context = Context(
    programId: Pubkey,
    derive: seq<Byte> -> Option<Pubkey>,
    rent: nat -> nat,
    verify: (CompressedProof, Bytes32, FinalizationOutput) -> bool)

  // ---------------------------------------------------------------------------
  // Addresses
  // ---------------------------------------------------------------------------

  /** Derivation never takes two seed strings to one address. */
  ghost predicate CollisionFree(ctx: Context) {
    forall s: seq<Byte>, t: seq<Byte> {:trigger ctx.derive(s), ctx.derive(t)} ::
      ctx.derive(s).Some? && ctx.derive(s) == ctx.derive(t) ==> s == t
  }

  /** The address is one this program derives. */
  ghost predicate IsDerived(ctx: Context, key: Pubkey) {
    exists s: seq<Byte> :: ctx.derive(s) == Some(key)
  }

  /** `find_program_address` from this bump down: the first that derives, down to 1. */
  function FindFrom(ctx: Context, seed: seq<Byte>, bump: Byte): (r: Option<(Pubkey, Byte)>)
    ensures r.Some? ==> ctx.derive(seed + [r.value.1]) == Some(r.value.0)
    decreases bump
  {
    if bump == 0 then None
    else
      match ctx.derive(seed + [bump])
      case Some(key) => Some((key, bump))
      case None => FindFrom(ctx, seed, bump - 1)
  }

  function FindProgramAddress(ctx: Context, seed: seq<Byte>): (r: Option<(Pubkey, Byte)>)
    ensures r.Some? ==> ctx.derive(seed + [r.value.1]) == Some(r.value.0)
  {
    FindFrom(ctx, seed, 255)
  }

  /** Where an authority's light-client state lives, with its canonical bump. */
  function StateAddress(ctx: Context, authority: Pubkey): (r: Option<(Pubkey, Byte)>)
    ensures r.Some? ==> ctx.derive(StateSeed(authority, r.value.1)) == Some(r.value.0)
  {
    FindProgramAddress(ctx, SEED_STATE + authority)
  }

  /** Where its ring lives. */
  function RingAddress(ctx: Context, authority: Pubkey): (r: Option<(Pubkey, Byte)>)
    ensures r.Some? ==> ctx.derive(RingSeed(authority, r.value.1)) == Some(r.value.0)
  {
    FindProgramAddress(ctx, SEED_RING + authority)
  }

  function StateSeed(authority: Pubkey, bump: Byte): seq<Byte> {
    SEED_STATE + authority + [bump]
  }

  function RingSeed(authority: Pubkey, bump: Byte): seq<Byte> {
    SEED_RING + authority + [bump]
  }

  /** Seed strings name their authority and bump, and the two kinds never meet: their lengths differ. */
  lemma SeedsInjective(a: Pubkey, bump: Byte, b: Pubkey, bump': Byte)
    ensures StateSeed(a, bump) == StateSeed(b, bump') ==> a == b && bump == bump'
    ensures RingSeed(a, bump) == RingSeed(b, bump') ==> a == b && bump == bump'
    ensures StateSeed(a, bump) != RingSeed(b, bump')
  {
    var s, s' := StateSeed(a, bump), StateSeed(b, bump');
    assert s[13..45] == a && s[45] == bump && s'[13..45] == b && s'[45] == bump';
    var t, t' := RingSeed(a, bump), RingSeed(b, bump');
    assert t[12..44] == a && t[44] == bump && t'[12..44] == b && t'[44] == bump';
    assert |s| == 46 && |t'| == 45;
  }

  /** The search stops at the highest bump that derives, and fails only when none from 1 up does. */
  lemma {:induction false} HighestBump(ctx: Context, seed: seq<Byte>, from: Byte)
    ensures var r := FindFrom(ctx, seed, from);
      && (r.Some? ==> 0 < r.value.1 <= from && forall b: Byte | r.value.1 < b <= from :: ctx.derive(seed + [b]).None?)
      && (r.None? ==> forall b: Byte | 0 < b <= from :: ctx.derive(seed + [b]).None?)
    decreases from
  {
    if from > 0 && ctx.derive(seed + [from]).None? {
      HighestBump(ctx, seed, from - 1);
    }
  }

  /** b"zkasper-state", the authority, and the bump; and b"zkasper-ring" likewise. */
  lemma SeedBytes(a: Pubkey, bump: Byte)
    ensures var s := StateSeed(a, bump);
      && |s| == 46 && (forall i | 0 <= i < 13 :: s[i] == "zkasper-state"[i] as int)
      && s[13..45] == a && s[45] == bump
    ensures var s := RingSeed(a, bump);
      && |s| == 45 && (forall i | 0 <= i < 12 :: s[i] == "zkasper-ring"[i] as int)
      && s[12..44] == a && s[44] == bump
  {
  }

  /** No byte above this bump derives an address from the seed. */
  ghost predicate NoneAbove(ctx: Context, seed: seq<Byte>, bump: Byte) {
    forall b: Byte | b > bump :: ctx.derive(seed + [b]).None?
  }

  /** An authority's addresses are those its canonical bumps derive: the highest that do. */
  lemma CanonicalAddresses(ctx: Context, a: Pubkey, key: Pubkey, bump: Byte)
    ensures StateAddress(ctx, a) == Some((key, bump))
       <==> bump > 0 && ctx.derive(StateSeed(a, bump)) == Some(key) && NoneAbove(ctx, SEED_STATE + a, bump)
    ensures RingAddress(ctx, a) == Some((key, bump))
       <==> bump > 0 && ctx.derive(RingSeed(a, bump)) == Some(key) && NoneAbove(ctx, SEED_RING + a, bump)
  {
    CanonicalAddress(ctx, SEED_STATE + a, key, bump);
    CanonicalAddress(ctx, SEED_RING + a, key, bump);
  }

  lemma CanonicalAddress(ctx: Context, seed: seq<Byte>, key: Pubkey, bump: Byte)
    ensures FindProgramAddress(ctx, seed) == Some((key, bump))
       <==> bump > 0 && ctx.derive(seed + [bump]) == Some(key) && NoneAbove(ctx, seed, bump)
  {
    HighestBump(ctx, seed, 255);
    var found := FindProgramAddress(ctx, seed);
    if found.Some? && bump > 0 && ctx.derive(seed + [bump]) == Some(key) && NoneAbove(ctx, seed, bump) {
      assert found.value.1 <= bump;
      assert bump <= found.value.1;
    }
  }

  // ---------------------------------------------------------------------------
  // System program
  // ---------------------------------------------------------------------------

  /** `transfer`: only a system account without data can pay, and only what it has. */
  function Transfer(payer: Account, target: Account, amount: nat): (r: Result<(Account, Account)>)
    ensures r.Ok? ==> r.value.0.lamports + r.value.1.lamports == payer.lamports + target.lamports
  {
    if payer.owner != SYSTEM_PROGRAM || payer.data != [] then Err(InvalidPayer)
    else if payer.lamports < amount then Err(InsufficientFunds)
    else Ok((payer.(lamports := payer.lamports - amount), target.(lamports := target.lamports + amount)))
  }

  /** `allocate`: zeroed data for an empty system account. */
  function Allocate(target: Account, space: nat): Result<Account> {
    if target.data != [] || target.owner != SYSTEM_PROGRAM then Err(AccountInUse)
    else Ok(target.(data := Zeros(space)))
  }

  /** `create_account`: refuses an address that holds lamports. */
  function CreateAccount(payer: Account, target: Account, lamports: nat, space: nat, owner: Pubkey)
    : Result<(Account, Account)>
  {
    if target.lamports > 0 then
      Err(AccountInUse)
    else
      var zeroed :- Allocate(target, space);
      Transfer(payer, zeroed.(owner := owner), lamports)
  }
}
