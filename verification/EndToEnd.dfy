/** The light client over the PLONK verifier: what an accepted finalization rests on. */
module EndToEnd {
  import opened Bytes
  import opened Modular
  import opened Scalar
  import opened Compression
  import opened Transcript
  import opened Verifier
  import opened Plonk
  import opened Wire
  import opened Instruction
  import opened Runtime
  import opened World
  import opened Invariant
  import opened Verdicts

  /** `verify` in program/src/processor.rs: expand the proof, rebuild the window, check under the pinned key. */
  ghost predicate ProofAccepted(env: Env, proof: CompressedProof, vk: Bytes32, o: FinalizationOutput) {
    Prime(R) && FrCanonical(env.vk.w1).Some? && SubmissionVerifies(env, proof, vk, PublicValues(o, vk))
  }

  /** The context of a deployed program: proofs are checked by the PLONK verifier. */
  ghost function Deployed(env: Env, ctx: Context): Context {
    ctx.(verify := (proof: CompressedProof, vk: Bytes32, o: FinalizationOutput) => ProofAccepted(env, proof, vk, o))
  }

  /** The one place a proof is checked. */
  method Verify(env: Env, proof: CompressedProof, vk: Bytes32, o: FinalizationOutput) returns (ok: bool)
    requires Trusted(env)
    ensures ok <==> ProofAccepted(env, proof, vk, o)
  {
    var window := BuildPublicValues(o, vk);
    ok := VerifySubmission(env, proof, vk, window[..]);
  }

  /** The hashed statement spells key, output and aggregation key: no two statements share a preimage. */
  lemma StatementInjective(vk: Vk, k: Bytes32, o: FinalizationOutput, vk': Vk, k': Bytes32, o': FinalizationOutput)
    requires PublicPreimage(vk, k, PublicValues(o, k)) == PublicPreimage(vk', k', PublicValues(o', k'))
    ensures k == k' && o == o' && vk.rootC == vk'.rootC
  {
    var s, s' := PublicPreimage(vk, k, PublicValues(o, k)), PublicPreimage(vk', k', PublicValues(o', k'));
    assert s[..32] == k && s'[..32] == k';
    assert s[32..32 + PUBLIC_VALUES_LEN] == PublicValues(o, k)
        && s'[32..32 + PUBLIC_VALUES_LEN] == PublicValues(o', k');
    assert s[32 + PUBLIC_VALUES_LEN..] == vk.rootC && s'[32 + PUBLIC_VALUES_LEN..] == vk'.rootC;
    PublicValuesInjective(o, k, o', k');
  }

  /**
   Every finalization any client of any run has accepted is one the PLONK
   equations accept for the client's pinned key and that output, with all nine
   commitments on the curve or at infinity.
   */
  lemma AcceptedIsProved(env: Env, ctx: Context, run: seq<System>, i: nat, a: Pubkey, k: nat) returns (bytes: seq<Byte>)
    requires Trusted(env) && Sane(Deployed(env, ctx)) && Run(Deployed(env, ctx), run) && i < |run|
    requires a in run[i].clients && k < |run[i].clients[a].accepted|
    ensures var c := run[i].clients[a];
      && Decompressed(env.sys, c.accepted[k].proof) == Some(bytes)
      && Verifies(env, bytes, c.bootstrap.vk, PublicValues(c.accepted[k].output, c.bootstrap.vk), false)
    ensures Parse(bytes).Some? && OnCurveOrInfinity(Parse(bytes).value)
  {
    ReachableHolds(Deployed(env, ctx), run, i, a);
    var c := run[i].clients[a];
    assert Linked(Deployed(env, ctx), c, k);
    bytes := Decompressed(env.sys, c.accepted[k].proof).value;
    MembershipCheckOnlyRefusesInfinity(env, bytes, c.bootstrap.vk, PublicValues(c.accepted[k].output, c.bootstrap.vk));
  }
}
