# zkasper-solana in Dafny

zkasper-solana is an on-chain light client for Ethereum finality. A submission
carries a PLONK proof and the finalization it attests to; the program rebuilds
the statement, verifies the proof through Solana's `alt_bn128` syscalls, moves
its own state forward by one finalization, and overwrites one slot of a
128-slot ring that other programs read. This project models the program from
the byte string it is sent to the bytes it leaves behind, and proves what that
is for.

## What is proved

**The verifier** (`Bytes`, `Modular`, `Polynomials`, `Scalar`, `Curve`,
`Compression`, `Algebra`, `Batching`, `Soundness`, `Constraints`, `Domain`,
`Acceptance`, `Transcript`, `Verifier`, `Plonk`, `Reference`). The methods run the source's steps over byte buffers and
syscalls. `VerifyWith` is proved to accept exactly the set `Verifies`: the
proof parses, its nine commitments are group elements, and one linear equation
in the setup secret holds between discrete logarithms. `Reference` says the same
with every byte range and every point by name: what is parsed, what each
challenge is the digest of, and the PLONK paper's equation. About that set:
completeness for every honest prover, exactness of both batchings (one `u`, at
most five `v`), linearisation as the full PLONK identity, and that skipping the
membership check changes the verdict for encoded infinity only. A prover bound
to polynomials and accepted often enough has met the identity with true values
of all six claims; one that does so at more xi than the identity's degree, for
three alphas, satisfies every gate at every point of the domain and the grand
product of the permutation.

**The light client** (`Wire`, `Instruction`, `State`, `Ring`, `Runtime`,
`Processor`, `Dispatch`, `World`, `Invariant`, `Safety`, `Lamports`, `Verdicts`,
`Answers`, `EndToEnd`). The handlers are methods over account objects whose buffers they
change in place; `Dispatch.ProcessInstruction` shows that they do to loaded
accounts what `World.Process` does to a ledger. A run interleaves transactions
naming any accounts and carrying any data with anything other programs may do.
One invariant, kept by every step, says the accounts hold byte for byte what
the accepted history determines and that the program owns nothing else; all
the answers of the read path and every refusal follow from the history alone, and
`Answers` states them over the bytes of the transaction. No step lowers a client's balances, and no transaction mints.

**The wrap-file parser** (`WrapFile`, `SpuriousPublics`). The Python script that
turns a `cargo-zisk wrap` file into a fixture, with Python's negative indices,
clamped slices and exceptions.

## Assumptions

- The scalar and base field moduli are prime, wherever a lemma says `Prime`.
- G1 is a cyclic group of order `R` generated by `(1, 2)`; its elements are the
  canonical curve points and the 64 zero bytes. A point stands for its discrete
  logarithm. The logarithm turns coordinate negation into negation, and doubling
  by the tangent rule into doubling (`Curve.IsLogarithm`).
- The `alt_bn128` syscalls compute that group, refuse what is no element, and
  decide the two-pair product (`Curve.GroupSyscalls`, `Curve.PairingSyscall`);
  compression writes the x-coordinate with a sign bit and decompression inverts
  it (`Compression.CompressionSyscalls`). SHA-256 and Keccak-256 are arbitrary
  functions into 32 bytes.
- The circuit constants are arbitrary, except that the points are elements, the
  root of unity is canonical, and `N = 2^24`, `K1 = 2`, `K2 = 3`. `Constraints`
  also takes `w^N = 1` and an inverse of `N` modulo the prime
  (`Constraints.ValidSetting`); it fixes beta and gamma.
- Address derivation never takes two seed strings to one address, no derived
  address has a private key, and the program is not the system program.
- A refused transaction leaves the ledger alone. Only a refused `initialize`
  needs this: `submit_finalization` is shown to change nothing when it refuses.
- Lamports may arrive anywhere, other programs do as they like with their own
  accounts, and anyone may hand this program a zero-filled account at an address
  it does not derive (`World.Elsewhere`).
- That a proof's `justified_epoch` is its `finalized_epoch + 1` is the guest's
  guarantee, not the program's, and nothing here assumes it of proofs. It is a
  fact a client's own accepted history may or may not have
  (`Verdicts.AdjacentAt`, `Verdicts.AdjacentBelow`). Results that depend on it
  are equivalences with it, or have a form beside them that does without.

A field expression is written over the integers and reduced modulo `R` once,
which `Scalar.FieldHomomorphism` justifies.

## Where the source and its documentation part

- program/src/state.rs:91-95 says the stored accumulator epoch is always one
  above the finalized epoch. The code stores whatever `justified_epoch` a
  verified proof carries: in every reachable state the equality holds exactly
  when nothing has been accepted or the last accepted output was adjacent
  (`StoredStateFollowsHistory`), and a verified output that is not adjacent is
  accepted and breaks it (`NonAdjacentIsStored`). One naming an epoch not above
  its own leaves the client refusing everything for good (`StrandedForever`).
- scripts/wrap_to_fixture.py:48-49 expects the backward search to find the
  publics. It finds the nearest list of 68 words that ends at the keys and opens
  with the program key, and the window's own bytes may spell a nearer one. The
  parser returns the encoded fields if and only if there is none
  (`ParseRoundTrip`), as when no byte of the encoded words is 68
  (`NoCountInPublics`), and returns at all if and only if the nearest list fits
  (`ParseReturnsIff`). Both conditions can be read off the encoded publics and
  the key before there is a file (`ParseFromPublics`). Both failures happen on files whose window words are all
  narrower than a key word: `ParseMayRaise`, and `ParseMayMislead`, where wrong
  public values come back without an exception.

## Model

| member | source | states |
|---|---|---|
| `Scalar.FrReduceIsValueModR` | program/src/plonk.rs:50-54 | two 128-bit halves and one multiplication give the 256-bit big-endian value mod r, for every input |
| `Bytes.U64LEByte` | program/src/wire.rs:99-109 | byte i of a u64 field counts the 256^i |
| `Scalar.BeLimbs` | program/src/plonk.rs:68-74 | filling the limb array from its far end leaves the four words least significant first |
| `Scalar.LimbsHoldValue` | program/src/plonk.rs:68-74 | the limbs, weighted by powers of 2^64, are the big-endian value of the bytes |
| `Scalar.FrCanonicalExact` | program/src/plonk.rs:58-60 | parsing succeeds if and only if the value is below r, and writing the result back gives the same 32 bytes |
| `Scalar.FrBytes` | program/src/plonk.rs:76-82 | the limb-by-limb writer lays down the 32-byte big-endian encoding |
| `Bytes.ToBEByte` | program/src/plonk.rs:76-82 | byte i of an n-byte big-endian encoding counts the 256^(n-1-i) |
| `Scalar.FrBytesParse` | program/src/plonk.rs:58-82 | the encoding of every scalar parses back to that scalar |
| `Curve.NegCoordinates` | program/src/plonk.rs:104-112 | negating an encoded point encodes (x, -y), and leaves y = 0 alone |
| `Curve.NegValid` | program/src/plonk.rs:104-112 | the negation of an element is an element |
| `Curve.EncodedOnCurve` | program/src/plonk.rs:252-257 | the software test accepts a canonical encoding if and only if its coordinates satisfy y^2 = x^3 + 3 |
| `Verifier.G1Mul` | program/src/plonk.rs:84-92 | the 96-byte call succeeds exactly for an element, and multiplies its logarithm by the scalar |
| `Verifier.G1Add` | program/src/plonk.rs:94-102 | the 128-byte call succeeds exactly for two elements, and adds their logarithms |
| `Verifier.G1MulAcc` | program/src/plonk.rs:114-117 | succeeds exactly for two elements, and adds scalar times point to the accumulated logarithm |
| `Compression.DecompressProof` | program/src/plonk.rs:158-170 | expands nine words in place and copies the rest, or refuses when the length is wrong or any word expands to nothing |
| `Compression.CompressProof` | program/src/plonk.rs:174-184 | the same in the other direction |
| `Compression.DecompressedExactly` | program/src/plonk.rs:158-170 | 480 bytes expand to a proof if and only if word i decompresses to point i for all nine and bytes 288 on are its bytes 576 on |
| `Compression.CompressedExactly` | program/src/plonk.rs:174-184 | and the other way: point i compresses to word i, and the evaluations are carried over |
| `Compression.PointRoundTrip` | program/src/plonk.rs:165-180 | every element compresses, and expands back to the same 64 bytes |
| `Compression.SpellingUnique` | program-tests/tests/plonk.rs:72-133 | two words with one expansion are equal, unless they spell infinity |
| `Compression.ProofRoundTrip` | program/src/plonk.rs:158-184 | expanding a compressed proof gives back its 768 bytes, for every proof whose commitments are elements |
| `Compression.EqualExpansions` | program-tests/tests/plonk.rs:72-133 | compressed proofs with one expansion agree in the evaluations and in every word that does not spell infinity |
| `Transcript.ParsedEvaluations` | program/src/plonk.rs:192-222 | a parse succeeds if and only if all six evaluation words are below r, and then bytes 576 to 768 are the canonical encodings of the evaluations used |
| `Transcript.ParsesIffSpelled` | program/src/plonk.rs:192-222 | a proof parses from exactly the 768 bytes that hold its nine points at 0, 64, ..., 512 and the canonical encodings of its six evaluations at 576, 608, ..., 736 |
| `Transcript.PublicInputHashed` | program/src/plonk.rs:271-277 | the public input is the SHA-256, mod r, of the 576 bytes that are program key, window and aggregation key |
| `Transcript.ChallengesHashed` | program/src/plonk.rs:296-366 | each of the six challenges is the Keccak-256, mod r, of the preimage stated byte range by byte range: key points, public input, commitments, earlier challenges, evaluations |
| `Transcript.TranscriptBinds` | program/src/plonk.rs:296-366 | two proofs whose six preimages agree are one byte string under one public input and one set of key points |
| `Transcript.DeriveChallenges` | program/src/plonk.rs:296-365 | the buffers filled step by step hash to the challenges of the proof, with xi^n by 24 squarings and the powers of v |
| `Transcript.ChallengesDerived` | program/src/plonk.rs:339-365 | the vanishing value is xi^n - 1, and alpha^2, beta xi and the v powers are what their names say |
| `Domain.Squarings` | program/src/plonk.rs:344-348 | the squaring loop yields xi^N with N = 2^24 |
| `Domain.BatchIsDirect` | program/src/plonk.rs:372-388 | the inverse of a product exists exactly when neither factor is zero, and then gives each factor its own inverse |
| `Domain.Lagrange1` | program/src/plonk.rs:372-388 | the batch inversion computes zh / (n (xi - 1)), and is refused exactly when that is |
| `Domain.L1RefusedOnDomain` | program/src/plonk.rs:372-388 | it is refused if and only if xi^N = 1 |
| `Domain.L1IsMeanOfPowers` | program/src/plonk.rs:372-388 | otherwise n times the result is 1 + xi + ... + xi^(n-1) |
| `Algebra.LinearisationMeaning` | program/src/plonk.rs:390-427 | D without its u Z term, commitments replaced by values at xi, plus r0, is gate + PI + permutation with S3 restored + L1 term - split quotient |
| `Verifier.CalculateD` | program/src/plonk.rs:399-427 | succeeds exactly when Z, T1, T2, T3 are elements, and its logarithm is gate + permutation - quotient |
| `Verifier.CalculateF` | program/src/plonk.rs:429-435 | succeeds exactly when A, B, C are elements, and adds the five commitments weighted by the powers of v |
| `Verifier.CalculateE` | program/src/plonk.rs:437-446 | the generator times the batched claims, less r0 |
| `Verifier.CheckPairing` | program/src/plonk.rs:448-471 | accepts exactly when both openings are elements and the pairing exponent vanishes |
| `Plonk.DExponentIsDot` | program/src/plonk.rs:399-427 | D as computed part by part is one linear combination of ten points, plus u Z |
| `Batching.BatchingIsExact` | program/src/plonk.rs:448-471 | the final equation holds if and only if defect(xi) + u defect(xi w) = 0 |
| `Batching.OneU` | program/src/plonk.rs:334-365 | two different u are accepted if and only if both openings hold, so otherwise at most one is |
| `Batching.OpensIffRoot` | program/src/plonk.rs:351-366 | an opening polynomial at xi exists if and only if v is a root of the polynomial of claim errors |
| `Batching.ErrorsVanish` | program/src/plonk.rs:390-446 | all errors are zero if and only if the PLONK identity holds at xi and the five claims are true |
| `Batching.AtMostFiveV` | program/src/plonk.rs:351-366 | when more than five v admit an opening, the identity and all five claims are true |
| `Batching.EveryV` | program/src/plonk.rs:351-366 | and when they are true, every v admits one |
| `Soundness.DefectIsValue` | program/src/plonk.rs:429-471 | for committed polynomials the defect at xi is the opening equation's value at the secret |
| `Soundness.OpeningsAreIdentities` | program/src/plonk.rs:429-471 | openings that hold at as many secrets as their equations have coefficients hold as identities of polynomials |
| `Soundness.AcceptancesOpen` | program/src/plonk.rs:448-471 | accepted under two u at enough secrets, committed polynomials open at xi, and z takes the claimed value at xi w |
| `Soundness.AcceptancesForceTruth` | program/src/plonk.rs:351-471 | accepted for more than five v as well, a prover has met the PLONK identity at xi with true values of all six claims |
| `Constraints.AcceptedRoundMeets` | program/src/plonk.rs:351-471 | acceptances alone make a round one whose six claims are true and whose identity holds |
| `Constraints.EvalIdentity` | program/src/plonk.rs:390-427 | the PLONK identity, with L_1, the shifted z and the split quotient, is one polynomial in xi |
| `Constraints.TruthIsIdentity` | program/src/plonk.rs:390-471 | rounds that meet the identity at as many xi as it has coefficients make it an identity of polynomials |
| `Constraints.ConstraintsHold` | program/src/plonk.rs:390-427 | when that happens for three alphas, the gate, the permutation step and the L_1 constraint each vanish at every point with x^N = 1 |
| `Constraints.GrandProduct` | program/src/plonk.rs:390-427 | constraints that hold at every power of the generator make the two products of the permutation over the domain equal |
| `Constraints.StatementHolds` | program/src/plonk.rs:390-471 | so a prover bound to its polynomials and true at enough xi for three alphas has satisfied every gate and the grand product |
| `Batching.Completeness` | program/src/plonk.rs:390-471 | honest commitments, evaluations and synthetic-division openings are accepted, whatever the challenges |
| `Acceptance.AcceptedIffCancel` | program/src/plonk.rs:372-471 | from lagrange_1 through the pairing, acceptance is xi off the domain and the two defects cancelling |
| `Acceptance.HonestAccepted` | program/src/plonk.rs:372-471 | an honest prover is accepted whenever xi is off the domain |
| `Plonk.VerifyProof` | program/src/plonk.rs:496-507 | after parsing, accepts exactly when all nine commitments are elements and the algebra accepts |
| `Plonk.VerifyWith` | program/src/plonk.rs:487-507 | accepts exactly the byte strings of Verifies, with and without the membership check |
| `Plonk.MembershipCheckOnlyRefusesInfinity` | program/src/plonk.rs:230-250 | without the check every accepted string has its commitments on the curve or at infinity, and the two modes differ only when one is infinity |
| `Plonk.HonestProofVerifies` | program/src/plonk.rs:487-507 | every proof honest under the challenges its own bytes hash to is accepted |
| `Plonk.AcceptanceIsTwoOpenings` | program/src/plonk.rs:487-507 | a parsed proof is accepted exactly when its commitments are elements, xi is off the domain and the defects cancel |
| `Reference.OpenedAtXi` | program/src/plonk.rs:390-446 | D, F and r0 less the batched claims, in the exponent, are the PLONK identity on the named points plus the five other claims weighed by powers of v |
| `Reference.AcceptedSpells` | program/src/plonk.rs:487-507 | whatever is accepted spells a proof with canonical evaluations |
| `Reference.AcceptedExactly` | program/src/plonk.rs:487-507 | bytes that spell a proof are accepted if and only if its commitments are elements, xi is off the domain, and the equation over the named points holds for the public input and challenges hashed from the stated bytes |
| `Plonk.VerifySubmission` | program/src/processor.rs:320-327 | accepts exactly the compressed proofs whose expansion verifies without the membership check |
| `Plonk.CompressionPreservesVerdict` | program/src/processor.rs:312-327 | compressing a proof with element commitments leaves its verdict as it was |
| `Plonk.ExpandedCommitments` | program/src/plonk.rs:154-157 | whatever expands, its nine commitments are elements |
| `Wire.BuildPublicBytes` | program/src/wire.rs:99-109 | the range copies lay the seven fields end to end, epochs little-endian |
| `Wire.PublicBytesInverse` | program/src/wire.rs:99-124 | 176 bytes encode an output if and only if they decode to it |
| `Wire.FieldsOf` | program/src/wire.rs:99-109 | which of the 176 bytes are which field |
| `Wire.BuildGuestProgramVk` | program/src/wire.rs:134-140 | four in-place word reversals give the guest's spelling of the key |
| `Wire.GuestWord` | program/src/wire.rs:127-140 | each word of the guest's spelling, read little-endian, is the pinned word read big-endian |
| `Wire.GuestProgramVkInvolution` | program/src/wire.rs:127-140 | the two spellings are each other's reversal |
| `Wire.BuildPublicValues` | program/src/wire.rs:153-167 | the chunk loop spreads output and key four bytes to a slot of eight |
| `Wire.WindowReadsBack` | program-tests/src/lib.rs:45-58 | reading four bytes a slot recovers output, key and zeros, and every byte not read is zero |
| `Wire.PublicValuesInjective` | program/src/wire.rs:153-167 | distinct outputs or keys have distinct windows |
| `EndToEnd.StatementInjective` | program/src/plonk.rs:271-277 | statements that differ in key, output or aggregation key have distinct SHA-256 preimages, across circuit constants |
| `Instruction.InitializeData` | program/src/instruction.rs:193-221 | the builder's bytes decode to exactly its arguments |
| `Instruction.SubmitFinalizationData` | program/src/instruction.rs:223-243 | the builder's bytes decode to exactly its arguments |
| `Instruction.AssertFinalizedData` | program/src/instruction.rs:245-262 | the builder's bytes decode to exactly its arguments |
| `Instruction.AssertAnchoredData` | program/src/instruction.rs:264-279 | the builder's bytes decode to exactly its arguments |
| `Instruction.VerifyOnlyData` | program/src/instruction.rs:281-297 | the builder's bytes decode to exactly its arguments |
| `Instruction.EncodedFields` | program/src/instruction.rs:133-184 | for each instruction its length, the number of its tag, and which range is which argument |
| `Instruction.RefusedIffNoEncoding` | program/src/instruction.rs:126-184 | data is refused, with InvalidInstructionData, if and only if it encodes no instruction |
| `Instruction.UnpackIffEncoding` | program/src/instruction.rs:126-184 | data decodes to an instruction if and only if it is that instruction's builder encoding |
| `State.PackInto` | program/src/state.rs:128-148 | refuses a short buffer untouched, and otherwise writes the 186 bytes and keeps what follows |
| `State.PackedFields` | program/src/state.rs:128-148 | tag 1 first, and which of the 186 bytes are which field |
| `State.UnpackStateIffPacked` | program/src/state.rs:108-148 | an account reads as a state if and only if it opens with that state's bytes |
| `State.RingInit` | program/src/state.rs:210-217 | stamps tag and bump and keeps every other byte, or refuses a short buffer untouched |
| `State.RingWrite` | program/src/state.rs:230-240 | overwrites exactly the slot the entry's epoch owns, or refuses on the header with nothing changed |
| `State.FindRoot` | program/src/state.rs:269-275 | the scan returns the first written slot naming the root, or none does |
| `Ring.RingIsLastWriter` | program/src/state.rs:226-240 | after any history every slot's 73 bytes are those of its last writer, or zero, under the header |
| `Ring.RingHeaderBytes` | program/src/state.rs:210-217 | 9346 bytes, tag 2, then the bump |
| `Ring.RingEntryBytes` | program/src/state.rs:230-240 | an entry no later epoch is congruent to lies at 2 + 73 (epoch mod 128): tag 3, epoch, root, state root |
| `Ring.RingBlankBytes` | program/src/state.rs:226-240 | the 73 bytes of a slot no epoch was congruent to are zero |
| `Ring.SlotReadsLastWriter` | program/src/state.rs:300-310 | reading a slot gives its last writer, and none when nothing reached it |
| `Ring.EntryIffInRing` | program/src/state.rs:242-254 | under rising epochs an accepted epoch is answered with its own record exactly until a congruent one is written |
| `Ring.UnknownEpoch` | program/src/state.rs:242-254 | no epoch the history never accepted is answered |
| `Ring.RingRefinesHistory` | program/src/state.rs:242-254 | for every u64 epoch the answer is the unbounded history's inside [max(bootstrap+1, head-127), head], and EpochNotInRing outside |
| `Ring.FoundRootIsGenuine` | program/src/state.rs:262-277 | a root found names an accepted record still in the ring, which lookup by its epoch returns too |
| `Ring.RootFoundIffInRing` | program/src/state.rs:262-277 | the scan succeeds if and only if a record in the ring names the root, and its final ok_or never fires |
| `Ring.DistinctRootsFound` | program/src/state.rs:256-277 | with no root shared, the scan finds the one record that names it |
| `Runtime.SeedsInjective` | program/src/state.rs:22-23 | seed strings determine authority and bump, and no state seed is a ring seed |
| `Runtime.SeedBytes` | program/src/state.rs:22-23 | the seed strings spell zkasper-state and zkasper-ring, then the authority, then the bump |
| `Runtime.CanonicalAddresses` | program/src/state.rs:324-330 | the canonical address is the one the highest deriving bump gives |
| `Processor.CreatePda` | program/src/processor.rs:412-459 | leaves the target zeroed, owned by the program and funded, and the payer debited, in place, or refuses as the system program does |
| `Processor.PdaIgnoresPriorBalance` | program/src/processor.rs:435-458 | an empty target ends zeroed, owned, holding max(prior, rent) whatever it held; the payer pays max(0, rent - prior) |
| `Processor.PdaConservesLamports` | program/src/processor.rs:412-459 | no branch mints or loses a lamport |
| `Processor.CreateAccounts` | program/src/processor.rs:124-159 | the two accounts are created and stamped in order, with the epoch overflow refused between them |
| `Processor.Initialize` | program/src/processor.rs:86-163 | the checks in order, and on success the three accounts' exact contents |
| `Processor.DistinctAccounts` | program/src/processor.rs:108-119 | authority, state and ring are three different addresses |
| `Processor.SubmitFinalization` | program/src/processor.rs:169-295 | the refusals in order, the exact bytes of both buffers on success, and no byte changed on refusal, even when one account is passed twice |
| `Processor.VerifyOnly` | program/src/processor.rs:298-310 | reads the first account alone and writes no account: no authority, address or epoch enters the answer |
| `Processor.AssertFinalized` | program/src/processor.rs:336-352 | reads the first account alone and writes none, keeping EpochNotInRing apart from CheckpointNotFinalized; what the answer means is `Verdicts.AssertFinalizedAccepted` |
| `Processor.AssertAnchored` | program/src/processor.rs:354-365 | reads the first account alone and writes none; what the answer means is `Verdicts.AssertAnchoredInRing` |
| `Dispatch.ProcessInstruction` | program/src/processor.rs:23-60 | the handlers do to loaded accounts what the ledger model does, with the same error; only a refused initialize may leave them changed |
| `Invariant.OneAuthority` | program/src/processor.rs:192-197 | an address is the state or the ring of at most one authority under at most one bump |
| `Invariant.ElsewhereKeeps` | program/src/processor.rs:435-441 | nothing other programs do breaks the invariant |
| `Invariant.ExpectedRingIsOwn` | program/src/processor.rs:371-397 | the only ring let through for an authority is the one its own bootstrap created |
| `Invariant.SubmitIsOwn` | program/src/processor.rs:186-197 | an accepted submission names one client's own two accounts, and the state its history determines |
| `Invariant.TransactionEffect` | program/src/processor.rs:23-60 | every transaction bootstraps one new client, advances one client by one entry, or changes nothing |
| `Invariant.StepKeeps` | program/src/processor.rs:86-365 | every step keeps the invariant of the whole ledger |
| `Invariant.RunKeeps` | program/src/processor.rs:86-365 | so it holds in every state of every run |
| `Safety.TaggedStateIsCanonical` | program/src/processor.rs:186-197 | every owned account tagged 1 is the state of exactly one authority under its canonical bump, and nobody's ring |
| `Safety.TaggedRingIsCanonical` | program/src/processor.rs:371-397 | every owned account tagged 2 is the ring of exactly one authority under its canonical bump, and nobody's state |
| `Safety.StateIffRing` | program/src/processor.rs:108-159 | state and ring exist together, exactly for the authorities that bootstrapped |
| `Safety.RunContinues` | program/src/processor.rs:120-122 | a client keeps its bootstrap for ever and its history only grows |
| `Safety.ConfigurationIsWriteOnce` | program/src/state.rs:53-54 | authority, bump and guest key in the account's bytes never change, and count and epoch never fall |
| `Safety.TransactionTouchesOneAuthority` | program/src/state.rs:317-323 | a transaction changes the bytes and history of at most one authority |
| `Lamports.AlwaysFunded` | program/src/processor.rs:124-159 | in every state of every run a client's two accounts hold at least the rent of their sizes |
| `Lamports.BalanceNeverFalls` | program/src/processor.rs:412-459 | along a run the balance of a client's account never falls |
| `Lamports.TransactionConserves` | program/src/processor.rs:23-60 | the lamports of any set of addresses that includes those a transaction names are the same after it |
| `Verdicts.EpochsIncrease` | program/src/processor.rs:202-204 | accepted epochs strictly increase, whatever the guest guarantees |
| `Verdicts.EpochsConsecutive` | program/src/processor.rs:235-242 | after k entries the head is bootstrap + k if and only if all of them but the last were adjacent |
| `Verdicts.UnbrokenChain` | program/src/processor.rs:244-278 | in every run entry k is proved under the pinned key and starts where its predecessor ended, and it finalizes bootstrap + 1 + k if and only if the entries before it were adjacent |
| `Verdicts.StoredStateFollowsHistory` | program/src/state.rs:91-96 | in every reachable state the accumulator epoch is one above the finalized epoch if and only if nothing was accepted or the last output was adjacent; the count is the history's length and the key the bootstrap's |
| `Verdicts.StateFields` | program/src/state.rs:50-97 | every field of a client's state: the bootstrap's at first, afterwards the last accepted output's, with the count |
| `Verdicts.StoredStateExact` | program/src/processor.rs:268-279 | in every reachable state the account reads as exactly that |
| `Verdicts.NonAdjacentIsStored` | program/src/processor.rs:268-279 | a verified output that is not adjacent is accepted in any reachable state that holds its epoch, and the stored bytes then break that equality |
| `Verdicts.SubmissionVerdict` | program/src/processor.rs:202-278 | in every reachable state a submission is decided by the history alone, and the counter never overflows |
| `Verdicts.RefusalsClassified` | program/src/error.rs:43-65 | stale, gap and branch are told apart around head + 1 for every submission, if and only if the client holds the epoch after its head or its head is the last u64 |
| `Verdicts.StrandedForever` | program/src/processor.rs:268-273 | after accepting a justified epoch not above its finalized epoch, a client never accepts again |
| `Verdicts.OtherAccountsRefused` | program/src/processor.rs:378-397 | no account but an authority's own ring passes for it |
| `Verdicts.AssertFinalizedAccepted` | program/src/processor.rs:333-352 | in every reachable state an accepted epoch is answered by its own record until a congruent one takes its slot, whatever the guest guarantees |
| `Verdicts.AssertFinalizedUnknown` | program/src/processor.rs:333-352 | and any other epoch by EpochNotInRing |
| `Verdicts.AssertFinalizedVerdict` | program/src/processor.rs:333-352 | for a client whose epochs ran on without a gap, the answer at every u64 epoch is the history's inside the window, and EpochNotInRing outside |
| `Verdicts.AssertAnchoredInRing` | program/src/processor.rs:354-365 | in every reachable state it succeeds exactly for the roots of the records still in the ring, whatever the guest guarantees |
| `Verdicts.AssertAnchoredVerdict` | program/src/processor.rs:354-365 | for a client whose epochs ran on without a gap, exactly when one of the last 128 outputs named the root |
| `Verdicts.BootstrapVerdict` | program/src/processor.rs:124-159 | bootstrapping succeeds exactly below the last epoch with the two shortfalls covered, and conserves lamports |
| `Verdicts.InitializeVerdict` | program/src/processor.rs:120-159 | in every reachable state an authority can bootstrap exactly once, and no balance sent to its addresses can block it |
| `Verdicts.VerifyOnlyVerdict` | program/src/processor.rs:298-310 | in every reachable state it succeeds if and only if the address is some client's state and the proof holds under that client's pinned key |
| `Answers.MalformedAnswer` | program/src/processor.rs:23-28 | data that encodes no instruction is answered with InvalidInstructionData whatever the accounts |
| `Answers.TooFewAccounts` | program/src/processor.rs:96-100 | initialize needs four accounts, a submission two, the others one |
| `Answers.FinalizedOnAnyLedger` | program/src/processor.rs:336-352 | on any ledger the answer to assert_finalized is decided by the ring account's owner, tag and address and the slot at 2 + 73 (epoch mod 128), in that order |
| `Answers.AnchoredOnAnyLedger` | program/src/processor.rs:354-365 | assert_anchored by the same checks and whether some written slot names the root |
| `Answers.VerifyOnlyOnAnyLedger` | program/src/processor.rs:298-310 | verify_only by owner, length and tag and the proof under bytes 138 to 170 |
| `Answers.SubmitOnAnyLedger` | program/src/processor.rs:177-278 | submit_finalization by every check in the source's order, each stated over the bytes it reads |
| `Answers.FinalizedAnswer` | program/src/processor.rs:47-51 | in every reachable state a transaction asserting an accepted epoch on the authority's ring is answered by that record until a congruent one takes its slot |
| `Answers.UnknownEpochAnswer` | program/src/processor.rs:47-51 | one asserting an epoch never accepted by EpochNotInRing |
| `Answers.WindowAnswer` | program/src/processor.rs:47-51 | and for a client without a gap every epoch by the window of its history |
| `Answers.ForeignFinalizedAnswer` | program/src/processor.rs:371-397 | any other account is refused with what is wrong with it |
| `Answers.AnchoredAnswer` | program/src/processor.rs:52-55 | a transaction asserting a state root succeeds if and only if a record still in the ring names it |
| `Answers.ForeignAnchoredAnswer` | program/src/processor.rs:371-397 | and any other account is refused likewise |
| `Answers.VerifyOnlyAnswer` | program/src/processor.rs:56-58 | on a client's state the verdict on the proof under its pinned key, and the ledger as it was |
| `Answers.ForeignVerifyOnlyAnswer` | program/src/processor.rs:298-310 | on no client's state a refusal that says why |
| `Answers.SubmitAnswer` | program/src/processor.rs:44-46 | a submission to a client's own accounts is answered by its history alone |
| `Answers.SubmitLeaves` | program/src/processor.rs:268-294 | and leaves the output in the state's fields, the longer history in the ring, and every other byte, owner and balance as it was |
| `Answers.SubmitAcceptedIff` | program/src/processor.rs:177-278 | it is accepted if and only if the two accounts are one client's own and its history lets the output follow |
| `Answers.ForeignStateAnswer` | program/src/processor.rs:181-197 | a first account that is no client's state is refused before anything else |
| `Answers.ForeignRingAnswer` | program/src/processor.rs:202-266 | a ring that is not the client's after the checks against the state and before the proof |
| `Answers.InitializeRefusals` | program/src/processor.rs:95-122 | signer, system program, state address, ring address and prior data are checked in that order |
| `Answers.InitializeAnswer` | program/src/processor.rs:120-159 | a bootstrapped authority is told so, and for any other funds and the epoch alone decide, in the source's order |
| `Answers.InitializeLeaves` | program/src/processor.rs:124-159 | an accepted bootstrap leaves each argument in the field it is for, an empty ring under its header, both accounts funded, the wallet debited and nothing else changed |
| `EndToEnd.Verify` | program/src/processor.rs:320-327 | expanding, rebuilding the window and verifying accepts exactly the proofs of this key and output |
| `EndToEnd.AcceptedIsProved` | program/src/processor.rs:264-266 | every finalization any client of any run accepted is one the PLONK equations accept for its pinned key, commitments on the curve or at infinity |
| `WrapFile.RdVecU64` | scripts/wrap_to_fixture.py:22-30 | the loop reads the list ReadVec defines, or raises as it does |
| `WrapFile.VecReads` | scripts/wrap_to_fixture.py:14-30 | an encoded list of u64s reads back as itself, wherever it stands, whatever follows, and whatever count is expected |
| `WrapFile.SearchPublics` | scripts/wrap_to_fixture.py:50-60 | the loop finds what the backward search defines, skipping what fails to decode |
| `WrapFile.Parse` | scripts/wrap_to_fixture.py:33-67 | each check in order, with the exception it raises |
| `WrapFile.MarkedVarint` | scripts/wrap_to_fixture.py:14-19 | a number after its marker byte reads back, two, four, eight or sixteen bytes wide, canonical or not |
| `WrapFile.PlainVarint` | scripts/wrap_to_fixture.py:14-19 | a byte below 251 is its own value, and 255 alone is no marker |
| `WrapFile.SearchFinds` | scripts/wrap_to_fixture.py:50-62 | on any bytes the search returns a list if and only if it is the candidate nearest the start among the 799 positions before the tail |
| `WrapFile.SearchFails` | scripts/wrap_to_fixture.py:50-62 | with no candidate it raises ValueError, or IndexError when it runs off the front of the file |
| `WrapFile.ParsedExactly` | scripts/wrap_to_fixture.py:33-67 | on any bytes the parser returns given fields if and only if the file opens with 1 and the length 768, ends in two lists of four words and one byte, and the public values are the nearest candidate's, all in eight-byte words |
| `WrapFile.WrongFiles` | scripts/wrap_to_fixture.py:34-46 | an empty file raises IndexError; a wrong tag, a wrong length and trailing bytes raise ValueError |
| `WrapFile.TailIsRight` | scripts/wrap_to_fixture.py:42 | the fixed tail is where the keys begin if and only if all eight key words take nine bytes |
| `WrapFile.SearchStops` | scripts/wrap_to_fixture.py:50-60 | the search stops at the candidate nearest the tail |
| `WrapFile.ParseWellFormed` | scripts/wrap_to_fixture.py:33-67 | on a well-formed file with full-width keys, proof and keys come back exactly, with the nearest list that ends at the tail; it raises only when that list is too wide |
| `WrapFile.ParseReturnsIff` | scripts/wrap_to_fixture.py:33-67 | it returns if and only if every word of that list past the key fits in eight bytes |
| `WrapFile.ParseRoundTrip` | scripts/wrap_to_fixture.py:33-67 | all four fields are exactly the encoded ones if and only if no other list that ends at the tail and opens with the key begins nearer to it |
| `WrapFile.ParseFromPublics` | scripts/wrap_to_fixture.py:33-67 | for every file with full-width keys: the fields come back if and only if no proper suffix of the encoded publics is a list of 68 words that opens with the key, and anything comes back if and only if the shortest such suffix fits in eight-byte words |
| `WrapFile.HitSpans` | scripts/wrap_to_fixture.py:48-58 | a list of u64s that ends at the tail begins no nearer to it than its bincode spelling is long |
| `WrapFile.NoCountInPublics` | scripts/wrap_to_fixture.py:50-52 | the encoded publics are the nearest whenever no byte of their words is 68 |
| `SpuriousPublics.SuchFilesMisread` | scripts/wrap_to_fixture.py:48-65 | on every file whose window bytes can be cut both ways, the parser returns the second list's words, or raises when one is too wide |
| `SpuriousPublics.ParseMayRaise` | scripts/wrap_to_fixture.py:48-65 | there is such a file, well formed, with full-width keys and a narrow window, on which it raises |
| `SpuriousPublics.ParseMayMislead` | scripts/wrap_to_fixture.py:48-67 | and another on which it returns public values that are not the encoded ones |

## Left out

- The inside of SHA-256, Keccak-256, the pairing and the curve syscalls: the
  program calls them and does not implement them.
- The 64- and 128-byte circuit constants of program/src/plonk/vk.rs: parameters
  here.
- Soundness of the proof system beyond provers bound to polynomials: that a
  forger's group elements commit to any, and that hashed challenges are as good
  as random ones, rest on the setup and the hash functions, outside this program.
- Copy constraints from the grand product: `Constraints` stops at one beta and
  gamma, and the wiring the permutation encodes is in the proving key.
- The guest's Casper argument: what a finalization means is proved elsewhere.
- Compute units, rent prices and packet sizes: measurements.
- Logging, borrow-flag errors, writable flags and the account lists the builders
  attach: plumbing of the Solana SDK. Of the cross-program calls only the system
  program's checks on balances, owners and data are modelled.
- The numbers program/src/error.rs gives the errors: `Errors.Error` only keeps
  them apart.
- Lamports as u64: balances are naturals, and the total supply fits a u64.
- Rent collection and account deletion at zero lamports: a client's accounts
  hold at least the rent (`Lamports.AlwaysFunded`).
- Opening the wrap file, rendering the four fields in hex and writing JSON.
- The command-line client, the RPC code, the shell scripts and the cost harness:
  I/O.
