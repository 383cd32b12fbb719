/** The refusals an instruction can end in (program/src/error.rs, and the runtime's own). */
module Errors {

  datatype Error =
    | InvalidInstructionData
    | AccountAlreadyInitialized
    | WrongAccountTag
    | InvalidStateAccount
    | InvalidRingAccount
    | MissingSigner
    | ProofVerificationFailed
    | EpochNotAdvancing
    | CheckpointNotFinalized
    | StateRootNotAnchored
    | EpochNotInRing
    | AccountDataTooSmall
    | AccumulatorMismatch
    | AccumulatorEpochMismatch
      // The runtime's own.
    | NotEnoughAccountKeys
    | IncorrectProgramId
    | ArithmeticOverflow
    | NoViableBump
    | InvalidPayer
    | InsufficientFunds
    | AccountInUse

  datatype Result<+T> = Ok(value: T) | Err(error: Error) {
    predicate IsFailure() {
      Err?
    }
    function PropagateFailure<U>(): Result<U>
      requires Err?
    {
      Err(error)
    }
    function Extract(): T
      requires Ok?
    {
      value
    }
  }
}
