/** The command and engine sequence counters. */
module Sequencing {
  import opened Domain

  /** An inclusive range; first and last are zero when the batch is empty. */
  datatype EngineSequenceBatch =
    | Exhausted
    | Assigned(first: EngineSequence, last: EngineSequence, eventCount: nat)

  class SequenceState {
    var lastCommand: CommandSequence
    var lastEngine: EngineSequence

    constructor ()
      ensures lastCommand == 0 && lastEngine == 0
    {
      lastCommand, lastEngine := 0, 0;
    }

    method AcceptCommand() returns (sequence: Option<CommandSequence>)
      modifies this`lastCommand
      ensures old(lastCommand) == U64_MAX ==> sequence == None && lastCommand == old(lastCommand)
      ensures old(lastCommand) < U64_MAX ==> lastCommand == old(lastCommand) + 1 && sequence == Some(lastCommand)
    {
      if lastCommand == U64_MAX {
        return None;
      }
      lastCommand := lastCommand + 1;
      sequence := Some(lastCommand);
    }

    /** A batch that does not fit moves nothing, not even in part. */
    method CommitEventBatch(eventCount: nat) returns (batch: EngineSequenceBatch)
      modifies this`lastEngine
      ensures eventCount == 0 ==> batch == Assigned(0, 0, 0) && lastEngine == old(lastEngine)
      ensures eventCount > U64_MAX - old(lastEngine) ==> batch.Exhausted? && lastEngine == old(lastEngine)
      ensures 0 < eventCount <= U64_MAX - old(lastEngine) ==>
              && lastEngine == old(lastEngine) + eventCount
              && batch == Assigned(old(lastEngine) + 1, lastEngine, eventCount)
    {
      if eventCount == 0 {
        return Assigned(0, 0, 0);
      }
      if eventCount > U64_MAX - lastEngine {
        return Exhausted;
      }
      var first := lastEngine + 1;
      lastEngine := lastEngine + eventCount;
      batch := Assigned(first, lastEngine, eventCount);
    }
  }
}
