/**
 * `ScenarioCompletionCoordinator`: decides when the simulator process may
 * exit. It tracks which EQPs have completed their scenario and which
 * PASSIVE channels are still open; once every EQP has completed and no
 * PASSIVE channel is open, the exit is scheduled, and only once. The exit
 * thread itself is not part of this model: scheduling it is counted.
 */
module ScenarioCompletion {
  import opened Wrappers
  import opened JavaText

  /** Every EQP is done and the test client has closed every PASSIVE channel. */
  predicate ExitCondition(total: int, completed: set<string>, passiveOpen: set<string>) {
    total > 0 && |completed| >= total && passiveOpen == {}
  }

  /** An id the coordinator accepts: present and not blank. */
  predicate Usable(eqpId: Option<string>) {
    eqpId.Some? && !IsBlank(eqpId.value)
  }

  class ScenarioCompletionCoordinator {
    const totalEqpCount: int
    var completed: set<string>
    var passiveOpen: set<string>
    var exitTriggered: bool
    /** How many times the exit has been scheduled. */
    var exitsScheduled: nat

    /** The exit is scheduled exactly when the flag is set, so at most once. */
    predicate Valid()
      reads this
    {
      exitsScheduled == if exitTriggered then 1 else 0
    }

    constructor(totalEqpCount: int)
      ensures this.totalEqpCount == totalEqpCount
      ensures completed == {} && passiveOpen == {} && !exitTriggered && exitsScheduled == 0
      ensures Valid()
    {
      this.totalEqpCount := totalEqpCount;
      completed := {};
      passiveOpen := {};
      exitTriggered := false;
      exitsScheduled := 0;
    }

    /** `markPassiveChannelOpened`: adds a usable id to the open set; never checks the exit. */
    method MarkPassiveChannelOpened(eqpId: Option<string>) returns (added: bool)
      requires Valid()
      modifies this
      ensures Valid()
      ensures !Usable(eqpId) ==> !added && passiveOpen == old(passiveOpen)
      ensures Usable(eqpId) ==> added == (eqpId.value !in old(passiveOpen)) && passiveOpen == old(passiveOpen) + {eqpId.value}
      ensures completed == old(completed) && exitTriggered == old(exitTriggered) && exitsScheduled == old(exitsScheduled)
    {
      if eqpId.None? || IsBlank(eqpId.value) {
        return false;
      }
      added := eqpId.value !in passiveOpen;
      passiveOpen := passiveOpen + {eqpId.value};
    }

    /** `markPassiveChannelClosed`: removes a usable id from the open set, then checks the exit. */
    method MarkPassiveChannelClosed(eqpId: Option<string>) returns (removed: bool, scheduled: bool)
      requires Valid()
      modifies this
      ensures Valid()
      ensures !Usable(eqpId) ==>
        (!removed && !scheduled && passiveOpen == old(passiveOpen)
         && exitTriggered == old(exitTriggered) && exitsScheduled == old(exitsScheduled))
      ensures Usable(eqpId) ==> removed == (eqpId.value in old(passiveOpen)) && passiveOpen == old(passiveOpen) - {eqpId.value}
      ensures exitTriggered == (old(exitTriggered) || (Usable(eqpId) && ExitCondition(totalEqpCount, completed, passiveOpen)))
      ensures scheduled <==> !old(exitTriggered) && exitTriggered
      ensures completed == old(completed)
    {
      scheduled := false;
      if eqpId.None? || IsBlank(eqpId.value) {
        return false, false;
      }
      removed := eqpId.value in passiveOpen;
      passiveOpen := passiveOpen - {eqpId.value};
      scheduled := CheckExitCondition();
    }

    /** `markScenarioCompleted`: with a positive total, adds a usable id to the completed set, then checks the exit. */
    method MarkScenarioCompleted(eqpId: Option<string>) returns (added: bool, scheduled: bool)
      requires Valid()
      modifies this
      ensures Valid()
      ensures totalEqpCount <= 0 || !Usable(eqpId) ==>
        (!added && !scheduled && completed == old(completed)
         && exitTriggered == old(exitTriggered) && exitsScheduled == old(exitsScheduled))
      ensures totalEqpCount > 0 && Usable(eqpId) ==>
        added == (eqpId.value !in old(completed)) && completed == old(completed) + {eqpId.value}
      ensures exitTriggered ==
        (old(exitTriggered) || (totalEqpCount > 0 && Usable(eqpId) && ExitCondition(totalEqpCount, completed, passiveOpen)))
      ensures scheduled <==> !old(exitTriggered) && exitTriggered
      ensures passiveOpen == old(passiveOpen)
    {
      if totalEqpCount <= 0 {
        return false, false;
      }
      if eqpId.None? || IsBlank(eqpId.value) {
        return false, false;
      }
      added := eqpId.value !in completed;
      completed := completed + {eqpId.value};
      scheduled := CheckExitCondition();
    }

    /**
     * `checkExitCondition`: schedules the exit when the condition holds
     * and it has not been scheduled before.
     */
    method CheckExitCondition() returns (scheduled: bool)
      requires Valid()
      modifies this
      ensures Valid()
      ensures scheduled <==> !old(exitTriggered) && ExitCondition(totalEqpCount, completed, passiveOpen)
      ensures exitTriggered == (old(exitTriggered) || scheduled)
      ensures ExitCondition(totalEqpCount, completed, passiveOpen) ==> exitTriggered
      ensures completed == old(completed) && passiveOpen == old(passiveOpen)
    {
      if totalEqpCount <= 0 || exitTriggered {
        return false;
      }
      var allScenarioCompleted := |completed| >= totalEqpCount;
      var noPassiveOpen := passiveOpen == {};
      if !allScenarioCompleted || !noPassiveOpen {
        return false;
      }
      exitTriggered := true;
      exitsScheduled := exitsScheduled + 1;
      return true;
    }
  }
}
