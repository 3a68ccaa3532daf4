/** The lifecycle states shared by the scheduler and the task queue. */
module TaskStates {
  datatype TaskState =
    | Pending | Leased | Running | WaitingTool | WaitingUser | Validating | WaitingRetry
    | Succeeded | Failed | Cancelled | TimedOut
}
