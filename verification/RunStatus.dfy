/** The statuses of a training run. */
module RunStatus {

  datatype Status = Queued | Running | Paused | Succeeded | Failed | Cancelled

  predicate Terminal(s: Status) {
    s == Succeeded || s == Failed || s == Cancelled
  }
}
