/**
 The phase an enactment is in, as the handlers tell phases apart by its conditions.
 `hb` is the heartbeat stamped on the Progressing condition.
 EnactmentConditions ties each phase to the condition list it abbreviates.
 */
module Phases {
  datatype Phase =
    | Blank              // no conditions, as after a generation reset
    | Unknown            // every condition Unknown, as on creation
    | Progressing(hb: int)
    | Finalizing(hb: int)
    | Retrying(hb: int)
    | Failed
    | Pending
    | Aborted
    | Available

  // Finalizing and Retrying both report Progressing=True.
  predicate IsProgressing(p: Phase) {
    p.Progressing? || p.Finalizing? || p.Retrying?
  }

  // Progressing=True with a heartbeat younger than the threshold, or Failing=True with Progressing=False.
  predicate IsHolder(p: Phase, now: int, threshold: int) {
    p.Failed? || (IsProgressing(p) && now < p.hb + threshold)
  }
}
