/** The operating states of the firmware and what each permits (include/system_state.h,
    src/safe_policy.c). */
module SystemState {

  datatype State = Boot | Nominal | Degraded | Safe

  function Rank(s: State): int {
    match s
    case Boot => 0
    case Nominal => 1
    case Degraded => 2
    case Safe => 3
  }

  predicate AllowsBackgroundScrub(s: State) { s != Safe }

  predicate AllowsSeuEscalation(s: State) { Rank(s) < Rank(Safe) }
}
