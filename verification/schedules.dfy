/** Schedules: the model's stand-in for the operating system's thread
interleaving. A schedule is the sequence of worker ids whose loop bodies run,
one after the other. */
module Schedules {
  /** Worker ids of a schedule all name existing workers. */
  predicate ValidSchedule(schedule: seq<nat>, workers: nat) {
    forall i :: 0 <= i < |schedule| ==> schedule[i] < workers
  }
}
