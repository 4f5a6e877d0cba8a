/** The job record every reader produces, field for field. */
module Models {
  import opened Wrappers

  /** A point in time, as a count of seconds. */
  type Instant = int

  /** The next-runs calculator, `(schedule, start, count) -> times`. It wraps
      a cron library whose behaviour is not part of this model, so readers
      take it as a parameter and every result holds for every such function. */
  type NextRunsFn = (string, Instant, nat) -> seq<Instant>

  datatype CronJob = CronJob(
    id: string,
    system: string,
    user: string,
    schedule: string,
    command: string,
    nextRuns: seq<Instant>,
    description: Option<string>)
}
