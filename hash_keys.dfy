/** The field names of a stored recurring-job record. */
module HashKeys {
  const Cron: string := "Cron"
  const EndDate: string := "EndDate"
  const UseEndDateTimeComponent: string := "UseEndDateTimeComponent"
  const Job: string := "Job"
  const LastExecution: string := "LastExecution"
  const NextExecution: string := "NextExecution"
  const StartDate: string := "StartDate"
  const TimeZoneId: string := "TimeZoneId"

  // Keys the scheduler and the manager spell out as literals.
  const Queue: string := "Queue"
  const LastJobId: string := "LastJobId"
  const CreatedAt: string := "CreatedAt"
}
