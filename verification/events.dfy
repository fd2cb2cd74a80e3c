/** The event log the engine reads, one record per row of the input table. */
module Events {

  /** A value that may be missing (pandas' NaN / Python's None). */
  datatype Option<+T> = None | Some(value: T)

  /** The `event` column: a signup or an activity ping. */
  datatype Kind = Signup | Active

  /** One row `user_id, timestamp, event, variant`. Timestamps are whole
      seconds on a common clock, standing in for the parsed date-times. */
  datatype Event = Event(userId: int, timestamp: int, kind: Kind, variant: string)

  /** The length of one day on the timestamp clock. */
  const SecondsPerDay: int := 86400
}
