/** The records shared by every part of the tracker (types.ts). */
module Types {

  datatype Option<T> = None | Some(value: T)

  /** The opaque identity of a signed-in account. */
  type UserId = string

  /** A finished focus session: `date` is its ISO-8601 text, `duration` whole seconds,
      `timestamp` epoch milliseconds. */
  datatype Session = Session(id: string, date: string, duration: int, timestamp: int)

  /** The persisted timer snapshot: `accumulatedTime` is the whole seconds banked
      before the running segment that began at `startTime` (epoch milliseconds). */
  datatype TimerState = TimerState(isRunning: bool, startTime: Option<int>, accumulatedTime: int)

  /** A free-form note; `updatedAt` is epoch milliseconds. */
  datatype Note = Note(id: string, title: string, content: string, updatedAt: int)

  /** The recency key that sessions are ordered by. */
  function SessionTime(s: Session): int { s.timestamp }

  /** The recency key that notes are ordered by. */
  function NoteTime(n: Note): int { n.updatedAt }
}
