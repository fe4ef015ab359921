/** The values the time-sheet service works on: one time-tracking entry, with
    its instants given as milliseconds since the epoch (what `getTime()`
    returns). */
module TimeSheetModel {

  datatype Option<T> = None | Some(value: T)

  /** A time-sheet entry. `overlapping` is the optional annotation the entry
      type declares; neither service operation reads or writes it. */
  datatype Entry = Entry(startDateTime: int, endDateTime: int, overlapping: Option<bool>)

  /** The duration of an entry in hours, exactly: milliseconds divided by
      `1000 * 60 * 60`. It is zero or negative when the entry does not end
      after it starts; nothing rejects such an entry. */
  function Hours(e: Entry): (h: real)
    ensures h * 3600000.0 == (e.endDateTime - e.startDateTime) as real
    ensures h < 0.0 <==> e.endDateTime < e.startDateTime
    ensures h == 0.0 <==> e.endDateTime == e.startDateTime
  {
    (e.endDateTime - e.startDateTime) as real / 3600000.0
  }
}
