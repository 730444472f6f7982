/** Cell values of a traffic-stop table, and the small wrapper types the model uses. */
module Values {

  datatype Option<T> = None | Some(value: T)

  /** The outcome of a step that may raise: `Err` carries what went wrong. */
  datatype Result<T, E> = Ok(value: T) | Err(error: E)

  /** A calendar date, as the date parser produces it. */
  datatype Date = Date(year: int, month: int, day: int)

  /** A time of day, as the time parser produces it. */
  datatype TimeOfDay = TimeOfDay(hour: int, minute: int, second: int)

  /**
   * One cell of a frame. `Null` stands for every missing marker pandas
   * treats as missing (None, NaN, NaT, <NA>); the other cases are the
   * scalar kinds the cleaning code reads or produces.
   */
  datatype Value =
    | Null
    | Str(text: string)
    | Int(n: int)
    | Bool(flag: bool)
    | DateV(date: Date)
    | TimeV(time: TimeOfDay)
}
