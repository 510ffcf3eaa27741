/**
 * The descriptor a calendar template factory returns. In the source it is a
 * plain object literal, so any property other than `name` may be absent; an
 * absent property is `None` here.
 */
module Templates {
  import opened Wrappers

  /** Milliseconds since the epoch. */
  type Timestamp = int

  /** The `position` property: grid coordinates of the cell of a timestamp. */
  datatype Position = Position(x: Timestamp -> int, y: Timestamp -> int)

  /** The `format` property: how dates and legends of this unit are written. */
  datatype Format = Format(date: string, legend: string, connector: string)

  /**
   * One template. `typ` is the source's `type` property (`type` is a reserved
   * word in Dafny); it has the type of `level` because the registry copies one
   * into the other.
   */
  datatype Template = Template(
    name: string,
    level: Option<int>,
    typ: Option<int>,
    maxItemNumber: Option<int>,
    row: Option<Timestamp -> int>,
    column: Option<Timestamp -> int>,
    position: Option<Position>,
    format: Option<Format>,
    extractUnit: Option<Timestamp -> Timestamp>)

  /**
   * The calendar's date helper, reduced to the one query the modelled
   * templates make of it: the start of the year containing a timestamp, in
   * the helper's locale and timezone. It is left uninterpreted.
   */
  datatype DateHelper = DateHelper(startOfYear: Timestamp -> Timestamp)

  /** A template factory: given the date helper, build a descriptor. */
  type Factory = DateHelper -> Template
}
