/** The `year` template (src/calendar/templates/year.js). */
module Year {
  import opened Wrappers
  import opened Templates

  /** The factory: one cell per year, placed at row 1, column 1. */
  function YearTemplate(h: DateHelper): Template
  {
    Template(
      name := "year",
      level := Some(60),
      typ := None,
      maxItemNumber := None,
      row := Some(ts => 1),
      column := Some(ts => 1),
      position := Some(Position(ts => 1, ts => 1)),
      format := Some(Format("Y", "Y", "in")),
      extractUnit := Some(h.startOfYear))
  }

  /** What the factory promises, field by field, for every date helper. */
  lemma YearTemplateShape(h: DateHelper)
    ensures YearTemplate(h).name == "year" && YearTemplate(h).level == Some(60)
    ensures YearTemplate(h).typ.None? && YearTemplate(h).maxItemNumber.None?
    ensures YearTemplate(h).row.Some? && YearTemplate(h).column.Some?
    ensures forall ts :: YearTemplate(h).row.value(ts) == 1 && YearTemplate(h).column.value(ts) == 1
    ensures YearTemplate(h).position.Some?
    ensures forall ts :: YearTemplate(h).position.value.x(ts) == 1 && YearTemplate(h).position.value.y(ts) == 1
    ensures YearTemplate(h).format == Some(Format("Y", "Y", "in"))
    ensures YearTemplate(h).extractUnit == Some(h.startOfYear)
  {
  }

  /** The unit a timestamp falls in is exactly the helper's start of its year. */
  lemma YearExtractUnit(h: DateHelper, d: Timestamp)
    ensures YearTemplate(h).extractUnit.Some?
    ensures YearTemplate(h).extractUnit.value(d) == h.startOfYear(d)
  {
  }
}
