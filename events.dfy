/** The rows of the dashboard's data frame `merged_df1`, as far as the aggregations
    read them, and the period columns derived from the parsed timestamp. */
module Events {
  import opened Common

  /** A `created_x` value that `pd.to_datetime` parsed (day and time of day do not
      matter to any aggregation beyond telling timestamps apart). */
  datatype Timestamp = Timestamp(year: int, month: int, day: int)

  /** A calendar month, the period `dt.to_period('M')` yields. */
  datatype YearMonth = YearMonth(year: int, month: int)

  /** One row: the actor's name, the parsed timestamp (`None` when parsing failed,
      NaT in pandas) and the raw comma-separated `technique` field (`None` when
      it is missing). */
  datatype Event = Event(name: string, created: Option<Timestamp>, technique: Option<string>)

  /** The `YearMonth` column: the month of the timestamp, NaT when there is none. */
  function MonthOf(e: Event): Option<YearMonth>
  {
    match e.created
    case None => None
    case Some(t) => Some(YearMonth(t.year, t.month))
  }

  /** The `Year` column: `created_x.dt.year`, NaN when there is no timestamp. */
  function YearOf(e: Event): Option<int>
  {
    match e.created
    case None => None
    case Some(t) => Some(t.year)
  }

  /** The two derived columns are missing in exactly the same rows, and they agree
      on the year. */
  lemma PeriodColumnsAgree(e: Event)
    ensures MonthOf(e).None? <==> YearOf(e).None?
    ensures MonthOf(e).Some? ==> MonthOf(e).value.year == YearOf(e).value
  {
  }

  /** The order of monthly periods: by year, then by month. */
  predicate MonthLess(a: YearMonth, b: YearMonth)
  {
    a.year < b.year || (a.year == b.year && a.month < b.month)
  }

  lemma MonthOrder()
    ensures StrictTotalOrder(MonthLess)
  {
  }

  /** The row's name when it has a timestamp. */
  function DatedName(e: Event): Option<string>
  {
    if e.created.Some? then Some(e.name) else None
  }

  /** The names of the rows that have a timestamp, in row order. */
  function DatedNameColumn(events: seq<Event>): (names: seq<string>)
    ensures forall n :: n in names <==> exists e :: e in events && e.name == n && e.created.Some?
  {
    var names := FilterMap(events, DatedName);
    assert forall n :: n in names <==> exists e :: e in events && DatedName(e) == Some(n);
    names
  }

  /** The names of the actors with at least one timestamped row, ascending: the
      group keys of a `groupby` on a name column once undated rows are dropped. */
  function DatedNames(events: seq<Event>): (names: seq<string>)
    ensures NamesAscending(names)
    ensures forall n :: n in names <==> exists e :: e in events && e.name == n && e.created.Some?
  {
    NameOrder();
    SortedDistinct(DatedNameColumn(events), NameLess)
  }
}
