/** The options of the dashboard's dropdowns: the years offered for the pie
    chart and its initial value, and the actors offered for the heatmap. (The
    timeline dropdown offers the pivot's columns, `Activity.UniqueActors`.) */
module Dropdowns {
  import opened Common
  import opened Events

  /** The numeric order of years. */
  predicate YearLess(a: int, b: int)
  {
    a < b
  }

  lemma YearOrder()
    ensures StrictTotalOrder(YearLess)
  {
  }

  /** The options of `year-dropdown`, `sorted(created_x.dt.year.dropna().unique())`:
      every year in which some row has a timestamp, each once, in ascending
      order. */
  function YearOptions(events: seq<Event>): (options: seq<int>)
    ensures Ascending(options, YearLess)
    ensures forall y :: y in options <==> exists e :: e in events && YearOf(e) == Some(y)
  {
    YearOrder();
    SortedDistinct(FilterMap(events, YearOf), YearLess)
  }

  /** The initial value of `year-dropdown`, the first option: the earliest year
      of any timestamped row. Without such a row there is none. */
  function DefaultYear(events: seq<Event>): (d: Option<int>)
    ensures d.None? <==> forall e :: e in events ==> e.created.None?
    ensures d.Some? ==> exists e :: e in events && YearOf(e) == d
    ensures d.Some? ==> forall e :: e in events && e.created.Some? ==> d.value <= YearOf(e).value
  {
    var options := YearOptions(events);
    if exists e :: e in events && e.created.Some? then
      var e :| e in events && e.created.Some?;
      assert YearOf(e).value in options;
      forall e' | e' in events && e'.created.Some? ensures options[0] <= YearOf(e').value {
        assert YearOf(e').value in options;
      }
      Some(options[0])
    else
      None
  }

  /** The `name` column, one entry per row. */
  function NameColumn(events: seq<Event>): (names: seq<string>)
    ensures |names| == |events|
    ensures forall i :: 0 <= i < |events| ==> names[i] == events[i].name
  {
    seq(|events|, i requires 0 <= i < |events| => events[i].name)
  }

  /** The options of `threat-dropdown-menu`: every actor name of any row (dated
      or not) exactly once, in the order in which the names first appear. */
  function ThreatOptions(events: seq<Event>): (options: seq<string>)
    ensures forall n :: n in options <==> n in NameColumn(events)
    ensures forall n :: n in options <==> exists e :: e in events && e.name == n
    ensures forall i, j :: 0 <= i < j < |options| ==> options[i] != options[j]
    ensures forall i, j :: 0 <= i < j < |options| ==>
      FirstIndex(NameColumn(events), options[i]) < FirstIndex(NameColumn(events), options[j])
  {
    var names := NameColumn(events);
    forall n ensures n in names <==> exists e :: e in events && e.name == n {
      if n in names {
        var i :| 0 <= i < |names| && names[i] == n;
        assert events[i] in events;
      }
    }
    Unique(names)
  }
}
