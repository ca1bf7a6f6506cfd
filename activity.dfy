/** The monthly activity counter of dashboard.py: rows are bucketed by
    (YearMonth, name) and counted (`groupby(['YearMonth', 'name']).size()`), the
    counts are pivoted into a month-by-actor table, and the pivot's columns are
    the actors offered by the timeline dropdown (`unique_actors`). */
module Activity {
  import opened Common
  import opened Events

  /** The number of rows that have a timestamp. */
  function DatedCount(events: seq<Event>): (n: nat)
    ensures n <= |events|
  {
    if events == [] then 0
    else
      var init, e := events[..|events| - 1], events[|events| - 1];
      DatedCount(init) + (if e.created.Some? then 1 else 0)
  }

  /** The number of rows of actor `n` whose timestamp falls in month `m`. */
  function MonthlyCount(events: seq<Event>, m: YearMonth, n: string): nat
  {
    if events == [] then 0
    else
      var init, e := events[..|events| - 1], events[|events| - 1];
      MonthlyCount(init, m, n) + (if MonthOf(e) == Some(m) && e.name == n then 1 else 0)
  }

  /** The (YearMonth, name) key of every row that the group-by keeps, in row
      order: a row whose YearMonth is NaT has no group. */
  function ActivityKeys(events: seq<Event>): (keys: seq<(YearMonth, string)>)
    ensures |keys| == DatedCount(events)
  {
    if events == [] then []
    else
      var init, e := events[..|events| - 1], events[|events| - 1];
      ActivityKeys(init) + (if MonthOf(e).Some? then [(MonthOf(e).value, e.name)] else [])
  }

  lemma {:induction false} ActivityKeysOcc(events: seq<Event>, k: (YearMonth, string))
    ensures Occ(ActivityKeys(events), k) == MonthlyCount(events, k.0, k.1)
  {
    if events != [] {
      var init, e := events[..|events| - 1], events[|events| - 1];
      ActivityKeysOcc(init, k);
      OccAppend(ActivityKeys(init), if MonthOf(e).Some? then [(MonthOf(e).value, e.name)] else [], k);
      if MonthOf(e).Some? {
        assert Occ([(MonthOf(e).value, e.name)], k) == Occ([], k) + (if (MonthOf(e).value, e.name) == k then 1 else 0);
      }
    }
  }

  lemma {:induction false} ActivityKeysAppend(a: seq<Event>, b: seq<Event>)
    ensures ActivityKeys(a + b) == ActivityKeys(a) + ActivityKeys(b)
    decreases |b|
  {
    if b == [] {
      assert a + b == a;
    } else {
      var b', e := b[..|b| - 1], b[|b| - 1];
      assert (a + b)[..|a + b| - 1] == a + b';
      assert (a + b)[|a + b| - 1] == e;
      ActivityKeysAppend(a, b');
    }
  }

  /** `activity_counts`: each (month, actor) bucket with at least one row, mapped to
      the number of that actor's rows in that month. Buckets without rows are
      absent, so every stored count is at least 1. */
  function ActivityCounts(events: seq<Event>): (counts: map<(YearMonth, string), nat>)
    ensures forall k :: k in counts <==> MonthlyCount(events, k.0, k.1) > 0
    ensures forall k :: k in counts ==> counts[k] == MonthlyCount(events, k.0, k.1) && counts[k] >= 1
  {
    var keys := ActivityKeys(events);
    TallyCounts(keys);
    forall k ensures Occ(keys, k) == MonthlyCount(events, k.0, k.1) {
      ActivityKeysOcc(events, k);
    }
    Tally(keys)
  }

  /** Count conservation: the counts of all buckets add up to the number of rows
      that have a timestamp. */
  lemma ActivityTotal(events: seq<Event>)
    ensures MapSum(ActivityCounts(events)) == DatedCount(events)
  {
    TallyTotal(ActivityKeys(events));
  }

  /** A row whose timestamp did not parse is counted in no bucket: removing it
      leaves the table unchanged. */
  lemma UnparsedRowIgnored(before: seq<Event>, e: Event, after: seq<Event>)
    requires e.created.None?
    ensures ActivityCounts(before + [e] + after) == ActivityCounts(before + after)
  {
    ActivityKeysAppend(before + [e], after);
    ActivityKeysAppend(before, [e]);
    ActivityKeysAppend(before, after);
    assert ActivityKeys([e]) == [] by {
      assert [e][..0] == [];
    }
    assert ActivityKeys(before + [e] + after) == ActivityKeys(before + after);
  }

  /** The count of a (month, actor) bucket as a pivot shows it: the count, or
      NaN (`None`) for a pair without rows. */
  function ActivityPivotCell(events: seq<Event>, m: YearMonth, n: string): (c: Option<nat>)
    ensures c.None? <==> MonthlyCount(events, m, n) == 0
    ensures c.Some? ==> c.value == MonthlyCount(events, m, n) && c.value >= 1
  {
    var counts := ActivityCounts(events);
    if (m, n) in counts then Some(counts[(m, n)]) else None
  }

  /** A timestamped row makes its own bucket non-empty. */
  lemma {:induction false} DatedRowCounted(events: seq<Event>, i: int)
    requires 0 <= i < |events| && events[i].created.Some?
    ensures MonthlyCount(events, MonthOf(events[i]).value, events[i].name) > 0
  {
    var init := events[..|events| - 1];
    if i < |events| - 1 {
      assert init[i] == events[i];
      DatedRowCounted(init, i);
    }
  }

  /** A non-empty bucket holds a row of that actor in that month. */
  lemma {:induction false} CountedRowExists(events: seq<Event>, m: YearMonth, n: string)
    requires MonthlyCount(events, m, n) > 0
    ensures exists i :: 0 <= i < |events| && events[i].name == n && MonthOf(events[i]) == Some(m)
  {
    var init, e := events[..|events| - 1], events[|events| - 1];
    if !(MonthOf(e) == Some(m) && e.name == n) {
      CountedRowExists(init, m, n);
      var i :| 0 <= i < |init| && init[i].name == n && MonthOf(init[i]) == Some(m);
      assert events[i] == init[i];
    }
  }

  /** `unique_actors`: the columns of the pivot, in ascending order. */
  function UniqueActors(events: seq<Event>): (actors: seq<string>)
    ensures NamesAscending(actors)
    ensures forall n :: n in actors <==> exists m :: (m, n) in ActivityCounts(events)
    ensures forall n :: n in actors <==> exists e :: e in events && e.name == n && e.created.Some?
  {
    var actors := DatedNames(events);
    forall n ensures n in actors <==> exists m :: (m, n) in ActivityCounts(events) {
      if n in actors {
        var e :| e in events && e.name == n && e.created.Some?;
        var i :| 0 <= i < |events| && events[i] == e;
        DatedRowCounted(events, i);
        assert (MonthOf(e).value, n) in ActivityCounts(events);
      }
      if exists m :: (m, n) in ActivityCounts(events) {
        var m :| (m, n) in ActivityCounts(events);
        CountedRowExists(events, m, n);
        var i :| 0 <= i < |events| && events[i].name == n && MonthOf(events[i]) == Some(m);
        assert events[i] in events;
      }
    }
    actors
  }

  /** The index of `activity_pivot`: every month in which some row has a
      timestamp, each once, in ascending order. */
  function ActivityMonths(events: seq<Event>): (months: seq<YearMonth>)
    ensures Ascending(months, MonthLess)
    ensures forall m :: m in months <==> exists e :: e in events && MonthOf(e) == Some(m)
  {
    MonthOrder();
    SortedDistinct(FilterMap(events, MonthOf), MonthLess)
  }

  /** Every month of the index has a bucket, so it is the index of some row of
      `activity_counts`, and so is every month of a bucket. */
  lemma ActivityMonthsAreBucketMonths(events: seq<Event>, m: YearMonth)
    ensures m in ActivityMonths(events) <==> exists n :: (m, n) in ActivityCounts(events)
  {
    if m in ActivityMonths(events) {
      var e :| e in events && MonthOf(e) == Some(m);
      var i :| 0 <= i < |events| && events[i] == e;
      DatedRowCounted(events, i);
      assert (m, e.name) in ActivityCounts(events);
    }
    if exists n :: (m, n) in ActivityCounts(events) {
      var n :| (m, n) in ActivityCounts(events);
      CountedRowExists(events, m, n);
      var i :| 0 <= i < |events| && events[i].name == n && MonthOf(events[i]) == Some(m);
      assert events[i] in events;
    }
  }

  /** `activity_pivot`: a cell for every month of the index and every actor of the
      columns, holding that actor's count that month, or NaN where it has none. */
  function ActivityPivot(events: seq<Event>): (pivot: map<(YearMonth, string), Option<nat>>)
    ensures forall k :: k in pivot <==> k.0 in ActivityMonths(events) && k.1 in UniqueActors(events)
    ensures forall k :: k in pivot ==> pivot[k] == ActivityPivotCell(events, k.0, k.1)
  {
    var months, actors := ActivityMonths(events), UniqueActors(events);
    map k | k in PivotGrid(months, actors) :: ActivityPivotCell(events, k.0, k.1)
  }

  /** The (month, actor) pairs of the index and the columns. */
  function PivotGrid(months: seq<YearMonth>, actors: seq<string>): (grid: set<(YearMonth, string)>)
    ensures forall k :: k in grid <==> k.0 in months && k.1 in actors
  {
    var grid := set m, n | m in months && n in actors :: (m, n);
    assert forall k: (YearMonth, string) :: k.0 in months && k.1 in actors ==> (k.0, k.1) in grid;
    grid
  }
}
