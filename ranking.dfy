/** The top-actors selection of `update_pie_chart` in dashboard.py: rows are
    grouped by (Year, name), the groups are counted per actor (so an actor's
    `Counts` is the number of distinct years in which it has rows), and
    `nlargest(5, 'Counts')` keeps the five largest.

    The per-actor frame comes out of `groupby('name')` sorted by name, and
    `nlargest` keeps the first of equal values, so equal counts stay in
    ascending name order; the ranking below orders by count, descending, then by
    name, ascending. */
module Ranking {
  import opened Common
  import opened Events

  const TopN: nat := 5

  /** One row of the per-actor frame: the actor and its `Counts`. */
  datatype Entry = Entry(name: string, counts: nat)

  /** The (Year, name) groups; rows without a year form no group. */
  function YearlyGroups(events: seq<Event>): (groups: set<(int, string)>)
    ensures forall g :: g in groups <==> exists e :: e in events && YearOf(e) == Some(g.0) && e.name == g.1
  {
    set e | e in events && YearOf(e).Some? :: (YearOf(e).value, e.name)
  }

  /** The distinct years in which actor `n` has rows. */
  function YearsActive(events: seq<Event>, n: string): set<int>
  {
    set e | e in events && e.name == n && YearOf(e).Some? :: YearOf(e).value
  }

  /** The yearly groups of actor `n`. */
  function ActorGroups(events: seq<Event>, n: string): set<(int, string)>
  {
    set g | g in YearlyGroups(events) && g.1 == n
  }

  /** `groupby('name').size()` over the yearly groups: how many of them are `n`'s. */
  function YearlyGroupCount(events: seq<Event>, n: string): nat
  {
    |ActorGroups(events, n)|
  }

  /** An actor's count of yearly groups is the number of distinct years it is active. */
  lemma GroupCountIsDistinctYears(events: seq<Event>, n: string)
    ensures YearlyGroupCount(events, n) == |YearsActive(events, n)|
  {
    PairWithCard(YearsActive(events, n), n);
    assert ActorGroups(events, n) == PairWith(YearsActive(events, n), n);
  }

  /** The per-actor frame, ascending by name. */
  function ActorCounts(events: seq<Event>): (entries: seq<Entry>)
    ensures |entries| == |DatedNames(events)|
    ensures forall i :: 0 <= i < |entries| ==>
      entries[i] == Entry(DatedNames(events)[i], |YearsActive(events, DatedNames(events)[i])|)
  {
    var names := DatedNames(events);
    forall i | 0 <= i < |names| ensures YearlyGroupCount(events, names[i]) == |YearsActive(events, names[i])| {
      GroupCountIsDistinctYears(events, names[i]);
    }
    seq(|names|, i requires 0 <= i < |names| => Entry(names[i], YearlyGroupCount(events, names[i])))
  }

  /** `a` comes before `b` in the ranking. */
  predicate RanksBefore(a: Entry, b: Entry)
  {
    a.counts > b.counts || (a.counts == b.counts && NameLess(a.name, b.name))
  }

  lemma RanksBeforeTransitive(a: Entry, b: Entry, c: Entry)
    requires RanksBefore(a, b) && RanksBefore(b, c)
    ensures RanksBefore(a, c)
  {
    if a.counts == b.counts == c.counts {
      NameLessTransitive(a.name, b.name, c.name);
    }
  }

  lemma RanksBeforeTotal(a: Entry, b: Entry)
    requires a.name != b.name
    ensures RanksBefore(a, b) || RanksBefore(b, a)
  {
    NameLessTotal(a.name, b.name);
  }

  ghost predicate Ranked(s: seq<Entry>)
  {
    forall i, j :: 0 <= i < j < |s| ==> RanksBefore(s[i], s[j])
  }

  /** Putting an entry in front of a ranked list keeps it ranked when it ranks
      before every entry of the list. */
  lemma RankedCons(x: Entry, s: seq<Entry>)
    requires Ranked(s)
    requires forall y :: y in multiset(s) ==> RanksBefore(x, y)
    ensures Ranked([x] + s)
  {
    var r := [x] + s;
    forall i, j | 0 <= i < j < |r| ensures RanksBefore(r[i], r[j]) {
      if i == 0 {
        assert r[j] == s[j - 1];
        assert r[j] in multiset(s);
      } else {
        assert r[i] == s[i - 1] && r[j] == s[j - 1];
      }
    }
  }

  /** The head of a ranked list ranks before every other entry of it. */
  lemma HeadRanksFirst(s: seq<Entry>)
    requires Ranked(s) && |s| >= 1
    ensures forall y :: y in multiset(s[1..]) ==> RanksBefore(s[0], y)
  {
    forall y | y in multiset(s[1..]) ensures RanksBefore(s[0], y) {
      var j :| 0 <= j < |s[1..]| && s[1..][j] == y;
      assert s[j + 1] == y;
    }
  }

  /** Insert an entry for a new actor into a ranked list. */
  function InsertEntry(x: Entry, s: seq<Entry>): (r: seq<Entry>)
    requires Ranked(s)
    requires forall i :: 0 <= i < |s| ==> s[i].name != x.name
    ensures Ranked(r)
    ensures multiset(r) == multiset(s) + multiset{x}
  {
    if s == [] then [x]
    else
      HeadRanksFirst(s);
      assert s == [s[0]] + s[1..];
      if RanksBefore(x, s[0]) then
        forall y | y in multiset(s) ensures RanksBefore(x, y) {
          if y != s[0] {
            RanksBeforeTransitive(x, s[0], y);
          }
        }
        RankedCons(x, s);
        [x] + s
      else
        RanksBeforeTotal(x, s[0]);
        var rest := InsertEntry(x, s[1..]);
        RankedCons(s[0], rest);
        [s[0]] + rest
  }

  /** Sort entries of distinct actors into ranking order. */
  function Rank(s: seq<Entry>): (r: seq<Entry>)
    requires forall i, j :: 0 <= i < j < |s| ==> s[i].name != s[j].name
    ensures Ranked(r)
    ensures multiset(r) == multiset(s)
  {
    if s == [] then []
    else
      var init, x := s[..|s| - 1], s[|s| - 1];
      assert s == init + [x];
      var ranked := Rank(init);
      forall i | 0 <= i < |ranked| ensures ranked[i].name != x.name {
        assert ranked[i] in multiset(init);
        var j :| 0 <= j < |init| && init[j] == ranked[i];
      }
      InsertEntry(x, ranked)
  }

  /** `nlargest(k, ...)` on a ranked list: its first `k` entries (all of them
      when there are fewer). The kept entries stay ranked, and an entry whose
      actor is not kept ranks below every kept one. */
  function Largest(ranked: seq<Entry>, k: nat): (top: seq<Entry>)
    requires Ranked(ranked)
    ensures |top| == if |ranked| < k then |ranked| else k
    ensures Ranked(top)
    ensures forall i :: 0 <= i < |top| ==> top[i] == ranked[i]
    ensures forall j :: 0 <= j < |ranked| && (forall i :: 0 <= i < |top| ==> top[i].name != ranked[j].name) ==>
      forall i :: 0 <= i < |top| ==> RanksBefore(top[i], ranked[j])
  {
    var m := if |ranked| < k then |ranked| else k;
    forall j | 0 <= j < |ranked| && (forall i :: 0 <= i < m ==> ranked[i].name != ranked[j].name)
      ensures m <= j
    {
      var omitted := ranked[j].name;
      assert m <= j;
    }
    ranked[..m]
  }

  /** An entry of a ranked list whose actor `Largest` does not keep ranks below
      every kept entry. */
  lemma LargestOmits(ranked: seq<Entry>, k: nat, x: Entry)
    requires Ranked(ranked)
    requires exists j :: 0 <= j < |ranked| && ranked[j] == x
    requires forall i :: 0 <= i < |Largest(ranked, k)| ==> Largest(ranked, k)[i].name != x.name
    ensures forall i :: 0 <= i < |Largest(ranked, k)| ==> RanksBefore(Largest(ranked, k)[i], x)
  {
    var j :| 0 <= j < |ranked| && ranked[j] == x;
  }

  /** Every actor with a timestamped row, in ranking order, each with the number
      of distinct years in which it is active. */
  function RankedActors(events: seq<Event>): (ranked: seq<Entry>)
    ensures Ranked(ranked)
    ensures |ranked| == |DatedNames(events)|
    ensures forall i :: 0 <= i < |ranked| ==>
      ranked[i].name in DatedNames(events) && ranked[i].counts == |YearsActive(events, ranked[i].name)|
    ensures forall n :: n in DatedNames(events) ==>
      exists j :: 0 <= j < |ranked| && ranked[j] == Entry(n, |YearsActive(events, n)|)
  {
    var names := DatedNames(events);
    var entries := ActorCounts(events);
    forall i, j | 0 <= i < j < |entries| ensures entries[i].name != entries[j].name {
      NameLessIrreflexive(names[i]);
    }
    var ranked := Rank(entries);
    assert |ranked| == |entries| by {
      assert |multiset(ranked)| == |multiset(entries)|;
    }
    forall i | 0 <= i < |ranked|
      ensures ranked[i].name in names && ranked[i].counts == |YearsActive(events, ranked[i].name)|
    {
      assert ranked[i] in multiset(entries);
      var j :| 0 <= j < |entries| && entries[j] == ranked[i];
      GroupCountIsDistinctYears(events, names[j]);
    }
    forall n | n in names ensures exists j :: 0 <= j < |ranked| && ranked[j] == Entry(n, |YearsActive(events, n)|) {
      var k :| 0 <= k < |names| && names[k] == n;
      GroupCountIsDistinctYears(events, n);
      assert entries[k] == Entry(n, |YearsActive(events, n)|);
      assert entries[k] in multiset(ranked);
    }
    ranked
  }

  /** `top_actors`: at most five actors, in ranking order (counts non-increasing,
      equal counts by ascending name); each with the number of distinct years in
      which it has rows; and every actor left out ranks below every actor kept.
      With five actors or fewer, all of them are kept. */
  function TopActors(events: seq<Event>): (top: seq<Entry>)
    ensures |top| == if |DatedNames(events)| < TopN then |DatedNames(events)| else TopN
    ensures forall i, j :: 0 <= i < j < |top| ==>
      top[i].counts > top[j].counts ||
      (top[i].counts == top[j].counts && NameLess(top[i].name, top[j].name))
    ensures forall i :: 0 <= i < |top| ==>
      top[i].name in DatedNames(events) && top[i].counts == |YearsActive(events, top[i].name)|
    ensures forall n :: n in DatedNames(events) && (forall i :: 0 <= i < |top| ==> top[i].name != n) ==>
      forall i :: 0 <= i < |top| ==> RanksBefore(top[i], Entry(n, |YearsActive(events, n)|))
    ensures |DatedNames(events)| <= TopN ==>
      forall n :: n in DatedNames(events) ==> exists i :: 0 <= i < |top| && top[i].name == n
  {
    var ranked := RankedActors(events);
    var top := Largest(ranked, TopN);
    forall n | n in DatedNames(events) && (forall i :: 0 <= i < |top| ==> top[i].name != n)
      ensures forall i :: 0 <= i < |top| ==> RanksBefore(top[i], Entry(n, |YearsActive(events, n)|))
    {
      LargestOmits(ranked, TopN, Entry(n, |YearsActive(events, n)|));
    }
    assert |DatedNames(events)| <= TopN ==> top == ranked;
    top
  }
}
