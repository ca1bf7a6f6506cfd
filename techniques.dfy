/** The technique co-occurrence table of `update_heatmap` in dashboard.py: the
    comma-separated `technique` field is split (`str.split(',')`), exploded to one
    row per token, and the (technique, name) pairs are cross-tabulated
    (`pd.crosstab`). Tokens are neither trimmed nor de-duplicated, an empty token
    is a technique like any other, and a row whose field is missing contributes
    nothing. */
module Techniques {
  import opened Common
  import opened Events

  // ---------------------------------------------------------------------------
  // Python's `str.split(',')` and its inverse `','.join`
  // ---------------------------------------------------------------------------

  /** The pieces of `s` between commas; always at least one. */
  function Split(s: string): (parts: seq<string>)
    ensures |parts| >= 1
  {
    if s == [] then [""]
    else if s[0] == ',' then [""] + Split(s[1..])
    else
      var rest := Split(s[1..]);
      [[s[0]] + rest[0]] + rest[1..]
  }

  /** No piece contains a comma. */
  lemma {:induction false} SplitPiecesCommaFree(s: string)
    ensures forall i :: 0 <= i < |Split(s)| ==> ',' !in Split(s)[i]
  {
    if s != [] {
      SplitPiecesCommaFree(s[1..]);
      if s[0] != ',' {
        var rest := Split(s[1..]);
        assert ',' !in rest[0];
        assert ',' !in [s[0]] + rest[0];
      }
    }
  }

  /** `','.join(parts)`. */
  function Join(parts: seq<string>): string
    requires |parts| >= 1
  {
    if |parts| == 1 then parts[0] else parts[0] + "," + Join(parts[1..])
  }

  /** Joining the pieces with commas gives back the original field. */
  lemma JoinCons(p: string, rest: seq<string>)
    requires |rest| >= 1
    ensures Join([p] + rest) == p + "," + Join(rest)
  {
    assert ([p] + rest)[1..] == rest;
  }

  lemma ConcatAssoc<T>(a: seq<T>, b: seq<T>, c: seq<T>, d: seq<T>)
    ensures ((a + b) + c) + d == a + ((b + c) + d)
  {
  }

  lemma JoinExtendHead(c: char, parts: seq<string>)
    requires |parts| >= 1
    ensures Join([[c] + parts[0]] + parts[1..]) == [c] + Join(parts)
  {
    var p0, tail := parts[0], parts[1..];
    var x := [[c] + p0] + tail;
    assert x[0] == [c] + p0;
    assert x[1..] == tail;
    if |parts| > 1 {
      var j := Join(tail);
      assert Join(x) == ([c] + p0) + "," + j;
      assert Join(parts) == p0 + "," + j;
      ConcatAssoc([c], p0, ",", j);
    }
  }

  lemma {:induction false} JoinSplit(s: string)
    ensures Join(Split(s)) == s
  {
    if s != [] {
      JoinSplit(s[1..]);
      var rest := Split(s[1..]);
      assert s == [s[0]] + s[1..];
      if s[0] == ',' {
        JoinCons("", rest);
      } else {
        JoinExtendHead(s[0], rest);
      }
    }
  }

  lemma {:induction false} SplitPrefix(a: string, rest: string)
    requires ',' !in a
    ensures Split(a + rest) == [a + Split(rest)[0]] + Split(rest)[1..]
  {
    if a == [] {
      assert a + rest == rest;
      var parts := Split(rest);
      assert a + parts[0] == parts[0];
      assert [parts[0]] + parts[1..] == parts;
    } else {
      assert (a + rest)[0] == a[0];
      assert (a + rest)[1..] == a[1..] + rest;
      SplitPrefix(a[1..], rest);
      assert [a[0]] + (a[1..] + Split(rest)[0]) == a + Split(rest)[0];
    }
  }

  /** Splitting comma-free pieces joined with commas gives back the pieces. */
  lemma {:induction false} SplitJoin(parts: seq<string>)
    requires |parts| >= 1
    requires forall i :: 0 <= i < |parts| ==> ',' !in parts[i]
    ensures Split(Join(parts)) == parts
  {
    if |parts| == 1 {
      SplitPrefix(parts[0], "");
      assert parts[0] + "" == parts[0];
    } else {
      var tail := Join(parts[1..]);
      SplitJoin(parts[1..]);
      assert ("," + tail)[1..] == tail;
      assert Split("," + tail) == [""] + parts[1..];
      assert Join(parts) == parts[0] + ("," + tail);
      SplitPrefix(parts[0], "," + tail);
      assert parts[0] + "" == parts[0];
    }
  }

  /** There is one piece more than there are commas. */
  lemma {:induction false} SplitLength(s: string)
    ensures |Split(s)| == Occ(s, ',') + 1
  {
    if s != [] {
      SplitLength(s[1..]);
      assert s == [s[0]] + s[1..];
      OccAppend([s[0]], s[1..], ',');
      assert Occ([s[0]], ',') == Occ([], ',') + (if s[0] == ',' then 1 else 0);
    }
  }

  // ---------------------------------------------------------------------------
  // Explode and cross-tabulate
  // ---------------------------------------------------------------------------

  /** Each token paired with the row's name. */
  function Tag(tokens: seq<string>, n: string): (pairs: seq<(string, string)>)
    ensures |pairs| == |tokens|
  {
    if tokens == [] then []
    else Tag(tokens[..|tokens| - 1], n) + [(tokens[|tokens| - 1], n)]
  }

  lemma {:induction false} TagOcc(tokens: seq<string>, n: string, k: (string, string))
    ensures Occ(Tag(tokens, n), k) == if k.1 == n then Occ(tokens, k.0) else 0
  {
    if tokens != [] {
      var init := tokens[..|tokens| - 1];
      TagOcc(init, n, k);
      var pairs := Tag(tokens, n);
      assert pairs[..|pairs| - 1] == Tag(init, n);
    }
  }

  /** The (technique, name) pairs of one row after the explode: none when the
      field is missing. */
  function RowPairs(e: Event): (pairs: seq<(string, string)>)
    ensures |pairs| == if e.technique.Some? then |Split(e.technique.value)| else 0
    ensures forall k :: Occ(pairs, k) == if e.technique.Some? && k.1 == e.name then Occ(Split(e.technique.value), k.0) else 0
  {
    match e.technique
    case None => []
    case Some(t) =>
      forall k ensures Occ(Tag(Split(t), e.name), k) == if k.1 == e.name then Occ(Split(t), k.0) else 0 {
        TagOcc(Split(t), e.name, k);
      }
      Tag(Split(t), e.name)
  }

  /** The number of tokens in the split fields of all rows that have one. */
  function TokenTotal(events: seq<Event>): nat
  {
    if events == [] then 0
    else
      var init, e := events[..|events| - 1], events[|events| - 1];
      TokenTotal(init) + (if e.technique.Some? then |Split(e.technique.value)| else 0)
  }

  /** How often token `t` occurs in the split fields of actor `n`'s rows. */
  function TokenCount(events: seq<Event>, t: string, n: string): nat
  {
    if events == [] then 0
    else
      var init, e := events[..|events| - 1], events[|events| - 1];
      TokenCount(init, t, n) +
        (if e.technique.Some? && e.name == n then Occ(Split(e.technique.value), t) else 0)
  }

  /** The exploded (technique, name) rows that `crosstab` counts, in row order. */
  function ExplodedPairs(events: seq<Event>): seq<(string, string)>
  {
    FlatMap(events, RowPairs)
  }

  /** The explode yields one row per token. */
  lemma {:induction false} ExplodedPairsLength(events: seq<Event>)
    ensures |ExplodedPairs(events)| == TokenTotal(events)
  {
    if events != [] {
      ExplodedPairsLength(events[..|events| - 1]);
    }
  }

  lemma {:induction false} ExplodedPairsOcc(events: seq<Event>, k: (string, string))
    ensures Occ(ExplodedPairs(events), k) == TokenCount(events, k.0, k.1)
  {
    if events != [] {
      var init, e := events[..|events| - 1], events[|events| - 1];
      ExplodedPairsOcc(init, k);
      OccAppend(ExplodedPairs(init), RowPairs(e), k);
      if e.technique.Some? {
        TagOcc(Split(e.technique.value), e.name, k);
      }
    }
  }

  lemma ExplodedPairsAppend(a: seq<Event>, b: seq<Event>)
    ensures ExplodedPairs(a + b) == ExplodedPairs(a) + ExplodedPairs(b)
  {
    FlatMapAppend(a, b, RowPairs);
  }

  /** The row labels of a cross-tabulation: every technique that occurs. */
  function RowLabels(pairs: seq<(string, string)>): set<string>
  {
    set p | p in pairs :: p.0
  }

  /** The column labels of a cross-tabulation: every actor that occurs. */
  function ColumnLabels(pairs: seq<(string, string)>): set<string>
  {
    set p | p in pairs :: p.1
  }

  /** Every combination of a row label and a column label. */
  function LabelGrid(pairs: seq<(string, string)>): set<(string, string)>
  {
    set t, n | t in RowLabels(pairs) && n in ColumnLabels(pairs) :: (t, n)
  }

  lemma LabelGridHoldsPairs(pairs: seq<(string, string)>)
    ensures forall k :: k in LabelGrid(pairs) <==> k.0 in RowLabels(pairs) && k.1 in ColumnLabels(pairs)
    ensures Tally(pairs).Keys <= LabelGrid(pairs)
  {
    forall k: (string, string) | k.0 in RowLabels(pairs) && k.1 in ColumnLabels(pairs) ensures k in LabelGrid(pairs) {
      assert k == (k.0, k.1);
    }
    TallyCounts(pairs);
    forall k | k in pairs ensures k in LabelGrid(pairs) {
      assert k.0 in RowLabels(pairs) && k.1 in ColumnLabels(pairs);
    }
  }

  /** `pd.crosstab` of a technique column against a name column: a dense table
      with a cell for every combination of a row label and a column label, holding
      how often that pair occurs (0 when never). */
  function CrossTabulate(pairs: seq<(string, string)>): (table: map<(string, string), nat>)
    ensures forall k :: k in table <==> k.0 in RowLabels(pairs) && k.1 in ColumnLabels(pairs)
    ensures forall k :: k in table ==> table[k] == Occ(pairs, k)
  {
    LabelGridHoldsPairs(pairs);
    TallyCounts(pairs);
    ZeroFill(Tally(pairs), LabelGrid(pairs))
  }

  /** Cross-tabulation conserves the number of pairs. */
  lemma CrossTabulateTotal(pairs: seq<(string, string)>)
    ensures MapSum(CrossTabulate(pairs)) == |pairs|
  {
    LabelGridHoldsPairs(pairs);
    assert CrossTabulate(pairs) == ZeroFill(Tally(pairs), LabelGrid(pairs));
    ZeroFillTotal(Tally(pairs), LabelGrid(pairs));
    TallyTotal(pairs);
  }

  /** The rows of the technique table: every token of every present field. */
  function TechniqueIndex(events: seq<Event>): set<string>
  {
    RowLabels(ExplodedPairs(events))
  }

  /** The columns of the technique table: every actor with a present field. */
  function ActorColumns(events: seq<Event>): set<string>
  {
    ColumnLabels(ExplodedPairs(events))
  }

  /** The row labels in the order `pd.crosstab` lays them out: ascending. */
  function TechniqueRows(events: seq<Event>): (rows: seq<string>)
    ensures NamesAscending(rows)
    ensures forall t :: t in rows <==> t in TechniqueIndex(events)
  {
    var pairs := ExplodedPairs(events);
    var firsts := seq(|pairs|, i requires 0 <= i < |pairs| => pairs[i].0);
    forall t ensures t in firsts <==> t in RowLabels(pairs) {
      if t in RowLabels(pairs) {
        var p :| p in pairs && p.0 == t;
        var i :| 0 <= i < |pairs| && pairs[i] == p;
        assert firsts[i] == t;
      }
    }
    NameOrder();
    SortedDistinct(firsts, NameLess)
  }

  /** The column labels in the order `pd.crosstab` lays them out: ascending. */
  function ActorOrder(events: seq<Event>): (columns: seq<string>)
    ensures NamesAscending(columns)
    ensures forall n :: n in columns <==> n in ActorColumns(events)
  {
    var pairs := ExplodedPairs(events);
    var seconds := seq(|pairs|, i requires 0 <= i < |pairs| => pairs[i].1);
    forall n ensures n in seconds <==> n in ColumnLabels(pairs) {
      if n in ColumnLabels(pairs) {
        var p :| p in pairs && p.1 == n;
        var i :| 0 <= i < |pairs| && pairs[i] == p;
        assert seconds[i] == n;
      }
    }
    NameOrder();
    SortedDistinct(seconds, NameLess)
  }

  /** A technique labels a row exactly when it occurs in some actor's fields. */
  lemma {:induction false} TechniqueIndexOccurs(events: seq<Event>, t: string)
    ensures t in TechniqueIndex(events) <==> exists n :: TokenCount(events, t, n) > 0
  {
    var pairs := ExplodedPairs(events);
    if t in RowLabels(pairs) {
      var p :| p in pairs && p.0 == t;
      ExplodedPairsOcc(events, p);
    }
    if exists n :: TokenCount(events, t, n) > 0 {
      var n :| TokenCount(events, t, n) > 0;
      ExplodedPairsOcc(events, (t, n));
      assert (t, n) in pairs;
    }
  }

  /** An actor labels a column exactly when it has some token. */
  lemma {:induction false} ActorColumnsOccur(events: seq<Event>, n: string)
    ensures n in ActorColumns(events) <==> exists t :: TokenCount(events, t, n) > 0
  {
    var pairs := ExplodedPairs(events);
    if n in ColumnLabels(pairs) {
      var p :| p in pairs && p.1 == n;
      ExplodedPairsOcc(events, p);
    }
    if exists t :: TokenCount(events, t, n) > 0 {
      var t :| TokenCount(events, t, n) > 0;
      ExplodedPairsOcc(events, (t, n));
      assert (t, n) in pairs;
    }
  }

  /** The `technique` column holds no text at all: every row's field is missing.
      pandas then reads the column as floats (all NaN), and the `.str` accessor
      used by the split raises AttributeError. An empty frame keeps its text
      column and does not raise. */
  predicate NoTechniqueText(events: seq<Event>)
  {
    |events| > 0 && forall e :: e in events ==> e.technique.None?
  }

  /** `heatmap_data`: the dense technique-by-actor table. Every combination of a
      row label and a column label has a cell, holding how often that token
      occurs in that actor's fields (0 when never). */
  function Crosstab(events: seq<Event>): (table: map<(string, string), nat>)
    ensures forall k :: k in table <==> k.0 in TechniqueIndex(events) && k.1 in ActorColumns(events)
    ensures forall k :: k in table ==> table[k] == TokenCount(events, k.0, k.1)
  {
    var pairs := ExplodedPairs(events);
    var table := CrossTabulate(pairs);
    forall k | k in table ensures table[k] == TokenCount(events, k.0, k.1) {
      ExplodedPairsOcc(events, k);
    }
    table
  }

  /** Count conservation: the cells add up to the number of tokens over all rows
      whose field is present. */
  lemma CrosstabTotal(events: seq<Event>)
    ensures MapSum(Crosstab(events)) == TokenTotal(events)
  {
    CrossTabulateTotal(ExplodedPairs(events));
    ExplodedPairsLength(events);
  }

  lemma MissingTechniqueNoPairs(before: seq<Event>, e: Event, after: seq<Event>)
    requires e.technique.None?
    ensures ExplodedPairs(before + [e] + after) == ExplodedPairs(before + after)
  {
    assert ExplodedPairs([e]) == [] by {
      FlatMapSingle(e, RowPairs);
      assert RowPairs(e) == [];
    }
    ExplodedPairsAppend(before, [e]);
    assert ExplodedPairs(before + [e]) == ExplodedPairs(before);
    ExplodedPairsAppend(before + [e], after);
    ExplodedPairsAppend(before, after);
  }

  /** A row whose `technique` is missing contributes nothing: removing it leaves
      the table unchanged. */
  lemma MissingTechniqueIgnored(before: seq<Event>, e: Event, after: seq<Event>)
    requires e.technique.None?
    ensures Crosstab(before + [e] + after) == Crosstab(before + after)
  {
    var x, y := before + [e] + after, before + after;
    MissingTechniqueNoPairs(before, e, after);
    assert Crosstab(x) == CrossTabulate(ExplodedPairs(x));
    assert Crosstab(y) == CrossTabulate(ExplodedPairs(y));
  }

  /** A token repeated within one field is counted once per occurrence: a row of
      actor `n` whose field is `t,t` (such as `"T1,T1"`) puts 2 in cell (t, n). */
  lemma RepeatedTokenCountsTwice(n: string, created: Option<Timestamp>, t: string)
    requires ',' !in t
    ensures var table := Crosstab([Event(n, created, Some(t + "," + t))]);
      (t, n) in table && table[(t, n)] == 2
  {
    var events := [Event(n, created, Some(t + "," + t))];
    var k := (t, n);
    assert Split(t + "," + t) == [t, t] by {
      assert Join([t, t]) == t + "," + t by {
        assert [t, t][1..] == [t];
      }
      SplitJoin([t, t]);
    }
    assert Occ([t, t], t) == 2 by {
      assert [t, t][..1] == [t];
      assert [t][..0] == [];
    }
    assert TokenCount(events, t, n) == 2 by {
      assert events[..0] == [];
    }
    ExplodedPairsOcc(events, k);
    var pairs := ExplodedPairs(events);
    assert k in pairs;
    assert k.0 in RowLabels(pairs) && k.1 in ColumnLabels(pairs);
  }
}
