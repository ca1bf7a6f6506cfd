/** The figure `update_heatmap` draws from the technique table: the matrix of
    counts with actors along x and techniques along y, and one text annotation
    per cell, collected by a nested loop over the row and column labels. */
module Heatmap {
  import opened Common
  import opened Events
  import opened Techniques

  /** The label of one cell: the actor (x), the technique (y) and the count its
      text shows. */
  datatype Annotation = Annotation(x: string, y: string, count: nat)

  /** The figure: x and y labels, the count matrix (`heatmap_data.values`, row by
      row) and the annotations. */
  datatype Figure = Figure(x: seq<string>, y: seq<string>, z: seq<seq<nat>>, annotations: seq<Annotation>)

  /** The table has a cell for every (row label, column label). */
  predicate Covers(table: map<(string, string), nat>, rows: seq<string>, cols: seq<string>)
  {
    forall i, j :: 0 <= i < |rows| && 0 <= j < |cols| ==> (rows[i], cols[j]) in table
  }

  /** The matrix of counts, one row of the matrix per row label. */
  function Values(table: map<(string, string), nat>, rows: seq<string>, cols: seq<string>): (z: seq<seq<nat>>)
    requires Covers(table, rows, cols)
    ensures |z| == |rows|
    ensures forall i :: 0 <= i < |rows| ==> |z[i]| == |cols|
    ensures forall i, j :: 0 <= i < |rows| && 0 <= j < |cols| ==> z[i][j] == table[(rows[i], cols[j])]
  {
    seq(|rows|, i requires 0 <= i < |rows| =>
      seq(|cols|, j requires 0 <= j < |cols| => table[(rows[i], cols[j])]))
  }

  /** The annotations of one row, left to right. */
  function RowCells(table: map<(string, string), nat>, r: string, cols: seq<string>): seq<Annotation>
    requires forall j :: 0 <= j < |cols| ==> (r, cols[j]) in table
  {
    seq(|cols|, j requires 0 <= j < |cols| => Annotation(cols[j], r, table[(r, cols[j])]))
  }

  /** All annotations, row after row. */
  function Grid(table: map<(string, string), nat>, rows: seq<string>, cols: seq<string>): seq<Annotation>
    requires Covers(table, rows, cols)
  {
    if rows == [] then []
    else Grid(table, rows[..|rows| - 1], cols) + RowCells(table, rows[|rows| - 1], cols)
  }

  /** One annotation per cell. */
  lemma {:induction false} GridLength(table: map<(string, string), nat>, rows: seq<string>, cols: seq<string>)
    requires Covers(table, rows, cols)
    ensures |Grid(table, rows, cols)| == |rows| * |cols|
  {
    if rows != [] {
      GridLength(table, rows[..|rows| - 1], cols);
      assert |rows| * |cols| == (|rows| - 1) * |cols| + |cols|;
    }
  }

  /** An annotation is in the grid exactly when it labels some cell with that
      cell's count. */
  lemma {:induction false} GridCells(table: map<(string, string), nat>, rows: seq<string>, cols: seq<string>, a: Annotation)
    requires Covers(table, rows, cols)
    ensures a in Grid(table, rows, cols) <==>
      exists i, j :: 0 <= i < |rows| && 0 <= j < |cols| && a == Annotation(cols[j], rows[i], table[(rows[i], cols[j])])
  {
    if rows != [] {
      var init, r := rows[..|rows| - 1], rows[|rows| - 1];
      GridCells(table, init, cols, a);
      if a in Grid(table, rows, cols) {
        if a in RowCells(table, r, cols) {
          var j :| 0 <= j < |cols| && RowCells(table, r, cols)[j] == a;
          assert a == Annotation(cols[j], rows[|rows| - 1], table[(rows[|rows| - 1], cols[j])]);
        } else {
          var i, j :| 0 <= i < |init| && 0 <= j < |cols| && a == Annotation(cols[j], init[i], table[(init[i], cols[j])]);
          assert init[i] == rows[i];
        }
      }
      if exists i, j :: 0 <= i < |rows| && 0 <= j < |cols| && a == Annotation(cols[j], rows[i], table[(rows[i], cols[j])]) {
        var i, j :| 0 <= i < |rows| && 0 <= j < |cols| && a == Annotation(cols[j], rows[i], table[(rows[i], cols[j])]);
        if i < |init| {
          assert init[i] == rows[i];
        } else {
          assert RowCells(table, r, cols)[j] == a;
        }
      }
    }
  }

  /** The annotation loop: for every row label, for every column label, append
      the cell's annotation. */
  method Annotate(table: map<(string, string), nat>, rows: seq<string>, cols: seq<string>) returns (annotations: seq<Annotation>)
    requires Covers(table, rows, cols)
    ensures annotations == Grid(table, rows, cols)
  {
    annotations := [];
    var i := 0;
    while i < |rows|
      invariant 0 <= i <= |rows|
      invariant annotations == Grid(table, rows[..i], cols)
    {
      var j := 0;
      while j < |cols|
        invariant 0 <= j <= |cols|
        invariant annotations == Grid(table, rows[..i], cols) + RowCells(table, rows[i], cols[..j])
      {
        annotations := annotations + [Annotation(cols[j], rows[i], table[(rows[i], cols[j])])];
        j := j + 1;
      }
      assert cols[..j] == cols;
      assert rows[..i + 1][..i] == rows[..i];
      i := i + 1;
    }
    assert rows[..i] == rows;
  }

  /** The labels of `heatmap_data` cover its table. */
  lemma CrosstabCovers(events: seq<Event>)
    ensures Covers(Crosstab(events), TechniqueRows(events), ActorOrder(events))
  {
    var rows, cols := TechniqueRows(events), ActorOrder(events);
    forall i, j | 0 <= i < |rows| && 0 <= j < |cols| ensures (rows[i], cols[j]) in Crosstab(events) {
      assert rows[i] in TechniqueIndex(events) && cols[j] in ActorColumns(events);
    }
  }

  /** Every entry of the heatmap's matrix is the number of times that technique
      occurs in that actor's fields. */
  lemma HeatmapMatrix(events: seq<Event>)
    ensures Covers(Crosstab(events), TechniqueRows(events), ActorOrder(events))
    ensures var rows, cols := TechniqueRows(events), ActorOrder(events);
      var z := Values(Crosstab(events), rows, cols);
      forall i, j :: 0 <= i < |rows| && 0 <= j < |cols| ==> z[i][j] == TokenCount(events, rows[i], cols[j])
  {
    CrosstabCovers(events);
  }

  /** Every annotation of the grid labels a cell of the table, by its row and
      column labels, with that cell's count. */
  lemma GridEntries(table: map<(string, string), nat>, rows: seq<string>, cols: seq<string>)
    requires Covers(table, rows, cols)
    ensures forall a :: a in Grid(table, rows, cols) ==>
      a.y in rows && a.x in cols && (a.y, a.x) in table && a.count == table[(a.y, a.x)]
  {
    forall a | a in Grid(table, rows, cols)
      ensures a.y in rows && a.x in cols && (a.y, a.x) in table && a.count == table[(a.y, a.x)]
    {
      GridCells(table, rows, cols, a);
      var i, j :| 0 <= i < |rows| && 0 <= j < |cols| && a == Annotation(cols[j], rows[i], table[(rows[i], cols[j])]);
    }
  }

  /** The heatmap carries one annotation per cell, and each names an actor and a
      technique of the table and shows how often that technique occurs in that
      actor's fields. */
  lemma HeatmapAnnotations(events: seq<Event>)
    ensures Covers(Crosstab(events), TechniqueRows(events), ActorOrder(events))
    ensures var rows, cols := TechniqueRows(events), ActorOrder(events);
      |Grid(Crosstab(events), rows, cols)| == |rows| * |cols|
    ensures var rows, cols := TechniqueRows(events), ActorOrder(events);
      forall a :: a in Grid(Crosstab(events), rows, cols) ==>
        a.x in ActorColumns(events) && a.y in TechniqueIndex(events) && a.count == TokenCount(events, a.y, a.x)
  {
    CrosstabCovers(events);
    var table, rows, cols := Crosstab(events), TechniqueRows(events), ActorOrder(events);
    GridLength(table, rows, cols);
    GridEntries(table, rows, cols);
  }

  /** Every cell of the table is annotated, with its count. */
  lemma HeatmapCellsAnnotated(events: seq<Event>)
    ensures Covers(Crosstab(events), TechniqueRows(events), ActorOrder(events))
    ensures var rows, cols := TechniqueRows(events), ActorOrder(events);
      forall i, j :: 0 <= i < |rows| && 0 <= j < |cols| ==>
        Annotation(cols[j], rows[i], TokenCount(events, rows[i], cols[j])) in Grid(Crosstab(events), rows, cols)
  {
    CrosstabCovers(events);
    var table, rows, cols := Crosstab(events), TechniqueRows(events), ActorOrder(events);
    forall i, j | 0 <= i < |rows| && 0 <= j < |cols|
      ensures Annotation(cols[j], rows[i], TokenCount(events, rows[i], cols[j])) in Grid(table, rows, cols)
    {
      assert rows[i] in TechniqueIndex(events) && cols[j] in ActorColumns(events);
      GridCells(table, rows, cols, Annotation(cols[j], rows[i], table[(rows[i], cols[j])]));
    }
  }
}
