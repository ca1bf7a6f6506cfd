/** The dashboard's data frame `merged_df1` as the application holds it: loaded
    once, given its `YearMonth` column at start-up, and given (again) its `Year`
    column by every call of the pie-chart callback. The two figure callbacks are
    its methods. */
module Dashboard {
  import opened Common
  import opened Events
  import opened Techniques
  import opened Ranking
  import opened Heatmap

  /** The `YearMonth` column of a frame. */
  function MonthColumn(events: seq<Event>): (col: seq<Option<YearMonth>>)
    ensures |col| == |events|
    ensures forall i :: 0 <= i < |events| ==> col[i] == MonthOf(events[i])
  {
    seq(|events|, i requires 0 <= i < |events| => MonthOf(events[i]))
  }

  /** The `Year` column of a frame. */
  function YearColumnOf(events: seq<Event>): (col: seq<Option<int>>)
    ensures |col| == |events|
    ensures forall i :: 0 <= i < |events| ==> col[i] == YearOf(events[i])
  {
    seq(|events|, i requires 0 <= i < |events| => YearOf(events[i]))
  }

  /** The pie chart: `Top {topN} Threat Actors in {year}` over the slices. */
  datatype PieChart = PieChart(topN: nat, titleYear: int, slices: seq<Entry>)

  class MergedFrame {
    var events: seq<Event>
    var yearMonth: seq<Option<YearMonth>>
    /** Absent until the pie-chart callback first runs. */
    var year: Option<seq<Option<int>>>

    /** The derived columns agree row by row with the timestamps they come from. */
    ghost predicate Valid()
      reads this
    {
      |yearMonth| == |events| &&
      (forall i :: 0 <= i < |events| ==> yearMonth[i] == MonthOf(events[i])) &&
      (year.Some? ==> |year.value| == |events| && forall i :: 0 <= i < |events| ==> year.value[i] == YearOf(events[i]))
    }

    /** Loading the rows (timestamps already parsed) and adding `YearMonth`. */
    constructor (rows: seq<Event>)
      ensures Valid()
      ensures events == rows && yearMonth == MonthColumn(rows) && year == None
    {
      events := rows;
      yearMonth := MonthColumn(rows);
      year := None;
    }

    /** `update_heatmap`: the figure of the technique table, or `None` where the
        split raises because the `technique` column holds no text. The selected
        threat is not used; the frame is not changed. */
    method UpdateHeatmap(pickThreat: Option<string>) returns (fig: Option<Figure>)
      requires Valid()
      ensures fig.None? <==> NoTechniqueText(events)
      ensures fig.Some? ==> Covers(Crosstab(events), TechniqueRows(events), ActorOrder(events))
      ensures fig.Some? ==> fig.value.x == ActorOrder(events) && fig.value.y == TechniqueRows(events)
      ensures fig.Some? ==> fig.value.z == Values(Crosstab(events), fig.value.y, fig.value.x)
      ensures fig.Some? ==> fig.value.annotations == Grid(Crosstab(events), fig.value.y, fig.value.x)
    {
      if NoTechniqueText(events) {
        return None;
      }
      var table, rows, cols := Crosstab(events), TechniqueRows(events), ActorOrder(events);
      CrosstabCovers(events);
      var annotations := Annotate(table, rows, cols);
      fig := Some(Figure(cols, rows, Values(table, rows, cols), annotations));
    }

    /** `update_pie_chart`: (re)writes the `Year` column and charts the top
        actors. The selected year only appears in the title. */
    method UpdatePieChart(selectedYear: int) returns (chart: PieChart)
      requires Valid()
      modifies this
      ensures Valid()
      ensures events == old(events) && yearMonth == old(yearMonth)
      ensures year == Some(YearColumnOf(events))
      ensures chart == PieChart(TopN, selectedYear, TopActors(events))
    {
      year := Some(YearColumnOf(events));
      chart := PieChart(TopN, selectedYear, TopActors(events));
    }
  }
}
