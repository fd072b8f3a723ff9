/** DataVisualizer's chart suggestions (`suggest_best_visualizations`) and
    the dispatch from a suggestion to the chart it names
    (`create_visualization_from_suggestion`). Charts are named by their kind;
    drawing them is not modelled. */
module Visualizer {
  import opened Wrappers
  import opened Frames

  /** `select_dtypes(include=[np.number])`: integer, float and the nullable
      integer dtype; bool is not a number there. */
  predicate NumericDtype(d: Dtype)
  {
    d == Int64 || d == Float64 || d == NullableInt
  }

  /** The positions below j of the columns whose dtype satisfies p, in order. */
  function ColumnsWhere(f: Frame, j: nat, p: Dtype -> bool): (idx: seq<nat>)
    requires f.Valid() && j <= |f.labels|
    ensures forall k :: 0 <= k < |idx| ==> idx[k] < j && p(f.dtypes[idx[k]])
    ensures forall c :: 0 <= c < j && p(f.dtypes[c]) ==> c in idx
    ensures forall k, l :: 0 <= k < l < |idx| ==> idx[k] < idx[l]
  {
    if j == 0 then []
    else ColumnsWhere(f, j - 1, p) + (if p(f.dtypes[j - 1]) then [j - 1] else [])
  }

  function LabelsAt(f: Frame, idx: seq<nat>): (r: seq<Cell>)
    requires forall k :: 0 <= k < |idx| ==> idx[k] < |f.labels|
    ensures |r| == |idx| && forall k :: 0 <= k < |idx| ==> r[k] == f.labels[idx[k]]
  {
    seq(|idx|, k requires 0 <= k < |idx| => f.labels[idx[k]])
  }

  function NumericColumns(f: Frame): seq<Cell>
    requires f.Valid()
  {
    LabelsAt(f, ColumnsWhere(f, |f.labels|, NumericDtype))
  }

  function ObjectPositions(f: Frame): seq<nat>
    requires f.Valid()
  {
    ColumnsWhere(f, |f.labels|, d => d == Object)
  }

  function ObjectColumns(f: Frame): seq<Cell>
    requires f.Valid()
  {
    LabelsAt(f, ObjectPositions(f))
  }

  function DatetimeColumns(f: Frame): seq<Cell>
    requires f.Valid()
  {
    LabelsAt(f, ColumnsWhere(f, |f.labels|, d => d == Datetime64))
  }

  /** `pd.to_datetime(column, errors='raise')` succeeds: every value parses,
      missing values becoming NaT. */
  predicate ParsesAsDates(lib: Lib, col: seq<Cell>)
  {
    var vals := NonNull(col);
    forall k :: 0 <= k < |vals| ==> lib.datetimeAccepts(vals[k])
  }

  /** The `try` around `pd.to_datetime(df[col])` succeeds. For a repeated
      label `df[col]` is a frame, which pandas can only assemble into dates
      from year, month and day columns, so the call raises. */
  predicate DateProbe(lib: Lib, f: Frame, j: nat)
    requires f.Valid() && j < |f.labels|
  {
    !Repeated(f.labels, j) && ParsesAsDates(lib, f.Column(j))
  }

  /** The labels of the object columns at idx that parse as dates, in order. */
  function ParsedDates(lib: Lib, f: Frame, idx: seq<nat>): (r: seq<Cell>)
    requires f.Valid() && forall k :: 0 <= k < |idx| ==> idx[k] < |f.labels|
    ensures |r| <= |idx|
  {
    if idx == [] then []
    else
      var j := idx[|idx| - 1];
      ParsedDates(lib, f, idx[..|idx| - 1]) + (if DateProbe(lib, f, j) then [f.labels[j]] else [])
  }

  lemma ParsedDatesStep(lib: Lib, f: Frame, idx: seq<nat>, k: nat)
    requires f.Valid() && k < |idx| && forall i :: 0 <= i < |idx| ==> idx[i] < |f.labels|
    ensures ParsedDates(lib, f, idx[..k + 1])
            == ParsedDates(lib, f, idx[..k]) + (if DateProbe(lib, f, idx[k]) then [f.labels[idx[k]]] else [])
  {
    assert idx[..k + 1][..k] == idx[..k];
  }

  /** The date columns: the datetime columns, then the object columns that
      parse as dates. */
  function DateColumns(lib: Lib, f: Frame): seq<Cell>
    requires f.Valid()
  {
    DatetimeColumns(f) + ParsedDates(lib, f, ObjectPositions(f))
  }

  /** One suggestion, by its "type"; the fields are the keys it carries
      besides title and description. */
  datatype Suggestion =
    | CorrelationMatrix
    | Distribution(numericCount: nat)
    | BoxPlot
    | Scatter(x: Cell, y: Cell)
    | BarChart(x: Cell, y: Cell)
    | TimeSeries(dateCol: Cell, valueCols: seq<Cell>)
    | Overview

  /** The "function" key of each suggestion. */
  function FunctionName(s: Suggestion): string
  {
    match s
    case CorrelationMatrix => "create_correlation_matrix"
    case Distribution(_) => "create_distribution_plots"
    case BoxPlot => "create_box_plot"
    case Scatter(_, _) => "create_scatter_plot"
    case BarChart(_, _) => "create_bar_chart"
    case TimeSeries(_, _) => "create_time_series_plot"
    case Overview => "create_overview_dashboard"
  }

  function Take(s: seq<Cell>, n: nat): (r: seq<Cell>)
    ensures |r| == if |s| < n then |s| else n
    ensures r == s[..|r|]
  {
    if |s| <= n then s else s[..n]
  }

  function CorrelationPart(numeric: seq<Cell>): seq<Suggestion>
  {
    if |numeric| >= 2 then [CorrelationMatrix] else []
  }

  function DistributionPart(numeric: seq<Cell>): seq<Suggestion>
  {
    if |numeric| > 0 then [Distribution(|numeric|), BoxPlot] else []
  }

  function ScatterPart(numeric: seq<Cell>): seq<Suggestion>
  {
    if |numeric| >= 2 then [Scatter(numeric[0], numeric[1])] else []
  }

  function BarPart(numeric: seq<Cell>, objects: seq<Cell>): seq<Suggestion>
  {
    if |objects| > 0 && |numeric| > 0 then [BarChart(objects[0], numeric[0])] else []
  }

  function TimePart(numeric: seq<Cell>, dates: seq<Cell>): seq<Suggestion>
  {
    if |dates| > 0 && |numeric| > 0 then [TimeSeries(dates[0], Take(numeric, 3))] else []
  }

  /** The suggestion list for the given numeric, object and date column labels. */
  function SuggestionsFor(numeric: seq<Cell>, objects: seq<Cell>, dates: seq<Cell>): seq<Suggestion>
  {
    CorrelationPart(numeric) + DistributionPart(numeric) + ScatterPart(numeric)
    + BarPart(numeric, objects) + TimePart(numeric, dates) + [Overview]
  }

  function Suggestions(lib: Lib, f: Frame): seq<Suggestion>
    requires f.Valid()
  {
    SuggestionsFor(NumericColumns(f), ObjectColumns(f), DateColumns(lib, f))
  }

  /** The date-column loop of `suggest_best_visualizations`: each object
      column that parses as dates is appended to the datetime columns. */
  method CollectDateColumns(lib: Lib, f: Frame) returns (dates: seq<Cell>)
    requires f.Valid()
    ensures dates == DateColumns(lib, f)
  {
    var objects := ObjectPositions(f);
    var found: seq<Cell> := [];
    var k := 0;
    while k < |objects|
      invariant 0 <= k <= |objects|
      invariant found == ParsedDates(lib, f, objects[..k])
    {
      ParsedDatesStep(lib, f, objects, k);
      var j := objects[k];
      found := found + (if DateProbe(lib, f, j) then [f.labels[j]] else []);
      k := k + 1;
    }
    dates := DatetimeColumns(f) + found;
    assert objects[..k] == objects;
  }

  /** The appends of `suggest_best_visualizations`, one per chart. */
  method AppendSuggestions(numeric: seq<Cell>, categorical: seq<Cell>, dates: seq<Cell>)
    returns (suggestions: seq<Suggestion>)
    ensures suggestions == SuggestionsFor(numeric, categorical, dates)
  {
    suggestions := [];
    if |numeric| >= 2 {
      suggestions := suggestions + [CorrelationMatrix];
    }
    assert suggestions == CorrelationPart(numeric);
    if |numeric| > 0 {
      suggestions := suggestions + [Distribution(|numeric|)];
      suggestions := suggestions + [BoxPlot];
    }
    assert suggestions == CorrelationPart(numeric) + DistributionPart(numeric);
    if |numeric| >= 2 {
      suggestions := suggestions + [Scatter(numeric[0], numeric[1])];
    }
    assert suggestions == CorrelationPart(numeric) + DistributionPart(numeric) + ScatterPart(numeric);
    if |categorical| > 0 && |numeric| > 0 {
      suggestions := suggestions + [BarChart(categorical[0], numeric[0])];
    }
    assert suggestions == CorrelationPart(numeric) + DistributionPart(numeric) + ScatterPart(numeric)
                          + BarPart(numeric, categorical);
    if |dates| > 0 && |numeric| > 0 {
      suggestions := suggestions + [TimeSeries(dates[0], Take(numeric, 3))];
    }
    suggestions := suggestions + [Overview];
  }

  /** `suggest_best_visualizations`: the columns by kind, the date columns
      collected, then the suggestions appended in the source's order. */
  method SuggestBestVisualizations(lib: Lib, f: Frame) returns (suggestions: seq<Suggestion>)
    requires f.Valid()
    ensures suggestions == Suggestions(lib, f)
  {
    var dates := CollectDateColumns(lib, f);
    suggestions := AppendSuggestions(NumericColumns(f), ObjectColumns(f), dates);
  }

  /** The overview comes last and only there, so the list has between one
      and seven entries; a correlation matrix is suggested exactly when there
      are two numeric columns, and then first; a distribution followed by a
      box plot exactly when there is one. */
  lemma SuggestionsShape(numeric: seq<Cell>, objects: seq<Cell>, dates: seq<Cell>)
    ensures var s := SuggestionsFor(numeric, objects, dates);
            1 <= |s| <= 7 && s[|s| - 1] == Overview
            && (forall k :: 0 <= k < |s| - 1 ==> s[k] != Overview)
            && ((exists k :: 0 <= k < |s| && s[k].CorrelationMatrix?) <==> |numeric| >= 2)
            && (|numeric| >= 2 ==> s[0] == CorrelationMatrix)
            && ((exists k :: 0 <= k < |s| && s[k].Distribution?) <==> |numeric| > 0)
            && ((exists k :: 0 <= k < |s| && s[k].BoxPlot?) <==> |numeric| > 0)
            && (forall k :: 0 <= k < |s| && s[k].Distribution? ==>
                  s[k].numericCount == |numeric| && k + 1 < |s| && s[k + 1] == BoxPlot)
  {
    var s := SuggestionsFor(numeric, objects, dates);
    if |numeric| >= 2 {
      assert s[0] == CorrelationMatrix && s[1] == Distribution(|numeric|) && s[2] == BoxPlot;
    } else if |numeric| > 0 {
      assert s[0] == Distribution(|numeric|) && s[1] == BoxPlot;
    }
  }

  /** The pairwise suggestions: a scatter of the first two numeric columns
      exactly when there are two; a bar chart of the first object column
      against the first numeric one exactly when both exist; a time series of
      the first date column with up to three numeric columns exactly when
      both exist. */
  lemma SuggestionsColumns(numeric: seq<Cell>, objects: seq<Cell>, dates: seq<Cell>)
    ensures var s := SuggestionsFor(numeric, objects, dates);
            ((exists k :: 0 <= k < |s| && s[k].Scatter?) <==> |numeric| >= 2)
            && (forall k :: 0 <= k < |s| && s[k].Scatter? ==> s[k] == Scatter(numeric[0], numeric[1]))
            && ((exists k :: 0 <= k < |s| && s[k].BarChart?) <==> |objects| > 0 && |numeric| > 0)
            && (forall k :: 0 <= k < |s| && s[k].BarChart? ==> s[k] == BarChart(objects[0], numeric[0]))
            && ((exists k :: 0 <= k < |s| && s[k].TimeSeries?) <==> |dates| > 0 && |numeric| > 0)
            && (forall k :: 0 <= k < |s| && s[k].TimeSeries? ==>
                  s[k].dateCol == dates[0] && 1 <= |s[k].valueCols| <= 3
                  && s[k].valueCols == numeric[..|s[k].valueCols|]
                  && (|numeric| >= 3 ==> |s[k].valueCols| == 3))
  {
    var s := SuggestionsFor(numeric, objects, dates);
    var n := if |numeric| >= 2 then 3 else if |numeric| > 0 then 2 else 0;
    var m := n + (if |numeric| >= 2 then 1 else 0);
    var b := m + (if |objects| > 0 && |numeric| > 0 then 1 else 0);
    if |numeric| >= 2 {
      assert s[n] == Scatter(numeric[0], numeric[1]);
    }
    if |objects| > 0 && |numeric| > 0 {
      assert s[m] == BarChart(objects[0], numeric[0]);
    }
    if |dates| > 0 && |numeric| > 0 {
      assert s[b] == TimeSeries(dates[0], Take(numeric, 3));
    }
  }

  /** A date column is either a datetime column or an object column whose
      values all parse as dates. */
  lemma {:induction false} ParsedDatesAreObjectDates(lib: Lib, f: Frame, idx: seq<nat>)
    requires f.Valid() && forall k :: 0 <= k < |idx| ==> idx[k] < |f.labels|
    ensures forall c :: c in ParsedDates(lib, f, idx) ==>
              exists k :: 0 <= k < |idx| && f.labels[idx[k]] == c && DateProbe(lib, f, idx[k])
    ensures forall k :: 0 <= k < |idx| && DateProbe(lib, f, idx[k]) ==> f.labels[idx[k]] in ParsedDates(lib, f, idx)
  {
    if idx != [] {
      var init := idx[..|idx| - 1];
      ParsedDatesAreObjectDates(lib, f, init);
      forall c | c in ParsedDates(lib, f, idx)
        ensures exists k :: 0 <= k < |idx| && f.labels[idx[k]] == c && DateProbe(lib, f, idx[k])
      {
        if c in ParsedDates(lib, f, init) {
          var k :| 0 <= k < |init| && f.labels[init[k]] == c && DateProbe(lib, f, init[k]);
          assert idx[k] == init[k];
        } else {
          assert f.labels[idx[|idx| - 1]] == c;
        }
      }
      forall k | 0 <= k < |idx| && DateProbe(lib, f, idx[k])
        ensures f.labels[idx[k]] in ParsedDates(lib, f, idx)
      {
        if k < |init| {
          assert init[k] == idx[k];
        }
      }
    }
  }

  /** Each date column is a datetime column or an object column that parses
      as dates. */
  lemma DateColumnsSound(lib: Lib, f: Frame, c: Cell)
    requires f.Valid() && c in DateColumns(lib, f)
    ensures exists j :: 0 <= j < |f.labels| && f.labels[j] == c
              && (f.dtypes[j] == Datetime64 || (f.dtypes[j] == Object && DateProbe(lib, f, j)))
  {
    var dt := ColumnsWhere(f, |f.labels|, d => d == Datetime64);
    var ob := ObjectPositions(f);
    if c in DatetimeColumns(f) {
      var k :| 0 <= k < |dt| && LabelsAt(f, dt)[k] == c;
      assert f.labels[dt[k]] == c;
    } else {
      assert c in ParsedDates(lib, f, ob);
      ParsedDatesAreObjectDates(lib, f, ob);
      var k :| 0 <= k < |ob| && f.labels[ob[k]] == c && DateProbe(lib, f, ob[k]);
      assert f.dtypes[ob[k]] == Object;
    }
  }

  /** Every datetime column, and every object column that parses as dates,
      is a date column. */
  lemma DateColumnsComplete(lib: Lib, f: Frame, j: nat)
    requires f.Valid() && j < |f.labels|
    requires f.dtypes[j] == Datetime64 || (f.dtypes[j] == Object && DateProbe(lib, f, j))
    ensures f.labels[j] in DateColumns(lib, f)
  {
    if f.dtypes[j] == Datetime64 {
      var dt := ColumnsWhere(f, |f.labels|, d => d == Datetime64);
      var k :| 0 <= k < |dt| && dt[k] == j;
      assert DatetimeColumns(f)[k] == f.labels[j];
    } else {
      var ob := ObjectPositions(f);
      var k :| 0 <= k < |ob| && ob[k] == j;
      assert f.labels[j] in ParsedDates(lib, f, ob) by {
        ParsedDatesAreObjectDates(lib, f, ob);
      }
    }
  }

  /** The figure `create_visualization_from_suggestion` builds, by kind. */
  datatype Chart =
    | CorrelationChart
    | DistributionChart
    | BoxChart
    | ScatterChart
    | BarChartFigure
    | TimeSeriesChart
    | OverviewChart
    | UnknownChart

  /** The dispatch on the "function" key alone. */
  function Dispatch(name: Option<string>): (c: Chart)
  {
    if name == Some("create_correlation_matrix") then CorrelationChart
    else if name == Some("create_distribution_plots") then DistributionChart
    else if name == Some("create_box_plot") then BoxChart
    else if name == Some("create_scatter_plot") then ScatterChart
    else if name == Some("create_bar_chart") then BarChartFigure
    else if name == Some("create_time_series_plot") then TimeSeriesChart
    else if name == Some("create_overview_dashboard") then OverviewChart
    else UnknownChart
  }

  /** The chart each suggestion is meant to draw. */
  function ChartFor(s: Suggestion): Chart
  {
    match s
    case CorrelationMatrix => CorrelationChart
    case Distribution(_) => DistributionChart
    case BoxPlot => BoxChart
    case Scatter(_, _) => ScatterChart
    case BarChart(_, _) => BarChartFigure
    case TimeSeries(_, _) => TimeSeriesChart
    case Overview => OverviewChart
  }

  /** Every suggestion dispatches to its own chart, and only a name that no
      suggestion carries, or a missing one, gives the unknown figure. */
  lemma DispatchSpec(name: Option<string>)
    ensures forall s: Suggestion :: Dispatch(Some(FunctionName(s))) == ChartFor(s)
    ensures Dispatch(name) == UnknownChart <==>
              name.None? || forall s: Suggestion :: FunctionName(s) != name.value
  {
    if name.Some? && Dispatch(name) != UnknownChart {
      var s := match Dispatch(name)
        case CorrelationChart => CorrelationMatrix
        case DistributionChart => Distribution(0)
        case BoxChart => BoxPlot
        case ScatterChart => Scatter(Null, Null)
        case BarChartFigure => BarChart(Null, Null)
        case TimeSeriesChart => TimeSeries(Null, [])
        case _ => Overview;
      assert FunctionName(s) == name.value;
    }
  }
}
