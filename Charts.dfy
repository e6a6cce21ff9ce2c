/** The two plotting functions, `plot_moving_avg` and `plot_exit_pie`, up to
    the table each hands to the charting library. A figure is modelled as
    that table plus the fixed title, legend order and colour map. */
module Charts {
  import opened Results
  import opened Records
  import opened Text
  import opened Dates
  import opened Aggregator

  /** The line chart's legend order. */
  const CategoryOrder: seq<string> :=
    ["Permanent Exit", "Temporary Exit", "Transitional Housing", "Emergency Shelter", "Unknown/Other"]

  /** The pie's colour per destination, chosen to match the line chart. */
  const ColorMap: map<string, string> :=
    map["Permanent Exit" := "#636EFA",
        "Temporary Exit" := "#EF553B",
        "Transitional Housing" := "#00CC96",
        "Emergency Shelter" := "#AB63FA",
        "Unknown/Other" := "#FFA15A"]

  /** The colour map names exactly the five legend categories. */
  lemma ColorsMatchLegend()
    ensures |CategoryOrder| == 5 && Distinct(CategoryOrder)
    ensures forall c :: c in ColorMap <==> c in CategoryOrder
  {
  }

  /** What is serialised to JSON: the line chart's table (rows indexed by
      bucket end date) or the pie's table. */
  datatype Figure =
    | LineFigure(title: string, rows: seq<Bucket>, categoryOrder: seq<string>)
    | PieFigure(slices: seq<PieRow>, colorMap: map<string, string>)

  /** `f'{m}-Day Moving Averages'`: the window length in decimal, then the
      fixed wording. */
  function LineTitle(m: int): (t: string)
    ensures |t| > 20 && t[|t| - 20..] == "-Day Moving Averages"
    ensures t[..|t| - 20] == IntToString(m)
  {
    IntToString(m) + "-Day Moving Averages"
  }

  /** The line chart `plot_moving_avg` draws, or the error it raises. */
  function MovingAvgFigure(members: seq<ExitRecord>, m: int, daysBack: int, last: int): (r: Result<Figure>)
    ensures r.Err? <==> MovingSeries(members, m, daysBack, last).Err?
    ensures r.Err? ==> r.error == MovingSeries(members, m, daysBack, last).error
    ensures r.Ok? ==> r.value.LineFigure? && r.value.title == LineTitle(m) && r.value.categoryOrder == CategoryOrder
    ensures r.Ok? ==> r.value.rows == MovingSeries(members, m, daysBack, last).value
  {
    match MovingSeries(members, m, daysBack, last)
    case Err(e) => Err(e)
    case Ok(moving) => Ok(LineFigure(LineTitle(m), moving, CategoryOrder))
  }

  /** The pie chart `plot_exit_pie` draws, or the error it raises. */
  function ExitPieFigure(members: seq<ExitRecord>, m: int, last: int): (r: Result<Figure>)
    ensures r.Err? <==> PieTable(members, m, last).Err?
    ensures r.Err? ==> r.error == PieTable(members, m, last).error
    ensures r.Ok? ==> r.value == PieFigure(PieTable(members, m, last).value, ColorMap)
  {
    match PieTable(members, m, last)
    case Err(e) => Err(e)
    case Ok(table) => Ok(PieFigure(table, ColorMap))
  }

  /** `plot_moving_avg`: compute first = last - (m + days_back), fetch
      (first, last], then walk the offsets of `range(0, days_back, STEP)` and
      append one breakdown row per bucket. `last` is a parameter instead of
      today minus 180 days. The `fillna(0)` has nothing to fill: every row
      has a value for every fetched destination. */
  method PlotMovingAvg(members: seq<ExitRecord>, m: int, daysBack: int, last: int) returns (r: Result<Figure>)
    ensures r == MovingAvgFigure(members, m, daysBack, last)
  {
    var step := Step(daysBack);
    var firstOr := DaysBefore(last, m + daysBack);
    if firstOr.Err? {
      return Err(firstOr.error);
    }
    var first := firstOr.value;
    var df := ExitDf(members, first, last);
    if |df| == 0 {
      return Err(MissingDestColumn);
    }
    var dests := Dests(df);
    var offsets := PyRange(0, daysBack, step);
    var moving := MovingRows(df, dests, m, last, offsets);
    assert moving == MovingSeries(members, m, daysBack, last);
    match moving
    case Err(e) => r := Err(e);
    case Ok(rows) => r := Ok(LineFigure(LineTitle(m), rows, CategoryOrder));
  }

  /** The loop `for i in range(0, days_back, STEP)` of `plot_moving_avg`:
      end = last - i and start = end - m, each of which can overflow, then
      the breakdown row of (start, end] is appended to `moving`. */
  method MovingRows(df: seq<ExitRecord>, dests: seq<string>, m: int, last: int, offsets: seq<int>)
    returns (r: Result<seq<Bucket>>)
    ensures r == SeriesOver(df, dests, m, last, offsets)
  {
    var moving: seq<Bucket> := [];
    var j := 0;
    while j < |offsets|
      invariant 0 <= j <= |offsets|
      invariant SeriesOver(df, dests, m, last, offsets[..j]) == Ok(moving)
    {
      var i := offsets[j];
      SeriesStep(df, dests, m, last, offsets, j, moving);
      var endOr := DaysBefore(last, i);
      if endOr.Err? {
        return Err(endOr.error);
      }
      var end := endOr.value;
      var startOr := DaysBefore(end, m);
      if startOr.Err? {
        return Err(startOr.error);
      }
      var start := startOr.value;
      var sub := Between(df, start, end);
      var breakdown := Breakdown(sub, dests);
      if breakdown.Err? {
        return Err(breakdown.error);
      }
      moving := moving + [Bucket(end, breakdown.value)];
      j := j + 1;
    }
    assert offsets[..j] == offsets;
    r := Ok(moving);
  }

  /** `plot_exit_pie`: compute first = last - m, fetch (first, last] and give
      every record a count of one. */
  method PlotExitPie(members: seq<ExitRecord>, m: int, last: int) returns (r: Result<Figure>)
    ensures r == ExitPieFigure(members, m, last)
  {
    var firstOr := DaysBefore(last, m);
    if firstOr.Err? {
      return Err(firstOr.error);
    }
    var first := firstOr.value;
    var df := ExitDf(members, first, last);
    if |df| == 0 {
      return Err(MissingDestColumn);
    }
    var table := WithCount(df);
    r := Ok(PieFigure(table, ColorMap));
  }
}
