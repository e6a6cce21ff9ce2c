/** The daily plot cache: the directory `app/plotcache` of JSON files whose
    names carry the chart type, its parameters and the day of the year,
    modelled as a map from file name to the stored figure. */
module DailyCache {
  import opened Text
  import opened Charts

  /** `f'd{DoY}'`: the day marker written into every file name, a 'd' and
      then the day's decimal digits. */
  function DayTag(doy: nat): (tag: string)
    ensures |tag| >= 2 && tag[0] == 'd'
    ensures forall k :: 1 <= k < |tag| ==> '0' <= tag[k] <= '9'
  {
    "d" + NatToString(doy)
  }

  /** `f'MA{m}-{days_back}-d{DoY}.json'`. */
  function MovingAvgName(m: int, daysBack: int, doy: nat): (name: string)
    ensures |name| > 7 && name[..2] == "MA" && name[|name| - 5..] == ".json"
  {
    "MA" + IntToString(m) + "-" + IntToString(daysBack) + "-" + DayTag(doy) + ".json"
  }

  /** `f'PIE{m}-d{DoY}.json'`. */
  function PieName(m: int, doy: nat): (name: string)
    ensures |name| > 8 && name[..3] == "PIE" && name[|name| - 5..] == ".json"
  {
    "PIE" + IntToString(m) + "-" + DayTag(doy) + ".json"
  }

  /** The directory after the sweep of `_update_cache`: exactly the files
      whose name contains `d{DoY}`, with their contents unchanged. */
  function Swept(files: map<string, Figure>, doy: nat): (kept: map<string, Figure>)
    ensures kept.Keys <= files.Keys
    ensures forall k :: k in kept ==> kept[k] == files[k] && Contains(k, DayTag(doy))
  {
    map k | k in files && Contains(k, DayTag(doy)) :: files[k]
  }

  /** Sweeping twice on the same day removes nothing more. */
  lemma SweepIdempotent(files: map<string, Figure>, doy: nat)
    ensures Swept(Swept(files, doy), doy) == Swept(files, doy)
  {
  }

  /** The marker `d{DoY}` followed by ".json" ends a name; reading it back
      gives the day. */
  lemma DayTagThenJson(a: nat, b: nat)
    requires DayTag(a) + ".json" == DayTag(b) + ".json"
    ensures a == b
  {
    var ta, tb := DayTag(a), DayTag(b);
    assert |ta| == |tb|;
    assert ta == (ta + ".json")[..|ta|];
    assert NatToString(a) == ta[1..] && NatToString(b) == tb[1..];
    NatToStringInjective(a, b);
  }

  /** The same prefix can be cancelled on both sides. */
  lemma CancelPrefix(p: string, x: string, y: string)
    requires p + x == p + y
    ensures x == y
  {
    assert x == (p + x)[|p|..] && y == (p + y)[|p|..];
  }

  /** A line-chart name read as its prefix, its first number and the rest. */
  lemma MovingAvgNameSplit(m: int, daysBack: int, doy: nat)
    ensures MovingAvgName(m, daysBack, doy)
      == "MA" + (IntToString(m) + "-" + (IntToString(daysBack) + "-" + (DayTag(doy) + ".json")))
  {
  }

  /** A pie name read as its prefix, its number and the rest. */
  lemma PieNameSplit(m: int, doy: nat)
    ensures PieName(m, doy) == "PIE" + (IntToString(m) + "-" + (DayTag(doy) + ".json"))
  {
  }

  /** Two line-chart names are equal only for the same m, days_back and day. */
  lemma MovingAvgNameInjective(m1: int, daysBack1: int, doy1: nat, m2: int, daysBack2: int, doy2: nat)
    requires MovingAvgName(m1, daysBack1, doy1) == MovingAvgName(m2, daysBack2, doy2)
    ensures m1 == m2 && daysBack1 == daysBack2 && doy1 == doy2
  {
    var t1, t2 := DayTag(doy1) + ".json", DayTag(doy2) + ".json";
    var r1, r2 := IntToString(daysBack1) + "-" + t1, IntToString(daysBack2) + "-" + t2;
    MovingAvgNameSplit(m1, daysBack1, doy1);
    MovingAvgNameSplit(m2, daysBack2, doy2);
    CancelPrefix("MA", IntToString(m1) + "-" + r1, IntToString(m2) + "-" + r2);
    IntThenDash(m1, m2, r1, r2);
    IntThenDash(daysBack1, daysBack2, t1, t2);
    DayTagThenJson(doy1, doy2);
  }

  /** Two pie names are equal only for the same m and day. */
  lemma PieNameInjective(m1: int, doy1: nat, m2: int, doy2: nat)
    requires PieName(m1, doy1) == PieName(m2, doy2)
    ensures m1 == m2 && doy1 == doy2
  {
    var t1, t2 := DayTag(doy1) + ".json", DayTag(doy2) + ".json";
    PieNameSplit(m1, doy1);
    PieNameSplit(m2, doy2);
    CancelPrefix("PIE", IntToString(m1) + "-" + t1, IntToString(m2) + "-" + t2);
    IntThenDash(m1, m2, t1, t2);
    DayTagThenJson(doy1, doy2);
  }

  /** Cache names identify the request: two line-chart names are equal
      exactly when m, days_back and the day are, two pie names exactly when
      m and the day are, and no line-chart name is a pie name. So a cache
      hit only returns a figure stored under the same m, days_back and day
      of the year; the name carries no year, so that figure may come from
      the same day of an earlier year. */
  lemma CacheNamesDistinct(m1: int, daysBack1: int, doy1: nat, m2: int, daysBack2: int, doy2: nat)
    ensures MovingAvgName(m1, daysBack1, doy1) == MovingAvgName(m2, daysBack2, doy2) <==>
      m1 == m2 && daysBack1 == daysBack2 && doy1 == doy2
    ensures PieName(m1, doy1) == PieName(m2, doy2) <==> m1 == m2 && doy1 == doy2
    ensures MovingAvgName(m1, daysBack1, doy1) != PieName(m2, doy2)
  {
    if MovingAvgName(m1, daysBack1, doy1) == MovingAvgName(m2, daysBack2, doy2) {
      MovingAvgNameInjective(m1, daysBack1, doy1, m2, daysBack2, doy2);
    }
    if PieName(m1, doy1) == PieName(m2, doy2) {
      PieNameInjective(m1, doy1, m2, doy2);
    }
    assert MovingAvgName(m1, daysBack1, doy1)[1] == 'A' && PieName(m2, doy2)[1] == 'I';
  }

  /** Both routes put the day marker in the names they build. */
  lemma NamesCarryDay(m: int, daysBack: int, doy: nat)
    ensures Contains(MovingAvgName(m, daysBack, doy), DayTag(doy))
    ensures Contains(PieName(m, doy), DayTag(doy))
  {
    var tag := DayTag(doy);
    ContainsInfix("MA" + IntToString(m) + "-" + IntToString(daysBack) + "-", tag, ".json");
    ContainsInfix("PIE" + IntToString(m) + "-", tag, ".json");
  }

  /** The name a route caches its figure under: the line chart's for
      `MovingAvgName`, the pie's for `PieName`. */
  function RouteName(pie: bool, m: int, daysBack: int, doy: nat): string
  {
    if pie then PieName(m, doy) else MovingAvgName(m, daysBack, doy)
  }

  /** After a route writes `fig` under its own name and sweeps, that name
      holds `fig`; every other file survives, unchanged, iff its name contains
      the day marker, so all of the same day's files are kept. */
  lemma WrittenPlotSurvives(files: map<string, Figure>, fig: Figure, pie: bool, m: int, daysBack: int, doy: nat)
    ensures var name, after := RouteName(pie, m, daysBack, doy), Swept(files[RouteName(pie, m, daysBack, doy) := fig], doy);
      && name in after && after[name] == fig
      && (forall k :: k != name ==> (k in after <==> k in files && Contains(k, DayTag(doy))))
      && (forall k :: k in after && k != name ==> after[k] == files[k])
  {
    NamesCarryDay(m, daysBack, doy);
  }

  /** The sweep tests for a substring, not for the day: the marker of day
      10 * doy + c extends the marker of day doy, so on day doy the files of
      day 10 * doy + c are kept (on day 14, `MA90-30-d145.json`). */
  lemma SweepKeepsExtendedDay(m: int, daysBack: int, doy: nat, c: nat)
    requires doy >= 1 && c < 10
    ensures DayTag(10 * doy + c) == DayTag(doy) + [Digit(c)]
    ensures Contains(MovingAvgName(m, daysBack, 10 * doy + c), DayTag(doy))
    ensures Contains(PieName(m, 10 * doy + c), DayTag(doy))
  {
    var later := 10 * doy + c;
    assert later / 10 == doy && later % 10 == c;
    assert NatToString(later) == NatToString(doy) + [Digit(c)];
    var rest := [Digit(c)] + ".json";
    assert MovingAvgName(m, daysBack, later)
      == ("MA" + IntToString(m) + "-" + IntToString(daysBack) + "-") + DayTag(doy) + rest;
    assert PieName(m, later) == ("PIE" + IntToString(m) + "-") + DayTag(doy) + rest;
    ContainsInfix("MA" + IntToString(m) + "-" + IntToString(daysBack) + "-", DayTag(doy), rest);
    ContainsInfix("PIE" + IntToString(m) + "-", DayTag(doy), rest);
  }

  /** The cache directory. */
  class PlotCache {
    /** File name inside `PLOT_CACHE_DIR` to the figure stored in it. */
    var files: map<string, Figure>

    constructor (initial: map<string, Figure>)
      ensures files == initial
    {
      files := initial;
    }

    /** `_update_cache`: write `fig` under `name`, then scan the directory and
        remove every file whose name does not contain `d{DoY}`. */
    method UpdateCache(fig: Figure, name: string, doy: nat)
      modifies this
      ensures files == Swept(old(files)[name := fig], doy)
    {
      files := files[name := fig];
      ghost var written := files;
      var tag := DayTag(doy);
      var entries := files.Keys;
      while entries != {}
        invariant entries <= written.Keys
        invariant files == map k | k in written && (k in entries || Contains(k, tag)) :: written[k]
        decreases entries
      {
        var entry :| entry in entries;
        if !Contains(entry, tag) {
          files := files - {entry};
        }
        entries := entries - {entry};
      }
    }
  }
}
