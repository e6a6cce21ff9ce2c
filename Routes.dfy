/** The two routes, `moving_avg` and `exit_pie`: check `m`, look the figure
    up in the cache under today's name, and on a miss compute it and schedule
    one cache update. Scheduling is modelled by returning the pending update;
    the caller applies it after responding. Today's date and day of year are
    parameters. */
module Routes {
  import opened Results
  import opened Records
  import opened Charts
  import opened DailyCache

  /** `_check_m`: only 90 and 365 are accepted; anything else is a 404. */
  function CheckM(m: int): (failure: Option<Error>)
    ensures failure.None? <==> m == 90 || m == 365
    ensures failure.Some? ==> failure.value == NotFound(404, "Not found. Try m=90 or m=365")
  {
    if !(m == 90 || m == 365) then Some(NotFound(404, "Not found. Try m=90 or m=365")) else None
  }

  /** A background task `_update_cache(fig, cache_path, DoY)`. */
  datatype CacheUpdate = CacheUpdate(fig: Figure, name: string, doy: nat)

  /** `GET /exit-moving-avg/{m}/{days_back}`. An invalid `m` is rejected
      before the cache or the records are looked at; a cached figure is
      returned as is, with nothing computed or scheduled; otherwise the
      figure is computed and, unless computing it raised, one update storing
      that same figure under today's name is scheduled. */
  method MovingAvg(cache: PlotCache, members: seq<ExitRecord>, m: int, daysBack: int, last: int, doy: nat)
    returns (r: Result<Figure>, pending: Option<CacheUpdate>)
    ensures CheckM(m).Some? ==> r == Err(CheckM(m).value) && pending == None
    ensures CheckM(m).None? && MovingAvgName(m, daysBack, doy) in cache.files ==>
      r == Ok(cache.files[MovingAvgName(m, daysBack, doy)]) && pending == None
    ensures CheckM(m).None? && MovingAvgName(m, daysBack, doy) !in cache.files ==>
      && r == MovingAvgFigure(members, m, daysBack, last)
      && pending == if r.Ok? then Some(CacheUpdate(r.value, MovingAvgName(m, daysBack, doy), doy)) else None
  {
    var failure := CheckM(m);
    if failure.Some? {
      return Err(failure.value), None;
    }
    var name := MovingAvgName(m, daysBack, doy);
    if name in cache.files {
      r, pending := Ok(cache.files[name]), None;
    } else {
      r := PlotMovingAvg(members, m, daysBack, last);
      pending := if r.Ok? then Some(CacheUpdate(r.value, name, doy)) else None;
    }
  }

  /** `GET /exit-pie/{m}`, with the same check, lookup and miss handling as
      the line chart under the pie's name. */
  method ExitPie(cache: PlotCache, members: seq<ExitRecord>, m: int, last: int, doy: nat)
    returns (r: Result<Figure>, pending: Option<CacheUpdate>)
    ensures CheckM(m).Some? ==> r == Err(CheckM(m).value) && pending == None
    ensures CheckM(m).None? && PieName(m, doy) in cache.files ==>
      r == Ok(cache.files[PieName(m, doy)]) && pending == None
    ensures CheckM(m).None? && PieName(m, doy) !in cache.files ==>
      && r == ExitPieFigure(members, m, last)
      && pending == if r.Ok? then Some(CacheUpdate(r.value, PieName(m, doy), doy)) else None
  {
    var failure := CheckM(m);
    if failure.Some? {
      return Err(failure.value), None;
    }
    var name := PieName(m, doy);
    if name in cache.files {
      r, pending := Ok(cache.files[name]), None;
    } else {
      r := PlotExitPie(members, m, last);
      pending := if r.Ok? then Some(CacheUpdate(r.value, name, doy)) else None;
    }
  }

  /** Runs a scheduled update, if there is one, after the response. */
  method RunPending(cache: PlotCache, pending: Option<CacheUpdate>)
    modifies cache
    ensures pending.None? ==> cache.files == old(cache.files)
    ensures pending.Some? ==>
      cache.files == Swept(old(cache.files)[pending.value.name := pending.value.fig], pending.value.doy)
  {
    if pending.Some? {
      cache.UpdateCache(pending.value.fig, pending.value.name, pending.value.doy);
    }
  }

  /** Two requests for the same line chart on the same day, the first one's
      scheduled update run in between, get the same answer, and the second
      schedules nothing: a figure the first one computed is served from the
      cache, and a failure the first one met (nothing cached) is met again. */
  method SameDayMovingAvg(cache: PlotCache, members: seq<ExitRecord>, m: int, daysBack: int, last: int, doy: nat)
    returns (first: Result<Figure>, second: Result<Figure>, again: Option<CacheUpdate>)
    modifies cache
    ensures second == first
    ensures again == None
    ensures first.Ok? ==>
      MovingAvgName(m, daysBack, doy) in cache.files && cache.files[MovingAvgName(m, daysBack, doy)] == first.value
  {
    var pending;
    first, pending := MovingAvg(cache, members, m, daysBack, last, doy);
    RunPending(cache, pending);
    if first.Ok? {
      WrittenPlotSurvives(old(cache.files), first.value, false, m, daysBack, doy);
    }
    second, again := MovingAvg(cache, members, m, daysBack, last, doy);
  }

  /** The same for the pie chart. */
  method SameDayExitPie(cache: PlotCache, members: seq<ExitRecord>, m: int, last: int, doy: nat)
    returns (first: Result<Figure>, second: Result<Figure>, again: Option<CacheUpdate>)
    modifies cache
    ensures second == first
    ensures again == None
    ensures first.Ok? ==> PieName(m, doy) in cache.files && cache.files[PieName(m, doy)] == first.value
  {
    var pending;
    first, pending := ExitPie(cache, members, m, last, doy);
    RunPending(cache, pending);
    if first.Ok? {
      WrittenPlotSurvives(old(cache.files), first.value, true, m, 0, doy);
    }
    second, again := ExitPie(cache, members, m, last, doy);
  }
}
