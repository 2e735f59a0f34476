/**
 * The data side of `StatsActivity`: the week selector, the Monday-to-Sunday series of
 * seven bars built from the step table, and the "Today / Yesterday / two days ago" cards.
 * Dates are epoch-day numbers; `today` stands for `LocalDate.now()`.
 */
module Stats {
  import opened Dates
  import opened StepDao

  /** One bar of the chart: position `x` (0 = Monday) and value `y`. */
  datatype BarEntry = BarEntry(x: int, y: int)

  type DayMap = map<string, int>

  /** `Map.getOrDefault(key, def)`. */
  function GetOrDefault(m: DayMap, key: string, def: int): (r: int)
    ensures key in m ==> r == m[key]
    ensures key !in m ==> r == def
  {
    if key in m then m[key] else def
  }

  // ---------------------------------------------------------------------------
  // Week selection

  /**
   * The date the selector position renders: position 0 is this week, any other the week
   * that ends the day before this one starts.
   */
  function SelectedAnchor(position: int, today: int): (r: int)
    ensures WeekStart(r) == if position == 0 then WeekStart(today) else WeekStart(today) - 7
    ensures position == 0 ==> r == today
  {
    WeekStartOfSameWeek(today, 0);
    if position == 0 then today else today - 7
  }

  // ---------------------------------------------------------------------------
  // The per-date map

  /** The keys of `m` are exactly the dates of `rows`. */
  ghost predicate KeysAreDates(rows: seq<StepEntry>, m: DayMap) {
    forall d :: d in m <==> exists i :: 0 <= i < |rows| && rows[i].date == d
  }

  /** Each date maps to the count of the last row with that date. */
  predicate LastRowWins(rows: seq<StepEntry>, m: DayMap) {
    forall i :: 0 <= i < |rows| && (forall j :: i < j < |rows| ==> rows[j].date != rows[i].date) ==>
      rows[i].date in m && m[rows[i].date] == rows[i].steps
  }

  /**
   * The map after `byDate.put(e.date, e.steps)` for each row in order: its keys are the
   * rows' dates, and each date maps to the count of the last row with that date.
   */
  function RowsToMap(rows: seq<StepEntry>): (r: DayMap)
    ensures KeysAreDates(rows, r) && LastRowWins(rows, r)
    decreases |rows|
  {
    if rows == [] then map[]
    else
      var m := RowsToMap(rows[..|rows| - 1]);
      PutLastRow(rows, m);
      m[rows[|rows| - 1].date := rows[|rows| - 1].steps]
  }

  /** One more `put` extends the map of all rows but the last to the map of all rows. */
  lemma PutLastRow(rows: seq<StepEntry>, m: DayMap)
    requires rows != []
    requires KeysAreDates(rows[..|rows| - 1], m) && LastRowWins(rows[..|rows| - 1], m)
    ensures var e := rows[|rows| - 1];
            KeysAreDates(rows, m[e.date := e.steps]) && LastRowWins(rows, m[e.date := e.steps])
  {
    var init, e := rows[..|rows| - 1], rows[|rows| - 1];
    var m' := m[e.date := e.steps];
    assert forall i :: 0 <= i < |init| ==> init[i] == rows[i];
    forall d | d in m'
      ensures exists i :: 0 <= i < |rows| && rows[i].date == d
    {
      if d != e.date {
        var i :| 0 <= i < |init| && init[i].date == d;
        assert rows[i].date == d;
      } else {
        assert rows[|rows| - 1].date == d;
      }
    }
    forall d | exists i :: 0 <= i < |rows| && rows[i].date == d
      ensures d in m'
    {
      var i :| 0 <= i < |rows| && rows[i].date == d;
      if i < |init| {
        assert init[i].date == d;
      }
    }
    forall i | 0 <= i < |rows| && (forall j :: i < j < |rows| ==> rows[j].date != rows[i].date)
      ensures rows[i].date in m' && m'[rows[i].date] == rows[i].steps
    {
      if i < |init| {
        assert rows[|rows| - 1].date != rows[i].date;
        assert forall j :: i < j < |init| ==> init[j].date != init[i].date;
      }
    }
  }

  /** Rows that all agree with table `t` make a map that agrees with `t` on every date it holds. */
  lemma {:induction false} RowsToMapOfTableRows(rows: seq<StepEntry>, t: Table)
    requires forall i :: 0 <= i < |rows| ==> rows[i].date in t && rows[i].steps == t[rows[i].date]
    ensures forall d :: d in RowsToMap(rows) ==> d in t && RowsToMap(rows)[d] == t[d]
    decreases |rows|
  {
    if rows != [] {
      var init := rows[..|rows| - 1];
      assert forall i :: 0 <= i < |init| ==> init[i] == rows[i];
      RowsToMapOfTableRows(init, t);
    }
  }

  /** Rows that agree with table `t` and cover every stored date make exactly `t`. */
  lemma RowsToMapOfCoveringRows(rows: seq<StepEntry>, t: Table)
    requires forall i :: 0 <= i < |rows| ==> rows[i].date in t && rows[i].steps == t[rows[i].date]
    requires forall d :: d in t ==> StepEntry(d, t[d]) in rows
    ensures RowsToMap(rows) == t
  {
    RowsToMapOfTableRows(rows, t);
    var m := RowsToMap(rows);
    forall d | d in t
      ensures d in m
    {
      var i :| 0 <= i < |rows| && rows[i] == StepEntry(d, t[d]);
    }
    assert m.Keys == t.Keys;
  }

  /** The map built from `getAllSteps()` holds exactly one entry per stored date, with that row's count. */
  lemma ByDateIsTable(t: Table)
    ensures RowsToMap(GetAllSteps(t)) == t
  {
    RowsToMapOfCoveringRows(GetAllSteps(t), t);
  }

  /** The `for (StepEntry e : allSteps) byDate.put(e.date, e.steps)` loop. */
  method BuildByDate(allSteps: seq<StepEntry>) returns (byDate: DayMap)
    ensures byDate == RowsToMap(allSteps)
  {
    byDate := map[];
    var i := 0;
    while i < |allSteps|
      invariant 0 <= i <= |allSteps|
      invariant byDate == RowsToMap(allSteps[..i])
    {
      var e := allSteps[i];
      assert allSteps[..i + 1][..i] == allSteps[..i];
      byDate := byDate[e.date := e.steps];
      i := i + 1;
    }
    assert allSteps[..|allSteps|] == allSteps;
  }

  // ---------------------------------------------------------------------------
  // The week series

  /** The anchors for which the week and its keys are in range of the model's dates. */
  predicate AnchorOk(anchor: int) {
    anchor >= FIRST_KEY_DAY + 6
  }

  /** `byDate.getOrDefault(day.format(DB_FMT), 0)`: the count of epoch day `day`, 0 without a row. */
  function StepsOn(byDate: DayMap, day: int): int
    requires day >= FIRST_KEY_DAY
  {
    GetOrDefault(byDate, DayKey(day), 0)
  }

  /** The bar of the `i`-th day of the week of `anchor`. */
  function WeekBar(byDate: DayMap, anchor: int, i: int): BarEntry
    requires AnchorOk(anchor) && 0 <= i
  {
    BarEntry(i, StepsOn(byDate, WeekStart(anchor) + i))
  }

  /**
   * The loop over `weekStart .. weekEnd` in `loadAndRenderWeek`: one bar per day, counter
   * `x` from 0, the value looked up by the day's key with 0 for a day without a row.
   */
  method WeekSeries(byDate: DayMap, anchor: int) returns (barEntries: seq<BarEntry>)
    requires AnchorOk(anchor)
    ensures |barEntries| == 7
    ensures forall i :: 0 <= i < 7 ==> barEntries[i] == WeekBar(byDate, anchor, i)
  {
    var weekStart := WeekStart(anchor);
    var weekEnd := weekStart + 6;
    barEntries := [];
    var x := 0;
    var d := weekStart;
    while d <= weekEnd
      invariant weekStart <= d <= weekEnd + 1
      invariant x == d - weekStart
      invariant |barEntries| == x
      invariant forall i :: 0 <= i < x ==> barEntries[i] == WeekBar(byDate, anchor, i)
    {
      var steps := StepsOn(byDate, d);
      barEntries := barEntries + [BarEntry(x, steps)];
      x := x + 1;
      d := d + 1;
    }
  }

  /** `loadAndRenderWeek(anchor)` without its rendering: the per-date map and the seven bars. */
  method LoadWeek(allSteps: seq<StepEntry>, anchor: int) returns (byDate: DayMap, barEntries: seq<BarEntry>)
    requires AnchorOk(anchor)
    ensures byDate == RowsToMap(allSteps)
    ensures |barEntries| == 7
    ensures forall i :: 0 <= i < 7 ==> barEntries[i] == WeekBar(byDate, anchor, i)
  {
    byDate := BuildByDate(allSteps);
    barEntries := WeekSeries(byDate, anchor);
  }

  /**
   * Over the rows of table `t`, bar `i` belongs to the `i`-th weekday (Monday first) of the
   * week holding `anchor`, and shows that day's stored count or 0 when the day has no row.
   * The anchor's own bar is the one at its weekday.
   */
  lemma WeekBarsShowTable(t: Table, anchor: int, i: int)
    requires AnchorOk(anchor) && 0 <= i < 7
    ensures var day := WeekStart(anchor) + i;
            var bar := WeekBar(RowsToMap(GetAllSteps(t)), anchor, i);
            && DayOfWeek(day) == i
            && bar.x == i
            && bar.y == (if DayKey(day) in t then t[DayKey(day)] else 0)
    ensures WeekStart(anchor) + DayOfWeek(anchor) == anchor
  {
    ByDateIsTable(t);
    var day := WeekStart(anchor) + i;
    var key := DayKey(day);
    DayOfWeekInWeek(anchor, i);
    assert GetOrDefault(t, key, 0) == if key in t then t[key] else 0;
  }

  /** Bars of different positions are the values of different days: two days of one week have different keys. */
  lemma WeekBarsAreDistinctDays(anchor: int, d1: int, d2: int)
    requires AnchorOk(anchor) && WeekStart(anchor) <= d1 < d2 <= WeekStart(anchor) + 6
    ensures DayKey(d1) != DayKey(d2)
  {
    DayKeyInjective(d1, d2);
  }

  // ---------------------------------------------------------------------------
  // The cards

  /** The three card values: today, yesterday and two days ago, each 0 without a row. */
  function Cards(byDate: DayMap, today: int): (r: seq<int>)
    requires today >= FIRST_KEY_DAY + 2
    ensures |r| == 3
  {
    seq(3, k requires 0 <= k < 3 => StepsOn(byDate, today - k))
  }

  /** A card of a day in the current week shows the same count as that day's bar. */
  lemma CardMatchesBar(byDate: DayMap, today: int, k: int)
    requires AnchorOk(today) && 0 <= k < 3 && DayOfWeek(today) >= k
    ensures Cards(byDate, today)[k] == WeekBar(byDate, SelectedAnchor(0, today), DayOfWeek(today) - k).y
  {
    DaysBeforeInWeek(today, k);
  }

  /** The `k`-th day before `z`, when it is in the week of `z`, is that week's day `DayOfWeek(z) - k`. */
  lemma DaysBeforeInWeek(z: int, k: int)
    ensures WeekStart(z) + (DayOfWeek(z) - k) == z - k
  {
  }

  lemma CardOfTable(t: Table, today: int, k: int)
    requires AnchorOk(today) && 0 <= k < 3
    ensures var key := DayKey(today - k);
            Cards(t, today)[k] == if key in t then t[key] else 0
  {
    assert Cards(t, today)[k] == StepsOn(t, today - k);
  }

  /**
   * Over table `t`, card `k` shows the stored count of `today - k` or 0, and it agrees with
   * the bar of that day in the current week's series whenever that day is in this week.
   */
  lemma CardsShowTable(t: Table, today: int, k: int)
    requires AnchorOk(today) && 0 <= k < 3
    ensures var key := DayKey(today - k);
            Cards(RowsToMap(GetAllSteps(t)), today)[k] == if key in t then t[key] else 0
    ensures DayOfWeek(today) >= k ==>
              Cards(RowsToMap(GetAllSteps(t)), today)[k]
              == WeekBar(RowsToMap(GetAllSteps(t)), SelectedAnchor(0, today), DayOfWeek(today) - k).y
  {
    ByDateIsTable(t);
    CardOfTable(t, today, k);
    if DayOfWeek(today) >= k {
      CardMatchesBar(t, today, k);
    }
  }
}
