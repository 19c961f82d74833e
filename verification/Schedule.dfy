/** The weekly schedule (src/recordings/recording-scheduler.ts) and its 7x24 grid (src/settings/settings.types.ts). */
module Schedule {
  import opened Options
  import opened RecordingTypes

  const DAY := 1440
  const WEEK := 10080

  /** Days count from Sunday, 0. */
  datatype ScheduleWindow = ScheduleWindow(dayOfWeek: int, startHour: int, startMin: int, endHour: int, endMin: int) {
    /** ScheduleWindowSchema. */
    ghost predicate Valid() {
      && 0 <= dayOfWeek < 7 && 0 <= startHour < 24 && 0 <= endHour < 24
      && 0 <= startMin < 60 && 0 <= endMin < 60
    }

    function StartMins(): int {
      startHour * 60 + startMin
    }

    function EndMins(): int {
      endHour * 60 + endMin
    }

    /** A window that ends before it starts runs into the next day. */
    function Length(): int {
      if StartMins() <= EndMins() then EndMins() - StartMins() else EndMins() - StartMins() + DAY
    }
  }

  // ---------------------------------------------------------------------
  // When a camera records
  // ---------------------------------------------------------------------

  /** How far minute `mins` of day `day` lies past the window's start, around the week. */
  function PastStart(w: ScheduleWindow, day: int, mins: int): int {
    (day * DAY + mins - (w.dayOfWeek * DAY + w.StartMins())) % WEEK
  }

  ghost predicate Covers(w: ScheduleWindow, day: int, mins: int) {
    PastStart(w, day, mins) < w.Length()
  }

  ghost predicate Covered(windows: seq<ScheduleWindow>, day: int, mins: int) {
    exists w :: w in windows && Covers(w, day, mins)
  }

  ghost predicate AllValid(windows: seq<ScheduleWindow>) {
    forall w :: w in windows ==> w.Valid()
  }

  ghost predicate ActiveAt(mode: RecordingMode, windows: seq<ScheduleWindow>, day: int, mins: int) {
    match mode
    case ALWAYS => true
    case MANUAL_OFF | MOTION_ONLY => false
    case SCHEDULED => Covered(windows, day, mins)
  }

  /** A window covers the minutes of the week from its start to the next time its end comes round. */
  lemma CoversMeans(w: ScheduleWindow, day: int, mins: int)
    requires w.Valid()
    ensures Covers(w, day, mins) <==>
              (1440 * (day - w.dayOfWeek) + mins - (60 * w.startHour + w.startMin)) % 10080
              < (60 * (w.endHour - w.startHour) + w.endMin - w.startMin) % 1440
  {
    assert 1440 * (day - w.dayOfWeek) + mins - (60 * w.startHour + w.startMin)
        == day * DAY + mins - (w.dayOfWeek * DAY + w.StartMins());
    var long := 60 * (w.endHour - w.startHour) + w.endMin - w.startMin;
    assert long == w.EndMins() - w.StartMins() && -DAY < long < DAY;
  }

  /** The branches of the scan say whether the cyclic interval contains the minute. */
  lemma CoversByDay(w: ScheduleWindow, day: int, mins: int)
    requires w.Valid() && 0 <= day < 7 && 0 <= mins < DAY
    ensures Covers(w, day, mins) <==>
      || (w.dayOfWeek == day && w.StartMins() <= mins && (w.StartMins() <= w.EndMins() ==> mins < w.EndMins()))
      || (w.dayOfWeek == (day + 6) % 7 && w.EndMins() < w.StartMins() && mins < w.EndMins())
  {
    var days := day - w.dayOfWeek;
    var x := days * DAY + mins - w.StartMins();
    assert -WEEK < x < WEEK && PastStart(w, day, mins) == if x < 0 then x + WEEK else x;
    if days == 0 || days == 1 || days == -6 {
      assert w.dayOfWeek == (day + 6) % 7 <==> days != 0;
    } else {
      assert w.dayOfWeek != (day + 6) % 7;
    }
  }

  /** isCameraActiveAt, at minute `mins` of day `day`. */
  method IsCameraActiveAt(mode: RecordingMode, windows: seq<ScheduleWindow>, day: int, mins: int) returns (active: bool)
    requires 0 <= day < 7 && 0 <= mins < DAY && AllValid(windows)
    ensures active <==> ActiveAt(mode, windows, day, mins)
    ensures match mode
            case ALWAYS => active
            case MANUAL_OFF | MOTION_ONLY => !active
            case SCHEDULED =>
              active <==>
                exists w :: && w in windows
                            && (1440 * (day - w.dayOfWeek) + mins - (60 * w.startHour + w.startMin)) % 10080
                               < (60 * (w.endHour - w.startHour) + w.endMin - w.startMin) % 1440
  {
    forall w | w in windows {
      CoversMeans(w, day, mins);
    }
    hide Covers;
    if mode == ALWAYS {
      return true;
    }
    if mode == MANUAL_OFF || mode == MOTION_ONLY {
      return false;
    }
    var prevDay := (day + 6) % 7;
    for i := 0 to |windows|
      invariant forall k :: 0 <= k < i ==> !Covers(windows[k], day, mins)
    {
      var win := windows[i];
      var startMins, endMins := win.StartMins(), win.EndMins();
      CoversByDay(win, day, mins);
      if win.dayOfWeek == day {
        if startMins <= endMins {
          if startMins <= mins && mins < endMins {
            return true;
          }
        } else {
          if startMins <= mins {
            return true;
          }
        }
      }
      if win.dayOfWeek == prevDay {
        if startMins > endMins {
          if mins < endMins {
            return true;
          }
        }
      }
    }
    return false;
  }

  // ---------------------------------------------------------------------
  // From the grid to windows
  // ---------------------------------------------------------------------

  type Grid = seq<seq<bool>>

  /** A missing row or cell is off. */
  function Cell(grid: Grid, day: int, hour: int): bool {
    0 <= day < |grid| && 0 <= hour < |grid[day]| && grid[day][hour]
  }

  /** The hour a window of whole hours ends at; the day's last window is written up to 23:59. */
  function EndOfRun(w: ScheduleWindow): int {
    if w.endMin == 0 then w.endHour else 24
  }

  ghost predicate AllOn(grid: Grid, day: int, from: int, to: int) {
    forall h :: from <= h < to ==> Cell(grid, day, h)
  }

  /** The window is a run of active hours that cannot be made longer within its day. */
  ghost predicate MaximalRun(grid: Grid, w: ScheduleWindow) {
    && 0 <= w.dayOfWeek < 7 && w.startMin == 0 && 0 <= w.startHour < EndOfRun(w)
    && ((w.endMin == 0 && w.endHour < 24) || (w.endHour == 23 && w.endMin == 59))
    && AllOn(grid, w.dayOfWeek, w.startHour, EndOfRun(w))
    && (w.startHour == 0 || !Cell(grid, w.dayOfWeek, w.startHour - 1))
    && (EndOfRun(w) == 24 || !Cell(grid, w.dayOfWeek, EndOfRun(w)))
  }

  ghost predicate InRun(w: ScheduleWindow, day: int, hour: int) {
    w.dayOfWeek == day && w.startHour <= hour < EndOfRun(w)
  }

  ghost predicate Listed(windows: seq<ScheduleWindow>, day: int, hour: int) {
    exists w :: w in windows && InRun(w, day, hour)
  }

  /** Where a window starts, in hours of the week. */
  function StartHour(w: ScheduleWindow): int {
    24 * w.dayOfWeek + w.startHour
  }

  ghost predicate InOrder(windows: seq<ScheduleWindow>) {
    forall i, j :: 0 <= i < j < |windows| ==> StartHour(windows[i]) < StartHour(windows[j])
  }

  /** `windows` are the runs that start in the first `n` hours of the week, in order, and hold every active hour
    * there. */
  ghost predicate RunsUpTo(grid: Grid, windows: seq<ScheduleWindow>, n: int) {
    && (forall w :: w in windows ==> MaximalRun(grid, w) && StartHour(w) < n)
    && InOrder(windows)
    && (forall d, h :: 0 <= d < 7 && 0 <= h < 24 && Cell(grid, d, h) && 24 * d + h < n ==> Listed(windows, d, h))
  }

  /** The consolidated windows of a grid: its maximal runs, in order, with each active hour in one of them. */
  ghost predicate Consolidated(grid: Grid, windows: seq<ScheduleWindow>) {
    RunsUpTo(grid, windows, 168)
  }

  lemma SkipHour(grid: Grid, windows: seq<ScheduleWindow>, day: int, hour: int)
    requires 0 <= day < 7 && 0 <= hour < 24 && !Cell(grid, day, hour) && RunsUpTo(grid, windows, 24 * day + hour)
    ensures RunsUpTo(grid, windows, 24 * day + hour + 1)
  {
  }

  lemma AppendRun(grid: Grid, windows: seq<ScheduleWindow>, w: ScheduleWindow)
    requires MaximalRun(grid, w) && RunsUpTo(grid, windows, StartHour(w))
    ensures RunsUpTo(grid, windows + [w], 24 * w.dayOfWeek + EndOfRun(w))
  {
    var longer, n := windows + [w], 24 * w.dayOfWeek + EndOfRun(w);
    forall d, h | 0 <= d < 7 && 0 <= h < 24 && Cell(grid, d, h) && 24 * d + h < n ensures Listed(longer, d, h) {
      if 24 * d + h < StartHour(w) {
        var v :| v in windows && InRun(v, d, h);
        assert v in longer;
      } else {
        assert w in longer && InRun(w, d, h);
      }
    }
  }

  /** The windows are the maximal runs, and an hour lies whole in one of them exactly when its cell is there and on. */
  method GridToWindows(grid: Grid) returns (windows: seq<ScheduleWindow>)
    ensures Consolidated(grid, windows)
    ensures forall d, h :: 0 <= d < 7 && 0 <= h < 24 ==>
              (d < |grid| && h < |grid[d]| && grid[d][h] <==>
               exists w :: && w in windows && w.dayOfWeek == d
                           && 60 * w.startHour + w.startMin <= 60 * h && 60 * h + 59 <= 60 * w.endHour + w.endMin)
  {
    hide MaximalRun, RunsUpTo, AllOn, Consolidated;
    windows := RunsOfWeek(grid);
    forall d, h | 0 <= d < 7 && 0 <= h < 24 {
      HourInRun(grid, windows, d, h);
    }
  }

  lemma HourInRun(grid: Grid, windows: seq<ScheduleWindow>, d: int, h: int)
    requires Consolidated(grid, windows) && 0 <= d < 7 && 0 <= h < 24
    ensures d < |grid| && h < |grid[d]| && grid[d][h] <==>
            exists w :: && w in windows && w.dayOfWeek == d
                        && 60 * w.startHour + w.startMin <= 60 * h && 60 * h + 59 <= 60 * w.endHour + w.endMin
  {
    if Cell(grid, d, h) {
      var w :| w in windows && InRun(w, d, h);
      assert MaximalRun(grid, w);
    }
    if w :| && w in windows && w.dayOfWeek == d
            && 60 * w.startHour + w.startMin <= 60 * h && 60 * h + 59 <= 60 * w.endHour + w.endMin {
      assert MaximalRun(grid, w);
      assert w.startHour <= h < EndOfRun(w);
    }
  }

  /** The outer loop, over the days. */
  method RunsOfWeek(grid: Grid) returns (windows: seq<ScheduleWindow>)
    ensures Consolidated(grid, windows)
  {
    hide MaximalRun, RunsUpTo, AllOn;
    windows := [];
    NoRuns(grid);
    for day := 0 to 7
      invariant RunsUpTo(grid, windows, 24 * day)
    {
      windows := AddDay(grid, windows, day);
    }
  }

  lemma NoRuns(grid: Grid)
    ensures RunsUpTo(grid, [], 0)
  {
  }

  /** The inner loop over the hours of one day. */
  method AddDay(grid: Grid, before: seq<ScheduleWindow>, day: int) returns (windows: seq<ScheduleWindow>)
    requires 0 <= day < 7 && RunsUpTo(grid, before, 24 * day)
    ensures RunsUpTo(grid, windows, 24 * day + 24)
  {
    hide RunsUpTo, Cell;
    windows := before;
    var windowStart: Option<int> := None;
    for hour := 0 to 24
      invariant windowStart.None? ==>
          RunsUpTo(grid, windows, 24 * day + hour) && (hour == 0 || !Cell(grid, day, hour - 1))
      invariant windowStart.Some? ==>
          var start := windowStart.value;
          && 0 <= start < hour && RunsUpTo(grid, windows, 24 * day + start) && AllOn(grid, day, start, hour)
          && (start == 0 || !Cell(grid, day, start - 1))
    {
      var active := Cell(grid, day, hour);
      if active && windowStart.None? {
        windowStart := Some(hour);
      } else if !active && windowStart.Some? {
        var w := ScheduleWindow(day, windowStart.value, 0, hour, 0);
        AppendRun(grid, windows, w);
        windows := windows + [w];
        windowStart := None;
        SkipHour(grid, windows, day, hour);
      } else if !active {
        SkipHour(grid, windows, day, hour);
      }
    }
    if windowStart.Some? {
      var w := ScheduleWindow(day, windowStart.value, 0, 23, 59);
      AppendRun(grid, windows, w);
      windows := windows + [w];
    }
  }

  // ---------------------------------------------------------------------
  // From windows to the grid
  // ---------------------------------------------------------------------

  function Clamp23(hour: int): int {
    if hour < 0 then 0 else if hour > 23 then 23 else hour
  }

  function LastHour(w: ScheduleWindow): int {
    if w.endMin > 0 then (if w.endHour < 23 then w.endHour else 23) else Clamp23(w.endHour - 1)
  }

  /** The cells one window fills; a window of no day of the week fills none. */
  ghost predicate Fills(w: ScheduleWindow, day: int, hour: int) {
    w.dayOfWeek == day && Clamp23(w.startHour) <= hour <= LastHour(w)
  }

  ghost predicate Filled(windows: seq<ScheduleWindow>, day: int, hour: int) {
    exists w :: w in windows && Fills(w, day, hour)
  }

  lemma FilledByOneMore(windows: seq<ScheduleWindow>, w: ScheduleWindow, day: int, hour: int)
    ensures Filled(windows + [w], day, hour) <==> Filled(windows, day, hour) || Fills(w, day, hour)
  {
    hide Fills;
    var more := windows + [w];
    assert w in more && forall v :: v in windows ==> v in more;
  }

  ghost predicate InGrid(day: int, hour: int) {
    0 <= day < 7 && 0 <= hour < 24
  }

  /** The inner loop: set the window's cells. */
  method FillRow(grid: array2<bool>, win: ScheduleWindow)
    requires grid.Length0 == 7 && grid.Length1 == 24 && 0 <= win.dayOfWeek < 7
    modifies grid
    ensures forall d, h :: InGrid(d, h) ==> (grid[d, h] <==> old(grid[d, h]) || Fills(win, d, h))
  {
    var startH, endH := Clamp23(win.startHour), LastHour(win);
    var h := startH;
    while h <= endH
      invariant startH <= h
      invariant forall d, k :: InGrid(d, k) ==> (grid[d, k] <==> old(grid[d, k]) || (Fills(win, d, k) && k < h))
    {
      grid[win.dayOfWeek, h] := true;
      h := h + 1;
    }
  }

  method WindowsToGrid(windows: seq<ScheduleWindow>) returns (grid: array2<bool>)
    ensures fresh(grid) && grid.Length0 == 7 && grid.Length1 == 24
    ensures forall d, h :: InGrid(d, h) ==> (grid[d, h] <==> Filled(windows, d, h))
    ensures forall d, h :: 0 <= d < 7 && 0 <= h < 24 ==>
              (grid[d, h] <==>
               exists w :: && w in windows && w.dayOfWeek == d && (w.startHour <= h || h == 23)
                           && (if w.endMin > 0 then h <= w.endHour else h < w.endHour || h == 0))
  {
    grid := new bool[7, 24]((_, _) => false);
    for i := 0 to |windows|
      invariant forall d, h :: InGrid(d, h) ==> (grid[d, h] <==> Filled(windows[..i], d, h))
    {
      var win := windows[i];
      ghost var before := windows[..i];
      assert windows[..i + 1] == before + [win];
      forall d, h | InGrid(d, h)
        ensures Filled(windows[..i + 1], d, h) <==> Filled(before, d, h) || Fills(win, d, h)
      {
        FilledByOneMore(before, win, d, h);
      }
      if win.dayOfWeek < 0 || win.dayOfWeek > 6 {
        continue;
      }
      FillRow(grid, win);
    }
    assert windows[..|windows|] == windows;
  }

  // ---------------------------------------------------------------------
  // There and back
  // ---------------------------------------------------------------------

  /** windowsToGrid(gridToWindows(grid)) is the grid. */
  lemma GridRoundTrip(grid: Grid, windows: seq<ScheduleWindow>, day: int, hour: int)
    requires Consolidated(grid, windows) && InGrid(day, hour)
    ensures Filled(windows, day, hour) <==> day < |grid| && hour < |grid[day]| && grid[day][hour]
  {
    if Filled(windows, day, hour) {
      var w :| w in windows && Fills(w, day, hour);
      assert MaximalRun(grid, w) && InRun(w, day, hour);
    }
    if Cell(grid, day, hour) {
      assert Listed(windows, day, hour);
      var w :| w in windows && InRun(w, day, hour);
      assert MaximalRun(grid, w) && Fills(w, day, hour);
    }
  }

  lemma RunCovers(grid: Grid, w: ScheduleWindow, day: int, mins: int)
    requires MaximalRun(grid, w) && 0 <= day < 7 && 0 <= mins < DAY
    ensures w.Valid()
    ensures Covers(w, day, mins) <==> InRun(w, day, mins / 60) && mins != DAY - 1
  {
    hide Covers, AllOn, Cell;
    CoversByDay(w, day, mins);
  }

  /** The scheduler follows the windows of a grid hour for hour, except that it is always off at 23:59. */
  lemma SchedulerFollowsGrid(grid: Grid, windows: seq<ScheduleWindow>, day: int, mins: int)
    requires Consolidated(grid, windows) && 0 <= day < 7 && 0 <= mins < DAY
    ensures AllValid(windows)
    ensures ActiveAt(SCHEDULED, windows, day, mins) <==>
              day < |grid| && mins / 60 < |grid[day]| && grid[day][mins / 60] && mins != 1439
  {
    hide Covers, MaximalRun;
    forall w | w in windows ensures w.Valid() {
      RunCovers(grid, w, day, mins);
    }
    if Covered(windows, day, mins) {
      var w :| w in windows && Covers(w, day, mins);
      RunCovers(grid, w, day, mins);
      RunIsOn(grid, w, mins / 60);
    }
    if Cell(grid, day, mins / 60) && mins != DAY - 1 {
      assert Listed(windows, day, mins / 60);
      var w :| w in windows && InRun(w, day, mins / 60);
      RunCovers(grid, w, day, mins);
    }
  }

  lemma RunIsOn(grid: Grid, w: ScheduleWindow, hour: int)
    requires MaximalRun(grid, w) && InRun(w, w.dayOfWeek, hour)
    ensures Cell(grid, w.dayOfWeek, hour)
  {
  }

  // ---------------------------------------------------------------------
  // What the grid shows of any window
  // ---------------------------------------------------------------------

  ghost predicate ActiveInHour(w: ScheduleWindow, day: int, hour: int) {
    exists mins :: 60 * hour <= mins < 60 * hour + 60 && Covers(w, day, mins)
  }

  ghost predicate ShownAsActive(w: ScheduleWindow) {
    forall d, h :: InGrid(d, h) ==> (Fills(w, d, h) <==> ActiveInHour(w, d, h))
  }

  lemma DaytimeIsShown(w: ScheduleWindow, day: int, hour: int)
    requires w.Valid() && w.StartMins() < w.EndMins() && InGrid(day, hour)
    ensures Fills(w, day, hour) <==> ActiveInHour(w, day, hour)
  {
    hide Covers;
    if Fills(w, day, hour) {
      var mins := if w.StartMins() < 60 * hour then 60 * hour else w.StartMins();
      CoversByDay(w, day, mins);
    }
    if ActiveInHour(w, day, hour) {
      var mins :| 60 * hour <= mins < 60 * hour + 60 && Covers(w, day, mins);
      CoversByDay(w, day, mins);
    }
  }

  lemma EmptyIsNeverActive(w: ScheduleWindow, day: int, hour: int)
    requires w.Valid() && w.StartMins() == w.EndMins()
    ensures !ActiveInHour(w, day, hour)
  {
  }

  lemma OvernightIsNotShown(w: ScheduleWindow)
    requires w.Valid() && w.EndMins() < w.StartMins()
    ensures !ShownAsActive(w)
  {
    hide Covers;
    var day, next := w.dayOfWeek, (w.dayOfWeek + 1) % 7;
    CoversByDay(w, day, DAY - 1);
    assert ActiveInHour(w, day, 23) && InGrid(day, 23);
    if Fills(w, day, 23) {
      CoversByDay(w, next, 0);
      assert ActiveInHour(w, next, 0) && InGrid(next, 0) && !Fills(w, next, 0);
    }
  }

  /** The grid fills exactly the hours in which a window is active, unless the window runs overnight
    * or is empty but not of whole hours (or at midnight). */
  lemma GridShowsWindowIff(w: ScheduleWindow)
    requires w.Valid()
    ensures ShownAsActive(w) <==>
      w.StartMins() < w.EndMins() || (w.StartMins() == w.EndMins() && w.endMin == 0 && w.endHour > 0)
  {
    hide Covers, ActiveInHour;
    if w.StartMins() < w.EndMins() {
      forall d, h | InGrid(d, h) ensures Fills(w, d, h) <==> ActiveInHour(w, d, h) {
        DaytimeIsShown(w, d, h);
      }
    } else if w.EndMins() < w.StartMins() {
      OvernightIsNotShown(w);
    } else {
      forall d, h | InGrid(d, h) ensures !ActiveInHour(w, d, h) {
        EmptyIsNeverActive(w, d, h);
      }
      assert InGrid(w.dayOfWeek, w.startHour);
    }
  }
}
