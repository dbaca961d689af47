/** When a row of the hour model was last active, and what is noted of its series
    (`hourModel` in frontend/src/user-traffic-realtime.tsx). */
module HourActivity {
  import opened Wrappers
  import opened Intervals
  import opened HourModel

  /** The window carried bytes outside confirmed downtime. */
  predicate Carried(w: Window, zeros: seq<Interval>) {
    w.end > w.start && w.up + w.down > 0.0 && Overlap(w.start, w.end, Active(w.start, w.end, zeros)) > 0.0
  }

  function Millis(w: Window): real { Max(0.0, w.end * 1000.0) }

  function Carrying(windows: seq<Window>, zeros: seq<Interval>): seq<Window> {
    if windows == [] then []
    else
      var rest, last := Carrying(windows[..|windows| - 1], zeros), windows[|windows| - 1];
      if Carried(last, zeros) then rest + [last] else rest
  }

  lemma {:induction false} CarryingAre(windows: seq<Window>, zeros: seq<Interval>)
    ensures forall w :: w in Carrying(windows, zeros) <==> w in windows && Carried(w, zeros)
  {
    if windows != [] {
      CarryingAre(windows[..|windows| - 1], zeros);
      assert windows == windows[..|windows| - 1] + [windows[|windows| - 1]];
    }
  }

  /** The latest of these ends, if it is later. */
  function LatestEnd(at: Option<real>, windows: seq<Window>): Option<real> {
    if windows == [] then at
    else
      var before := LatestEnd(at, windows[..|windows| - 1]);
      Some(Max(if before.Some? then before.value else 0.0, windows[|windows| - 1].end * 1000.0))
  }

  /** `now` is the latest of `before` and the ends of these windows. */
  ghost predicate Latest(before: Option<real>, windows: seq<Window>, now: Option<real>) {
    && (before.Some? ==> now.Some? && now.value >= before.value)
    && (forall w | w in windows :: now.Some? && now.value >= Millis(w))
    && (now == before || exists w :: w in windows && now == Some(Millis(w)))
  }

  lemma {:induction false} LatestEndIsLatest(at: Option<real>, windows: seq<Window>)
    requires at.Some? ==> at.value >= 0.0
    ensures Latest(at, windows, LatestEnd(at, windows))
    ensures LatestEnd(at, windows).Some? ==> LatestEnd(at, windows).value >= 0.0
  {
    if windows != [] {
      var front, last := windows[..|windows| - 1], windows[|windows| - 1];
      LatestEndIsLatest(at, front);
      assert windows == front + [last];
      LatestStep(at, front, LatestEnd(at, front), last);
    }
  }

  lemma LatestStep(before: Option<real>, front: seq<Window>, now: Option<real>, last: Window)
    requires Latest(before, front, now) && (now.Some? ==> now.value >= 0.0)
    ensures Latest(before, front + [last], Some(Max(if now.Some? then now.value else 0.0, last.end * 1000.0)))
  {
    var windows := front + [last];
    assert forall w :: w in windows <==> w in front || w == last;
    assert last in windows;
  }

  lemma OneWindow(h: History, row: HourRow, w: Window, zeros: seq<Interval>)
    requires h.rangeStart < h.rangeEnd && Fits(h, row)
    ensures var after := AddWindow(h, row, w, zeros);
            && after.lastActiveMs == (if Carried(w, zeros) then LatestEnd(row.lastActiveMs, [w]) else row.lastActiveMs)
            && after.unplaced == row.unplaced && after.forwarding == row.forwarding
  {
    assert [w][..0] == [];
  }

  lemma LatestSnoc(at: Option<real>, front: seq<Window>, last: Window)
    ensures LatestEnd(at, front + [last]) == LatestEnd(LatestEnd(at, front), [last])
  {
    assert (front + [last])[..|front|] == front && [last][..0] == [];
  }

  lemma {:induction false} WindowsLatest(h: History, row: HourRow, windows: seq<Window>, zeros: seq<Interval>)
    requires h.rangeStart < h.rangeEnd && Fits(h, row)
    ensures var after := AddWindows(h, row, windows, zeros);
            && after.lastActiveMs == LatestEnd(row.lastActiveMs, Carrying(windows, zeros))
            && after.unplaced == row.unplaced && after.forwarding == row.forwarding
  {
    if windows != [] {
      var front, last := windows[..|windows| - 1], windows[|windows| - 1];
      WindowsLatest(h, row, front, zeros);
      OneWindow(h, AddWindows(h, row, front, zeros), last, zeros);
      LatestSnoc(row.lastActiveMs, Carrying(front, zeros), last);
    }
  }

  /** A window of some series of the row. */
  ghost predicate OfRow(series: seq<Series>, key: string, w: Window) {
    exists s :: s in series && s.nodeId == key && w in SeriesWindows(s)
  }

  /** A row was last active at the end of the latest window in which it carried bytes outside confirmed
      downtime, and never if there was none. */
  lemma {:induction false} LastActiveIsLatest(h: History, series: seq<Series>, key: string)
    requires h.rangeStart < h.rangeEnd
    ensures var at := RowOf(h, series, key).lastActiveMs;
            && (forall w | OfRow(series, key, w) && Carried(w, Zeros(h, key)) :: at.Some? && at.value >= Millis(w))
            && (at.Some? ==> exists w :: OfRow(series, key, w) && Carried(w, Zeros(h, key)) && at.value == Millis(w))
  {
    if series != [] {
      var front, last := series[..|series| - 1], series[|series| - 1];
      assert series == front + [last];
      LastActiveIsLatest(h, front, key);
      var before := RowOf(h, front, key);
      if last.nodeId == key {
        WindowsLatest(h, Noted(before, last), SeriesWindows(last), Zeros(h, key));
        LatestEndIsLatest(before.lastActiveMs, Carrying(SeriesWindows(last), Zeros(h, key)));
        CarryingAre(SeriesWindows(last), Zeros(h, key));
      }
      forall w ensures OfRow(series, key, w) <==> OfRow(front, key, w) || (last.nodeId == key && w in SeriesWindows(last)) {
        OfRowSplits(front, last, key, w);
      }
    }
  }

  lemma OfRowSplits(front: seq<Series>, last: Series, key: string, w: Window)
    ensures OfRow(front + [last], key, w) <==> OfRow(front, key, w) || (last.nodeId == key && w in SeriesWindows(last))
  {
    if last.nodeId == key && w in SeriesWindows(last) { assert last in front + [last]; }
    if s :| s in front && s.nodeId == key && w in SeriesWindows(s) { assert s in front + [last]; }
  }

  /** A row is marked forwarding, or as having unplaced bytes, exactly when one of its series is. */
  lemma {:induction false} MarksAreNoted(h: History, series: seq<Series>, key: string)
    requires h.rangeStart < h.rangeEnd
    ensures RowOf(h, series, key).forwarding <==> exists s :: s in series && s.nodeId == key && s.forwarding
    ensures RowOf(h, series, key).unplaced <==>
            exists s :: s in series && s.nodeId == key && s.unplacedUp + s.unplacedDown > 0.0
  {
    if series != [] {
      var front, last := series[..|series| - 1], series[|series| - 1];
      MarksAreNoted(h, front, key);
      LastActiveIsLatest(h, front, key);
      assert series == front + [last];
      assert forall s :: s in series <==> s in front || s == last;
      if last.nodeId == key { WindowsLatest(h, Noted(RowOf(h, front, key), last), SeriesWindows(last), Zeros(h, key)); }
    }
  }
}
