/** Resampling measured windows onto 30-second slots
  (`hourModel` in frontend/src/user-traffic-realtime.tsx), over exact reals. */
module HourModel {
  import opened Wrappers
  import opened Intervals

  datatype Window = Window(start: real, end: real, up: real, down: real)

  datatype Node = Node(
    id: string,
    windows: Option<seq<Interval>>,
    forwardingWindows: seq<Interval>,
    zeroMillis: seq<Interval>)

  /** `windows` are the measured ones; when absent, each point stands for the slot it ends. */
  datatype Series = Series(
    nodeId: string,
    forwarding: bool,
    windows: Option<seq<Window>>,
    points: seq<(real, real, real)>,
    unplacedUp: real,
    unplacedDown: real)

  datatype History = History(rangeStart: real, rangeEnd: real, nodes: seq<Node>, series: seq<Series>)

  datatype HourRow = HourRow(
    up: seq<Option<real>>,
    down: seq<Option<real>>,
    hourUp: real,
    hourDown: real,
    lastActiveMs: Option<real>,
    unplaced: bool,
    forwarding: bool)

  const SLOT_SECS := 30.0
  const TOLERANCE := 0.001

  /** A range the console sends: not empty, and some node reports measured windows (otherwise
      the older model applies). */
  ghost predicate Measured(h: History) {
    h.rangeStart < h.rangeEnd && exists n :: n in h.nodes && n.windows.Some?
  }

  // ----- slots

  function SlotOf(secs: real): real { (secs / SLOT_SECS).Floor as real * SLOT_SECS }

  function SlotCount(h: History): nat
    requires h.rangeStart < h.rangeEnd
  {
    SlotsReach(h.rangeStart, h.rangeEnd);
    -((-(h.rangeEnd - SlotOf(h.rangeStart)) / SLOT_SECS).Floor)
  }

  function Slot(h: History, i: int): real { SlotOf(h.rangeStart) + i as real * SLOT_SECS }

  /** The visible part of slot `i`. */
  function Bound(h: History, i: int): Interval {
    Interval(Max(Slot(h, i), h.rangeStart), Min(Slot(h, i) + SLOT_SECS, h.rangeEnd))
  }

  lemma SlotsReach(start: real, end: real)
    requires start < end
    ensures SlotOf(start) <= start < SlotOf(start) + SLOT_SECS
    ensures var count := -((-(end - SlotOf(start)) / SLOT_SECS).Floor);
            count >= 1 && SlotOf(start) + (count - 1) as real * SLOT_SECS < end
            && end <= SlotOf(start) + count as real * SLOT_SECS
  {
    var q := start / SLOT_SECS;
    assert q.Floor as real <= q < q.Floor as real + 1.0;
    assert q * SLOT_SECS == start;
    var width := end - SlotOf(start);
    var p := -width / SLOT_SECS;
    assert p * SLOT_SECS == -width;
    assert p.Floor as real <= p < p.Floor as real + 1.0;
  }

  /** The visible slots tile the range: each has width, and each starts where the last ended. */
  lemma SlotsTile(h: History, i: nat)
    requires h.rangeStart < h.rangeEnd && i < SlotCount(h)
    ensures Bound(h, i).lo < Bound(h, i).hi
    ensures i == 0 ==> Bound(h, i).lo == h.rangeStart
    ensures i == SlotCount(h) - 1 ==> Bound(h, i).hi == h.rangeEnd
    ensures i + 1 < SlotCount(h) ==> Bound(h, i).hi == Bound(h, i + 1).lo
  {
    SlotsReach(h.rangeStart, h.rangeEnd);
    var n := SlotCount(h);
    assert Slot(h, i) <= Slot(h, n - 1);
    assert i > 0 ==> Slot(h, i) >= SlotOf(h.rangeStart) + SLOT_SECS;
    if i + 1 < n {
      assert Slot(h, i + 1) == Slot(h, i) + SLOT_SECS;
      assert Slot(h, i + 1) <= Slot(h, n - 1);
    }
  }

  function Bounds(h: History): (bounds: seq<Interval>)
    requires h.rangeStart < h.rangeEnd
  {
    seq(SlotCount(h), i requires 0 <= i < SlotCount(h) => Bound(h, i))
  }

  /** Consecutive slots that tile a range. */
  ghost predicate Tiles(bounds: seq<Interval>, start: real, end: real) {
    && bounds != [] && bounds[0].lo == start && bounds[|bounds| - 1].hi == end
    && (forall i | 0 <= i < |bounds| :: bounds[i].lo < bounds[i].hi)
    && (forall i | 0 <= i < |bounds| - 1 :: bounds[i].hi == bounds[i + 1].lo)
  }

  lemma BoundsTile(h: History)
    requires h.rangeStart < h.rangeEnd
    ensures Tiles(Bounds(h), h.rangeStart, h.rangeEnd)
  {
    SlotsReach(h.rangeStart, h.rangeEnd);
    SlotsTile(h, 0);
    SlotsTile(h, SlotCount(h) - 1);
    forall i | 0 <= i < SlotCount(h)
      ensures Bound(h, i).lo < Bound(h, i).hi
      ensures i + 1 < SlotCount(h) ==> Bound(h, i).hi == Bound(h, i + 1).lo
    {
      SlotsTile(h, i);
    }
  }

  /** Overlap summed over slots. */
  function SlotOverlaps(bounds: seq<Interval>, xs: seq<Interval>): real {
    if bounds == [] then 0.0
    else
      var last := bounds[|bounds| - 1];
      SlotOverlaps(bounds[..|bounds| - 1], xs) + Overlap(last.lo, last.hi, xs)
  }

  /** The slots together see exactly what the range sees. */
  lemma {:induction false} SlotsPartition(bounds: seq<Interval>, start: real, end: real, xs: seq<Interval>)
    requires Tiles(bounds, start, end)
    ensures SlotOverlaps(bounds, xs) == Overlap(start, end, xs) && start < end
  {
    var front, last := bounds[..|bounds| - 1], bounds[|bounds| - 1];
    if front == [] {
      assert SlotOverlaps(front, xs) == 0.0;
    } else {
      assert Tiles(front, start, last.lo);
      SlotsPartition(front, start, last.lo, xs);
      OverlapSplits(start, last.lo, end, xs);
    }
  }

  // ----- which time a row was measured in

  function NodeOf(nodes: seq<Node>, id: string): Option<Node> {
    if nodes == [] then None
    else if nodes[|nodes| - 1].id == id then Some(nodes[|nodes| - 1])
    else NodeOf(nodes[..|nodes| - 1], id)
  }

  function InSeconds(xs: seq<Interval>): seq<Interval> {
    seq(|xs|, i requires 0 <= i < |xs| => Interval(xs[i].lo / 1000.0, xs[i].hi / 1000.0))
  }

  /** Confirmed downtime of a node, merged. */
  function Zeros(h: History, id: string): seq<Interval> {
    match NodeOf(h.nodes, id)
    case None => []
    case Some(node) => Merged(InSeconds(node.zeroMillis))
  }

  function WindowsOf(node: Node): seq<Interval> {
    match node.windows case None => [] case Some(w) => w
  }

  /** What a node was watched for, whatever it served. */
  function Collected(h: History, id: string): seq<Interval> {
    match NodeOf(h.nodes, id)
    case None => []
    case Some(node) => Merged(WindowsOf(node) + node.forwardingWindows + Zeros(h, id))
  }

  predicate HasAccess(series: seq<Series>, key: string) {
    exists i :: 0 <= i < |series| && series[i].nodeId == key && !series[i].forwarding
  }

  predicate HasForwarding(series: seq<Series>, key: string) {
    exists i :: 0 <= i < |series| && series[i].nodeId == key && series[i].forwarding
  }

  predicate HasSeries(series: seq<Series>, key: string) {
    exists i :: 0 <= i < |series| && series[i].nodeId == key
  }

  /** What one node record contributes to the measured time of its row: both kinds of series must
      have been watched where both are reported. */
  function NodeMeasured(h: History, node: Node, key: string): seq<Interval> {
    var access := Merged(WindowsOf(node) + Zeros(h, node.id));
    var forwarding := Merged(node.forwardingWindows + Zeros(h, node.id));
    if HasAccess(h.series, key) && HasForwarding(h.series, key) then Intersect(access, forwarding)
    else if HasForwarding(h.series, key) then forwarding
    else access
  }

  function NodesMeasured(h: History, nodes: seq<Node>, key: string): seq<Interval> {
    if nodes == [] then []
    else
      var last := nodes[|nodes| - 1];
      NodesMeasured(h, nodes[..|nodes| - 1], key) + (if last.id == key then NodeMeasured(h, last, key) else [])
  }

  function RowMeasured(h: History, key: string): seq<Interval> {
    if HasSeries(h.series, key) then Merged(NodesMeasured(h, h.nodes, key)) else Collected(h, key)
  }

  /** The slot was watched throughout, up to a millisecond. */
  predicate Watched(bound: Interval, measured: seq<Interval>) {
    Overlap(bound.lo, bound.hi, measured) >= bound.hi - bound.lo - TOLERANCE
  }

  // ----- rows

  function Blank(bounds: seq<Interval>, measured: seq<Interval>): seq<Option<real>> {
    seq(|bounds|, i requires 0 <= i < |bounds| => if Watched(bounds[i], measured) then Some(0.0) else None)
  }

  function BlankRow(h: History, key: string): HourRow
    requires h.rangeStart < h.rangeEnd
  {
    var blank := Blank(Bounds(h), RowMeasured(h, key));
    HourRow(blank, blank, 0.0, 0.0, None, false, false)
  }

  /** A share of some bytes in a slot of this width, as bytes per 30 seconds; and back. */
  function PerSlot(bytes: real, width: real): real
    requires width > 0.0
  {
    bytes * SLOT_SECS / width
  }

  function FromSlot(value: real, width: real): real { value * width / SLOT_SECS }

  lemma ScaleBack(value: real, bytes: real, width: real)
    requires width > 0.0
    ensures FromSlot(value + PerSlot(bytes, width), width) == FromSlot(value, width) + bytes
  {
    var more := PerSlot(bytes, width);
    assert more * width == bytes * SLOT_SECS;
    assert (value + more) * width == value * width + more * width;
  }

  /** Seconds' share of a window's bytes. */
  function Share(bytes: real, seconds: real, duration: real): real
    requires duration > 0.0
  {
    bytes * (seconds / duration)
  }

  /** What a window of these bytes adds to one slot. */
  function Weighted(bound: Interval, bytes: real, active: seq<Interval>, duration: real): real
    requires duration > 0.0 && bound.lo < bound.hi
  {
    PerSlot(Share(bytes, Overlap(bound.lo, bound.hi, active), duration), bound.hi - bound.lo)
  }

  ghost predicate Wide(bounds: seq<Interval>) {
    forall i | 0 <= i < |bounds| :: bounds[i].lo < bounds[i].hi
  }

  function Spread(bounds: seq<Interval>, values: seq<Option<real>>, bytes: real, active: seq<Interval>,
                  duration: real): seq<Option<real>>
    requires duration > 0.0 && |values| == |bounds| && Wide(bounds)
  {
    seq(|values|, i requires 0 <= i < |values| =>
      if values[i].Some? then Some(values[i].value + Weighted(bounds[i], bytes, active, duration)) else None)
  }

  ghost predicate Fits(h: History, row: HourRow)
    requires h.rangeStart < h.rangeEnd
  {
    |row.up| == |row.down| == |Bounds(h)|
  }

  /** A window's bytes, spread over its active time. */
  function AddActive(h: History, row: HourRow, w: Window, active: seq<Interval>, duration: real): (after: HourRow)
    requires h.rangeStart < h.rangeEnd && Fits(h, row)
    ensures Fits(h, after)
  {
    if duration <= 0.0 then row
    else
      var visible := Overlap(h.rangeStart, h.rangeEnd, active);
      BoundsTile(h);
      HourRow(
        Spread(Bounds(h), row.up, w.up, active, duration), Spread(Bounds(h), row.down, w.down, active, duration),
        row.hourUp + Share(w.up, visible, duration), row.hourDown + Share(w.down, visible, duration),
        if w.up + w.down > 0.0
        then Some(Max(if row.lastActiveMs.Some? then row.lastActiveMs.value else 0.0, w.end * 1000.0))
        else row.lastActiveMs,
        row.unplaced, row.forwarding)
  }

  function AddWindow(h: History, row: HourRow, w: Window, zeros: seq<Interval>): (after: HourRow)
    requires h.rangeStart < h.rangeEnd && Fits(h, row)
    ensures Fits(h, after)
  {
    if w.end <= w.start then row
    else
      var active := Active(w.start, w.end, zeros);
      AddActive(h, row, w, active, Overlap(w.start, w.end, active))
  }

  function AddWindows(h: History, row: HourRow, windows: seq<Window>, zeros: seq<Interval>): (after: HourRow)
    requires h.rangeStart < h.rangeEnd && Fits(h, row)
    ensures Fits(h, after)
  {
    if windows == [] then row
    else AddWindow(h, AddWindows(h, row, windows[..|windows| - 1], zeros), windows[|windows| - 1], zeros)
  }

  function PointWindows(points: seq<(real, real, real)>): seq<Window> {
    seq(|points|, i requires 0 <= i < |points| =>
      Window(points[i].0 - SLOT_SECS, points[i].0, points[i].1, points[i].2))
  }

  function SeriesWindows(s: Series): seq<Window> {
    match s.windows
    case Some(w) => w
    case None => PointWindows(s.points)
  }

  function Noted(row: HourRow, s: Series): HourRow {
    row.(forwarding := row.forwarding || s.forwarding,
         hourUp := row.hourUp + s.unplacedUp, hourDown := row.hourDown + s.unplacedDown,
         unplaced := row.unplaced || s.unplacedUp + s.unplacedDown > 0.0)
  }

  function AddSeries(h: History, row: HourRow, s: Series): (after: HourRow)
    requires h.rangeStart < h.rangeEnd && Fits(h, row)
    ensures Fits(h, after)
  {
    AddWindows(h, Noted(row, s), SeriesWindows(s), Zeros(h, s.nodeId))
  }

  /** The row of `key` after some of the series. */
  function RowOf(h: History, series: seq<Series>, key: string): (row: HourRow)
    requires h.rangeStart < h.rangeEnd
    ensures Fits(h, row)
  {
    if series == [] then BlankRow(h, key)
    else
      var row, last := RowOf(h, series[..|series| - 1], key), series[|series| - 1];
      if last.nodeId == key then AddSeries(h, row, last) else row
  }

  // ----- conservation of bytes

  /** Which slots a row shows at all. */
  function Mask(h: History, key: string): seq<bool>
    requires h.rangeStart < h.rangeEnd
  {
    var bounds, measured := Bounds(h), RowMeasured(h, key);
    seq(|bounds|, i requires 0 <= i < |bounds| => Watched(bounds[i], measured))
  }

  ghost predicate Masked(values: seq<Option<real>>, mask: seq<bool>) {
    |values| == |mask| && forall i | 0 <= i < |values| :: values[i].Some? <==> mask[i]
  }

  function SlotBytes(bound: Interval, value: Option<real>): real {
    if value.Some? then FromSlot(value.value, bound.hi - bound.lo) else 0.0
  }

  function Sum(xs: seq<real>): real {
    if xs == [] then 0.0 else Sum(xs[..|xs| - 1]) + xs[|xs| - 1]
  }

  function Amounts(bounds: seq<Interval>, values: seq<Option<real>>): seq<real>
    requires |values| == |bounds|
  {
    seq(|values|, i requires 0 <= i < |values| => SlotBytes(bounds[i], values[i]))
  }

  /** Bytes a row shows: every slot's value scaled back by its visible width. */
  function Shown(bounds: seq<Interval>, values: seq<Option<real>>): real
    requires |values| == |bounds|
  {
    Sum(Amounts(bounds, values))
  }

  /** Active seconds in slots that are shown, or that are not. */
  function SecondsIn(bounds: seq<Interval>, mask: seq<bool>, shown: bool, active: seq<Interval>): (seconds: real)
    requires |mask| == |bounds|
    ensures seconds >= 0.0
  {
    if mask == [] then 0.0
    else
      var n := |mask| - 1;
      SecondsIn(bounds[..n], mask[..n], shown, active) +
      (if mask[n] == shown then Overlap(bounds[n].lo, bounds[n].hi, active) else 0.0)
  }

  lemma {:induction false} SecondsSplit(bounds: seq<Interval>, mask: seq<bool>, active: seq<Interval>)
    requires |mask| == |bounds|
    ensures SecondsIn(bounds, mask, true, active) + SecondsIn(bounds, mask, false, active) == SlotOverlaps(bounds, active)
  {
    if mask != [] { SecondsSplit(bounds[..|mask| - 1], mask[..|mask| - 1], active); }
  }

  lemma ShareAdds(bytes: real, some: real, more: real, duration: real)
    requires duration > 0.0
    ensures Share(bytes, some + more, duration) == Share(bytes, some, duration) + Share(bytes, more, duration)
  {
    assert (some + more) / duration == some / duration + more / duration;
  }

  lemma ShareSign(bytes: real, seconds: real, duration: real)
    requires duration > 0.0 && seconds >= 0.0 && bytes >= 0.0
    ensures Share(bytes, seconds, duration) >= 0.0
  {
    assert seconds / duration >= 0.0;
  }

  lemma {:induction false} SumAdds(before: seq<real>, gains: seq<real>, after: seq<real>)
    requires |before| == |gains| == |after|
    requires forall i | 0 <= i < |before| :: after[i] == before[i] + gains[i]
    ensures Sum(after) == Sum(before) + Sum(gains)
  {
    if before != [] {
      var n := |before| - 1;
      SumAdds(before[..n], gains[..n], after[..n]);
    }
  }

  function Gains(bounds: seq<Interval>, mask: seq<bool>, bytes: real, active: seq<Interval>, duration: real): seq<real>
    requires |mask| == |bounds| && duration > 0.0
  {
    seq(|mask|, i requires 0 <= i < |mask| =>
      if mask[i] then Share(bytes, Overlap(bounds[i].lo, bounds[i].hi, active), duration) else 0.0)
  }

  lemma {:induction false} GainsSum(bounds: seq<Interval>, mask: seq<bool>, bytes: real, active: seq<Interval>,
                                    duration: real)
    requires |mask| == |bounds| && duration > 0.0
    ensures Sum(Gains(bounds, mask, bytes, active, duration)) == Share(bytes, SecondsIn(bounds, mask, true, active), duration)
  {
    if mask != [] {
      var n := |mask| - 1;
      var front := SecondsIn(bounds[..n], mask[..n], true, active);
      GainsSum(bounds[..n], mask[..n], bytes, active, duration);
      assert Gains(bounds, mask, bytes, active, duration)[..n] == Gains(bounds[..n], mask[..n], bytes, active, duration);
      if mask[n] { ShareAdds(bytes, front, Overlap(bounds[n].lo, bounds[n].hi, active), duration); }
    }
  }

  /** One slot of one window: what it shows grows by the slot's share of the bytes. */
  lemma SlotGain(bounds: seq<Interval>, values: seq<Option<real>>, mask: seq<bool>,
                 bytes: real, active: seq<Interval>, duration: real, i: nat)
    requires duration > 0.0 && |values| == |bounds| && Wide(bounds) && Masked(values, mask) && i < |values|
    ensures Amounts(bounds, Spread(bounds, values, bytes, active, duration))[i]
            == Amounts(bounds, values)[i] + Gains(bounds, mask, bytes, active, duration)[i]
  {
    if values[i].Some? {
      var b := bounds[i];
      ScaleBack(values[i].value, Share(bytes, Overlap(b.lo, b.hi, active), duration), b.hi - b.lo);
    }
  }

  /** One window: what is shown grows by its bytes' share of the slots that are shown. */
  lemma SpreadShows(bounds: seq<Interval>, values: seq<Option<real>>, mask: seq<bool>,
                    bytes: real, active: seq<Interval>, duration: real)
    requires duration > 0.0 && |values| == |bounds| && Wide(bounds) && Masked(values, mask)
    ensures Masked(Spread(bounds, values, bytes, active, duration), mask)
    ensures Shown(bounds, Spread(bounds, values, bytes, active, duration)) ==
            Shown(bounds, values) + Share(bytes, SecondsIn(bounds, mask, true, active), duration)
  {
    var after, gains := Spread(bounds, values, bytes, active, duration), Gains(bounds, mask, bytes, active, duration);
    forall i | 0 <= i < |values|
      ensures Amounts(bounds, after)[i] == Amounts(bounds, values)[i] + gains[i]
    {
      SlotGain(bounds, values, mask, bytes, active, duration, i);
    }
    SumAdds(Amounts(bounds, values), gains, Amounts(bounds, after));
    GainsSum(bounds, mask, bytes, active, duration);
  }

  datatype Bytes = Bytes(up: real, down: real) {
    function Plus(other: Bytes): Bytes { Bytes(up + other.up, down + other.down) }
  }

  /** Bytes that fall into blank slots inside the range, so are counted but not shown. */
  function PartLost(bounds: seq<Interval>, mask: seq<bool>, bytes: real, active: seq<Interval>, duration: real): real
    requires |mask| == |bounds|
  {
    if duration <= 0.0 then 0.0 else Share(bytes, SecondsIn(bounds, mask, false, active), duration)
  }

  function LostOf(bounds: seq<Interval>, mask: seq<bool>, w: Window, zeros: seq<Interval>, bytes: real): real
    requires |mask| == |bounds|
  {
    if w.end <= w.start then 0.0
    else
      var active := Active(w.start, w.end, zeros);
      PartLost(bounds, mask, bytes, active, Overlap(w.start, w.end, active))
  }

  function WindowLost(bounds: seq<Interval>, mask: seq<bool>, w: Window, zeros: seq<Interval>): Bytes
    requires |mask| == |bounds|
  {
    Bytes(LostOf(bounds, mask, w, zeros, w.up), LostOf(bounds, mask, w, zeros, w.down))
  }

  function WindowsLost(bounds: seq<Interval>, mask: seq<bool>, windows: seq<Window>, zeros: seq<Interval>): Bytes
    requires |mask| == |bounds|
  {
    if windows == [] then Bytes(0.0, 0.0)
    else WindowsLost(bounds, mask, windows[..|windows| - 1], zeros).Plus(
           WindowLost(bounds, mask, windows[|windows| - 1], zeros))
  }

  function RowLost(h: History, series: seq<Series>, key: string): Bytes
    requires h.rangeStart < h.rangeEnd
  {
    if series == [] then Bytes(0.0, 0.0)
    else
      var before, last := RowLost(h, series[..|series| - 1], key), series[|series| - 1];
      if last.nodeId == key
      then before.Plus(WindowsLost(Bounds(h), Mask(h, key), SeriesWindows(last), Zeros(h, key)))
      else before
  }

  /** Bytes the report itself could not place in time. */
  function RowUnplaced(series: seq<Series>, key: string): Bytes {
    if series == [] then Bytes(0.0, 0.0)
    else
      var before, last := RowUnplaced(series[..|series| - 1], key), series[|series| - 1];
      if last.nodeId == key then before.Plus(Bytes(last.unplacedUp, last.unplacedDown)) else before
  }

  /** The hour totals are what is shown, what is lost to blank slots, and what was not placed. */
  ghost predicate Balanced(h: History, mask: seq<bool>, row: HourRow, lost: Bytes, unplaced: Bytes)
    requires h.rangeStart < h.rangeEnd
  {
    && Fits(h, row) && Masked(row.up, mask) && Masked(row.down, mask)
    && Shown(Bounds(h), row.up) + lost.up == row.hourUp - unplaced.up
    && Shown(Bounds(h), row.down) + lost.down == row.hourDown - unplaced.down
  }

  /** One direction of one window: its visible bytes are either shown or in blank slots. */
  lemma OneWay(bounds: seq<Interval>, start: real, end: real, values: seq<Option<real>>, mask: seq<bool>,
               bytes: real, active: seq<Interval>, duration: real)
    requires duration > 0.0 && |values| == |bounds| && Tiles(bounds, start, end) && Masked(values, mask)
    ensures Masked(Spread(bounds, values, bytes, active, duration), mask)
    ensures Shown(bounds, Spread(bounds, values, bytes, active, duration))
            + Share(bytes, SecondsIn(bounds, mask, false, active), duration)
            == Shown(bounds, values) + Share(bytes, Overlap(start, end, active), duration)
  {
    SpreadShows(bounds, values, mask, bytes, active, duration);
    SlotsPartition(bounds, start, end, active);
    SecondsSplit(bounds, mask, active);
    ShareAdds(bytes, SecondsIn(bounds, mask, true, active), SecondsIn(bounds, mask, false, active), duration);
  }

  lemma ActiveBalances(h: History, mask: seq<bool>, row: HourRow, w: Window, active: seq<Interval>, duration: real)
    requires h.rangeStart < h.rangeEnd && Fits(h, row) && Masked(row.up, mask) && Masked(row.down, mask)
    ensures var after, bounds := AddActive(h, row, w, active, duration), Bounds(h);
            && Masked(after.up, mask) && Masked(after.down, mask)
            && Shown(bounds, after.up) + PartLost(bounds, mask, w.up, active, duration) - after.hourUp
               == Shown(bounds, row.up) - row.hourUp
            && Shown(bounds, after.down) + PartLost(bounds, mask, w.down, active, duration) - after.hourDown
               == Shown(bounds, row.down) - row.hourDown
  {
    if duration > 0.0 {
      BoundsTile(h);
      OneWay(Bounds(h), h.rangeStart, h.rangeEnd, row.up, mask, w.up, active, duration);
      OneWay(Bounds(h), h.rangeStart, h.rangeEnd, row.down, mask, w.down, active, duration);
    }
  }

  lemma WindowBalances(h: History, mask: seq<bool>, row: HourRow, lost: Bytes, unplaced: Bytes, w: Window,
                       zeros: seq<Interval>)
    requires h.rangeStart < h.rangeEnd && Balanced(h, mask, row, lost, unplaced)
    ensures Balanced(h, mask, AddWindow(h, row, w, zeros), lost.Plus(WindowLost(Bounds(h), mask, w, zeros)), unplaced)
  {
    var active := Active(w.start, w.end, zeros);
    ActiveBalances(h, mask, row, w, active, Overlap(w.start, w.end, active));
  }

  lemma {:induction false} WindowsBalance(h: History, mask: seq<bool>, row: HourRow, lost: Bytes, unplaced: Bytes,
                                          windows: seq<Window>, zeros: seq<Interval>)
    requires h.rangeStart < h.rangeEnd && Balanced(h, mask, row, lost, unplaced)
    ensures Balanced(h, mask, AddWindows(h, row, windows, zeros),
                     lost.Plus(WindowsLost(Bounds(h), mask, windows, zeros)), unplaced)
  {
    if windows != [] {
      var front, last := windows[..|windows| - 1], windows[|windows| - 1];
      WindowsBalance(h, mask, row, lost, unplaced, front, zeros);
      WindowBalances(h, mask, AddWindows(h, row, front, zeros), lost.Plus(WindowsLost(Bounds(h), mask, front, zeros)),
                     unplaced, last, zeros);
    }
  }

  lemma {:induction false} BlankShowsNothing(bounds: seq<Interval>, values: seq<Option<real>>)
    requires |values| == |bounds| && forall i | 0 <= i < |values| :: values[i].Some? ==> values[i].value == 0.0
    ensures Shown(bounds, values) == 0.0
  {
    if values != [] {
      var n := |values| - 1;
      BlankShowsNothing(bounds[..n], values[..n]);
      assert Amounts(bounds, values)[..n] == Amounts(bounds[..n], values[..n]);
    }
  }

  /** Bytes are conserved, for any history and any row. */
  lemma {:induction false} BytesConserved(h: History, series: seq<Series>, key: string)
    requires h.rangeStart < h.rangeEnd
    ensures Balanced(h, Mask(h, key), RowOf(h, series, key), RowLost(h, series, key), RowUnplaced(series, key))
  {
    if series == [] {
      BlankShowsNothing(Bounds(h), BlankRow(h, key).up);
    } else {
      var front, last := series[..|series| - 1], series[|series| - 1];
      BytesConserved(h, front, key);
      if last.nodeId == key {
        WindowsBalance(h, Mask(h, key), Noted(RowOf(h, front, key), last), RowLost(h, front, key),
                       RowUnplaced(series, key), SeriesWindows(last), Zeros(h, key));
      }
    }
  }

  // ----- when nothing is lost

  /** Every byte of the row was sent in slots the row shows. */
  ghost predicate PlacedWhereShown(h: History, series: seq<Series>, key: string)
    requires h.rangeStart < h.rangeEnd
  {
    forall s | 0 <= s < |series| && series[s].nodeId == key :: AllPlaced(h, key, SeriesWindows(series[s]))
  }

  ghost predicate AllPlaced(h: History, key: string, windows: seq<Window>)
    requires h.rangeStart < h.rangeEnd
  {
    forall w | 0 <= w < |windows| :: Placed(h, key, windows[w])
  }

  ghost predicate Placed(h: History, key: string, w: Window)
    requires h.rangeStart < h.rangeEnd
  {
    forall i | 0 <= i < SlotCount(h) :: OutsideBlank(h, key, w, i)
  }

  ghost predicate OutsideBlank(h: History, key: string, w: Window, i: int) {
    Watched(Bound(h, i), RowMeasured(h, key)) ||
    Overlap(Bound(h, i).lo, Bound(h, i).hi, Active(w.start, w.end, Zeros(h, key))) == 0.0
  }

  lemma {:induction false} NoBlankSeconds(bounds: seq<Interval>, mask: seq<bool>, active: seq<Interval>)
    requires |mask| == |bounds|
    requires forall i | 0 <= i < |mask| :: mask[i] || Overlap(bounds[i].lo, bounds[i].hi, active) == 0.0
    ensures SecondsIn(bounds, mask, false, active) == 0.0
  {
    if mask != [] { NoBlankSeconds(bounds[..|mask| - 1], mask[..|mask| - 1], active); }
  }

  lemma PartNone(bounds: seq<Interval>, mask: seq<bool>, bytes: real, active: seq<Interval>, duration: real)
    requires |mask| == |bounds|
    requires forall i | 0 <= i < |mask| :: mask[i] || Overlap(bounds[i].lo, bounds[i].hi, active) == 0.0
    ensures PartLost(bounds, mask, bytes, active, duration) == 0.0
  {
    NoBlankSeconds(bounds, mask, active);
    if duration > 0.0 { assert Share(bytes, 0.0, duration) == 0.0; }
  }

  lemma OneWindowLost(h: History, key: string, w: Window)
    requires h.rangeStart < h.rangeEnd
    requires Placed(h, key, w)
    ensures WindowLost(Bounds(h), Mask(h, key), w, Zeros(h, key)) == Bytes(0.0, 0.0)
  {
    var active := Active(w.start, w.end, Zeros(h, key));
    forall i | 0 <= i < SlotCount(h)
      ensures Mask(h, key)[i] || Overlap(Bounds(h)[i].lo, Bounds(h)[i].hi, active) == 0.0
    {
      assert OutsideBlank(h, key, w, i);
    }
    PartNone(Bounds(h), Mask(h, key), w.up, active, Overlap(w.start, w.end, active));
    PartNone(Bounds(h), Mask(h, key), w.down, active, Overlap(w.start, w.end, active));
  }

  lemma {:induction false} NoWindowLost(h: History, key: string, windows: seq<Window>)
    requires h.rangeStart < h.rangeEnd
    requires AllPlaced(h, key, windows)
    ensures WindowsLost(Bounds(h), Mask(h, key), windows, Zeros(h, key)) == Bytes(0.0, 0.0)
  {
    if windows != [] {
      NoWindowLost(h, key, windows[..|windows| - 1]);
      OneWindowLost(h, key, windows[|windows| - 1]);
    }
  }

  /** A row whose bytes all fall in shown slots shows its hour total to the byte. */
  lemma {:induction false} NothingLost(h: History, series: seq<Series>, key: string)
    requires h.rangeStart < h.rangeEnd && PlacedWhereShown(h, series, key)
    ensures RowLost(h, series, key) == Bytes(0.0, 0.0)
    ensures Shown(Bounds(h), RowOf(h, series, key).up) == RowOf(h, series, key).hourUp - RowUnplaced(series, key).up
    ensures Shown(Bounds(h), RowOf(h, series, key).down) == RowOf(h, series, key).hourDown - RowUnplaced(series, key).down
  {
    NothingLostSeries(h, series, key);
    BytesConserved(h, series, key);
  }

  lemma {:induction false} NothingLostSeries(h: History, series: seq<Series>, key: string)
    requires h.rangeStart < h.rangeEnd && PlacedWhereShown(h, series, key)
    ensures RowLost(h, series, key) == Bytes(0.0, 0.0)
  {
    if series != [] {
      var front, last := series[..|series| - 1], series[|series| - 1];
      assert forall s | 0 <= s < |front| :: front[s] == series[s];
      NothingLostSeries(h, front, key);
      if last.nodeId == key { NoWindowLost(h, key, SeriesWindows(last)); }
    }
  }

  /** With traffic counted in non-negative bytes a row never shows more than its total. */
  lemma {:induction false} NeverShowsMore(h: History, series: seq<Series>, key: string)
    requires h.rangeStart < h.rangeEnd
    requires forall s, w | 0 <= s < |series| && 0 <= w < |SeriesWindows(series[s])| ::
               SeriesWindows(series[s])[w].up >= 0.0 && SeriesWindows(series[s])[w].down >= 0.0
    ensures Shown(Bounds(h), RowOf(h, series, key).up) <= RowOf(h, series, key).hourUp - RowUnplaced(series, key).up
    ensures Shown(Bounds(h), RowOf(h, series, key).down) <= RowOf(h, series, key).hourDown - RowUnplaced(series, key).down
  {
    BytesConserved(h, series, key);
    LostIsNonNegative(h, series, key);
  }

  lemma {:induction false} LostIsNonNegative(h: History, series: seq<Series>, key: string)
    requires h.rangeStart < h.rangeEnd
    requires forall s, w | 0 <= s < |series| && 0 <= w < |SeriesWindows(series[s])| ::
               SeriesWindows(series[s])[w].up >= 0.0 && SeriesWindows(series[s])[w].down >= 0.0
    ensures RowLost(h, series, key).up >= 0.0 && RowLost(h, series, key).down >= 0.0
  {
    if series != [] {
      var front, last := series[..|series| - 1], series[|series| - 1];
      assert forall s | 0 <= s < |front| :: front[s] == series[s];
      LostIsNonNegative(h, front, key);
      if last.nodeId == key {
        WindowsLostNonNegative(Bounds(h), Mask(h, key), SeriesWindows(last), Zeros(h, key));
      }
    }
  }

  lemma {:induction false} WindowsLostNonNegative(bounds: seq<Interval>, mask: seq<bool>, windows: seq<Window>,
                                                  zeros: seq<Interval>)
    requires |mask| == |bounds| && forall w | 0 <= w < |windows| :: windows[w].up >= 0.0 && windows[w].down >= 0.0
    ensures WindowsLost(bounds, mask, windows, zeros).up >= 0.0
    ensures WindowsLost(bounds, mask, windows, zeros).down >= 0.0
  {
    if windows != [] {
      WindowsLostNonNegative(bounds, mask, windows[..|windows| - 1], zeros);
      var last := windows[|windows| - 1];
      LostSign(bounds, mask, last, zeros, last.up);
      LostSign(bounds, mask, last, zeros, last.down);
    }
  }

  lemma PartSign(bounds: seq<Interval>, mask: seq<bool>, bytes: real, active: seq<Interval>, duration: real)
    requires |mask| == |bounds| && bytes >= 0.0
    ensures PartLost(bounds, mask, bytes, active, duration) >= 0.0
  {
    if duration > 0.0 { ShareSign(bytes, SecondsIn(bounds, mask, false, active), duration); }
  }

  lemma LostSign(bounds: seq<Interval>, mask: seq<bool>, w: Window, zeros: seq<Interval>, bytes: real)
    requires |mask| == |bounds| && bytes >= 0.0
    ensures LostOf(bounds, mask, w, zeros, bytes) >= 0.0
  {
    var active := Active(w.start, w.end, zeros);
    PartSign(bounds, mask, bytes, active, Overlap(w.start, w.end, active));
  }

  // ----- blank and zero slots

  /** A slot is blank exactly when it was not watched throughout. */
  lemma BlankIsUnwatched(h: History, key: string, i: nat)
    requires h.rangeStart < h.rangeEnd && i < SlotCount(h)
    ensures RowOf(h, h.series, key).up[i].None? <==> !Watched(Bound(h, i), RowMeasured(h, key))
    ensures RowOf(h, h.series, key).down[i].None? <==> !Watched(Bound(h, i), RowMeasured(h, key))
  {
    BytesConserved(h, h.series, key);
    assert Mask(h, key)[i] == Watched(Bounds(h)[i], RowMeasured(h, key));
  }

  /** Everything confirmed down is measured, however the row's measured time was put together. */
  lemma ZerosAreMeasured(h: History, key: string, t: real)
    requires Covers(Zeros(h, key), t)
    ensures Covers(RowMeasured(h, key), t)
  {
    SomeNode(h.nodes, key);
    var node := NodeOf(h.nodes, key).value;
    if HasSeries(h.series, key) {
      NodesMeasuredCover(h, h.nodes, key, t);
      MergedCovers(NodesMeasured(h, h.nodes, key));
    } else {
      var all := WindowsOf(node) + node.forwardingWindows + Zeros(h, key);
      CoversSplit(WindowsOf(node) + node.forwardingWindows, Zeros(h, key), t);
      MergedCovers(all);
    }
  }

  lemma {:induction false} SomeNode(nodes: seq<Node>, id: string)
    ensures NodeOf(nodes, id).Some? <==> exists i :: 0 <= i < |nodes| && nodes[i].id == id
  {
    if nodes != [] {
      SomeNode(nodes[..|nodes| - 1], id);
      assert nodes == nodes[..|nodes| - 1] + [nodes[|nodes| - 1]];
    }
  }

  lemma {:induction false} NodesMeasuredCover(h: History, nodes: seq<Node>, key: string, t: real)
    requires Covers(Zeros(h, key), t) && exists i :: 0 <= i < |nodes| && nodes[i].id == key
    ensures Covers(NodesMeasured(h, nodes, key), t)
  {
    var front, last := nodes[..|nodes| - 1], nodes[|nodes| - 1];
    var mine := if last.id == key then NodeMeasured(h, last, key) else [];
    CoversSplit(NodesMeasured(h, front, key), mine, t);
    if last.id == key {
      NodeMeasuredCovers(h, last, key, t);
    } else {
      var i :| 0 <= i < |nodes| && nodes[i].id == key;
      assert front[i] == nodes[i];
      NodesMeasuredCover(h, front, key, t);
    }
  }

  lemma NodeMeasuredCovers(h: History, node: Node, key: string, t: real)
    requires node.id == key && Covers(Zeros(h, key), t)
    ensures Covers(NodeMeasured(h, node, key), t)
  {
    CoversSplit(WindowsOf(node), Zeros(h, key), t);
    CoversSplit(node.forwardingWindows, Zeros(h, key), t);
    MergedCovers(WindowsOf(node) + Zeros(h, key));
    MergedCovers(node.forwardingWindows + Zeros(h, key));
    IntersectCovers(Merged(WindowsOf(node) + Zeros(h, key)), Merged(node.forwardingWindows + Zeros(h, key)));
  }

  lemma RowMeasuredGapped(h: History, key: string)
    ensures Gapped(RowMeasured(h, key)) && Gapped(Zeros(h, key))
  {
    MergedCovers(NodesMeasured(h, h.nodes, key));
    match NodeOf(h.nodes, key) {
      case None =>
      case Some(node) =>
        MergedCovers(InSeconds(node.zeroMillis));
        MergedCovers(WindowsOf(node) + node.forwardingWindows + Zeros(h, key));
    }
  }

  ghost predicate DownThroughout(h: History, key: string, i: int) {
    forall t | Bound(h, i).lo <= t < Bound(h, i).hi :: Covers(Zeros(h, key), t)
  }

  /** A slot inside confirmed downtime is watched, and no window has active time in it. */
  lemma DownSlot(h: History, key: string, i: nat, w: Window)
    requires h.rangeStart < h.rangeEnd && i < SlotCount(h) && DownThroughout(h, key, i)
    ensures Watched(Bound(h, i), RowMeasured(h, key))
    ensures w.start <= w.end ==> Overlap(Bound(h, i).lo, Bound(h, i).hi, Active(w.start, w.end, Zeros(h, key))) == 0.0
  {
    var b := Bound(h, i);
    SlotsTile(h, i);
    RowMeasuredGapped(h, key);
    forall t | b.lo <= t < b.hi ensures Covers(RowMeasured(h, key), t) {
      ZerosAreMeasured(h, key, t);
    }
    FullSpan(b.lo, b.hi, RowMeasured(h, key));
    if w.start <= w.end {
      ActiveIsRemainder(w.start, w.end, Zeros(h, key));
      OverlapNone(b.lo, b.hi, Active(w.start, w.end, Zeros(h, key)));
    }
  }

  lemma NothingAdded(bounds: seq<Interval>, values: seq<Option<real>>, bytes: real, active: seq<Interval>,
                     duration: real, i: nat)
    requires duration > 0.0 && |values| == |bounds| && Wide(bounds) && i < |bounds|
    requires Overlap(bounds[i].lo, bounds[i].hi, active) == 0.0
    ensures Spread(bounds, values, bytes, active, duration)[i] == values[i]
  {
    assert Share(bytes, 0.0, duration) == 0.0;
    assert PerSlot(0.0, bounds[i].hi - bounds[i].lo) == 0.0;
  }

  lemma {:induction false} DownStaysPut(h: History, key: string, row: HourRow, windows: seq<Window>, i: nat)
    requires h.rangeStart < h.rangeEnd && Fits(h, row) && i < SlotCount(h) && DownThroughout(h, key, i)
    ensures AddWindows(h, row, windows, Zeros(h, key)).up[i] == row.up[i]
    ensures AddWindows(h, row, windows, Zeros(h, key)).down[i] == row.down[i]
  {
    if windows != [] {
      var last := windows[|windows| - 1];
      DownStaysPut(h, key, row, windows[..|windows| - 1], i);
      var before := AddWindows(h, row, windows[..|windows| - 1], Zeros(h, key));
      DownWindow(h, key, before, last, i);
    }
  }

  lemma DownWindow(h: History, key: string, row: HourRow, w: Window, i: nat)
    requires h.rangeStart < h.rangeEnd && Fits(h, row) && i < SlotCount(h) && DownThroughout(h, key, i)
    ensures AddWindow(h, row, w, Zeros(h, key)).up[i] == row.up[i]
    ensures AddWindow(h, row, w, Zeros(h, key)).down[i] == row.down[i]
  {
    var active := Active(w.start, w.end, Zeros(h, key));
    var duration := Overlap(w.start, w.end, active);
    if w.end > w.start && duration > 0.0 {
      BoundsTile(h);
      DownSlot(h, key, i, w);
      NothingAdded(Bounds(h), row.up, w.up, active, duration, i);
      NothingAdded(Bounds(h), row.down, w.down, active, duration, i);
    }
  }

  /** Confirmed downtime is drawn as exactly zero, whatever was reported around it. */
  lemma {:induction false} DowntimeIsZero(h: History, series: seq<Series>, key: string, i: nat)
    requires h.rangeStart < h.rangeEnd && i < SlotCount(h) && DownThroughout(h, key, i)
    ensures RowOf(h, series, key).up[i] == Some(0.0) && RowOf(h, series, key).down[i] == Some(0.0)
  {
    if series == [] {
      DownSlot(h, key, i, Window(0.0, 0.0, 0.0, 0.0));
      assert Watched(Bounds(h)[i], RowMeasured(h, key));
    } else {
      var front, last := series[..|series| - 1], series[|series| - 1];
      DowntimeIsZero(h, front, key, i);
      if last.nodeId == key {
        DownStaysPut(h, key, Noted(RowOf(h, front, key), last), SeriesWindows(last), i);
      }
    }
  }

  // ----- the loops

  /** The slots of one direction of a window, updated one by one. */
  method SpreadSlots(bounds: seq<Interval>, values: seq<Option<real>>, bytes: real, active: seq<Interval>,
                     duration: real)
    returns (after: seq<Option<real>>)
    requires duration > 0.0 && |values| == |bounds| && Wide(bounds)
    ensures after == Spread(bounds, values, bytes, active, duration)
  {
    after := values;
    for index := 0 to |bounds|
      invariant |after| == |values|
      invariant forall k | index <= k < |values| :: after[k] == values[k]
      invariant forall k | 0 <= k < index :: after[k] == Spread(bounds, values, bytes, active, duration)[k]
    {
      if after[index].Some? {
        after := after[index := Some(after[index].value + Weighted(bounds[index], bytes, active, duration))];
      }
    }
  }

  method AddActiveInPlace(h: History, bounds: seq<Interval>, start: HourRow, w: Window, active: seq<Interval>,
                          duration: real)
    returns (row: HourRow)
    requires h.rangeStart < h.rangeEnd && bounds == Bounds(h) && Wide(bounds) && Fits(h, start) && duration > 0.0
    ensures row == AddActive(h, start, w, active, duration)
  {
    var visible := Overlap(h.rangeStart, h.rangeEnd, active);
    var up := SpreadSlots(bounds, start.up, w.up, active, duration);
    var down := SpreadSlots(bounds, start.down, w.down, active, duration);
    row := HourRow(up, down,
                   start.hourUp + Share(w.up, visible, duration), start.hourDown + Share(w.down, visible, duration),
                   if w.up + w.down > 0.0
                   then Some(Max(if start.lastActiveMs.Some? then start.lastActiveMs.value else 0.0, w.end * 1000.0))
                   else start.lastActiveMs,
                   start.unplaced, start.forwarding);
  }

  method AddWindowInPlace(h: History, bounds: seq<Interval>, start: HourRow, w: Window, zeros: seq<Interval>)
    returns (row: HourRow)
    requires h.rangeStart < h.rangeEnd && bounds == Bounds(h) && Fits(h, start) && Gapped(zeros)
    ensures row == AddWindow(h, start, w, zeros)
  {
    if w.end <= w.start { return start; }
    var active := ActiveIntervals(w.start, w.end, zeros);
    var duration := Overlap(w.start, w.end, active);
    if duration <= 0.0 { return start; }
    BoundsTile(h);
    row := AddActiveInPlace(h, bounds, start, w, active, duration);
  }

  method AddWindowsInPlace(h: History, bounds: seq<Interval>, start: HourRow, windows: seq<Window>,
                           zeros: seq<Interval>)
    returns (row: HourRow)
    requires h.rangeStart < h.rangeEnd && bounds == Bounds(h) && Fits(h, start) && Gapped(zeros)
    ensures row == AddWindows(h, start, windows, zeros)
  {
    row := start;
    for i := 0 to |windows|
      invariant Fits(h, row) && row == AddWindows(h, start, windows[..i], zeros)
    {
      assert windows[..i + 1][..i] == windows[..i];
      row := AddWindowInPlace(h, bounds, row, windows[i], zeros);
    }
    assert windows[..|windows|] == windows;
  }

  /** Every node has a row, whether or not it carried traffic. */
  method BlankRows(h: History) returns (rows: map<string, HourRow>)
    requires h.rangeStart < h.rangeEnd
    ensures forall key :: key in rows <==> NodeOf(h.nodes, key).Some?
    ensures forall key | key in rows :: rows[key] == BlankRow(h, key)
  {
    rows := map[];
    for n := 0 to |h.nodes|
      invariant forall key :: key in rows <==> NodeOf(h.nodes[..n], key).Some?
      invariant forall key | key in rows :: rows[key] == BlankRow(h, key)
    {
      assert h.nodes[..n + 1][..n] == h.nodes[..n];
      var id := h.nodes[n].id;
      if id !in rows { rows := rows[id := BlankRow(h, id)]; }
    }
    assert h.nodes[..|h.nodes|] == h.nodes;
  }

  ghost predicate RowsUpTo(h: History, rows: map<string, HourRow>, series: seq<Series>)
    requires h.rangeStart < h.rangeEnd
  {
    && (forall key :: key in rows <==> NodeOf(h.nodes, key).Some? || HasSeries(series, key))
    && (forall key | key in rows :: rows[key] == RowOf(h, series, key))
  }

  /** One series: its row is started if need be, and its windows are added. */
  method AddSeriesInPlace(h: History, bounds: seq<Interval>, rows: map<string, HourRow>, ghost before: seq<Series>,
                          last: Series)
    returns (after: map<string, HourRow>)
    requires h.rangeStart < h.rangeEnd && bounds == Bounds(h) && RowsUpTo(h, rows, before)
    ensures RowsUpTo(h, after, before + [last])
  {
    var key := last.nodeId;
    ghost var series := before + [last];
    assert series[..|before|] == before;
    if key !in rows { NoSeriesIsBlank(h, before, key); }
    var row := if key in rows then rows[key] else BlankRow(h, key);
    RowMeasuredGapped(h, key);
    row := AddWindowsInPlace(h, bounds, Noted(row, last), SeriesWindows(last), Zeros(h, key));
    after := rows[key := row];
    forall k ensures HasSeries(series, k) <==> HasSeries(before, k) || k == key {
      SeriesAppend(before, last, k);
    }
  }

  lemma SeriesAppend(before: seq<Series>, last: Series, key: string)
    ensures HasSeries(before + [last], key) <==> HasSeries(before, key) || key == last.nodeId
  {
    var series := before + [last];
    assert series[|before|] == last;
    assert forall i | 0 <= i < |before| :: series[i] == before[i];
  }

  /** The rows of `hourModel`: one for every node and every node a series names. */
  method HourRows(h: History) returns (rows: map<string, HourRow>)
    requires Measured(h)
    ensures forall key :: key in rows <==> NodeOf(h.nodes, key).Some? || HasSeries(h.series, key)
    ensures forall key | key in rows :: rows[key] == RowOf(h, h.series, key)
  {
    var bounds := Bounds(h);
    rows := BlankRows(h);
    for s := 0 to |h.series|
      invariant RowsUpTo(h, rows, h.series[..s])
    {
      assert h.series[..s + 1] == h.series[..s] + [h.series[s]];
      rows := AddSeriesInPlace(h, bounds, rows, h.series[..s], h.series[s]);
    }
    assert h.series[..|h.series|] == h.series;
  }

  lemma {:induction false} NoSeriesIsBlank(h: History, series: seq<Series>, key: string)
    requires h.rangeStart < h.rangeEnd && !HasSeries(series, key)
    ensures RowOf(h, series, key) == BlankRow(h, key)
  {
    if series != [] {
      var front := series[..|series| - 1];
      assert series == front + [series[|series| - 1]];
      SeriesAppend(front, series[|series| - 1], key);
      NoSeriesIsBlank(h, front, key);
    }
  }
}
