/** What the parts of an hour row mean, told from the report alone: which time counts as measured, and
    what one window adds (`hourModel` in frontend/src/user-traffic-realtime.tsx). */
module HourMeaning {
  import opened Wrappers
  import opened Intervals
  import opened HourModel

  // ----- which time is measured

  /** The time lies in one of these intervals. */
  ghost predicate In(xs: seq<Interval>, t: real) {
    exists i :: 0 <= i < |xs| && xs[i].lo <= t < xs[i].hi
  }

  /** The same for intervals in milliseconds. */
  ghost predicate InMillis(xs: seq<Interval>, t: real) {
    exists i :: 0 <= i < |xs| && xs[i].lo / 1000.0 <= t < xs[i].hi / 1000.0
  }

  /** The last record of a node. */
  ghost predicate IsRecord(h: History, i: int, id: string) {
    0 <= i < |h.nodes| && h.nodes[i].id == id && forall j | i < j < |h.nodes| :: h.nodes[j].id != id
  }

  /** The node was confirmed down. */
  ghost predicate Down(h: History, id: string, t: real) {
    exists i :: IsRecord(h, i, id) && InMillis(h.nodes[i].zeroMillis, t)
  }

  ghost predicate Access(node: Node, t: real) { node.windows.Some? && In(node.windows.value, t) }

  ghost predicate Forwarded(node: Node, t: real) { In(node.forwardingWindows, t) }

  ghost predicate Reports(h: History, key: string, forwarding: bool) {
    exists i :: 0 <= i < |h.series| && h.series[i].nodeId == key && h.series[i].forwarding == forwarding
  }

  /** Both kinds of traffic must have been watched where both are reported; confirmed downtime counts as
      watched. */
  ghost predicate Counts(h: History, node: Node, t: real) {
    var id := node.id;
    if Reports(h, id, false) && Reports(h, id, true)
    then Down(h, id, t) || (Access(node, t) && Forwarded(node, t))
    else if Reports(h, id, true) then Down(h, id, t) || Forwarded(node, t)
    else Down(h, id, t) || Access(node, t)
  }

  lemma CoversIsIn(xs: seq<Interval>, t: real)
    ensures Covers(xs, t) <==> In(xs, t)
  {
    if In(xs, t) {
      var i :| 0 <= i < |xs| && xs[i].lo <= t < xs[i].hi;
      assert Holds(xs[i], t);
    }
    if Covers(xs, t) {
      var i :| 0 <= i < |xs| && Holds(xs[i], t);
      assert xs[i].lo <= t < xs[i].hi;
    }
  }

  lemma SecondsIn(xs: seq<Interval>, t: real)
    ensures In(InSeconds(xs), t) <==> InMillis(xs, t)
  {
    var ys := InSeconds(xs);
    forall i | 0 <= i < |xs| ensures ys[i] == Interval(xs[i].lo / 1000.0, xs[i].hi / 1000.0) {}
    if InMillis(xs, t) {
      var i :| 0 <= i < |xs| && xs[i].lo / 1000.0 <= t < xs[i].hi / 1000.0;
      assert ys[i].lo <= t < ys[i].hi;
    }
    if In(ys, t) {
      var i :| 0 <= i < |ys| && ys[i].lo <= t < ys[i].hi;
      assert xs[i].lo / 1000.0 <= t < xs[i].hi / 1000.0;
    }
  }

  lemma {:induction false} LastRecord(nodes: seq<Node>, id: string) returns (i: int)
    ensures if NodeOf(nodes, id).None? then i == -1 && forall j | 0 <= j < |nodes| :: nodes[j].id != id
            else 0 <= i < |nodes| && nodes[i] == NodeOf(nodes, id).value && nodes[i].id == id
                 && forall j | i < j < |nodes| :: nodes[j].id != id
  {
    i := -1;
    if nodes != [] {
      if nodes[|nodes| - 1].id == id {
        i := |nodes| - 1;
      } else {
        i := LastRecord(nodes[..|nodes| - 1], id);
      }
    }
  }

  /** Confirmed downtime is the zero windows of the last record, in seconds. */
  lemma ZerosAre(h: History, id: string, t: real)
    ensures Covers(Zeros(h, id), t) <==> Down(h, id, t)
  {
    var i := LastRecord(h.nodes, id);
    if i >= 0 {
      var xs := h.nodes[i].zeroMillis;
      MergedCovers(InSeconds(xs));
      CoversIsIn(InSeconds(xs), t);
      SecondsIn(xs, t);
      assert IsRecord(h, i, id);
      assert forall j | IsRecord(h, j, id) :: j == i;
    } else {
      assert !Covers([], t);
    }
  }

  lemma WithDowntime(xs: seq<Interval>, h: History, id: string, t: real)
    ensures Covers(Merged(xs + Zeros(h, id)), t) <==> In(xs, t) || Down(h, id, t)
    ensures Gapped(Merged(xs + Zeros(h, id)))
  {
    MergedCovers(xs + Zeros(h, id));
    CoversSplit(xs, Zeros(h, id), t);
    CoversIsIn(xs, t);
    ZerosAre(h, id, t);
  }

  lemma WindowsAre(node: Node, t: real)
    ensures In(WindowsOf(node), t) <==> Access(node, t)
  {
  }

  lemma NodeCounts(h: History, node: Node, t: real)
    ensures Covers(NodeMeasured(h, node, node.id), t) <==> Counts(h, node, t)
  {
    WindowsAre(node, t);
    WithDowntime(WindowsOf(node), h, node.id, t);
    WithDowntime(node.forwardingWindows, h, node.id, t);
    IntersectCovers(Merged(WindowsOf(node) + Zeros(h, node.id)), Merged(node.forwardingWindows + Zeros(h, node.id)));
    SameKinds(h, node.id);
  }

  lemma SameKinds(h: History, key: string)
    ensures HasAccess(h.series, key) <==> Reports(h, key, false)
    ensures HasForwarding(h.series, key) <==> Reports(h, key, true)
    ensures HasSeries(h.series, key) <==> Reports(h, key, false) || Reports(h, key, true)
  {
    if i :| 0 <= i < |h.series| && h.series[i].nodeId == key {
      assert h.series[i].forwarding == true || h.series[i].forwarding == false;
    }
  }

  ghost predicate SomeCounts(h: History, nodes: seq<Node>, key: string, t: real) {
    exists i :: 0 <= i < |nodes| && nodes[i].id == key && Counts(h, nodes[i], t)
  }

  lemma SomeSplit(h: History, front: seq<Node>, last: Node, key: string, t: real)
    ensures SomeCounts(h, front + [last], key, t) <==>
            SomeCounts(h, front, key, t) || (last.id == key && Counts(h, last, t))
  {
    var nodes := front + [last];
    assert nodes[|front|] == last;
    if i :| 0 <= i < |front| && front[i].id == key && Counts(h, front[i], t) { assert nodes[i] == front[i]; }
    if i :| 0 <= i < |nodes| && nodes[i].id == key && Counts(h, nodes[i], t) {
      assert i < |front| ==> front[i] == nodes[i];
    }
  }

  lemma NodesMeasuredSplit(h: History, front: seq<Node>, last: Node, key: string, t: real)
    ensures Covers(NodesMeasured(h, front + [last], key), t) <==>
            Covers(NodesMeasured(h, front, key), t) || (last.id == key && Covers(NodeMeasured(h, last, key), t))
  {
    assert (front + [last])[..|front|] == front;
    CoversSplit(NodesMeasured(h, front, key), if last.id == key then NodeMeasured(h, last, key) else [], t);
    assert !Covers([], t);
  }

  lemma {:induction false} NodesCount(h: History, nodes: seq<Node>, key: string, t: real)
    ensures Covers(NodesMeasured(h, nodes, key), t) <==> SomeCounts(h, nodes, key, t)
  {
    if nodes == [] {
      assert !Covers([], t);
    } else {
      var front, last := nodes[..|nodes| - 1], nodes[|nodes| - 1];
      NodesCount(h, front, key, t);
      assert nodes == front + [last];
      SomeSplit(h, front, last, key, t);
      NodesMeasuredSplit(h, front, last, key, t);
      NodeCounts(h, last, t);
    }
  }

  /** Exactly which time a row was measured in: with series, what each record of the node counts; without
      any, whatever its last record was watched for or confirmed down. */
  lemma RowIsMeasuredIn(h: History, key: string, t: real)
    ensures Covers(RowMeasured(h, key), t) <==>
            if Reports(h, key, false) || Reports(h, key, true)
            then exists i :: 0 <= i < |h.nodes| && h.nodes[i].id == key && Counts(h, h.nodes[i], t)
            else exists i :: IsRecord(h, i, key)
                   && (Access(h.nodes[i], t) || Forwarded(h.nodes[i], t) || InMillis(h.nodes[i].zeroMillis, t))
  {
    SameKinds(h, key);
    if HasSeries(h.series, key) {
      MergedCovers(NodesMeasured(h, h.nodes, key));
      NodesCount(h, h.nodes, key, t);
    } else {
      CollectedIs(h, key, t);
    }
  }

  lemma CollectedIs(h: History, key: string, t: real)
    ensures Covers(Collected(h, key), t) <==>
            exists i :: IsRecord(h, i, key)
              && (Access(h.nodes[i], t) || Forwarded(h.nodes[i], t) || InMillis(h.nodes[i].zeroMillis, t))
  {
    var i := LastRecord(h.nodes, key);
    if i >= 0 {
      var node := h.nodes[i];
      WindowsAre(node, t);
      WithDowntime(WindowsOf(node) + node.forwardingWindows, h, key, t);
      CoversSplit(WindowsOf(node), node.forwardingWindows, t);
      CoversIsIn(WindowsOf(node) + node.forwardingWindows, t);
      CoversIsIn(WindowsOf(node), t);
      CoversIsIn(node.forwardingWindows, t);
      assert IsRecord(h, i, key);
      assert forall j | IsRecord(h, j, key) :: j == i;
    } else {
      assert !Covers([], t);
    }
  }

  // ----- what one window adds

  /** `x` is of `bytes` what `seconds` are of `duration`. */
  ghost predicate IsPart(x: real, bytes: real, seconds: real, duration: real) {
    x * duration == bytes * seconds
  }

  /** `x` per 30 seconds is, over this slot, of `bytes` what `seconds` are of `duration`. */
  ghost predicate IsRate(x: real, bound: Interval, bytes: real, seconds: real, duration: real) {
    exists part :: IsPart(part, bytes, seconds, duration) && IsPer30(x, part, bound)
  }

  ghost predicate IsPer30(x: real, part: real, bound: Interval) { x * (bound.hi - bound.lo) == part * 30.0 }

  lemma ShareIsPart(bytes: real, seconds: real, duration: real)
    requires duration > 0.0
    ensures IsPart(Share(bytes, seconds, duration), bytes, seconds, duration)
  {
    var q := seconds / duration;
    assert q * duration == seconds;
    assert bytes * q * duration == bytes * (q * duration);
  }

  lemma WeightedIsRate(bound: Interval, bytes: real, active: seq<Interval>, duration: real)
    requires duration > 0.0 && bound.lo < bound.hi
    ensures IsRate(Weighted(bound, bytes, active, duration), bound, bytes,
                   Overlap(bound.lo, bound.hi, active), duration)
  {
    var seconds := Overlap(bound.lo, bound.hi, active);
    var part := Share(bytes, seconds, duration);
    ShareIsPart(bytes, seconds, duration);
    PerSlotIs(part, bound.hi - bound.lo);
    assert IsPer30(PerSlot(part, bound.hi - bound.lo), part, bound);
  }

  lemma PerSlotIs(bytes: real, width: real)
    requires width > 0.0
    ensures PerSlot(bytes, width) * width == bytes * 30.0
  {
  }

  /** A direction of a row gains these bytes: each shown slot the part of them that its active seconds are
      of all active seconds, as bytes per 30 seconds of its visible width; blank slots stay blank. */
  ghost predicate Gains(bounds: seq<Interval>, before: seq<Option<real>>, after: seq<Option<real>>,
                        bytes: real, active: seq<Interval>, duration: real) {
    && |before| == |after| == |bounds|
    && forall i | 0 <= i < |bounds| :: SlotGains(bounds[i], before[i], after[i], bytes, active, duration)
  }

  ghost predicate SlotGains(bound: Interval, before: Option<real>, after: Option<real>,
                            bytes: real, active: seq<Interval>, duration: real) {
    if before.None? then after.None?
    else
      var seconds := Overlap(bound.lo, bound.hi, active);
      after.Some? && exists more :: IsRate(more, bound, bytes, seconds, duration) && after.value == before.value + more
  }

  lemma SpreadGains(bounds: seq<Interval>, values: seq<Option<real>>, bytes: real, active: seq<Interval>, duration: real)
    requires duration > 0.0 && |values| == |bounds| && Wide(bounds)
    ensures Gains(bounds, values, Spread(bounds, values, bytes, active, duration), bytes, active, duration)
  {
    forall i | 0 <= i < |bounds|
      ensures SlotGains(bounds[i], values[i], Spread(bounds, values, bytes, active, duration)[i], bytes, active, duration)
    {
      WeightedIsRate(bounds[i], bytes, active, duration);
    }
  }

  /** An hour total gains the part of these bytes that fell inside the range. */
  ghost predicate Charged(before: real, after: real, bytes: real, visible: real, duration: real) {
    exists more :: IsPart(more, bytes, visible, duration) && after == before + more
  }

  ghost predicate IsSpread(h: History, row: HourRow, after: HourRow, w: Window, active: seq<Interval>, duration: real)
    requires h.rangeStart < h.rangeEnd
  {
    var visible := Overlap(h.rangeStart, h.rangeEnd, active);
    && Charged(row.hourUp, after.hourUp, w.up, visible, duration)
    && Charged(row.hourDown, after.hourDown, w.down, visible, duration)
    && Gains(Bounds(h), row.up, after.up, w.up, active, duration)
    && Gains(Bounds(h), row.down, after.down, w.down, active, duration)
  }

  lemma ActiveIsSpread(h: History, row: HourRow, w: Window, active: seq<Interval>, duration: real)
    requires h.rangeStart < h.rangeEnd && Fits(h, row) && duration > 0.0
    ensures IsSpread(h, row, AddActive(h, row, w, active, duration), w, active, duration)
  {
    var visible := Overlap(h.rangeStart, h.rangeEnd, active);
    BoundsTile(h);
    ShareIsPart(w.up, visible, duration);
    ShareIsPart(w.down, visible, duration);
    SpreadGains(Bounds(h), row.up, w.up, active, duration);
    SpreadGains(Bounds(h), row.down, w.down, active, duration);
  }

  /** One window, over the time in it that was not confirmed downtime: without such time nothing changes;
      else each hour total gains the part of the bytes that fell inside the range, and each shown slot its
      own. */
  lemma WindowIsSpread(h: History, row: HourRow, w: Window, zeros: seq<Interval>)
    requires h.rangeStart < h.rangeEnd && Fits(h, row)
    ensures var active, after := Active(w.start, w.end, zeros), AddWindow(h, row, w, zeros);
            var duration := Overlap(w.start, w.end, active);
            if w.end <= w.start || duration <= 0.0 then after == row else IsSpread(h, row, after, w, active, duration)
  {
    var active := Active(w.start, w.end, zeros);
    var duration := Overlap(w.start, w.end, active);
    if w.end > w.start && duration > 0.0 { ActiveIsSpread(h, row, w, active, duration); }
  }

  /** A series counts its windows, or for each point the 30 seconds that end there. */
  lemma WindowsOfSeries(s: Series)
    ensures s.windows.Some? ==> SeriesWindows(s) == s.windows.value
    ensures s.windows.None? ==> |SeriesWindows(s)| == |s.points|
    ensures s.windows.None? ==> forall i | 0 <= i < |s.points| ::
              var (end, up, down) := s.points[i];
              SeriesWindows(s)[i] == Window(end - 30.0, end, up, down)
  {
  }

  ghost predicate IsMultiple(secs: real, n: int) { secs == 30.0 * n as real }

  /** The slots are those of 30 seconds since the epoch, cut to the range: the first holds its start. */
  lemma SlotsAre(h: History, i: nat)
    requires h.rangeStart < h.rangeEnd && i < SlotCount(h)
    ensures Slot(h, 0) <= h.rangeStart < Slot(h, 0) + 30.0 && exists n: int :: IsMultiple(Slot(h, 0), n)
    ensures Slot(h, i) == Slot(h, 0) + 30.0 * i as real
    ensures Bound(h, i).lo == (if i == 0 then h.rangeStart else Slot(h, i))
    ensures Bound(h, i).hi == (if i == SlotCount(h) - 1 then h.rangeEnd else Slot(h, i) + 30.0)
  {
    SlotsReach(h.rangeStart, h.rangeEnd);
    var n := (h.rangeStart / SLOT_SECS).Floor;
    assert IsMultiple(Slot(h, 0), n);
    var last := SlotCount(h) - 1;
    assert i < last ==> Slot(h, i) + 30.0 <= Slot(h, last);
    assert i > 0 ==> Slot(h, i) >= Slot(h, 0) + 30.0;
  }

  /** A slot is blank exactly when more than a millisecond of it was not measured. */
  lemma BlankIs(h: History, key: string, i: nat)
    requires h.rangeStart < h.rangeEnd && i < SlotCount(h)
    ensures var missed := (Bound(h, i).hi - Bound(h, i).lo) - Overlap(Bound(h, i).lo, Bound(h, i).hi, RowMeasured(h, key));
            && (RowOf(h, h.series, key).up[i].None? <==> missed > 0.001)
            && (RowOf(h, h.series, key).down[i].None? <==> missed > 0.001)
  {
    BlankIsUnwatched(h, key, i);
  }
}
