/** The curves over all rows and the scale they are drawn to (the end of `hourModel` in
    frontend/src/user-traffic-realtime.tsx). */
module HourTotals {
  import opened Wrappers
  import opened Intervals
  import opened HourModel

  type Curve = seq<Option<real>>

  function OrZero(x: Option<real>): real { match x case Some(v) => v case None => 0.0 }

  ghost predicate Aligned(curves: seq<Curve>, n: nat) {
    forall k | 0 <= k < |curves| :: |curves[k]| == n
  }

  /** One slot of the total: blank when every row is blank there, else the sum of the others. */
  function TotalAt(curves: seq<Curve>, n: nat, i: nat): Option<real>
    requires Aligned(curves, n) && i < n
  {
    if curves == [] then None
    else
      var front, last := curves[..|curves| - 1], curves[|curves| - 1][i];
      if last.None? then TotalAt(front, n, i) else Some(OrZero(TotalAt(front, n, i)) + last.value)
  }

  function Total(curves: seq<Curve>, n: nat): Curve
    requires Aligned(curves, n)
  {
    seq(n, i requires 0 <= i < n => TotalAt(curves, n, i))
  }

  lemma {:induction false} TotalBlank(curves: seq<Curve>, n: nat, i: nat)
    requires Aligned(curves, n) && i < n
    ensures TotalAt(curves, n, i).None? <==> forall k | 0 <= k < |curves| :: curves[k][i].None?
  {
    if curves != [] {
      var front := curves[..|curves| - 1];
      TotalBlank(front, n, i);
      assert forall k | 0 <= k < |front| :: curves[k] == front[k];
    }
  }

  // ----- the total curve carries what the rows carry

  function ShownByAll(bounds: seq<Interval>, curves: seq<Curve>): real
    requires Aligned(curves, |bounds|)
  {
    if curves == [] then 0.0
    else ShownByAll(bounds, curves[..|curves| - 1]) + Shown(bounds, curves[|curves| - 1])
  }

  lemma FromSlotAdds(x: real, y: real, width: real)
    ensures FromSlot(x + y, width) == FromSlot(x, width) + FromSlot(y, width)
  {
    assert (x + y) * width == x * width + y * width;
  }

  lemma SlotBytesAdd(bound: Interval, before: Option<real>, last: real)
    ensures SlotBytes(bound, Some(OrZero(before) + last)) == SlotBytes(bound, before) + SlotBytes(bound, Some(last))
  {
    var width := bound.hi - bound.lo;
    FromSlotAdds(OrZero(before), last, width);
    FromSlotAdds(0.0, 0.0, width);
  }

  lemma {:induction false} TotalShowsAll(bounds: seq<Interval>, curves: seq<Curve>)
    requires Aligned(curves, |bounds|)
    ensures Shown(bounds, Total(curves, |bounds|)) == ShownByAll(bounds, curves)
  {
    var n := |bounds|;
    if curves == [] {
      BlankShowsNothing(bounds, Total(curves, n));
    } else {
      var front, last := curves[..|curves| - 1], curves[|curves| - 1];
      TotalShowsAll(bounds, front);
      forall i | 0 <= i < n
        ensures Amounts(bounds, Total(curves, n))[i] == Amounts(bounds, Total(front, n))[i] + Amounts(bounds, last)[i]
      {
        if last[i].Some? { SlotBytesAdd(bounds[i], TotalAt(front, n, i), last[i].value); }
      }
      SumAdds(Amounts(bounds, Total(front, n)), Amounts(bounds, last), Amounts(bounds, Total(curves, n)));
    }
  }

  /** What the rows of these keys were charged over the hour, less what was not placed in time and what
      fell into blank slots. */
  function Charged(h: History, keys: seq<string>): Bytes
    requires h.rangeStart < h.rangeEnd
  {
    if keys == [] then Bytes(0.0, 0.0)
    else
      var key := keys[|keys| - 1];
      var row, lost, unplaced := RowOf(h, h.series, key), RowLost(h, h.series, key), RowUnplaced(h.series, key);
      Charged(h, keys[..|keys| - 1]).Plus(
        Bytes(row.hourUp - unplaced.up - lost.up, row.hourDown - unplaced.down - lost.down))
  }

  function UpCurves(h: History, keys: seq<string>): (curves: seq<Curve>)
    requires h.rangeStart < h.rangeEnd
    ensures Aligned(curves, |Bounds(h)|)
  {
    seq(|keys|, k requires 0 <= k < |keys| => RowOf(h, h.series, keys[k]).up)
  }

  function DownCurves(h: History, keys: seq<string>): (curves: seq<Curve>)
    requires h.rangeStart < h.rangeEnd
    ensures Aligned(curves, |Bounds(h)|)
  {
    seq(|keys|, k requires 0 <= k < |keys| => RowOf(h, h.series, keys[k]).down)
  }

  /** Bytes are conserved across all rows: the total curves carry exactly what the rows were charged. */
  lemma TotalsConserve(h: History, keys: seq<string>)
    requires h.rangeStart < h.rangeEnd
    ensures Shown(Bounds(h), Total(UpCurves(h, keys), |Bounds(h)|)) == Charged(h, keys).up
    ensures Shown(Bounds(h), Total(DownCurves(h, keys), |Bounds(h)|)) == Charged(h, keys).down
  {
    TotalShowsAll(Bounds(h), UpCurves(h, keys));
    TotalShowsAll(Bounds(h), DownCurves(h, keys));
    CurvesCharged(h, keys);
  }

  lemma {:induction false} CurvesCharged(h: History, keys: seq<string>)
    requires h.rangeStart < h.rangeEnd
    ensures ShownByAll(Bounds(h), UpCurves(h, keys)) == Charged(h, keys).up
    ensures ShownByAll(Bounds(h), DownCurves(h, keys)) == Charged(h, keys).down
  {
    if keys != [] {
      var n := |keys| - 1;
      CurvesCharged(h, keys[..n]);
      LastCurve(Bounds(h), UpCurves(h, keys), UpCurves(h, keys[..n]));
      LastCurve(Bounds(h), DownCurves(h, keys), DownCurves(h, keys[..n]));
      RowShows(h, keys[n]);
    }
  }

  lemma LastCurve(bounds: seq<Interval>, curves: seq<Curve>, front: seq<Curve>)
    requires Aligned(curves, |bounds|) && |curves| == |front| + 1
    requires forall k | 0 <= k < |front| :: curves[k] == front[k]
    ensures ShownByAll(bounds, curves) == ShownByAll(bounds, front) + Shown(bounds, curves[|front|])
  {
    assert curves[..|curves| - 1] == front;
  }

  lemma RowShows(h: History, key: string)
    requires h.rangeStart < h.rangeEnd
    ensures var row, lost, unplaced := RowOf(h, h.series, key), RowLost(h, h.series, key), RowUnplaced(h.series, key);
            && Shown(Bounds(h), row.up) == row.hourUp - unplaced.up - lost.up
            && Shown(Bounds(h), row.down) == row.hourDown - unplaced.down - lost.down
  {
    BytesConserved(h, h.series, key);
  }

  // ----- the loops

  /** Both directions of a row are blank in the same slots. */
  ghost predicate Paired(rows: seq<HourRow>, n: nat) {
    forall k | 0 <= k < |rows| :: |rows[k].up| == |rows[k].down| == n
                                   && forall i | 0 <= i < n :: rows[k].up[i].Some? <==> rows[k].down[i].Some?
  }

  function Ups(rows: seq<HourRow>): seq<Curve> { seq(|rows|, k requires 0 <= k < |rows| => rows[k].up) }

  function Downs(rows: seq<HourRow>): seq<Curve> { seq(|rows|, k requires 0 <= k < |rows| => rows[k].down) }

  predicate AnyShows(rows: seq<HourRow>, n: nat, i: nat)
    requires Paired(rows, n) && i < n
  {
    exists k :: 0 <= k < |rows| && rows[k].down[i].Some?
  }

  /** Bytes per second, both ways together; a blank is none. */
  function Rate(row: HourRow, n: nat, i: nat): (rate: real)
    requires |row.up| == |row.down| == n && i < n
    ensures rate * 30.0 == (if row.down[i].Some? then row.down[i].value else 0.0)
                           + (if row.up[i].Some? then row.up[i].value else 0.0)
  {
    (OrZero(row.down[i]) + OrZero(row.up[i])) / SLOT_SECS
  }

  /** The highest rate any row shows, or zero. */
  ghost predicate IsPeak(rows: seq<HourRow>, n: nat, peak: real)
    requires Paired(rows, n)
  {
    && (forall k, i | 0 <= k < |rows| && 0 <= i < n :: Rate(rows[k], n, i) <= peak)
    && peak >= 0.0 && (peak == 0.0 || exists k, i :: 0 <= k < |rows| && 0 <= i < n && Rate(rows[k], n, i) == peak)
  }

  /** The values so far: blank where no row shows anything, else the sum over the first `k` rows. */
  ghost predicate Accumulated(rows: seq<HourRow>, n: nat, curves: seq<Curve>, k: nat, total: Curve)
    requires Paired(rows, n) && Aligned(curves, n) && k <= |curves|
  {
    |total| == n && forall i | 0 <= i < n ::
      total[i] == if AnyShows(rows, n, i) then Some(OrZero(TotalAt(curves[..k], n, i))) else None
  }

  method Totals(rows: seq<HourRow>, n: nat) returns (totalDown: Curve, totalUp: Curve, peak: real)
    requires Paired(rows, n)
    ensures totalDown == Total(Downs(rows), n) && totalUp == Total(Ups(rows), n)
    ensures IsPeak(rows, n, peak)
  {
    ghost var downs, ups := Downs(rows), Ups(rows);
    totalDown := Zeroes(rows, n, downs);
    totalUp := Zeroes(rows, n, ups);
    peak := 0.0;
    for k := 0 to |rows|
      invariant Accumulated(rows, n, downs, k, totalDown) && Accumulated(rows, n, ups, k, totalUp)
      invariant IsPeak(rows[..k], n, peak)
    {
      totalDown := AddCurve(rows, n, downs, k, totalDown, rows[k].down);
      totalUp := AddCurve(rows, n, ups, k, totalUp, rows[k].up);
      peak := AddPeak(rows, n, k, peak);
    }
    assert downs[..|rows|] == downs && ups[..|rows|] == ups && rows[..|rows|] == rows;
    SettledTotal(rows, n, downs, totalDown);
    SettledTotal(rows, n, ups, totalUp);
  }

  method Zeroes(rows: seq<HourRow>, n: nat, ghost curves: seq<Curve>) returns (total: Curve)
    requires Paired(rows, n) && Aligned(curves, n)
    ensures Accumulated(rows, n, curves, 0, total)
  {
    total := seq(n, i requires 0 <= i < n && Paired(rows, n) => if AnyShows(rows, n, i) then Some(0.0) else None);
  }

  /** At the end the curve is the total. */
  lemma SettledTotal(rows: seq<HourRow>, n: nat, curves: seq<Curve>, total: Curve)
    requires Paired(rows, n) && (curves == Downs(rows) || curves == Ups(rows)) && Aligned(curves, n)
    requires Accumulated(rows, n, curves, |curves|, total)
    ensures total == Total(curves, n)
  {
    assert curves[..|curves|] == curves;
    forall i | 0 <= i < n ensures total[i] == TotalAt(curves, n, i) {
      TotalBlank(curves, n, i);
      assert forall k | 0 <= k < |rows| :: curves[k][i].Some? <==> rows[k].down[i].Some?;
    }
  }

  method AddCurve(ghost rows: seq<HourRow>, n: nat, ghost curves: seq<Curve>, ghost k: nat, total: Curve, row: Curve)
    returns (after: Curve)
    requires Paired(rows, n) && (curves == Downs(rows) || curves == Ups(rows)) && Aligned(curves, n)
    requires k < |rows| && row == curves[k] && Accumulated(rows, n, curves, k, total)
    ensures Accumulated(rows, n, curves, k + 1, after)
  {
    after := total;
    for i := 0 to n
      invariant |after| == n
      invariant forall j | i <= j < n :: after[j] == total[j]
      invariant forall j | 0 <= j < i :: after[j] == if row[j].Some? then Some(OrZero(total[j]) + row[j].value) else total[j]
    {
      if row[i].Some? { after := after[i := Some(OrZero(after[i]) + row[i].value)]; }
    }
    assert curves[..k + 1][..k] == curves[..k];
    assert forall i | 0 <= i < n && row[i].Some? :: rows[k].down[i].Some?;
  }

  method AddPeak(rows: seq<HourRow>, n: nat, k: nat, peak: real) returns (after: real)
    requires Paired(rows, n) && k < |rows| && IsPeak(rows[..k], n, peak)
    ensures IsPeak(rows[..k + 1], n, after)
  {
    after := peak;
    ghost var seen := rows[..k + 1];
    assert forall l | 0 <= l < k :: seen[l] == rows[..k][l];
    assert seen[k] == rows[k];
    if peak != 0.0 {
      ghost var l, j :| 0 <= l < k && 0 <= j < n && Rate(rows[..k][l], n, j) == peak;
      assert Rate(seen[l], n, j) == peak;
    }
    for i := 0 to n
      invariant after >= peak >= 0.0
      invariant forall j | 0 <= j < i :: Rate(seen[k], n, j) <= after
      invariant after == peak || exists j :: 0 <= j < i && Rate(seen[k], n, j) == after
    {
      var down := if rows[k].down[i].Some? then rows[k].down[i].value else 0.0;
      var up := if rows[k].up[i].Some? then rows[k].up[i].value else 0.0;
      var rate := (down + up) / 30.0;
      assert rate == Rate(seen[k], n, i);
      after := Max(after, rate);
    }
  }

  // ----- the whole of `hourModel`

  ghost predicate Lists(keys: seq<string>, all: set<string>) {
    (forall i, j | 0 <= i < j < |keys| :: keys[i] != keys[j]) && forall k :: k in keys <==> k in all
  }

  /** `rows.values()`, in some order. */
  method Values(rows: map<string, HourRow>) returns (values: seq<HourRow>, ghost keys: seq<string>)
    ensures Lists(keys, rows.Keys) && |values| == |keys|
    ensures forall k | 0 <= k < |keys| :: values[k] == rows[keys[k]]
  {
    values, keys := [], [];
    var left := rows.Keys;
    while left != {}
      invariant left <= rows.Keys && |values| == |keys| && Lists(keys, rows.Keys - left)
      invariant forall k | 0 <= k < |keys| :: keys[k] in rows && values[k] == rows[keys[k]]
      decreases left
    {
      var key :| key in left;
      values, keys, left := values + [rows[key]], keys + [key], left - {key};
    }
  }

  lemma RowsArePaired(h: History, keys: seq<string>, values: seq<HourRow>)
    requires h.rangeStart < h.rangeEnd && |values| == |keys|
    requires forall k | 0 <= k < |keys| :: values[k] == RowOf(h, h.series, keys[k])
    ensures Paired(values, |Bounds(h)|)
    ensures Ups(values) == UpCurves(h, keys) && Downs(values) == DownCurves(h, keys)
  {
    forall k | 0 <= k < |values|
      ensures Masked(values[k].up, Mask(h, keys[k])) && Masked(values[k].down, Mask(h, keys[k]))
    {
      BytesConserved(h, h.series, keys[k]);
    }
  }

  /** A total is blank exactly where no row was measured for the whole slot. */
  ghost predicate BlankWhenUnwatched(h: History, keys: set<string>, total: Curve)
    requires h.rangeStart < h.rangeEnd
  {
    |total| == SlotCount(h) && forall i | 0 <= i < |total| ::
      total[i].None? <==> forall key | key in keys :: !Watched(Bound(h, i), RowMeasured(h, key))
  }

  lemma TotalsAreBlank(h: History, keys: seq<string>, all: set<string>)
    requires h.rangeStart < h.rangeEnd && Lists(keys, all)
    ensures BlankWhenUnwatched(h, all, Total(UpCurves(h, keys), |Bounds(h)|))
    ensures BlankWhenUnwatched(h, all, Total(DownCurves(h, keys), |Bounds(h)|))
  {
    forall i | 0 <= i < SlotCount(h)
      ensures var watched := exists key :: key in all && Watched(Bound(h, i), RowMeasured(h, key));
              && (Total(UpCurves(h, keys), |Bounds(h)|)[i].Some? <==> watched)
              && (Total(DownCurves(h, keys), |Bounds(h)|)[i].Some? <==> watched)
    {
      TotalBlank(UpCurves(h, keys), |Bounds(h)|, i);
      TotalBlank(DownCurves(h, keys), |Bounds(h)|, i);
      forall k | 0 <= k < |keys|
        ensures UpCurves(h, keys)[k][i].None? <==> !Watched(Bound(h, i), RowMeasured(h, keys[k]))
        ensures DownCurves(h, keys)[k][i].None? <==> !Watched(Bound(h, i), RowMeasured(h, keys[k]))
      {
        BlankIsUnwatched(h, keys[k], i);
      }
    }
  }

  ghost predicate AreRows(h: History, rows: map<string, HourRow>)
    requires h.rangeStart < h.rangeEnd
  {
    && (forall key :: key in rows <==> NodeOf(h.nodes, key).Some? || HasSeries(h.series, key))
    && (forall key | key in rows :: rows[key] == RowOf(h, h.series, key))
  }

  ghost predicate CarryCharged(h: History, keys: seq<string>, totalDown: Curve, totalUp: Curve)
    requires h.rangeStart < h.rangeEnd
  {
    && |totalDown| == |totalUp| == |Bounds(h)|
    && Shown(Bounds(h), totalDown) == Charged(h, keys).down
    && Shown(Bounds(h), totalUp) == Charged(h, keys).up
  }

  function RateOf(h: History, key: string, i: nat): real
    requires h.rangeStart < h.rangeEnd && i < |Bounds(h)|
  {
    Rate(RowOf(h, h.series, key), |Bounds(h)|, i)
  }

  /** The highest rate a row of these keys shows, or zero. */
  ghost predicate IsHighest(h: History, keys: set<string>, peak: real)
    requires h.rangeStart < h.rangeEnd
  {
    && (forall key, i | key in keys && 0 <= i < |Bounds(h)| :: RateOf(h, key, i) <= peak)
    && peak >= 0.0
    && (peak == 0.0 || exists key, i :: key in keys && 0 <= i < |Bounds(h)| && RateOf(h, key, i) == peak)
  }

  lemma HighestOf(h: History, keys: seq<string>, all: set<string>, values: seq<HourRow>, peak: real)
    requires h.rangeStart < h.rangeEnd && Lists(keys, all) && |values| == |keys|
    requires forall k | 0 <= k < |keys| :: values[k] == RowOf(h, h.series, keys[k])
    requires Paired(values, |Bounds(h)|) && IsPeak(values, |Bounds(h)|, peak)
    ensures IsHighest(h, all, peak)
  {
    var n := |Bounds(h)|;
    forall key, i | key in all && 0 <= i < n ensures RateOf(h, key, i) <= peak {
      var k :| 0 <= k < |keys| && keys[k] == key;
      assert Rate(values[k], n, i) <= peak;
    }
    if peak != 0.0 {
      var k, i :| 0 <= k < |values| && 0 <= i < n && Rate(values[k], n, i) == peak;
      assert keys[k] in keys && RateOf(h, keys[k], i) == peak;
    }
  }

  /** `hourModel`: the rows, and total curves that carry exactly what these rows were charged. */
  method HourCurves(h: History)
    returns (rows: map<string, HourRow>, totalDown: Curve, totalUp: Curve, peak: real, ghost keys: seq<string>)
    requires Measured(h)
    ensures AreRows(h, rows) && Lists(keys, rows.Keys)
    ensures CarryCharged(h, keys, totalDown, totalUp)
    ensures BlankWhenUnwatched(h, rows.Keys, totalDown) && BlankWhenUnwatched(h, rows.Keys, totalUp)
    ensures IsHighest(h, rows.Keys, peak)
  {
    rows := HourRows(h);
    var values: seq<HourRow>;
    values, keys := Values(rows);
    RowsArePaired(h, keys, values);
    var n := |Bounds(h)|;
    totalDown, totalUp, peak := Totals(values, n);
    TotalsConserve(h, keys);
    TotalsAreBlank(h, keys, rows.Keys);
    HighestOf(h, keys, rows.Keys, values, peak);
  }
}
