/** Rows of live traffic kept across reports (`mergeRetained` in
  frontend/src/user-traffic-realtime.tsx). A JavaScript `Map` is its rows in insertion order. */
module RetainedRows {
  import opened Wrappers

  /** One row of a report; `None` is a reading the report cannot give. */
  datatype LiveRow = LiveRow(key: string, down: Option<real>, up: Option<real>, notCurrent: bool, measuredAt: Option<int>)

  datatype Row = Row(
    key: string, down: Option<real>, up: Option<real>, current: bool, measuredAt: Option<int>, lastActive: Option<int>)

  const RETAINED_LIMIT := 2048

  function Lookup(rows: seq<Row>, key: string): Option<Row> {
    if rows == [] then None else if rows[0].key == key then Some(rows[0]) else Lookup(rows[1..], key)
  }

  /** `Map.set`: in place when the key is there, at the end otherwise. */
  function Put(rows: seq<Row>, row: Row): seq<Row> {
    if rows == [] then [row]
    else if rows[0].key == row.key then [row] + rows[1..]
    else [rows[0]] + Put(rows[1..], row)
  }

  ghost predicate UniqueKeys(rows: seq<Row>) {
    forall i, j | 0 <= i < j < |rows| :: rows[i].key != rows[j].key
  }

  predicate Known(row: LiveRow) { row.down.Some? && row.up.Some? }

  function OrZero(x: Option<real>): real { match x case Some(v) => v case None => 0.0 }

  function Or(x: Option<int>, at: int): int { match x case Some(v) => v case None => at }

  predicate IsActive(row: LiveRow) { OrZero(row.down) + OrZero(row.up) > 0.0 }

  /** A reported row over what was retained of it: a reading replaces, a missing one does not. */
  function Reported(before: Option<Row>, row: LiveRow, at: int): Row {
    Row(row.key,
        if Known(row) then row.down else if before.Some? then before.value.down else None,
        if Known(row) then row.up else if before.Some? then before.value.up else None,
        Known(row) && !row.notCurrent,
        if Known(row) then Some(Or(row.measuredAt, at)) else if before.Some? then before.value.measuredAt else None,
        if IsActive(row) then Some(Or(row.measuredAt, at)) else if before.Some? then before.value.lastActive else None)
  }

  /** A retained row the report does not mention: idle if the report is complete. */
  function Omitted(row: Row, complete: bool, at: int): Row {
    if complete then row.(down := Some(0.0), up := Some(0.0), current := true, measuredAt := Some(at))
    else row.(current := false)
  }

  datatype Report = Report(live: seq<LiveRow>, complete: bool, at: int)

  predicate Mentions(live: seq<LiveRow>, key: string) {
    exists i :: 0 <= i < |live| && live[i].key == key
  }

  function PutLive(rows: seq<Row>, previous: seq<Row>, live: seq<LiveRow>, at: int): seq<Row> {
    if live == [] then rows
    else
      var last := live[|live| - 1];
      Put(PutLive(rows, previous, live[..|live| - 1], at), Reported(Lookup(previous, last.key), last, at))
  }

  function PutOmitted(rows: seq<Row>, previous: seq<Row>, report: Report): seq<Row> {
    if previous == [] then rows
    else
      var last := previous[|previous| - 1];
      var done := PutOmitted(rows, previous[..|previous| - 1], report);
      if Mentions(report.live, last.key) then done else Put(done, Omitted(last, report.complete, report.at))
  }

  function Merged(previous: seq<Row>, report: Report): seq<Row> {
    PutOmitted(PutLive(previous, previous, report.live, report.at), previous, report)
  }

  // ----- eviction

  function Recency(row: Row): int { Or(row.lastActive, 0) }

  /** Stable insertion by recency, as the built-in sort leaves it. */
  function Insert(row: Row, sorted: seq<Row>): seq<Row> {
    if sorted == [] || Recency(sorted[|sorted| - 1]) <= Recency(row) then sorted + [row]
    else Insert(row, sorted[..|sorted| - 1]) + [sorted[|sorted| - 1]]
  }

  function ByRecency(rows: seq<Row>): seq<Row> {
    if rows == [] then [] else Insert(rows[|rows| - 1], ByRecency(rows[..|rows| - 1]))
  }

  function Remove(rows: seq<Row>, key: string): seq<Row> {
    if rows == [] then []
    else if rows[0].key == key then rows[1..]
    else [rows[0]] + Remove(rows[1..], key)
  }

  function RemoveAll(rows: seq<Row>, gone: seq<Row>): seq<Row> {
    if gone == [] then rows else Remove(RemoveAll(rows, gone[..|gone| - 1]), gone[|gone| - 1].key)
  }

  function Evicted(rows: seq<Row>): seq<Row> {
    var sorted := ByRecency(rows);
    if |rows| > RETAINED_LIMIT && |sorted| == |rows| then sorted[..|rows| - RETAINED_LIMIT] else []
  }

  function MergeRetained(previous: seq<Row>, report: Report): seq<Row> {
    var rows := Merged(previous, report);
    RemoveAll(rows, Evicted(rows))
  }

  method MergeInPlace(previous: seq<Row>, report: Report) returns (next: seq<Row>)
    ensures next == MergeRetained(previous, report)
  {
    var seen: set<string>;
    next, seen := PutReports(previous, report);
    next := PutOthers(next, previous, report, seen);
    if |next| > RETAINED_LIMIT {
      SortKeeps(next);
      next := Evict(next, ByRecency(next)[..|next| - RETAINED_LIMIT]);
    }
  }

  method PutReports(previous: seq<Row>, report: Report) returns (next: seq<Row>, seen: set<string>)
    ensures next == PutLive(previous, previous, report.live, report.at)
    ensures forall k :: k in seen <==> Mentions(report.live, k)
  {
    next, seen := previous, {};
    for i := 0 to |report.live|
      invariant next == PutLive(previous, previous, report.live[..i], report.at)
      invariant seen == set k | 0 <= k < i :: report.live[k].key
    {
      var row := report.live[i];
      assert report.live[..i + 1][..i] == report.live[..i];
      seen := seen + {row.key};
      var now := NextRow(Lookup(previous, row.key), row, report.at);
      next := Put(next, now);
    }
    assert report.live[..|report.live|] == report.live;
  }

  /** The row a reading leaves, over what was retained before. */
  method NextRow(before: Option<Row>, row: LiveRow, at: int) returns (now: Row)
    ensures now == Reported(before, row, at)
  {
    var known := row.down.Some? && row.up.Some?;
    var active := (if row.down.Some? then row.down.value else 0.0) + (if row.up.Some? then row.up.value else 0.0) > 0.0;
    var measuredAt := if row.measuredAt.Some? then row.measuredAt.value else at;
    now := Row(
      row.key,
      if known then row.down else if before.Some? then before.value.down else None,
      if known then row.up else if before.Some? then before.value.up else None,
      known && !row.notCurrent,
      if known then Some(measuredAt) else if before.Some? then before.value.measuredAt else None,
      if active then Some(measuredAt) else if before.Some? then before.value.lastActive else None);
  }

  method PutOthers(reported: seq<Row>, previous: seq<Row>, report: Report, seen: set<string>) returns (next: seq<Row>)
    requires forall k :: k in seen <==> Mentions(report.live, k)
    ensures next == PutOmitted(reported, previous, report)
  {
    next := reported;
    for i := 0 to |previous|
      invariant next == PutOmitted(reported, previous[..i], report)
    {
      var row := previous[i];
      assert previous[..i + 1][..i] == previous[..i];
      if row.key !in seen {
        next := Put(next, if report.complete
                          then Row(row.key, Some(0.0), Some(0.0), true, Some(report.at), row.lastActive)
                          else row.(current := false));
      }
    }
    assert previous[..|previous|] == previous;
  }

  method Evict(rows: seq<Row>, evict: seq<Row>) returns (next: seq<Row>)
    ensures next == RemoveAll(rows, evict)
  {
    next := rows;
    for i := 0 to |evict|
      invariant next == RemoveAll(rows, evict[..i])
    {
      assert evict[..i + 1][..i] == evict[..i];
      next := Remove(next, evict[i].key);
    }
    assert evict[..|evict|] == evict;
  }

  // ----- one merge

  lemma {:induction false} LookupIn(rows: seq<Row>, key: string)
    ensures Lookup(rows, key).Some? ==> Lookup(rows, key).value in rows && Lookup(rows, key).value.key == key
    ensures Lookup(rows, key).None? ==> forall r | r in rows :: r.key != key
    ensures UniqueKeys(rows) ==> forall r | r in rows && r.key == key :: Lookup(rows, key) == Some(r)
  {
    if rows != [] { LookupIn(rows[1..], key); }
  }

  lemma {:induction false} PutMembers(rows: seq<Row>, row: Row)
    ensures forall r | r in Put(rows, row) :: r == row || r in rows
  {
    if rows != [] { PutMembers(rows[1..], row); }
  }

  lemma {:induction false} PutLookup(rows: seq<Row>, row: Row, key: string)
    ensures Lookup(Put(rows, row), key) == if key == row.key then Some(row) else Lookup(rows, key)
  {
    if rows == [] {
      assert [row][1..] == [];
    } else if rows[0].key == row.key {
      assert ([row] + rows[1..])[1..] == rows[1..];
    } else {
      PutLookup(rows[1..], row, key);
      assert ([rows[0]] + Put(rows[1..], row))[1..] == Put(rows[1..], row);
    }
  }

  lemma {:induction false} PutUnique(rows: seq<Row>, row: Row)
    requires UniqueKeys(rows)
    ensures UniqueKeys(Put(rows, row))
  {
    if rows != [] {
      var tail := rows[1..];
      assert forall r | r in tail :: r.key != rows[0].key;
      if rows[0].key != row.key {
        PutUnique(tail, row);
        PutMembers(tail, row);
      }
    }
  }

  lemma PutPuts(rows: seq<Row>, row: Row, key: string)
    requires UniqueKeys(rows)
    ensures UniqueKeys(Put(rows, row))
    ensures forall r | r in Put(rows, row) :: r == row || r in rows
    ensures Lookup(Put(rows, row), key) == if key == row.key then Some(row) else Lookup(rows, key)
  {
    PutUnique(rows, row);
    PutMembers(rows, row);
    PutLookup(rows, row, key);
  }

  /** Setting a key keeps its place, and a new key goes to the end. */
  lemma {:induction false} PutKeepsPlaces(rows: seq<Row>, row: Row)
    ensures |rows| <= |Put(rows, row)| <= |rows| + 1
    ensures |Put(rows, row)| == |rows| <==> exists i :: 0 <= i < |rows| && rows[i].key == row.key
    ensures forall i | 0 <= i < |rows| :: Put(rows, row)[i].key == rows[i].key
  {
    if rows != [] {
      PutKeepsPlaces(rows[1..], row);
      forall i | 0 < i < |rows| ensures Put(rows, row)[i].key == rows[i].key {
        assert rows[1..][i - 1] == rows[i];
      }
      if i :| 0 <= i < |rows[1..]| && rows[1..][i].key == row.key { assert rows[i + 1].key == row.key; }
      if i :| 0 <= i < |rows| && rows[i].key == row.key { assert i > 0 ==> rows[1..][i - 1].key == row.key; }
    }
  }

  /** The last row a report gives for a key; later rows of one key replace earlier ones. */
  function LastFor(live: seq<LiveRow>, key: string): Option<LiveRow> {
    if live == [] then None
    else if live[|live| - 1].key == key then Some(live[|live| - 1])
    else LastFor(live[..|live| - 1], key)
  }

  lemma {:induction false} LastForMentions(live: seq<LiveRow>, key: string)
    ensures LastFor(live, key).Some? <==> Mentions(live, key)
    ensures LastFor(live, key).Some? ==> LastFor(live, key).value.key == key
  {
    if live != [] {
      LastForMentions(live[..|live| - 1], key);
      assert live == live[..|live| - 1] + [live[|live| - 1]];
    }
  }

  lemma {:induction false} PutLiveAt(previous: seq<Row>, live: seq<LiveRow>, at: int, key: string)
    requires UniqueKeys(previous)
    ensures UniqueKeys(PutLive(previous, previous, live, at))
    ensures Lookup(PutLive(previous, previous, live, at), key) ==
            match LastFor(live, key)
            case Some(row) => Some(Reported(Lookup(previous, key), row, at))
            case None => Lookup(previous, key)
  {
    if live != [] {
      var last := live[|live| - 1];
      PutLiveAt(previous, live[..|live| - 1], at, key);
      PutPuts(PutLive(previous, previous, live[..|live| - 1], at), Reported(Lookup(previous, last.key), last, at), key);
    }
  }

  lemma {:induction false} PutOmittedAt(rows: seq<Row>, previous: seq<Row>, report: Report, key: string)
    requires UniqueKeys(rows) && UniqueKeys(previous)
    ensures UniqueKeys(PutOmitted(rows, previous, report))
    ensures Lookup(PutOmitted(rows, previous, report), key) ==
            if Lookup(previous, key).Some? && !Mentions(report.live, key)
            then Some(Omitted(Lookup(previous, key).value, report.complete, report.at))
            else Lookup(rows, key)
  {
    if previous != [] {
      var front, last := previous[..|previous| - 1], previous[|previous| - 1];
      PutOmittedAt(rows, front, report, key);
      LookupLast(previous, key);
      if !Mentions(report.live, last.key) {
        PutPuts(PutOmitted(rows, front, report), Omitted(last, report.complete, report.at), key);
      }
    }
  }

  lemma {:induction false} LookupLast(rows: seq<Row>, key: string)
    requires rows != [] && UniqueKeys(rows)
    ensures var front, last := rows[..|rows| - 1], rows[|rows| - 1];
            Lookup(rows, key) == if last.key == key then Some(last) else Lookup(front, key)
  {
    var front, last := rows[..|rows| - 1], rows[|rows| - 1];
    LookupIn(rows, key);
    LookupIn(front, key);
    assert rows == front + [last];
  }

  /** What a merge makes of each key, before rows are evicted. */
  lemma MergedAt(previous: seq<Row>, report: Report, key: string)
    requires UniqueKeys(previous)
    ensures UniqueKeys(Merged(previous, report))
    ensures Lookup(Merged(previous, report), key) ==
            match LastFor(report.live, key)
            case Some(row) => Some(Reported(Lookup(previous, key), row, report.at))
            case None =>
              if Lookup(previous, key).Some?
              then Some(Omitted(Lookup(previous, key).value, report.complete, report.at))
              else None
  {
    PutLiveAt(previous, report.live, report.at, key);
    PutOmittedAt(PutLive(previous, previous, report.live, report.at), previous, report, key);
    LastForMentions(report.live, key);
  }

  // ----- eviction drops the least recently active

  lemma {:induction false} InsertKeeps(row: Row, sorted: seq<Row>)
    ensures multiset(Insert(row, sorted)) == multiset(sorted) + multiset{row}
    ensures |Insert(row, sorted)| == |sorted| + 1
  {
    if !(sorted == [] || Recency(sorted[|sorted| - 1]) <= Recency(row)) {
      InsertKeeps(row, sorted[..|sorted| - 1]);
      assert sorted == sorted[..|sorted| - 1] + [sorted[|sorted| - 1]];
    }
  }

  lemma {:induction false} SortKeeps(rows: seq<Row>)
    ensures multiset(ByRecency(rows)) == multiset(rows) && |ByRecency(rows)| == |rows|
  {
    if rows != [] {
      SortKeeps(rows[..|rows| - 1]);
      InsertKeeps(rows[|rows| - 1], ByRecency(rows[..|rows| - 1]));
      assert rows == rows[..|rows| - 1] + [rows[|rows| - 1]];
    }
  }

  ghost predicate Ascending(rows: seq<Row>) {
    forall i, j | 0 <= i < j < |rows| :: Recency(rows[i]) <= Recency(rows[j])
  }

  lemma InsertMembers(row: Row, sorted: seq<Row>, r: Row)
    ensures r in Insert(row, sorted) <==> r == row || r in sorted
  {
    InsertKeeps(row, sorted);
    assert r in Insert(row, sorted) <==> r in multiset(Insert(row, sorted));
    assert r in sorted <==> r in multiset(sorted);
  }

  lemma {:induction false} InsertAscends(row: Row, sorted: seq<Row>)
    requires Ascending(sorted)
    ensures Ascending(Insert(row, sorted))
    ensures sorted != [] && Recency(row) <= Recency(sorted[|sorted| - 1]) ==>
              forall r | r in Insert(row, sorted) :: Recency(r) <= Recency(sorted[|sorted| - 1])
  {
    if sorted != [] {
      var front, last := sorted[..|sorted| - 1], sorted[|sorted| - 1];
      assert forall r | r in sorted :: Recency(r) <= Recency(last);
      if Recency(last) > Recency(row) {
        InsertAscends(row, front);
        assert Insert(row, sorted) == Insert(row, front) + [last];
        forall r | r in Insert(row, front) ensures Recency(r) <= Recency(last) {
          InsertMembers(row, front, r);
        }
      } else {
        assert Insert(row, sorted) == sorted + [row];
      }
    }
  }

  lemma {:induction false} SortAscends(rows: seq<Row>)
    ensures Ascending(ByRecency(rows))
  {
    if rows != [] {
      SortAscends(rows[..|rows| - 1]);
      InsertAscends(rows[|rows| - 1], ByRecency(rows[..|rows| - 1]));
    }
  }

  lemma {:induction false} RemoveRemoves(rows: seq<Row>, row: Row)
    requires UniqueKeys(rows) && row in rows
    ensures UniqueKeys(Remove(rows, row.key)) && |Remove(rows, row.key)| == |rows| - 1
    ensures forall r :: r in Remove(rows, row.key) <==> r in rows && r != row
  {
    if rows[0].key == row.key {
      assert rows[0] == row;
      assert forall r | r in rows[1..] :: r.key != row.key;
    } else {
      assert row in rows[1..];
      RemoveRemoves(rows[1..], row);
      assert forall r | r in rows[1..] :: r.key != rows[0].key;
    }
  }

  /** Deleting a key leaves the others in their places behind it. */
  lemma {:induction false} RemoveClosesUp(rows: seq<Row>, at: nat)
    requires UniqueKeys(rows) && at < |rows|
    ensures Remove(rows, rows[at].key) == rows[..at] + rows[at + 1..]
  {
    if at > 0 {
      assert rows[0].key != rows[at].key;
      RemoveClosesUp(rows[1..], at - 1);
      assert rows[1..][..at - 1] == rows[1..at] && rows[1..][at..] == rows[at + 1..];
    }
  }

  ghost predicate Different(rows: seq<Row>) {
    forall i, j | 0 <= i < j < |rows| :: rows[i] != rows[j]
  }

  lemma {:induction false} RemoveAllRemoves(rows: seq<Row>, gone: seq<Row>)
    requires UniqueKeys(rows) && Different(gone) && forall r | r in gone :: r in rows
    ensures UniqueKeys(RemoveAll(rows, gone)) && |RemoveAll(rows, gone)| == |rows| - |gone|
    ensures forall r :: r in RemoveAll(rows, gone) <==> r in rows && r !in gone
  {
    if gone != [] {
      var front, last := gone[..|gone| - 1], gone[|gone| - 1];
      assert gone == front + [last];
      assert forall r | r in front :: r in gone;
      RemoveAllRemoves(rows, front);
      assert last !in front;
      RemoveRemoves(RemoveAll(rows, front), last);
    }
  }

  lemma {:induction false} DifferentPart(rows: seq<Row>, sorted: seq<Row>, n: nat)
    requires UniqueKeys(rows) && multiset(sorted) == multiset(rows) && n <= |sorted|
    ensures Different(sorted[..n]) && forall r | r in sorted[..n] :: r in rows
  {
    forall r | r in sorted ensures multiset(sorted)[r] <= 1 { AtMostOnce(rows, r); }
    OnceIsDifferent(sorted);
    forall r | r in sorted[..n] ensures r in rows {
      assert r in multiset(sorted);
    }
  }

  lemma {:induction false} AtMostOnce(rows: seq<Row>, r: Row)
    requires UniqueKeys(rows)
    ensures multiset(rows)[r] <= 1
  {
    if rows != [] {
      AtMostOnce(rows[1..], r);
      assert rows == [rows[0]] + rows[1..];
      assert forall x | x in rows[1..] :: x.key != rows[0].key;
    }
  }

  lemma {:induction false} OnceIsDifferent(rows: seq<Row>)
    requires forall r | r in rows :: multiset(rows)[r] <= 1
    ensures Different(rows)
  {
    if rows != [] {
      var tail := rows[1..];
      assert rows == [rows[0]] + tail;
      forall r | r in tail ensures multiset(tail)[r] <= 1 {
        assert r in rows;
        assert multiset(rows)[r] == multiset([rows[0]])[r] + multiset(tail)[r];
      }
      OnceIsDifferent(tail);
      assert multiset(rows)[rows[0]] == 1 + multiset(tail)[rows[0]];
      assert rows[0] !in multiset(tail);
      assert forall j | 0 < j < |rows| :: rows[j] == tail[j - 1] && tail[j - 1] in multiset(tail);
    }
  }

  /** An element of the whole that is not in the first `n` sits at or after them. */
  lemma BeyondPrefix(rows: seq<Row>, n: nat, r: Row) returns (i: nat)
    requires n <= |rows| && r in rows && r !in rows[..n]
    ensures n <= i < |rows| && rows[i] == r
  {
    assert rows == rows[..n] + rows[n..];
    assert r in rows[n..];
    var k :| 0 <= k < |rows[n..]| && rows[n..][k] == r;
    i := n + k;
  }

  ghost predicate Ahead(rows: seq<Row>, x: Row, y: Row) {
    exists i, j :: 0 <= i < j < |rows| && rows[i] == x && rows[j] == y
  }

  lemma AheadGrows(rows: seq<Row>, more: seq<Row>, x: Row, y: Row)
    requires Ahead(rows, x, y)
    ensures Ahead(rows + more, x, y)
  {
    var i, j :| 0 <= i < j < |rows| && rows[i] == x && rows[j] == y;
    assert (rows + more)[i] == x && (rows + more)[j] == y;
  }

  lemma AheadOfLast(rows: seq<Row>, x: Row, last: Row)
    requires x in rows
    ensures Ahead(rows + [last], x, last)
  {
    var i :| 0 <= i < |rows| && rows[i] == x;
    assert (rows + [last])[i] == x && (rows + [last])[|rows|] == last;
  }

  /** An inserted row goes behind every one as recent or less... */
  lemma {:induction false} InsertGoesBehind(row: Row, sorted: seq<Row>, x: Row)
    requires x in sorted && Recency(x) <= Recency(row) && Ascending(sorted)
    ensures Ahead(Insert(row, sorted), x, row)
  {
    var front, last := sorted[..|sorted| - 1], sorted[|sorted| - 1];
    if Recency(last) <= Recency(row) {
      AheadOfLast(sorted, x, row);
    } else {
      assert sorted == front + [last];
      assert x in front;
      InsertGoesBehind(row, front, x);
      AheadGrows(Insert(row, front), [last], x, row);
    }
  }

  /** ... and leaves the others in their order. */
  lemma {:induction false} InsertKeepsOrder(row: Row, sorted: seq<Row>, x: Row, y: Row)
    requires Ahead(sorted, x, y)
    ensures Ahead(Insert(row, sorted), x, y)
  {
    var front, last := sorted[..|sorted| - 1], sorted[|sorted| - 1];
    if Recency(last) <= Recency(row) {
      AheadGrows(sorted, [row], x, y);
    } else {
      var i, j :| 0 <= i < j < |sorted| && sorted[i] == x && sorted[j] == y;
      assert front[i] == x;
      if j < |front| {
        assert front[j] == y;
        InsertKeepsOrder(row, front, x, y);
        AheadGrows(Insert(row, front), [last], x, y);
      } else {
        InsertMembers(row, front, x);
        AheadOfLast(Insert(row, front), x, last);
      }
    }
  }

  /** The rows as sorted after each of them was inserted. */
  function Inserted(rows: seq<Row>, n: nat): (sorted: seq<Row>)
    requires n <= |rows|
    ensures Ascending(sorted)
  {
    SortAscends(rows[..n]);
    ByRecency(rows[..n])
  }

  lemma InsertedNext(rows: seq<Row>, n: nat)
    requires n < |rows|
    ensures Inserted(rows, n + 1) == Insert(rows[n], Inserted(rows, n))
  {
    assert rows[..n + 1][..n] == rows[..n];
  }

  /** The sort is stable: an earlier row as recent or less stays ahead. */
  lemma {:induction false} SortIsStable(rows: seq<Row>, i: nat, j: nat, n: nat)
    requires i < j < n <= |rows| && Recency(rows[i]) <= Recency(rows[j])
    ensures Ahead(Inserted(rows, n), rows[i], rows[j])
  {
    var sorted := Inserted(rows, n - 1);
    InsertedNext(rows, n - 1);
    if j < n - 1 {
      SortIsStable(rows, i, j, n - 1);
      InsertKeepsOrder(rows[n - 1], sorted, rows[i], rows[j]);
    } else {
      SortHas(rows[..j], i);
      InsertGoesBehind(rows[j], sorted, rows[i]);
    }
  }

  lemma SortHas(rows: seq<Row>, i: nat)
    requires i < |rows|
    ensures rows[i] in ByRecency(rows)
  {
    SortKeeps(rows);
    assert rows[i] in multiset(rows);
    assert rows[i] in multiset(ByRecency(rows));
  }

  /** A merge keeps at most the limit, changes no kept row by evicting others, and every evicted
      row was active no more recently than any kept one. */
  lemma EvictionIsFair(rows: seq<Row>)
    requires UniqueKeys(rows)
    ensures var kept := RemoveAll(rows, Evicted(rows));
            && UniqueKeys(kept) && |kept| == (if |rows| > RETAINED_LIMIT then RETAINED_LIMIT else |rows|)
            && (forall r :: r in kept <==> r in rows && r !in Evicted(rows))
            && (forall r, e | r in kept && e in Evicted(rows) ::
                  (if e.lastActive.Some? then e.lastActive.value else 0) <=
                  (if r.lastActive.Some? then r.lastActive.value else 0))
  {
    EvictionKeeps(rows);
    forall r, e | r in RemoveAll(rows, Evicted(rows)) && e in Evicted(rows) ensures Recency(e) <= Recency(r) {
      EvictedIsOlder(rows, r, e);
    }
  }

  lemma EvictionKeeps(rows: seq<Row>)
    requires UniqueKeys(rows)
    ensures var kept := RemoveAll(rows, Evicted(rows));
            && UniqueKeys(kept) && |kept| == (if |rows| > RETAINED_LIMIT then RETAINED_LIMIT else |rows|)
            && (forall r :: r in kept <==> r in rows && r !in Evicted(rows))
  {
    SortKeeps(rows);
    assert Evicted(rows) == ByRecency(rows)[..|Evicted(rows)|];
    DifferentPart(rows, ByRecency(rows), |Evicted(rows)|);
    RemoveAllRemoves(rows, Evicted(rows));
  }

  lemma EvictedIsOlder(rows: seq<Row>, r: Row, e: Row)
    requires r in rows && r !in Evicted(rows) && e in Evicted(rows)
    ensures Recency(e) <= Recency(r)
  {
    var sorted, n := ByRecency(rows), |Evicted(rows)|;
    SortKeeps(rows);
    SortAscends(rows);
    assert r in multiset(sorted);
    var i := BeyondPrefix(sorted, n, r);
    var j :| 0 <= j < n && sorted[..n][j] == e;
    assert Recency(sorted[j]) <= Recency(sorted[i]);
  }

  /** Of rows equally recent the first go. */
  lemma EvictionIsStable(rows: seq<Row>, i: nat, j: nat)
    requires UniqueKeys(rows) && i < j < |rows| && rows[i].lastActive == rows[j].lastActive
    ensures rows[j] in Evicted(rows) ==> rows[i] in Evicted(rows)
  {
    var sorted := ByRecency(rows);
    SortKeeps(rows);
    SortIsStable(rows, i, j, |rows|);
    assert rows[..|rows|] == rows;
    DifferentPart(rows, sorted, |sorted|);
    if rows[j] in Evicted(rows) { InPrefix(sorted, |Evicted(rows)|, rows[i], rows[j]); }
  }

  lemma InPrefix(sorted: seq<Row>, n: nat, x: Row, y: Row)
    requires n <= |sorted| && Different(sorted[..|sorted|]) && Ahead(sorted, x, y) && y in sorted[..n]
    ensures x in sorted[..n]
  {
    assert sorted[..|sorted|] == sorted;
    var i, j :| 0 <= i < j < |sorted| && sorted[i] == x && sorted[j] == y;
    var k :| 0 <= k < n && sorted[..n][k] == y;
    assert sorted[k] == y && k == j;
    assert sorted[..n][i] == x;
  }

  // ----- any run of reports

  function Retained(reports: seq<Report>): seq<Row> {
    if reports == [] then [] else MergeRetained(Retained(reports[..|reports| - 1]), reports[|reports| - 1])
  }

  lemma {:induction false} RetainedIsBounded(reports: seq<Report>)
    ensures UniqueKeys(Retained(reports)) && |Retained(reports)| <= RETAINED_LIMIT
  {
    if reports != [] {
      var front, last := reports[..|reports| - 1], reports[|reports| - 1];
      RetainedIsBounded(front);
      MergedAt(Retained(front), last, "");
      EvictionIsFair(Merged(Retained(front), last));
    }
  }

  predicate Measures(report: Report, key: string) {
    match LastFor(report.live, key)
    case Some(row) => row.down.Some? && row.up.Some?
    case None => false
  }

  /** The report says something about the key's rate: a reading, or idleness by complete omission. */
  predicate Touches(report: Report, key: string) {
    Measures(report, key) || (report.complete && !Mentions(report.live, key))
  }

  /** What a row shows of its rate and of when it was measured. */
  datatype Shown = Shown(down: Option<real>, up: Option<real>, measuredAt: Option<int>)

  function ShownBy(row: Row): Shown { Shown(row.down, row.up, row.measuredAt) }

  function Says(report: Report, key: string): Shown
    requires Touches(report, key)
  {
    if Measures(report, key) then
      var row := LastFor(report.live, key).value;
      Shown(row.down, row.up, if row.measuredAt.Some? then row.measuredAt else Some(report.at))
    else Shown(Some(0.0), Some(0.0), Some(report.at))
  }

  /** When the report saw the key carry traffic. */
  function ActiveAt(report: Report, key: string): Option<int> {
    match LastFor(report.live, key)
    case None => None
    case Some(row) =>
      var rate := (if row.down.Some? then row.down.value else 0.0) + (if row.up.Some? then row.up.value else 0.0);
      if rate <= 0.0 then None
      else if row.measuredAt.Some? then row.measuredAt
      else Some(report.at)
  }

  predicate MarkedStale(report: Report, key: string) {
    LastFor(report.live, key).Some? && LastFor(report.live, key).value.notCurrent
  }

  /** A retained row is current exactly when the last report measured it without marking it stale, or
      was complete and left it out. */
  lemma CurrentIsLastReport(reports: seq<Report>, key: string)
    requires reports != [] && Lookup(Retained(reports), key).Some?
    ensures var last := reports[|reports| - 1];
            Lookup(Retained(reports), key).value.current <==> Touches(last, key) && !MarkedStale(last, key)
  {
    OneReport(reports, key);
  }

  /** The row after the first `j` reports. */
  function RowAfter(reports: seq<Report>, key: string, j: nat): Option<Row>
    requires j <= |reports|
  {
    Lookup(Retained(reports[..j]), key)
  }

  /** The key has been retained since report `admitted`, and was not before. */
  ghost predicate RetainedSince(reports: seq<Report>, key: string, admitted: int) {
    && 0 <= admitted < |reports| && RowAfter(reports, key, admitted).None?
    && (forall j | admitted < j <= |reports| :: RowAfter(reports, key, j).Some?)
  }

  /** What is shown was said by `source`, the last to say anything since `admitted`; by nobody at -1. */
  ghost predicate LastSaid<T>(says: seq<Option<T>>, admitted: int, source: int, shown: Option<T>) {
    && 0 <= admitted && (source == -1 || admitted <= source < |says|)
    && (forall j | admitted <= j < |says| && j > source :: says[j].None?)
    && (if source == -1 then shown.None? else shown.Some? && shown == says[source])
  }

  /** What each report says of the key's rate, and of when it was active. */
  function RateSaid(reports: seq<Report>, key: string): seq<Option<Shown>> {
    seq(|reports|, j requires 0 <= j < |reports| => if Touches(reports[j], key) then Some(Says(reports[j], key)) else None)
  }

  function ActivitySaid(reports: seq<Report>, key: string): seq<Option<int>> {
    seq(|reports|, j requires 0 <= j < |reports| => ActiveAt(reports[j], key))
  }

  function Rate(row: Row): Option<Shown> {
    if ShownBy(row) == Shown(None, None, None) then None else Some(ShownBy(row))
  }

  /** Over any run of reports, what a retained row shows is what the last report that said anything
      about its rate said, since the row was last admitted; a report without a reading never overwrites
      it. */
  lemma LastReportShows(reports: seq<Report>, key: string) returns (admitted: int, source: int)
    requires Lookup(Retained(reports), key).Some?
    ensures RetainedSince(reports, key, admitted)
    ensures LastSaid(RateSaid(reports, key), admitted, source, Rate(Lookup(Retained(reports), key).value))
  {
    var n, says := |reports|, RateSaid(reports, key);
    AliveAt(reports, key);
    Kept(reports, key);
    admitted, source := Trace(Alive(reports, key), says, Rates(reports, key), n);
    AliveSince(reports, key, admitted);
    assert says[..n] == says;
  }

  /** The recency a row is evicted by is the time of the last report in which it carried traffic, since
      it was last admitted, if there was one. */
  lemma RecencyIsLastActivity(reports: seq<Report>, key: string) returns (admitted: int, source: int)
    requires Lookup(Retained(reports), key).Some?
    ensures RetainedSince(reports, key, admitted)
    ensures LastSaid(ActivitySaid(reports, key), admitted, source, Lookup(Retained(reports), key).value.lastActive)
  {
    var n, says := |reports|, ActivitySaid(reports, key);
    AliveAt(reports, key);
    Kept(reports, key);
    admitted, source := Trace(Alive(reports, key), says, Activities(reports, key), n);
    AliveSince(reports, key, admitted);
    assert says[..n] == says;
  }

  function Alive(reports: seq<Report>, key: string): seq<bool> {
    seq(|reports| + 1, j requires 0 <= j <= |reports| => RowAfter(reports, key, j).Some?)
  }

  function Rates(reports: seq<Report>, key: string): seq<Option<Shown>> {
    seq(|reports| + 1, j requires 0 <= j <= |reports| => RateAfter(reports, key, j))
  }

  function Activities(reports: seq<Report>, key: string): seq<Option<int>> {
    seq(|reports| + 1, j requires 0 <= j <= |reports| => ActiveAfter(reports, key, j))
  }

  /** Every report sets what it speaks of and keeps the rest. */
  lemma Kept(reports: seq<Report>, key: string)
    ensures var alive, rates, says := Alive(reports, key), Rates(reports, key), RateSaid(reports, key);
            forall j | 0 <= j < |reports| && alive[j + 1] :: rates[j + 1] == Keeps(says[j], alive[j], rates[j])
    ensures var alive, times, says := Alive(reports, key), Activities(reports, key), ActivitySaid(reports, key);
            forall j | 0 <= j < |reports| && alive[j + 1] :: times[j + 1] == Keeps(says[j], alive[j], times[j])
  {
    forall j | 0 <= j < |reports| && Alive(reports, key)[j + 1]
      ensures Rates(reports, key)[j + 1] == Keeps(RateSaid(reports, key)[j], Alive(reports, key)[j], Rates(reports, key)[j])
      ensures Activities(reports, key)[j + 1] ==
              Keeps(ActivitySaid(reports, key)[j], Alive(reports, key)[j], Activities(reports, key)[j])
    {
      OneMore(reports, key, j);
    }
  }

  lemma AliveAt(reports: seq<Report>, key: string)
    ensures !Alive(reports, key)[0]
    ensures var n, row := |reports|, Lookup(Retained(reports), key);
            && (Alive(reports, key)[n] <==> row.Some?)
            && (row.Some? ==> Rates(reports, key)[n] == Rate(row.value))
            && (row.Some? ==> Activities(reports, key)[n] == row.value.lastActive)
  {
    assert reports[..|reports|] == reports;
    assert reports[..0] == [];
  }

  lemma AliveSince(reports: seq<Report>, key: string, admitted: int)
    requires 0 <= admitted < |reports| && !Alive(reports, key)[admitted]
    requires forall j | admitted < j <= |reports| :: Alive(reports, key)[j]
    ensures RetainedSince(reports, key, admitted)
  {
    forall j | admitted < j <= |reports| ensures RowAfter(reports, key, j).Some? { assert Alive(reports, key)[j]; }
  }

  function RateAfter(reports: seq<Report>, key: string, j: nat): Option<Shown>
    requires j <= |reports|
  {
    var row := RowAfter(reports, key, j);
    if row.Some? then Rate(row.value) else None
  }

  function ActiveAfter(reports: seq<Report>, key: string, j: nat): Option<int>
    requires j <= |reports|
  {
    var row := RowAfter(reports, key, j);
    if row.Some? then row.value.lastActive else None
  }

  function Keeps<T>(said: Option<T>, alive: bool, shown: Option<T>): Option<T> {
    if said.Some? then said else if alive then shown else None
  }

  lemma OneMore(reports: seq<Report>, key: string, j: nat)
    requires j < |reports| && RowAfter(reports, key, j + 1).Some?
    ensures RateAfter(reports, key, j + 1) ==
            Keeps(RateSaid(reports, key)[j], RowAfter(reports, key, j).Some?, RateAfter(reports, key, j))
    ensures ActiveAfter(reports, key, j + 1) ==
            Keeps(ActivitySaid(reports, key)[j], RowAfter(reports, key, j).Some?, ActiveAfter(reports, key, j))
  {
    var some := reports[..j + 1];
    assert some[..|some| - 1] == reports[..j] && some[|some| - 1] == reports[j];
    OneReport(some, key);
  }

  /** From when a value is kept, and who last set it. */
  lemma {:induction false} Trace<T>(alive: seq<bool>, says: seq<Option<T>>, shown: seq<Option<T>>, n: nat)
    returns (admitted: int, source: int)
    requires |alive| == |shown| > |says| >= n && alive[n] && !alive[0]
    requires forall j | 0 <= j < n && alive[j + 1] :: shown[j + 1] == Keeps(says[j], alive[j], shown[j])
    ensures 0 <= admitted < n && !alive[admitted] && forall j | admitted < j <= n :: alive[j]
    ensures LastSaid(says[..n], admitted, source, shown[n])
  {
    var m := n - 1;
    assert alive[m + 1];
    if alive[m] {
      admitted, source := Trace(alive, says, shown, m);
      assert says[..n] == says[..m] + [says[m]];
    } else {
      admitted, source := m, -1;
    }
    if says[m].Some? { source := m; }
  }

  /** What one more report does to a row that is retained after it. */
  lemma OneReport(reports: seq<Report>, key: string)
    requires reports != [] && Lookup(Retained(reports), key).Some?
    ensures var before := Lookup(Retained(reports[..|reports| - 1]), key);
            var last, row := reports[|reports| - 1], Lookup(Retained(reports), key).value;
            && (before.None? ==> Mentions(last.live, key))
            && ShownBy(row) ==
               (if Touches(last, key) then Says(last, key)
                else if before.Some? then ShownBy(before.value) else Shown(None, None, None))
            && row.lastActive ==
               (if ActiveAt(last, key).Some? then ActiveAt(last, key)
                else if before.Some? then before.value.lastActive else None)
            && (row.current <==> Touches(last, key) && !MarkedStale(last, key))
  {
    var front, last := reports[..|reports| - 1], reports[|reports| - 1];
    var rows := Merged(Retained(front), last);
    RetainedIsBounded(front);
    MergedAt(Retained(front), last, key);
    EvictionIsFair(rows);
    LookupIn(Retained(reports), key);
    LookupIn(rows, key);
    LastForMentions(last.live, key);
  }
}
