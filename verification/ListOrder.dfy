/** The order of the live traffic cards (frontend/src/user-traffic-realtime.tsx): how rows compare,
    and when cards may move. Names and keys are compared through a locale's collation; a row
    carries the rank the collation gives its name and its key. */
module ListOrder {
  import opened Wrappers

  datatype TrafficSort = Name | Hour | Up | Down

  datatype CardRow = CardRow(
    key: string, nameRank: int, keyRank: int, hourBytes: real,
    down: Option<real>, up: Option<real>, lastActive: Option<int>)

  function OrZero(x: Option<real>): real { match x case Some(v) => v case None => 0.0 }

  function Active(row: CardRow): real { match row.lastActive case Some(t) => t as real case None => 0.0 }

  function Measured(row: CardRow): real { if row.down.Some? then 1.0 else 0.0 }

  /** `x || y` on numbers. */
  function Else(x: real, y: real): real { if x != 0.0 then x else y }

  function ByName(a: CardRow, b: CardRow): real {
    Else((a.nameRank - b.nameRank) as real, (a.keyRank - b.keyRank) as real)
  }

  function CompareRows(sort: TrafficSort, a: CardRow, b: CardRow): real {
    if sort == Name then ByName(a, b)
    else if sort == Hour then Else(b.hourBytes - a.hourBytes, ByName(a, b))
    else
      var known := Measured(b) - Measured(a);
      if known != 0.0 then known
      else
        var recent := Active(b) - Active(a);
        var down, up := OrZero(b.down) - OrZero(a.down), OrZero(b.up) - OrZero(a.up);
        if sort == Up then Else(up, Else(down, Else(recent, ByName(a, b))))
        else Else(down, Else(up, Else(recent, ByName(a, b))))
  }

  // ----- the comparison is a total preorder

  function NameCriteria(row: CardRow): seq<real> { [row.nameRank as real] + [row.keyRank as real] }

  /** What a sort looks at, most significant first; less comes first. Among measured rows the faster come
      first, then those more recently active; a row without a reading counts as idle since ever. */
  function Criteria(sort: TrafficSort, row: CardRow): seq<real> {
    var known := if row.down.Some? then -1.0 else 0.0;
    var up := if row.up.Some? then -row.up.value else 0.0;
    var down := if row.down.Some? then -row.down.value else 0.0;
    var active := if row.lastActive.Some? then -(row.lastActive.value as real) else 0.0;
    match sort
    case Name => NameCriteria(row)
    case Hour => [-row.hourBytes] + NameCriteria(row)
    case Up => [known] + ([up] + ([down] + ([active] + NameCriteria(row))))
    case Down => [known] + ([down] + ([up] + ([active] + NameCriteria(row))))
  }

  function FirstDifference(x: seq<real>, y: seq<real>): real
    requires |x| == |y|
  {
    if x == [] then 0.0 else if x[0] != y[0] then x[0] - y[0] else FirstDifference(x[1..], y[1..])
  }

  lemma FirstOf(a: real, x: seq<real>, b: real, y: seq<real>)
    requires |x| == |y|
    ensures FirstDifference([a] + x, [b] + y) == Else(a - b, FirstDifference(x, y))
  {
    assert ([a] + x)[1..] == x && ([b] + y)[1..] == y;
  }

  lemma NameIsLexicographic(a: CardRow, b: CardRow)
    ensures ByName(a, b) == FirstDifference(NameCriteria(a), NameCriteria(b))
  {
    FirstOf(a.nameRank as real, [a.keyRank as real], b.nameRank as real, [b.keyRank as real]);
    FirstOf(a.keyRank as real, [], b.keyRank as real, []);
    assert [a.keyRank as real] + [] == [a.keyRank as real] && [b.keyRank as real] + [] == [b.keyRank as real];
  }

  /** The chain of `||` compares the criteria lexicographically. */
  lemma CompareIsLexicographic(sort: TrafficSort, a: CardRow, b: CardRow)
    ensures CompareRows(sort, a, b) == FirstDifference(Criteria(sort, a), Criteria(sort, b))
  {
    NameIsLexicographic(a, b);
    var x, y := NameCriteria(a), NameCriteria(b);
    if sort == Hour {
      FirstOf(-a.hourBytes, x, -b.hourBytes, y);
    } else if sort != Name {
      if sort == Up {
        RatesAreLexicographic(a.up, a.down, b.up, b.down, a, b);
      } else {
        RatesAreLexicographic(a.down, a.up, b.down, b.up, a, b);
      }
      FirstOf(if a.down.Some? then -1.0 else 0.0, Criteria(sort, a)[1..], if b.down.Some? then -1.0 else 0.0, Criteria(sort, b)[1..]);
    }
  }

  function Less(x: Option<real>): real { if x.Some? then -x.value else 0.0 }

  function Recent(row: CardRow): real { if row.lastActive.Some? then -(row.lastActive.value as real) else 0.0 }

  lemma RatesAreLexicographic(p: Option<real>, q: Option<real>, r: Option<real>, s: Option<real>, a: CardRow, b: CardRow)
    ensures FirstDifference([Less(p)] + ([Less(q)] + ([Recent(a)] + NameCriteria(a))),
                            [Less(r)] + ([Less(s)] + ([Recent(b)] + NameCriteria(b))))
         == Else(OrZero(r) - OrZero(p), Else(OrZero(s) - OrZero(q), Else(Active(b) - Active(a), ByName(a, b))))
  {
    NameIsLexicographic(a, b);
    var x, y := [Recent(a)] + NameCriteria(a), [Recent(b)] + NameCriteria(b);
    FirstOf(Recent(a), NameCriteria(a), Recent(b), NameCriteria(b));
    FirstOf(Less(q), x, Less(s), y);
    FirstOf(Less(p), [Less(q)] + x, Less(r), [Less(s)] + y);
  }

  lemma {:induction false} LexicographicOrder(x: seq<real>, y: seq<real>, z: seq<real>)
    requires |x| == |y| == |z|
    ensures FirstDifference(x, y) == -FirstDifference(y, x)
    ensures FirstDifference(x, y) <= 0.0 && FirstDifference(y, z) <= 0.0 ==> FirstDifference(x, z) <= 0.0
    ensures FirstDifference(x, y) == 0.0 <==> x == y
  {
    if x != [] {
      LexicographicOrder(x[1..], y[1..], z[1..]);
      assert x == [x[0]] + x[1..] && y == [y[0]] + y[1..];
    } else {
      assert y == [];
    }
  }

  predicate NotAfter(sort: TrafficSort, a: CardRow, b: CardRow) { CompareRows(sort, a, b) <= 0.0 }

  /** The sort may rely on its comparison: any two rows compare, and comparisons chain. Only rows
      that agree on every criterion tie. */
  lemma CompareIsOrder(sort: TrafficSort, a: CardRow, b: CardRow, c: CardRow)
    ensures NotAfter(sort, a, b) || NotAfter(sort, b, a)
    ensures NotAfter(sort, a, b) && NotAfter(sort, b, c) ==> NotAfter(sort, a, c)
    ensures NotAfter(sort, a, b) && NotAfter(sort, b, a) <==> Criteria(sort, a) == Criteria(sort, b)
  {
    CompareIsLexicographic(sort, a, b);
    CompareIsLexicographic(sort, b, a);
    CompareIsLexicographic(sort, b, c);
    CompareIsLexicographic(sort, a, c);
    LexicographicOrder(Criteria(sort, a), Criteria(sort, b), Criteria(sort, c));
    LexicographicOrder(Criteria(sort, b), Criteria(sort, a), Criteria(sort, c));
  }

  // ----- sorting

  /** Stable insertion, as the built-in sort leaves rows. */
  function Insert(sort: TrafficSort, row: CardRow, sorted: seq<CardRow>): seq<CardRow> {
    if sorted == [] then [row]
    else if CompareRows(sort, row, sorted[0]) < 0.0 then [row] + sorted
    else [sorted[0]] + Insert(sort, row, sorted[1..])
  }

  function Sorted(sort: TrafficSort, rows: seq<CardRow>): seq<CardRow> {
    if rows == [] then [] else Insert(sort, rows[|rows| - 1], Sorted(sort, rows[..|rows| - 1]))
  }

  ghost predicate InOrder(sort: TrafficSort, rows: seq<CardRow>) {
    forall i, j | 0 <= i < j < |rows| :: NotAfter(sort, rows[i], rows[j])
  }

  lemma {:induction false} InsertKeeps(sort: TrafficSort, row: CardRow, sorted: seq<CardRow>)
    ensures multiset(Insert(sort, row, sorted)) == multiset(sorted) + multiset{row}
  {
    if sorted != [] {
      InsertKeeps(sort, row, sorted[1..]);
      assert sorted == [sorted[0]] + sorted[1..];
    }
  }

  /** A row that is not before another may follow it. */
  lemma NotBefore(sort: TrafficSort, row: CardRow, other: CardRow)
    ensures CompareRows(sort, row, other) >= 0.0 <==> NotAfter(sort, other, row)
  {
    CompareIsLexicographic(sort, row, other);
    CompareIsLexicographic(sort, other, row);
    LexicographicOrder(Criteria(sort, row), Criteria(sort, other), Criteria(sort, row));
  }

  lemma {:induction false} InsertInOrder(sort: TrafficSort, row: CardRow, sorted: seq<CardRow>)
    requires InOrder(sort, sorted)
    ensures InOrder(sort, Insert(sort, row, sorted))
  {
    if sorted != [] {
      var tail := sorted[1..];
      NotBefore(sort, row, sorted[0]);
      if CompareRows(sort, row, sorted[0]) < 0.0 {
        forall j | 0 <= j < |sorted| ensures NotAfter(sort, row, sorted[j]) {
          if j > 0 { CompareIsOrder(sort, row, sorted[0], sorted[j]); }
        }
      } else {
        InsertInOrder(sort, row, tail);
        forall r | r in Insert(sort, row, tail) ensures NotAfter(sort, sorted[0], r) {
          InsertHas(sort, row, tail, r);
        }
      }
    }
  }

  lemma InsertHas(sort: TrafficSort, row: CardRow, sorted: seq<CardRow>, r: CardRow)
    requires r in Insert(sort, row, sorted)
    ensures r == row || r in sorted
  {
    InsertKeeps(sort, row, sorted);
    assert r in multiset(Insert(sort, row, sorted));
  }

  lemma {:induction false} SortSorts(sort: TrafficSort, rows: seq<CardRow>)
    ensures multiset(Sorted(sort, rows)) == multiset(rows) && |Sorted(sort, rows)| == |rows|
    ensures InOrder(sort, Sorted(sort, rows))
  {
    if rows != [] {
      var front, last := rows[..|rows| - 1], rows[|rows| - 1];
      SortSorts(sort, front);
      InsertKeeps(sort, last, Sorted(sort, front));
      InsertInOrder(sort, last, Sorted(sort, front));
      assert rows == front + [last];
      assert |multiset(Sorted(sort, rows))| == |multiset(rows)|;
    }
  }

  /** When the collation separates the keys, the sorted order does not depend on the order in which
      the rows arrive: two orderings of the same rows that are both in order are the same. */
  lemma {:induction false} OrderIsUnique(sort: TrafficSort, x: seq<CardRow>, y: seq<CardRow>)
    requires multiset(x) == multiset(y) && InOrder(sort, x) && InOrder(sort, y)
    requires forall a, b | a in x && b in x && a.keyRank == b.keyRank :: a == b
    ensures x == y
  {
    assert |x| == |multiset(x)| == |multiset(y)| == |y|;
    if x != [] {
      SameHead(sort, x, y);
      SameTail(x, y);
      OrderIsUnique(sort, x[1..], y[1..]);
      assert x == [x[0]] + x[1..] && y == [y[0]] + y[1..];
    }
  }

  lemma SameHead(sort: TrafficSort, x: seq<CardRow>, y: seq<CardRow>)
    requires x != [] && y != [] && multiset(x) == multiset(y) && InOrder(sort, x) && InOrder(sort, y)
    requires forall a, b | a in x && b in x && a.keyRank == b.keyRank :: a == b
    ensures x[0] == y[0]
  {
    assert x[0] in multiset(y) && y[0] in multiset(x);
    HeadIsLeast(sort, x, y[0]);
    HeadIsLeast(sort, y, x[0]);
    CompareIsOrder(sort, x[0], y[0], x[0]);
    SameCriteria(sort, x[0], y[0]);
  }

  lemma SameTail(x: seq<CardRow>, y: seq<CardRow>)
    requires x != [] && y != [] && x[0] == y[0] && multiset(x) == multiset(y)
    ensures multiset(x[1..]) == multiset(y[1..])
  {
    assert x == [x[0]] + x[1..] && y == [y[0]] + y[1..];
    assert multiset(x[1..]) == multiset(x) - multiset{x[0]};
    assert multiset(y[1..]) == multiset(y) - multiset{y[0]};
  }

  lemma HeadIsLeast(sort: TrafficSort, rows: seq<CardRow>, r: CardRow)
    requires InOrder(sort, rows) && r in rows
    ensures NotAfter(sort, rows[0], r)
  {
    CompareIsOrder(sort, r, r, r);
  }

  lemma SameCriteria(sort: TrafficSort, a: CardRow, b: CardRow)
    requires Criteria(sort, a) == Criteria(sort, b)
    ensures a.keyRank == b.keyRank
  {
    var n := |Criteria(sort, a)|;
    assert Criteria(sort, a)[n - 1] == a.keyRank as real && Criteria(sort, b)[n - 1] == b.keyRank as real;
  }

  // ----- the next order of the cards

  /** `at` is `None` before the first sort; an absent `measured` reads as false. */
  datatype Order = Order(keys: seq<string>, at: Option<int>, sort: TrafficSort, measured: bool)

  /** `Same` is the very object that was passed in; `New` makes the renderer store an order. */
  datatype Next = Same | New(order: Order)

  function Keys(rows: seq<CardRow>): (keys: seq<string>)
    ensures |keys| == |rows| && forall i | 0 <= i < |rows| :: keys[i] == rows[i].key
  {
    if rows == [] then [] else [rows[0].key] + Keys(rows[1..])
  }

  function Members(keys: seq<string>): set<string> { set k | k in keys }

  /** The keys inside, or outside, a set, in their order. */
  function Select(keys: seq<string>, s: set<string>, inside: bool): seq<string> {
    if keys == [] then []
    else (if (keys[0] in s) == inside then [keys[0]] else []) + Select(keys[1..], s, inside)
  }

  function Added(order: Order, rows: seq<CardRow>): seq<string> { Select(Keys(rows), Members(order.keys), false) }

  function Kept(order: Order, rows: seq<CardRow>): seq<string> { Select(order.keys, Members(Keys(rows)), true) }

  predicate AnyMeasured(rows: seq<CardRow>) {
    exists i :: 0 <= i < |rows| && rows[i].down.Some? && rows[i].up.Some?
  }

  predicate ShouldSort(order: Order, rows: seq<CardRow>, sort: TrafficSort, resort: bool) {
    || resort
    || order.sort != sort
    || (order.keys == [] && rows != [])
    || (sort == Name && Added(order, rows) != [])
    || (sort != Name && AnyMeasured(rows) && !order.measured)
  }

  function NextListOrder(order: Order, rows: seq<CardRow>, sort: TrafficSort, resort: bool, now: int): Next {
    if ShouldSort(order, rows, sort, resort) then
      New(Order(Keys(Sorted(sort, rows)), Some(now), sort, AnyMeasured(rows)))
    else if Added(order, rows) != [] || |Kept(order, rows)| != |order.keys| then
      New(order.(keys := Kept(order, rows) + Added(order, rows)))
    else Same
  }

  function After(order: Order, rows: seq<CardRow>, sort: TrafficSort, resort: bool, now: int): Order {
    match NextListOrder(order, rows, sort, resort, now) case Same => order case New(next) => next
  }

  ghost predicate Unique(keys: seq<string>) {
    forall i, j | 0 <= i < j < |keys| :: keys[i] != keys[j]
  }

  ghost predicate Precedes(keys: seq<string>, a: string, b: string) {
    exists i, j :: 0 <= i < j < |keys| && keys[i] == a && keys[j] == b
  }

  lemma {:induction false} SelectSelects(keys: seq<string>, s: set<string>, inside: bool)
    ensures forall k :: k in Select(keys, s, inside) <==> k in keys && (k in s) == inside
    ensures Unique(keys) ==> Unique(Select(keys, s, inside))
  {
    if keys != [] {
      SelectSelects(keys[1..], s, inside);
      assert keys == [keys[0]] + keys[1..];
      assert Unique(keys) ==> keys[0] !in keys[1..];
    }
  }

  lemma {:induction false} SelectCounts(keys: seq<string>, s: set<string>, inside: bool)
    ensures |Select(keys, s, inside)| <= |keys|
    ensures Select(keys, s, inside) == [] <==> forall k | k in keys :: (k in s) != inside
    ensures |Select(keys, s, inside)| == |keys| <==> forall k | k in keys :: (k in s) == inside
  {
    if keys != [] {
      SelectCounts(keys[1..], s, inside);
      assert keys == [keys[0]] + keys[1..];
    }
  }

  lemma PrecedesSplits(head: string, tail: seq<string>, a: string, b: string)
    ensures Precedes([head] + tail, a, b) <==> (head == a && b in tail) || Precedes(tail, a, b)
  {
    var all := [head] + tail;
    if Precedes(all, a, b) {
      var i, j :| 0 <= i < j < |all| && all[i] == a && all[j] == b;
      assert tail[j - 1] == b;
      if i > 0 { assert tail[i - 1] == a; }
    }
    if head == a && b in tail {
      var j :| 0 <= j < |tail| && tail[j] == b;
      assert all[0] == a && all[j + 1] == b;
    }
    if Precedes(tail, a, b) {
      var i, j :| 0 <= i < j < |tail| && tail[i] == a && tail[j] == b;
      assert all[i + 1] == a && all[j + 1] == b;
    }
  }

  lemma {:induction false} SelectKeepsOrder(keys: seq<string>, s: set<string>, inside: bool, a: string, b: string)
    requires (a in s) == inside && (b in s) == inside
    ensures Precedes(Select(keys, s, inside), a, b) <==> Precedes(keys, a, b)
  {
    if keys != [] {
      var tail := keys[1..];
      SelectKeepsOrder(tail, s, inside, a, b);
      SelectSelects(tail, s, inside);
      assert keys == [keys[0]] + tail;
      PrecedesSplits(keys[0], tail, a, b);
      PrecedesSplits(keys[0], Select(tail, s, inside), a, b);
      assert (keys[0] in s) != inside ==> Select(keys, s, inside) == Select(tail, s, inside);
    }
  }

  lemma {:induction false} KeysOf(rows: seq<CardRow>)
    ensures forall k :: k in Keys(rows) <==> exists r :: r in rows && r.key == k
  {
    forall k ensures k in Keys(rows) <==> exists r :: r in rows && r.key == k {
      if k in Keys(rows) {
        var i :| 0 <= i < |rows| && Keys(rows)[i] == k;
        assert rows[i] in rows;
      }
      if r :| r in rows && r.key == k {
        var i :| 0 <= i < |rows| && rows[i] == r;
        assert Keys(rows)[i] == k;
      }
    }
  }

  lemma KeysCons(row: CardRow, rows: seq<CardRow>)
    ensures Keys([row] + rows) == [row.key] + Keys(rows)
  {
    assert ([row] + rows)[1..] == rows;
  }

  lemma UniqueCons(k: string, keys: seq<string>)
    ensures Unique([k] + keys) <==> k !in keys && Unique(keys)
  {
    var all := [k] + keys;
    if Unique(all) {
      forall i | 0 <= i < |keys| ensures keys[i] != k { assert all[0] != all[i + 1]; }
      forall i, j | 0 <= i < j < |keys| ensures keys[i] != keys[j] { assert all[i + 1] != all[j + 1]; }
    }
  }

  lemma {:induction false} InsertedKeys(sort: TrafficSort, row: CardRow, sorted: seq<CardRow>)
    ensures forall k :: k in Keys(Insert(sort, row, sorted)) <==> k == row.key || k in Keys(sorted)
  {
    if sorted == [] {
    } else if CompareRows(sort, row, sorted[0]) < 0.0 {
      KeysCons(row, sorted);
    } else {
      InsertedKeys(sort, row, sorted[1..]);
      KeysCons(sorted[0], Insert(sort, row, sorted[1..]));
    }
  }

  lemma {:induction false} InsertedKeysUnique(sort: TrafficSort, row: CardRow, sorted: seq<CardRow>)
    requires Unique(Keys(sorted)) && row.key !in Keys(sorted)
    ensures Unique(Keys(Insert(sort, row, sorted)))
  {
    if sorted == [] {
    } else if CompareRows(sort, row, sorted[0]) < 0.0 {
      KeysCons(row, sorted);
      UniqueCons(row.key, Keys(sorted));
    } else {
      var head, tail := sorted[0], sorted[1..];
      assert Keys(sorted) == [head.key] + Keys(tail);
      UniqueCons(head.key, Keys(tail));
      InsertedKeysUnique(sort, row, tail);
      InsertedKeys(sort, row, tail);
      KeysCons(head, Insert(sort, row, tail));
      UniqueCons(head.key, Keys(Insert(sort, row, tail)));
    }
  }

  lemma {:induction false} KeysAppend(rows: seq<CardRow>, row: CardRow)
    ensures Keys(rows + [row]) == Keys(rows) + [row.key]
  {
    if rows == [] {
      assert [] + [row] == [row];
    } else {
      KeysAppend(rows[1..], row);
      assert (rows + [row])[1..] == rows[1..] + [row];
    }
  }

  lemma {:induction false} SortedKeys(sort: TrafficSort, rows: seq<CardRow>)
    ensures forall k :: k in Keys(Sorted(sort, rows)) <==> k in Keys(rows)
  {
    if rows != [] {
      var front, last := rows[..|rows| - 1], rows[|rows| - 1];
      SortedKeys(sort, front);
      InsertedKeys(sort, last, Sorted(sort, front));
      KeysAppend(front, last);
      assert rows == front + [last];
    }
  }

  lemma {:induction false} SortedKeysUnique(sort: TrafficSort, rows: seq<CardRow>)
    requires Unique(Keys(rows))
    ensures Unique(Keys(Sorted(sort, rows)))
  {
    if rows != [] {
      var front, last := rows[..|rows| - 1], rows[|rows| - 1];
      KeysAppend(front, last);
      assert rows == front + [last];
      UniqueAppend(Keys(front), last.key);
      SortedKeysUnique(sort, front);
      SortedKeys(sort, front);
      InsertedKeysUnique(sort, last, Sorted(sort, front));
    }
  }

  lemma UniqueAppend(keys: seq<string>, k: string)
    requires Unique(keys + [k])
    ensures Unique(keys) && k !in keys
  {
    var all := keys + [k];
    assert forall i | 0 <= i < |keys| :: keys[i] == all[i] && all[i] != all[|keys|];
  }

  lemma {:induction false} CountedOnce(keys: seq<string>)
    ensures Unique(keys) <==> forall k | k in keys :: multiset(keys)[k] == 1
  {
    if keys != [] {
      var tail := keys[1..];
      assert keys == [keys[0]] + tail;
      CountedOnce(tail);
      assert forall k :: multiset(keys)[k] == multiset(tail)[k] + (if k == keys[0] then 1 else 0);
      assert forall k | k in tail :: k in multiset(tail);
      assert Unique(keys) ==> keys[0] !in tail;
      assert Unique(tail) && keys[0] !in tail ==> Unique(keys);
    }
  }

  lemma UpdatedKeys(order: Order, rows: seq<CardRow>)
    ensures forall k :: k in Kept(order, rows) + Added(order, rows) <==> k in Keys(rows)
    ensures Added(order, rows) == [] && |Kept(order, rows)| == |order.keys| ==>
              forall k :: k in order.keys <==> k in Keys(rows)
  {
    SelectSelects(order.keys, Members(Keys(rows)), true);
    SelectSelects(Keys(rows), Members(order.keys), false);
    SelectCounts(order.keys, Members(Keys(rows)), true);
    SelectCounts(Keys(rows), Members(order.keys), false);
    assert forall k :: k in Kept(order, rows) + Added(order, rows) <==> k in Kept(order, rows) || k in Added(order, rows);
  }

  lemma UpdatedKeysUnique(order: Order, rows: seq<CardRow>)
    requires Unique(order.keys) && Unique(Keys(rows))
    ensures Unique(Kept(order, rows) + Added(order, rows))
  {
    SelectSelects(order.keys, Members(Keys(rows)), true);
    SelectSelects(Keys(rows), Members(order.keys), false);
    UniqueSum(Kept(order, rows), Added(order, rows));
  }

  lemma UniqueSum(x: seq<string>, y: seq<string>)
    requires Unique(x) && Unique(y) && forall k | k in x :: k !in y
    ensures Unique(x + y)
  {
    forall i, j | 0 <= i < j < |x + y| ensures (x + y)[i] != (x + y)[j] {
      if i < |x| <= j { assert x[i] in x && y[j - |x|] in y; }
    }
  }

  /** The next order lists exactly the keys of the current rows, each once. */
  lemma OrderIsPermutation(order: Order, rows: seq<CardRow>, sort: TrafficSort, resort: bool, now: int)
    requires Unique(order.keys) && Unique(Keys(rows))
    ensures var next := After(order, rows, sort, resort, now);
            && Unique(next.keys) && multiset(next.keys) == multiset(Keys(rows))
  {
    if ShouldSort(order, rows, sort, resort) {
      SortedKeys(sort, rows);
      SortedKeysUnique(sort, rows);
    } else {
      UpdatedKeys(order, rows);
      UpdatedKeysUnique(order, rows);
    }
    SameMembers(After(order, rows, sort, resort, now).keys, Keys(rows));
  }

  lemma SameMembers(x: seq<string>, y: seq<string>)
    requires Unique(x) && Unique(y) && forall k :: k in x <==> k in y
    ensures multiset(x) == multiset(y)
  {
    CountedOnce(x);
    CountedOnce(y);
    forall k ensures multiset(x)[k] == multiset(y)[k] {
      assert k in x <==> k in multiset(x);
      assert k in y <==> k in multiset(y);
    }
  }

  ghost predicate HasReading(rows: seq<CardRow>) {
    exists r :: r in rows && r.down.Some? && r.up.Some?
  }

  lemma AnyMeasuredIs(rows: seq<CardRow>)
    ensures AnyMeasured(rows) <==> HasReading(rows)
  {
    if r :| r in rows && r.down.Some? && r.up.Some? {
      var i :| 0 <= i < |rows| && rows[i] == r;
    }
  }

  lemma AddedIs(order: Order, rows: seq<CardRow>)
    ensures Added(order, rows) == [] <==> forall r | r in rows :: r.key in order.keys
  {
    SelectSelects(Keys(rows), Members(order.keys), false);
    forall r | r in rows && r.key !in order.keys ensures r.key in Added(order, rows) {
      var i :| 0 <= i < |rows| && rows[i] == r;
      assert Keys(rows)[i] == r.key;
    }
    if Added(order, rows) != [] {
      var k := Added(order, rows)[0];
      assert k in Added(order, rows);
      var i :| 0 <= i < |rows| && Keys(rows)[i] == k;
      assert rows[i] in rows && rows[i].key !in order.keys;
    }
  }

  /** The list is sorted again exactly on request, for another sort, when it was empty, by name when a row
      is new, and by numbers when the first reading comes. */
  lemma ReSortsIff(order: Order, rows: seq<CardRow>, sort: TrafficSort, resort: bool)
    ensures ShouldSort(order, rows, sort, resort) <==>
            || resort || order.sort != sort || (order.keys == [] && rows != [])
            || (sort == Name && exists r :: r in rows && r.key !in order.keys)
            || (sort != Name && !order.measured && HasReading(rows))
  {
    AnyMeasuredIs(rows);
    AddedIs(order, rows);
  }

  /** Then the rows are listed as sorted now, and the order remembers when, how, and whether readings were
      seen. */
  lemma ReSorted(order: Order, rows: seq<CardRow>, sort: TrafficSort, resort: bool, now: int)
    requires || resort || order.sort != sort || (order.keys == [] && rows != [])
             || (sort == Name && exists r :: r in rows && r.key !in order.keys)
             || (sort != Name && !order.measured && HasReading(rows))
    ensures NextListOrder(order, rows, sort, resort, now).New?
    ensures var next := After(order, rows, sort, resort, now);
            next.at == Some(now) && next.sort == sort && (next.measured <==> HasReading(rows))
    ensures exists sorted :: After(order, rows, sort, resort, now).keys == Keys(sorted)
                             && multiset(sorted) == multiset(rows) && InOrder(sort, sorted)
  {
    ReSortsIff(order, rows, sort, resort);
    AnyMeasuredIs(rows);
    SortSorts(sort, rows);
  }

  /** Otherwise cards that stay keep their relative order, and new cards go after them in the order of the
      rows. */
  lemma CardsStayPut(order: Order, rows: seq<CardRow>, sort: TrafficSort, now: int, a: string, b: string)
    requires Unique(order.keys) && Unique(Keys(rows)) && a != b
    requires order.sort == sort && (order.keys != [] || rows == [])
    requires sort == Name ==> forall r | r in rows :: r.key in order.keys
    requires sort != Name && !order.measured ==> !HasReading(rows)
    requires a in Keys(rows) && b in Keys(rows)
    ensures var next := After(order, rows, sort, false, now);
            && (a in order.keys && b in order.keys ==> (Precedes(next.keys, a, b) <==> Precedes(order.keys, a, b)))
            && (a in order.keys && b !in order.keys ==> Precedes(next.keys, a, b))
            && (a !in order.keys && b !in order.keys ==> (Precedes(next.keys, a, b) <==> Precedes(Keys(rows), a, b)))
            && next.sort == order.sort && next.at == order.at && next.measured == order.measured
  {
    ReSortsIff(order, rows, sort, false);
    var kept, added := Kept(order, rows), Added(order, rows);
    SelectSelects(order.keys, Members(Keys(rows)), true);
    SelectSelects(Keys(rows), Members(order.keys), false);
    SelectCounts(order.keys, Members(Keys(rows)), true);
    SelectCounts(Keys(rows), Members(order.keys), false);
    if added == [] && |kept| == |order.keys| {
    } else {
      SelectKeepsOrder(order.keys, Members(Keys(rows)), true, a, b);
      if a !in order.keys && b !in order.keys { SelectKeepsOrder(Keys(rows), Members(order.keys), false, a, b); }
      PrecedesInSum(kept, added, a, b);
    }
  }

  lemma PrecedesInSum(x: seq<string>, y: seq<string>, a: string, b: string)
    ensures Precedes(x + y, a, b) <==> Precedes(x, a, b) || Precedes(y, a, b) || (a in x && b in y)
  {
    var all := x + y;
    if Precedes(all, a, b) {
      var i, j :| 0 <= i < j < |all| && all[i] == a && all[j] == b;
      if i >= |x| { assert y[i - |x|] == a && y[j - |x|] == b; }
      else if j >= |x| { assert x[i] == a && y[j - |x|] == b; }
      else { assert x[i] == a && x[j] == b; }
    }
    if Precedes(x, a, b) {
      var i, j :| 0 <= i < j < |x| && x[i] == a && x[j] == b;
      assert all[i] == a && all[j] == b;
    }
    if Precedes(y, a, b) {
      var i, j :| 0 <= i < j < |y| && y[i] == a && y[j] == b;
      assert all[|x| + i] == a && all[|x| + j] == b;
    }
    if a in x && b in y {
      var i, j :| 0 <= i < |x| && 0 <= j < |y| && x[i] == a && y[j] == b;
      assert all[i] == a && all[|x| + j] == b;
    }
  }

  /** A render that stores an order is followed by one that stores nothing, so rendering settles. */
  lemma RenderSettles(order: Order, rows: seq<CardRow>, sort: TrafficSort, resort: bool, now: int, later: int)
    ensures NextListOrder(After(order, rows, sort, resort, now), rows, sort, false, later).Same?
  {
    var next := After(order, rows, sort, resort, now);
    if ShouldSort(order, rows, sort, resort) {
      SortedKeys(sort, rows);
    } else {
      UpdatedKeys(order, rows);
    }
    UpToDate(next, rows);
  }

  /** An order that lists exactly the current keys gains and loses none. */
  lemma UpToDate(order: Order, rows: seq<CardRow>)
    requires forall k :: k in order.keys <==> k in Keys(rows)
    ensures Added(order, rows) == [] && |Kept(order, rows)| == |order.keys|
    ensures order.keys == [] <==> rows == []
  {
    SelectSelects(order.keys, Members(Keys(rows)), true);
    SelectSelects(Keys(rows), Members(order.keys), false);
    SelectCounts(order.keys, Members(Keys(rows)), true);
    SelectCounts(Keys(rows), Members(order.keys), false);
    assert rows != [] ==> Keys(rows)[0] in order.keys;
    assert order.keys != [] ==> order.keys[0] in Keys(rows);
  }

  // ----- any run of renders

  function Renders(order: Order, frames: seq<seq<CardRow>>, sort: TrafficSort): Order {
    if frames == [] then order
    else After(Renders(order, frames[..|frames| - 1], sort), frames[|frames| - 1], sort, false, |frames|)
  }

  /** Once a numeric order has been taken from measured rows, no change of readings moves a card:
      through any run of renders with that sort, two cards that never leave keep their order. */
  lemma {:induction false} OnlyTheUserMovesCards(order: Order, frames: seq<seq<CardRow>>, sort: TrafficSort, a: string, b: string)
    requires sort != Name && order.sort == sort && order.measured && Unique(order.keys)
    requires forall f | f in frames :: Unique(Keys(f)) && a in Keys(f) && b in Keys(f)
    requires a in order.keys && b in order.keys && a != b
    ensures var last := Renders(order, frames, sort);
            && last.sort == sort && last.measured && Unique(last.keys)
            && a in last.keys && b in last.keys
            && (Precedes(last.keys, a, b) <==> Precedes(order.keys, a, b))
  {
    if frames != [] {
      var front, rows := frames[..|frames| - 1], frames[|frames| - 1];
      assert forall f | f in front :: f in frames;
      OnlyTheUserMovesCards(order, front, sort, a, b);
      var before := Renders(order, front, sort);
      assert rows in frames;
      CardsStayPut(before, rows, sort, |frames|, a, b);
      OrderIsPermutation(before, rows, sort, false, |frames|);
      var after := After(before, rows, sort, false, |frames|);
      assert a in multiset(after.keys) && b in multiset(after.keys);
    }
  }

  /** A sorted list follows the chosen criteria, and does not depend on the order rows came in. */
  lemma SortedListIsCanonical(order: Order, x: seq<CardRow>, y: seq<CardRow>, sort: TrafficSort, now: int)
    requires multiset(x) == multiset(y)
    requires forall a, b | a in x && b in x && a.keyRank == b.keyRank :: a == b
    ensures After(order, x, sort, true, now).keys == After(order, y, sort, true, now).keys
    ensures exists rows :: After(order, x, sort, true, now).keys == Keys(rows) && multiset(rows) == multiset(x) && InOrder(sort, rows)
  {
    SortSorts(sort, x);
    SortSorts(sort, y);
    forall a, b | a in Sorted(sort, x) && b in Sorted(sort, x) && a.keyRank == b.keyRank ensures a == b {
      assert a in multiset(Sorted(sort, x)) && b in multiset(Sorted(sort, x));
    }
    OrderIsUnique(sort, Sorted(sort, x), Sorted(sort, y));
  }
}
