/** Planning the repair of usage counted twice when a node fell back from its journal to a
  process counter and returned (scripts/repair-usage-journal-fallback.py). */
module JournalRepair {
  import opened Wrappers

  /** Where a counter lives; only journal epochs survive a restart. */
  datatype Epoch = Journal(name: string) | Process(name: string)

  /** One counter: a node and the grant or hop it counts for. */
  datatype Key = Key(node: string, user: string)

  datatype Way = Up | Down

  datatype Reading = Reading(
    id: int, key: Key, readAt: int, start: int, up: int, down: int, epoch: Epoch, generation: string)
  {
    function Counter(way: Way): int { if way.Up? then up else down }
  }

  /** A journal head, then the process reading that fell back from it. */
  datatype Excursion = Excursion(before: Reading, fallback: Reading)

  datatype Correction = Correction(
    key: Key, readingId: int, previousId: int, windowStart: int, windowEnd: int,
    generation: string, subtractUp: int, subtractDown: int, originalUp: int, originalDown: int,
    realUp: int, realDown: int)

  function Correct(before: Reading, current: Reading): Correction {
    Correction(current.key, current.id, before.id,
               if before.readAt >= current.start then before.readAt else current.start, current.readAt,
               current.generation, before.up, before.down, current.up, current.down,
               current.up - before.up, current.down - before.down)
  }

  datatype State = State(
    heads: map<Key, Reading>, pending: seq<Excursion>, corrections: seq<Correction>, unresolved: seq<Excursion>)

  const START := State(map[], [], [], [])

  function Find(pending: seq<Excursion>, key: Key): Option<Excursion> {
    if pending == [] then None
    else if pending[0].fallback.key == key then Some(pending[0])
    else Find(pending[1..], key)
  }

  function Delete(pending: seq<Excursion>, key: Key): seq<Excursion> {
    if pending == [] then []
    else if pending[0].fallback.key == key then Delete(pending[1..], key)
    else [pending[0]] + Delete(pending[1..], key)
  }

  predicate Grows(before: Reading, row: Reading) { row.up >= before.up && row.down >= before.down }

  /** The head accepts later readings whose counter did not run backwards within its epoch. */
  predicate Accepts(before: Reading, row: Reading) {
    row.readAt > before.readAt && !(row.epoch == before.epoch && !Grows(before, row))
  }

  /** The head returns to the very journal it fell back from, with counters that carried on. */
  predicate Returns(active: Excursion, before: Reading, row: Reading) {
    row.epoch == active.before.epoch && Grows(before, row)
  }

  predicate Breaks(active: Excursion, before: Reading, row: Reading) {
    row.epoch != active.fallback.epoch || !Grows(before, row)
  }

  predicate FallsBack(before: Reading, row: Reading) {
    before.epoch.Journal? && !row.epoch.Journal? && row.start <= before.readAt && Grows(before, row)
  }

  /** One reading of the planner's loop. */
  function Step(s: State, row: Reading): State {
    var key := row.key;
    if key !in s.heads then s.(heads := s.heads[key := row])
    else
      var before := s.heads[key];
      if !Accepts(before, row) then s
      else
        var heads := s.heads[key := row];
        match Find(s.pending, key)
        case Some(active) =>
          if Returns(active, before, row) then
            State(heads, Delete(s.pending, key),
                  s.corrections + [Correct(active.before, active.fallback), Correct(before, row)], s.unresolved)
          else if Breaks(active, before, row) then
            State(heads, Delete(s.pending, key), s.corrections, s.unresolved + [active])
          else s.(heads := heads)
        case None =>
          if FallsBack(before, row) then s.(heads := heads, pending := s.pending + [Excursion(before, row)])
          else s.(heads := heads)
  }

  function Run(rows: seq<Reading>): State {
    if rows == [] then START else Step(Run(rows[..|rows| - 1]), rows[|rows| - 1])
  }

  // ----- the planner as it runs

  datatype Total = Total(up: int, down: int, readings: int)

  datatype Plan = Plan(scanned: int, byNode: map<string, Total>, corrections: seq<Correction>, unresolved: seq<Excursion>)

  datatype Outcome = Planned(plan: Plan) | ValueError

  ghost predicate Increasing(rows: seq<Reading>) {
    forall i, j | 0 <= i < j < |rows| :: 0 < rows[i].id < rows[j].id
  }

  ghost predicate WellNumbered(rows: seq<Reading>) {
    Increasing(rows) && (rows != [] ==> rows[0].id > 0)
  }

  function SumUp(corrections: seq<Correction>, node: string): int {
    if corrections == [] then 0
    else SumUp(corrections[..|corrections| - 1], node) +
         (if corrections[|corrections| - 1].key.node == node then corrections[|corrections| - 1].subtractUp else 0)
  }

  function SumDown(corrections: seq<Correction>, node: string): int {
    if corrections == [] then 0
    else SumDown(corrections[..|corrections| - 1], node) +
         (if corrections[|corrections| - 1].key.node == node then corrections[|corrections| - 1].subtractDown else 0)
  }

  function Count(corrections: seq<Correction>, node: string): int {
    if corrections == [] then 0
    else Count(corrections[..|corrections| - 1], node) +
         (if corrections[|corrections| - 1].key.node == node then 1 else 0)
  }

  function TotalOf(corrections: seq<Correction>, node: string): Total {
    Total(SumUp(corrections, node), SumDown(corrections, node), Count(corrections, node))
  }

  lemma NumberedOn(rows: seq<Reading>, i: nat, previousId: int)
    requires i < |rows| && WellNumbered(rows[..i])
    requires previousId == if i == 0 then 0 else rows[i - 1].id
    ensures if rows[i].id > previousId then WellNumbered(rows[..i + 1]) else !WellNumbered(rows)
  {
    forall j, k | 0 <= j < k < i ensures rows[j].id < rows[k].id { assert rows[..i][j] == rows[j] && rows[..i][k] == rows[k]; }
  }

  /** `plan`: refuses rows that are not in insertion order, otherwise the state of the run, with
      excursions still open at the end counted as unresolved. */
  method MakePlan(rows: seq<Reading>) returns (outcome: Outcome)
    ensures outcome.Planned? <==> WellNumbered(rows)
    ensures outcome.Planned? ==>
              var s := Run(rows);
              && outcome.plan.scanned == |rows|
              && outcome.plan.corrections == s.corrections
              && outcome.plan.unresolved == s.unresolved + s.pending
              && forall node :: if exists c :: c in s.corrections && c.key.node == node
                                then node in outcome.plan.byNode && outcome.plan.byNode[node] == TotalOf(s.corrections, node)
                                else node !in outcome.plan.byNode
  {
    var heads: map<Key, Reading> := map[];
    var pending: seq<Excursion>, corrections: seq<Correction>, unresolved: seq<Excursion> := [], [], [];
    var previousId := 0;
    for i := 0 to |rows|
      invariant State(heads, pending, corrections, unresolved) == Run(rows[..i])
      invariant WellNumbered(rows[..i])
      invariant previousId == if i == 0 then 0 else rows[i - 1].id
    {
      var row := rows[i];
      NumberedOn(rows, i, previousId);
      if row.id <= previousId { return ValueError; }
      assert rows[..i + 1][..i] == rows[..i];
      previousId := row.id;
      var key := row.key;
      if key !in heads { heads := heads[key := row]; continue; }
      var before := heads[key];
      if row.readAt <= before.readAt { continue; }
      if row.epoch == before.epoch && (row.up < before.up || row.down < before.down) { continue; }
      var active := Find(pending, key);
      if active.Some? {
        var e := active.value;
        if row.epoch == e.before.epoch && row.up >= before.up && row.down >= before.down {
          corrections := corrections + [Correct(e.before, e.fallback), Correct(before, row)];
          pending := Delete(pending, key);
        } else if row.epoch != e.fallback.epoch || row.up < before.up || row.down < before.down {
          unresolved := unresolved + [e];
          pending := Delete(pending, key);
        }
      } else if before.epoch.Journal? && !row.epoch.Journal? && row.start <= before.readAt
                && row.up >= before.up && row.down >= before.down {
        pending := pending + [Excursion(before, row)];
      }
      heads := heads[key := row];
    }
    assert rows[..|rows|] == rows;
    unresolved := unresolved + pending;
    var totals := AddUp(corrections);
    outcome := Planned(Plan(|rows|, totals, corrections, unresolved));
  }

  method AddUp(corrections: seq<Correction>) returns (totals: map<string, Total>)
    ensures forall node :: if exists c :: c in corrections && c.key.node == node
                           then node in totals && totals[node] == TotalOf(corrections, node)
                           else node !in totals
  {
    totals := map[];
    for i := 0 to |corrections|
      invariant forall node | node in totals :: totals[node] == TotalOf(corrections[..i], node)
      invariant forall node | node !in totals :: TotalOf(corrections[..i], node) == Total(0, 0, 0)
      invariant forall node :: node in totals <==> exists c :: c in corrections[..i] && c.key.node == node
    {
      var item := corrections[i];
      assert corrections[..i + 1] == corrections[..i] + [item];
      var total := if item.key.node in totals then totals[item.key.node] else Total(0, 0, 0);
      totals := totals[item.key.node := Total(total.up + item.subtractUp, total.down + item.subtractDown, total.readings + 1)];
    }
    assert corrections[..|corrections|] == corrections;
  }
}
