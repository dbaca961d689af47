/** What the repair plan guarantees, over reading streams of any length. */
module JournalLaws {
  import opened Wrappers
  import opened JournalRepair

  // ----- open excursions

  lemma {:induction false} FindIn(pending: seq<Excursion>, key: Key)
    ensures Find(pending, key).Some? ==> Find(pending, key).value in pending && Find(pending, key).value.fallback.key == key
    ensures Find(pending, key).None? ==> forall e | e in pending :: e.fallback.key != key
  {
    if pending != [] { FindIn(pending[1..], key); }
  }

  ghost predicate UniqueKeys(pending: seq<Excursion>) {
    forall i, j | 0 <= i < j < |pending| :: pending[i].fallback.key != pending[j].fallback.key
  }

  lemma {:induction false} DeleteLeaves(pending: seq<Excursion>, key: Key)
    requires UniqueKeys(pending)
    ensures UniqueKeys(Delete(pending, key))
    ensures forall e :: e in Delete(pending, key) <==> e in pending && e.fallback.key != key
  {
    if pending != [] {
      DeleteLeaves(pending[1..], key);
      assert forall e | e in pending[1..] :: e.fallback.key != pending[0].fallback.key;
    }
  }

  lemma {:induction false} DeleteNothing(pending: seq<Excursion>, key: Key)
    requires forall e | e in pending :: e.fallback.key != key
    ensures Delete(pending, key) == pending
  {
    if pending != [] { DeleteNothing(pending[1..], key); }
  }

  lemma {:induction false} DeleteOne(pending: seq<Excursion>, key: Key)
    requires UniqueKeys(pending) && Find(pending, key).Some?
    ensures multiset(pending) == multiset(Delete(pending, key)) + multiset{Find(pending, key).value}
  {
    assert pending == [pending[0]] + pending[1..];
    if pending[0].fallback.key == key {
      assert forall e | e in pending[1..] :: e.fallback.key != key;
      DeleteNothing(pending[1..], key);
    } else {
      DeleteOne(pending[1..], key);
    }
  }

  lemma {:induction false} FindAfterDelete(pending: seq<Excursion>, gone: Key, key: Key)
    ensures Find(Delete(pending, gone), key) == if key == gone then None else Find(pending, key)
  {
    if pending != [] { FindAfterDelete(pending[1..], gone, key); }
  }

  lemma {:induction false} FindAfterAppend(pending: seq<Excursion>, e: Excursion, key: Key)
    ensures Find(pending + [e], key) ==
            if Find(pending, key).Some? then Find(pending, key) else if e.fallback.key == key then Some(e) else None
  {
    if pending == [] {
      assert [e][1..] == [];
    } else {
      assert (pending + [e])[1..] == pending[1..] + [e];
      FindAfterAppend(pending[1..], e, key);
    }
  }

  /** While a key has an open excursion, its head is in the process epoch it fell back to, and
      has only grown since. */
  ghost predicate OpenOk(heads: map<Key, Reading>, e: Excursion) {
    && e.before.key == e.fallback.key && e.before.epoch.Journal? && e.fallback.epoch.Process?
    && Grows(e.before, e.fallback)
    && e.fallback.key in heads
    && heads[e.fallback.key].epoch == e.fallback.epoch && Grows(e.fallback, heads[e.fallback.key])
  }

  ghost predicate Sound(c: Correction) {
    c.realUp == c.originalUp - c.subtractUp >= 0 && c.realDown == c.originalDown - c.subtractDown >= 0
  }

  ghost predicate Valid(s: State) {
    && UniqueKeys(s.pending)
    && (forall k | k in s.heads :: s.heads[k].key == k)
    && (forall e | e in s.pending :: OpenOk(s.heads, e))
    && (forall c | c in s.corrections :: Sound(c))
  }

  /** Closing or giving up an excursion leaves the others as they were. */
  lemma DeleteKeepsOpen(s: State, row: Reading)
    requires Valid(s) && row.key in s.heads
    ensures UniqueKeys(Delete(s.pending, row.key))
    ensures forall e | e in Delete(s.pending, row.key) :: OpenOk(s.heads[row.key := row], e)
  {
    DeleteLeaves(s.pending, row.key);
    forall e | e in Delete(s.pending, row.key) ensures OpenOk(s.heads[row.key := row], e) {
      assert OpenOk(s.heads, e);
    }
  }

  lemma StepKeepsValid(s: State, row: Reading)
    requires Valid(s)
    ensures Valid(Step(s, row))
  {
    var key := row.key;
    if key in s.heads && Accepts(s.heads[key], row) {
      FindIn(s.pending, key);
      DeleteKeepsOpen(s, row);
      var found := Find(s.pending, key);
      if found.Some? {
        assert OpenOk(s.heads, found.value);
        OthersStayOpen(s, row, found.value);
      }
    }
  }

  lemma OthersStayOpen(s: State, row: Reading, active: Excursion)
    requires Valid(s) && row.key in s.heads && Accepts(s.heads[row.key], row)
    requires Find(s.pending, row.key) == Some(active) && active in s.pending && active.fallback.key == row.key
    ensures !Breaks(active, s.heads[row.key], row) ==>
              forall e | e in s.pending :: OpenOk(s.heads[row.key := row], e)
  {
    if !Breaks(active, s.heads[row.key], row) {
      var i :| 0 <= i < |s.pending| && s.pending[i] == active;
      forall e | e in s.pending ensures OpenOk(s.heads[row.key := row], e) {
        assert OpenOk(s.heads, e);
        var j :| 0 <= j < |s.pending| && s.pending[j] == e;
        assert e.fallback.key == row.key ==> i == j;
      }
    }
  }

  /** In every run: the head of a key with an open excursion is in the excursion's process epoch,
      and every planned correction leaves a real amount that is not negative. */
  lemma {:induction false} RunIsValid(rows: seq<Reading>)
    ensures Valid(Run(rows))
  {
    if rows != [] {
      RunIsValid(rows[..|rows| - 1]);
      StepKeepsValid(Run(rows[..|rows| - 1]), rows[|rows| - 1]);
    }
  }

  // ----- every excursion is settled once

  datatype Resolution = Resolution(excursion: Excursion, last: Reading, back: Reading)

  predicate Opens(s: State, row: Reading) {
    row.key in s.heads && Accepts(s.heads[row.key], row) && Find(s.pending, row.key).None?
    && FallsBack(s.heads[row.key], row)
  }

  predicate Closes(s: State, row: Reading) {
    row.key in s.heads && Accepts(s.heads[row.key], row) && Find(s.pending, row.key).Some?
    && Returns(Find(s.pending, row.key).value, s.heads[row.key], row)
  }

  /** A reading opens an excursion exactly when it is later than a journal head of its key, no excursion
      of the key is open, and a process that began no later than the journal was read carries on counting. */
  lemma OpensIff(s: State, row: Reading)
    requires Valid(s)
    ensures Opens(s, row) <==>
            && row.key in s.heads && (forall e | e in s.pending :: e.fallback.key != row.key)
            && s.heads[row.key].epoch.Journal? && row.epoch.Process?
            && row.start <= s.heads[row.key].readAt < row.readAt
            && row.up >= s.heads[row.key].up && row.down >= s.heads[row.key].down
  {
    FindIn(s.pending, row.key);
  }

  /** It closes the one open exactly when it is later than the head and the journal the excursion left
      carries on counting. */
  lemma ClosesIff(s: State, row: Reading, e: Excursion)
    requires Valid(s) && e in s.pending && e.fallback.key == row.key
    ensures Find(s.pending, row.key) == Some(e)
    ensures Closes(s, row) <==>
            && row.epoch == e.before.epoch && row.readAt > s.heads[row.key].readAt
            && row.up >= s.heads[row.key].up && row.down >= s.heads[row.key].down
  {
    FindIn(s.pending, row.key);
    assert OpenOk(s.heads, e);
  }

  /** It ends the one open without a correction exactly when it is accepted as the new head and is
      neither the journal nor the process carrying on. */
  lemma GivesUpIff(s: State, row: Reading, e: Excursion)
    requires Valid(s) && e in s.pending && e.fallback.key == row.key
    ensures var before, after := s.heads[row.key], Step(s, row);
            var carriesOn := row.up >= before.up && row.down >= before.down;
            after.unresolved == s.unresolved + [e] <==>
              && row.readAt > before.readAt && (row.epoch == before.epoch ==> carriesOn)
              && !(carriesOn && row.epoch in {e.before.epoch, e.fallback.epoch})
  {
    FindIn(s.pending, row.key);
    assert OpenOk(s.heads, e);
    assert |s.unresolved + [e]| != |s.unresolved|;
  }

  /** A reading becomes the head of its key exactly when the key is new, or it is later and its counters
      did not fall within an epoch. */
  lemma HeadIff(s: State, row: Reading)
    requires Valid(s) && (row.key in s.heads ==> s.heads[row.key] != row)
    ensures row.key in Step(s, row).heads
    ensures Step(s, row).heads[row.key] == row <==>
            row.key in s.heads ==>
              && row.readAt > s.heads[row.key].readAt
              && (row.epoch == s.heads[row.key].epoch ==>
                    row.up >= s.heads[row.key].up && row.down >= s.heads[row.key].down)
  {
  }

  /** Excursions in the order they opened. */
  function Opened(rows: seq<Reading>): seq<Excursion> {
    if rows == [] then []
    else
      var s, row := Run(rows[..|rows| - 1]), rows[|rows| - 1];
      var before := Opened(rows[..|rows| - 1]);
      if Opens(s, row) then before + [Excursion(s.heads[row.key], row)] else before
  }

  /** Returns to the journal, in order. */
  function Resolved(rows: seq<Reading>): seq<Resolution> {
    if rows == [] then []
    else
      var s, row := Run(rows[..|rows| - 1]), rows[|rows| - 1];
      var before := Resolved(rows[..|rows| - 1]);
      if Closes(s, row) then before + [Resolution(Find(s.pending, row.key).value, s.heads[row.key], row)] else before
  }

  /** Every excursion leaves a journal for a process that began before the journal was last read. */
  lemma {:induction false} OpenedIsFallback(rows: seq<Reading>, e: Excursion)
    requires e in Opened(rows)
    ensures e.before.key == e.fallback.key && e.before in rows && e.fallback in rows
    ensures e.before.epoch.Journal? && e.fallback.epoch.Process?
    ensures e.fallback.start <= e.before.readAt < e.fallback.readAt
    ensures e.fallback.up >= e.before.up && e.fallback.down >= e.before.down
  {
    var front, row := rows[..|rows| - 1], rows[|rows| - 1];
    assert rows == front + [row];
    RunIsValid(front);
    FromStream(front);
    if e in Opened(front) { OpenedIsFallback(front, e); } else { OpensIff(Run(front), row); }
  }

  /** Every excursion resolved ends with the journal it left, counting on from the process. */
  lemma {:induction false} ResolvedIsReturn(rows: seq<Reading>, r: Resolution)
    requires r in Resolved(rows)
    ensures r.excursion in Opened(rows) && r.last in rows && r.back in rows
    ensures r.back.key == r.last.key == r.excursion.before.key
    ensures r.back.epoch == r.excursion.before.epoch && r.last.epoch == r.excursion.fallback.epoch
    ensures r.back.readAt > r.last.readAt && r.back.up >= r.last.up && r.back.down >= r.last.down
  {
    var front, row := rows[..|rows| - 1], rows[|rows| - 1];
    assert rows == front + [row];
    RunIsValid(front);
    FromStream(front);
    if r in Resolved(front) {
      ResolvedIsReturn(front, r);
    } else {
      var s := Run(front);
      FindIn(s.pending, row.key);
      ClosesIff(s, row, r.excursion);
      assert OpenOk(s.heads, r.excursion);
    }
  }

  /** The correction of one reading by another of the stream: it names both, spans from the later of the
      first reading and the start of the second's process, and takes off what the first had counted. */
  ghost predicate OfReadings(rows: seq<Reading>, c: Correction, first: Reading, second: Reading) {
    && first in rows && second in rows && first.key == second.key == c.key
    && c.previousId == first.id && c.readingId == second.id && c.generation == second.generation
    && c.windowEnd == second.readAt && c.windowStart >= first.readAt && c.windowStart >= second.start
    && (c.windowStart == first.readAt || c.windowStart == second.start)
    && c.originalUp == second.up && c.originalDown == second.down
    && c.subtractUp == first.up && c.subtractDown == first.down
  }

  ghost predicate StreamOnly(rows: seq<Reading>, s: State) {
    && (forall k | k in s.heads :: s.heads[k] in rows)
    && (forall e | e in s.pending :: e.before in rows && e.fallback in rows && e in Opened(rows))
    && (forall c | c in s.corrections :: exists first, second :: OfReadings(rows, c, first, second))
  }

  /** A run speaks of readings of its stream only. */
  lemma {:induction false} FromStream(rows: seq<Reading>)
    ensures StreamOnly(rows, Run(rows))
  {
    if rows != [] {
      var front, row := rows[..|rows| - 1], rows[|rows| - 1];
      assert rows == front + [row];
      FromStream(front);
      RunIsValid(front);
      StepFromStream(front, row);
    }
  }

  lemma OfMoreReadings(rows: seq<Reading>, row: Reading, corrections: seq<Correction>)
    requires forall c | c in corrections :: exists first, second :: OfReadings(rows, c, first, second)
    ensures forall c | c in corrections :: exists first, second :: OfReadings(rows + [row], c, first, second)
  {
    forall c | c in corrections ensures exists first, second :: OfReadings(rows + [row], c, first, second) {
      var first, second :| OfReadings(rows, c, first, second);
      assert OfReadings(rows + [row], c, first, second);
    }
  }

  lemma StepFromStream(front: seq<Reading>, row: Reading)
    requires StreamOnly(front, Run(front)) && Valid(Run(front))
    ensures StreamOnly(front + [row], Step(Run(front), row))
  {
    var s, rows := Run(front), front + [row];
    assert rows[..|front|] == front;
    OfMoreReadings(front, row, s.corrections);
    FindIn(s.pending, row.key);
    DeleteLeaves(s.pending, row.key);
    if Closes(s, row) {
      var e, before := Find(s.pending, row.key).value, s.heads[row.key];
      assert OpenOk(s.heads, e);
      assert OfReadings(rows, Correct(e.before, e.fallback), e.before, e.fallback);
      assert OfReadings(rows, Correct(before, row), before, row);
    }
  }

  /** Every correction of a plan is of two readings of its stream. */
  lemma CorrectionsAreOfReadings(rows: seq<Reading>, c: Correction) returns (first: Reading, second: Reading)
    requires c in Run(rows).corrections
    ensures OfReadings(rows, c, first, second)
  {
    FromStream(rows);
    first, second :| OfReadings(rows, c, first, second);
  }

  function Pairs(resolved: seq<Resolution>): seq<Correction> {
    if resolved == [] then []
    else
      var last := resolved[|resolved| - 1];
      Pairs(resolved[..|resolved| - 1]) +
      [Correct(last.excursion.before, last.excursion.fallback), Correct(last.last, last.back)]
  }

  function Excursions(resolved: seq<Resolution>): multiset<Excursion> {
    if resolved == [] then multiset{}
    else Excursions(resolved[..|resolved| - 1]) + multiset{resolved[|resolved| - 1].excursion}
  }

  lemma ResolveOne(resolved: seq<Resolution>, r: Resolution)
    ensures Pairs(resolved + [r]) ==
            Pairs(resolved) + [Correct(r.excursion.before, r.excursion.fallback), Correct(r.last, r.back)]
    ensures Excursions(resolved + [r]) == Excursions(resolved) + multiset{r.excursion}
  {
    assert (resolved + [r])[..|resolved|] == resolved;
  }

  /** One reading moves an excursion at most one place along: opened, open, settled. */
  lemma StepSettles(s: State, row: Reading, x: Excursion)
    requires Valid(s)
    ensures multiset(Step(s, row).pending)[x] + multiset(Step(s, row).unresolved)[x]
              + (if Closes(s, row) && Find(s.pending, row.key).value == x then 1 else 0)
            == multiset(s.pending)[x] + multiset(s.unresolved)[x]
              + (if Opens(s, row) && Excursion(s.heads[row.key], row) == x then 1 else 0)
  {
    if row.key in s.heads && Accepts(s.heads[row.key], row) && Find(s.pending, row.key).Some? {
      DeleteOne(s.pending, row.key);
      SettlesOpen(s, row, x);
    }
  }

  lemma SettlesOpen(s: State, row: Reading, x: Excursion)
    requires row.key in s.heads && Accepts(s.heads[row.key], row) && Find(s.pending, row.key).Some?
    requires multiset(Delete(s.pending, row.key))[x] + (if Find(s.pending, row.key).value == x then 1 else 0)
             == multiset(s.pending)[x]
    ensures multiset(Step(s, row).pending)[x] + multiset(Step(s, row).unresolved)[x]
              + (if Closes(s, row) && Find(s.pending, row.key).value == x then 1 else 0)
            == multiset(s.pending)[x] + multiset(s.unresolved)[x]
  {
    var e := Find(s.pending, row.key).value;
    assert multiset(s.unresolved + [e])[x] == multiset(s.unresolved)[x] + if e == x then 1 else 0;
  }

  lemma {:induction false} CorrectionsArePairs(rows: seq<Reading>)
    ensures Run(rows).corrections == Pairs(Resolved(rows))
  {
    if rows != [] {
      var front, row := rows[..|rows| - 1], rows[|rows| - 1];
      CorrectionsArePairs(front);
      RunIsValid(front);
      var s := Run(front);
      if Closes(s, row) {
        ResolveOne(Resolved(front), Resolution(Find(s.pending, row.key).value, s.heads[row.key], row));
      }
    }
  }

  lemma {:induction false} ExcursionsBalance(rows: seq<Reading>, x: Excursion)
    ensures multiset(Opened(rows))[x] ==
            Excursions(Resolved(rows))[x] + multiset(Run(rows).unresolved)[x] + multiset(Run(rows).pending)[x]
  {
    if rows != [] {
      var front, row := rows[..|rows| - 1], rows[|rows| - 1];
      ExcursionsBalance(front, x);
      RunIsValid(front);
      var s := Run(front);
      StepSettles(s, row, x);
      if Closes(s, row) {
        ResolveOne(Resolved(front), Resolution(Find(s.pending, row.key).value, s.heads[row.key], row));
      }
    }
  }

  /** The corrections are two per resolved excursion and nothing else; every excursion that ever
      opened is resolved once, given up once, or still open once. */
  lemma EveryExcursionSettledOnce(rows: seq<Reading>)
    ensures Run(rows).corrections == Pairs(Resolved(rows))
    ensures multiset(Opened(rows)) ==
            Excursions(Resolved(rows)) + multiset(Run(rows).unresolved) + multiset(Run(rows).pending)
  {
    CorrectionsArePairs(rows);
    forall x { ExcursionsBalance(rows, x); }
  }

  // ----- no reading is corrected twice

  /** How often a reading is corrected already, and will be if open excursions resolve. */
  function TimesCorrected(corrections: seq<Correction>, id: int): nat {
    if corrections == [] then 0
    else
      var last := corrections[|corrections| - 1];
      TimesCorrected(corrections[..|corrections| - 1], id) + if last.readingId == id then 1 else 0
  }

  function TimesOpen(pending: seq<Excursion>, id: int): nat {
    if pending == [] then 0
    else (if pending[0].fallback.id == id then 1 else 0) + TimesOpen(pending[1..], id)
  }

  lemma CorrectTwo(corrections: seq<Correction>, first: Correction, second: Correction, id: int)
    ensures TimesCorrected(corrections + [first, second], id) ==
            TimesCorrected(corrections, id) + (if first.readingId == id then 1 else 0) + (if second.readingId == id then 1 else 0)
  {
    var all := corrections + [first, second];
    assert all[..|all| - 1] == corrections + [first];
    assert (corrections + [first])[..|corrections|] == corrections;
  }

  lemma {:induction false} OpenAppend(pending: seq<Excursion>, e: Excursion, id: int)
    ensures TimesOpen(pending + [e], id) == TimesOpen(pending, id) + if e.fallback.id == id then 1 else 0
  {
    if pending == [] {
      assert [e][1..] == [];
    } else {
      assert (pending + [e])[1..] == pending[1..] + [e];
      OpenAppend(pending[1..], e, id);
    }
  }

  lemma {:induction false} OpenDelete(pending: seq<Excursion>, key: Key, id: int)
    requires UniqueKeys(pending) && Find(pending, key).Some?
    ensures TimesOpen(pending, id) ==
            TimesOpen(Delete(pending, key), id) + if Find(pending, key).value.fallback.id == id then 1 else 0
  {
    if pending[0].fallback.key == key {
      assert forall e | e in pending[1..] :: e.fallback.key != key;
      DeleteNothing(pending[1..], key);
    } else {
      OpenDelete(pending[1..], key, id);
      var left := Delete(pending, key);
      assert left[0] == pending[0] && left[1..] == Delete(pending[1..], key);
    }
  }

  function Touched(s: State, id: int): nat { TimesCorrected(s.corrections, id) + TimesOpen(s.pending, id) }

  lemma StepTouches(s: State, row: Reading, id: int)
    requires Valid(s)
    ensures Touched(Step(s, row), id) <= Touched(s, id) + if id == row.id then 1 else 0
  {
    if row.key in s.heads && Accepts(s.heads[row.key], row) {
      var before, found := s.heads[row.key], Find(s.pending, row.key);
      if found.Some? {
        OpenDelete(s.pending, row.key, id);
        CorrectTwo(s.corrections, Correct(found.value.before, found.value.fallback), Correct(before, row), id);
      } else {
        OpenAppend(s.pending, Excursion(before, row), id);
      }
    }
  }

  /** Each reading is corrected at most once, and only readings of the stream are. */
  lemma {:induction false} CorrectedOnce(rows: seq<Reading>, id: int)
    requires WellNumbered(rows)
    ensures Touched(Run(rows), id) <= 1
    ensures rows == [] || id > rows[|rows| - 1].id ==> Touched(Run(rows), id) == 0
    ensures (forall r | r in rows :: r.id != id) ==> Touched(Run(rows), id) == 0
  {
    if rows != [] {
      var front, row := rows[..|rows| - 1], rows[|rows| - 1];
      assert rows == front + [row];
      CorrectedOnce(front, id);
      RunIsValid(front);
      StepTouches(Run(front), row, id);
    }
  }

  // ----- conservation: what was billed is real growth plus what the plan subtracts

  /** What the usage of one accepted reading was billed as: the whole counter when the epoch
      changed, the increase otherwise. */
  function Charge(s: State, row: Reading, way: Way): int {
    if row.key !in s.heads || !Accepts(s.heads[row.key], row) then 0
    else if row.epoch == s.heads[row.key].epoch then row.Counter(way) - s.heads[row.key].Counter(way)
    else row.Counter(way)
  }

  function Billed(rows: seq<Reading>, key: Key, way: Way): int {
    if rows == [] then 0
    else
      var front, row := rows[..|rows| - 1], rows[|rows| - 1];
      Billed(front, key, way) + if row.key == key then Charge(Run(front), row, way) else 0
  }

  /** What it really was: falling back from a journal and returning to it continue one counter. */
  function Growth(s: State, row: Reading, way: Way): int {
    if row.key !in s.heads || !Accepts(s.heads[row.key], row) then 0
    else if row.epoch == s.heads[row.key].epoch || Opens(s, row) || Closes(s, row)
    then row.Counter(way) - s.heads[row.key].Counter(way)
    else row.Counter(way)
  }

  function Grown(rows: seq<Reading>, key: Key, way: Way): int {
    if rows == [] then 0
    else
      var front, row := rows[..|rows| - 1], rows[|rows| - 1];
      Grown(front, key, way) + if row.key == key then Growth(Run(front), row, way) else 0
  }

  function Subtract(c: Correction, way: Way): int { if way.Up? then c.subtractUp else c.subtractDown }

  function Subtracted(corrections: seq<Correction>, key: Key, way: Way): int {
    if corrections == [] then 0
    else
      var last := corrections[|corrections| - 1];
      Subtracted(corrections[..|corrections| - 1], key, way) + if last.key == key then Subtract(last, way) else 0
  }

  /** The journal counters at which given-up excursions began. */
  function GivenUp(unresolved: seq<Excursion>, key: Key, way: Way): int {
    if unresolved == [] then 0
    else
      var last := unresolved[|unresolved| - 1];
      GivenUp(unresolved[..|unresolved| - 1], key, way) + if last.fallback.key == key then last.before.Counter(way) else 0
  }

  function StillOpen(pending: seq<Excursion>, key: Key, way: Way): int {
    match Find(pending, key) case Some(e) => e.before.Counter(way) case None => 0
  }

  function Outstanding(s: State, key: Key, way: Way): int {
    Subtracted(s.corrections, key, way) + GivenUp(s.unresolved, key, way) + StillOpen(s.pending, key, way)
  }

  lemma SubtractTwo(corrections: seq<Correction>, first: Correction, second: Correction, key: Key, way: Way)
    ensures Subtracted(corrections + [first, second], key, way) ==
            Subtracted(corrections, key, way) + (if first.key == key then Subtract(first, way) else 0)
              + (if second.key == key then Subtract(second, way) else 0)
  {
    var all := corrections + [first, second];
    assert all[..|all| - 1] == corrections + [first];
    assert (corrections + [first])[..|corrections|] == corrections;
  }

  lemma GiveUpOne(unresolved: seq<Excursion>, e: Excursion, key: Key, way: Way)
    ensures GivenUp(unresolved + [e], key, way) ==
            GivenUp(unresolved, key, way) + if e.fallback.key == key then e.before.Counter(way) else 0
  {
    assert (unresolved + [e])[..|unresolved|] == unresolved;
  }

  /** The reading of a key that is away from its journal. */
  ghost predicate MeetsOpen(s: State, row: Reading, e: Excursion) {
    && Valid(s) && row.key in s.heads && Accepts(s.heads[row.key], row)
    && Find(s.pending, row.key) == Some(e) && e in s.pending && e.fallback.key == row.key && OpenOk(s.heads, e)
  }

  lemma ReturnBalances(s: State, row: Reading, e: Excursion, key: Key, way: Way)
    requires MeetsOpen(s, row, e) && Returns(e, s.heads[row.key], row)
    ensures Outstanding(Step(s, row), key, way) - Outstanding(s, key, way) ==
            if row.key == key then Charge(s, row, way) - Growth(s, row, way) else 0
  {
    FindAfterDelete(s.pending, row.key, key);
    SubtractTwo(s.corrections, Correct(e.before, e.fallback), Correct(s.heads[row.key], row), key, way);
  }

  lemma BreakBalances(s: State, row: Reading, e: Excursion, key: Key, way: Way)
    requires MeetsOpen(s, row, e) && !Returns(e, s.heads[row.key], row) && Breaks(e, s.heads[row.key], row)
    ensures Outstanding(Step(s, row), key, way) - Outstanding(s, key, way) ==
            if row.key == key then Charge(s, row, way) - Growth(s, row, way) else 0
  {
    FindAfterDelete(s.pending, row.key, key);
    GiveUpOne(s.unresolved, e, key, way);
  }

  lemma StayBalances(s: State, row: Reading, e: Excursion, key: Key, way: Way)
    requires MeetsOpen(s, row, e) && !Returns(e, s.heads[row.key], row) && !Breaks(e, s.heads[row.key], row)
    ensures Outstanding(Step(s, row), key, way) - Outstanding(s, key, way) ==
            if row.key == key then Charge(s, row, way) - Growth(s, row, way) else 0
  {
  }

  lemma StepBalances(s: State, row: Reading, key: Key, way: Way)
    requires Valid(s)
    ensures Outstanding(Step(s, row), key, way) - Outstanding(s, key, way) ==
            if row.key == key then Charge(s, row, way) - Growth(s, row, way) else 0
  {
    if row.key in s.heads && Accepts(s.heads[row.key], row) {
      var found := Find(s.pending, row.key);
      if found.Some? {
        var e, before := found.value, s.heads[row.key];
        FindIn(s.pending, row.key);
        assert OpenOk(s.heads, e);
        if Returns(e, before, row) {
          ReturnBalances(s, row, e, key, way);
        } else if Breaks(e, before, row) {
          BreakBalances(s, row, e, key, way);
        } else {
          StayBalances(s, row, e, key, way);
        }
      } else {
        FindAfterAppend(s.pending, Excursion(s.heads[row.key], row), key);
      }
    }
  }

  /** For every key, at every moment, both ways: bytes billed are real growth, plus exactly what
      the plan subtracts, plus the journal counters of excursions that are not resolved. */
  lemma {:induction false} BilledIsGrowthPlusPlan(rows: seq<Reading>, key: Key, way: Way)
    ensures Billed(rows, key, way) == Grown(rows, key, way) + Outstanding(Run(rows), key, way)
  {
    if rows != [] {
      var front, row := rows[..|rows| - 1], rows[|rows| - 1];
      BilledIsGrowthPlusPlan(front, key, way);
      RunIsValid(front);
      StepBalances(Run(front), row, key, way);
    }
  }

  // ----- one excursion, however long

  /** One reading, seen from an excursion that is open after it. */
  lemma StepWhileOpen(s: State, row: Reading, key: Key, way: Way)
    requires Valid(s) && Find(Step(s, row).pending, key).Some?
    ensures key in Step(s, row).heads
    ensures var e, after := Find(Step(s, row).pending, key).value, Step(s, row).heads[key].Counter(way);
            var charge := if row.key == key then Charge(s, row, way) else 0;
            if Find(s.pending, key).Some?
            then Find(s.pending, key).value == e && key in s.heads && charge == after - s.heads[key].Counter(way)
            else e.fallback == row && charge == after
  {
    FindIn(s.pending, key);
    FindAfterDelete(s.pending, row.key, key);
    if Find(s.pending, key).Some? { assert OpenOk(s.heads, Find(s.pending, key).value); }
    if row.key in s.heads { FindAfterAppend(s.pending, Excursion(s.heads[row.key], row), key); }
  }

  /** While the excursion opened by reading `i` is open, what was billed since is its head's counter. */
  lemma {:induction false} OpenExcursionBills(rows: seq<Reading>, i: nat, m: nat, way: Way)
    requires WellNumbered(rows) && i < m <= |rows|
    requires Find(Run(rows[..m]).pending, rows[i].key).Some?
    requires Find(Run(rows[..m]).pending, rows[i].key).value.fallback == rows[i]
    ensures var key, s := rows[i].key, Run(rows[..m]);
            key in s.heads &&
            Billed(rows[..m], key, way) - Billed(rows[..i], key, way) == s.heads[key].Counter(way)
  {
    OneReadingOn(rows, m - 1, rows[i], way);
    if m - 1 > i {
      OtherReading(rows, i, m - 1);
      OpenExcursionBills(rows, i, m - 1, way);
    } else {
      NotYetOpen(rows, i);
      FindIn(Run(rows[..i]).pending, rows[i].key);
    }
  }

  lemma OtherReading(rows: seq<Reading>, i: nat, j: nat)
    requires WellNumbered(rows) && i < j < |rows|
    ensures rows[i] != rows[j]
  {
    assert rows[i].id < rows[j].id;
  }

  /** The same of the next reading of a stream. */
  lemma OneReadingOn(rows: seq<Reading>, m: nat, fallback: Reading, way: Way)
    requires m < |rows| && Find(Run(rows[..m + 1]).pending, fallback.key).Some?
    requires Find(Run(rows[..m + 1]).pending, fallback.key).value.fallback == fallback
    ensures var key, s, after := fallback.key, Run(rows[..m]), Run(rows[..m + 1]);
            key in after.heads &&
            var charged := Billed(rows[..m + 1], key, way) - Billed(rows[..m], key, way);
            if Find(s.pending, key).Some?
            then Find(s.pending, key).value.fallback == fallback && key in s.heads
                 && charged == after.heads[key].Counter(way) - s.heads[key].Counter(way)
            else rows[m] == fallback && charged == after.heads[key].Counter(way)
  {
    assert rows[..m + 1][..m] == rows[..m];
    RunIsValid(rows[..m]);
    StepWhileOpen(Run(rows[..m]), rows[m], fallback.key, way);
  }

  /** Before a reading is seen no open excursion can have it as its fallback. */
  lemma {:induction false} NotYetOpen(rows: seq<Reading>, i: nat)
    requires WellNumbered(rows) && i < |rows|
    ensures forall e | e in Run(rows[..i]).pending :: e.fallback != rows[i]
  {
    OldFallbacks(rows, i);
  }

  lemma {:induction false} OldFallbacks(rows: seq<Reading>, n: nat)
    requires n <= |rows|
    ensures forall e | e in Run(rows[..n]).pending :: e.fallback in rows[..n]
  {
    if n > 0 {
      OldFallbacks(rows, n - 1);
      assert rows[..n][..n - 1] == rows[..n - 1];
      var s := Run(rows[..n - 1]);
      RunIsValid(rows[..n - 1]);
      DeleteLeaves(s.pending, rows[n - 1].key);
    }
  }

  /** A journal, any number of process readings, and the same journal again: what was billed over
      the excursion less its two planned subtractions is the journal's own growth. */
  lemma ExcursionTelescopes(rows: seq<Reading>, i: nat, j: nat, way: Way)
    requires WellNumbered(rows) && i < j < |rows| && rows[j].key == rows[i].key
    requires Closes(Run(rows[..j]), rows[j])
    requires Find(Run(rows[..j]).pending, rows[i].key).value.fallback == rows[i]
    ensures var key := rows[i].key;
            var e := Find(Run(rows[..j]).pending, key).value;
            var plan := Run(rows[..j + 1]).corrections;
            |plan| >= 2 && plan[..|plan| - 2] == Run(rows[..j]).corrections &&
            Billed(rows[..j + 1], key, way) - Billed(rows[..i], key, way)
              - Subtract(plan[|plan| - 2], way) - Subtract(plan[|plan| - 1], way)
            == rows[j].Counter(way) - e.before.Counter(way)
  {
    OpenExcursionBills(rows, i, j, way);
    RunIsValid(rows[..j]);
    FindIn(Run(rows[..j]).pending, rows[i].key);
    assert OpenOk(Run(rows[..j]).heads, Find(Run(rows[..j]).pending, rows[i].key).value);
    assert rows[..j + 1][..j] == rows[..j];
  }

  // ----- keys do not affect each other

  function RowsOf(rows: seq<Reading>, key: Key): seq<Reading> {
    if rows == [] then []
    else
      var last := rows[|rows| - 1];
      RowsOf(rows[..|rows| - 1], key) + if last.key == key then [last] else []
  }

  function CorrectionsOf(corrections: seq<Correction>, key: Key): seq<Correction> {
    if corrections == [] then []
    else
      var last := corrections[|corrections| - 1];
      CorrectionsOf(corrections[..|corrections| - 1], key) + if last.key == key then [last] else []
  }

  function ExcursionsOf(excursions: seq<Excursion>, key: Key): seq<Excursion> {
    if excursions == [] then []
    else
      var last := excursions[|excursions| - 1];
      ExcursionsOf(excursions[..|excursions| - 1], key) + if last.fallback.key == key then [last] else []
  }

  /** The part of a state that is about one key. */
  function Part(s: State, key: Key): State {
    State(if key in s.heads then map[key := s.heads[key]] else map[],
          match Find(s.pending, key) case Some(e) => [e] case None => [],
          CorrectionsOf(s.corrections, key), ExcursionsOf(s.unresolved, key))
  }

  lemma CorrectTwoOf(corrections: seq<Correction>, first: Correction, second: Correction, key: Key)
    requires first.key == second.key
    ensures CorrectionsOf(corrections + [first, second], key) ==
            CorrectionsOf(corrections, key) + if first.key == key then [first, second] else []
  {
    var all := corrections + [first, second];
    assert all[..|all| - 1] == corrections + [first];
    assert (corrections + [first])[..|corrections|] == corrections;
  }

  lemma ExcursionsOfAppend(excursions: seq<Excursion>, e: Excursion, key: Key)
    ensures ExcursionsOf(excursions + [e], key) ==
            ExcursionsOf(excursions, key) + if e.fallback.key == key then [e] else []
  {
    assert (excursions + [e])[..|excursions|] == excursions;
  }

  lemma FindSingle(e: Excursion, key: Key)
    ensures Find([e], key) == if e.fallback.key == key then Some(e) else None
    ensures Delete([e], key) == if e.fallback.key == key then [] else [e]
  {
    assert [e][1..] == [];
  }

  lemma PartElsewhere(s: State, row: Reading, key: Key)
    requires Valid(s) && row.key != key
    ensures Part(Step(s, row), key) == Part(s, key)
  {
    var at := row.key;
    if at in s.heads && Accepts(s.heads[at], row) {
      FindIn(s.pending, at);
      FindAfterDelete(s.pending, at, key);
      FindAfterAppend(s.pending, Excursion(s.heads[at], row), key);
      assert Find(Step(s, row).pending, key) == Find(s.pending, key);
      ListsElsewhere(s, row, key);
    }
  }

  lemma ListsElsewhere(s: State, row: Reading, key: Key)
    requires Valid(s) && row.key != key
    ensures CorrectionsOf(Step(s, row).corrections, key) == CorrectionsOf(s.corrections, key)
    ensures ExcursionsOf(Step(s, row).unresolved, key) == ExcursionsOf(s.unresolved, key)
  {
    var at := row.key;
    if at in s.heads && Accepts(s.heads[at], row) && Find(s.pending, at).Some? {
      var e := Find(s.pending, at).value;
      FindIn(s.pending, at);
      assert OpenOk(s.heads, e);
      CorrectTwoOf(s.corrections, Correct(e.before, e.fallback), Correct(s.heads[at], row), key);
      ExcursionsOfAppend(s.unresolved, e, key);
    }
  }

  lemma PartHere(s: State, row: Reading)
    requires Valid(s)
    ensures Part(Step(s, row), row.key) == Step(Part(s, row.key), row)
  {
    var at := row.key;
    if at in s.heads && Accepts(s.heads[at], row) {
      if Find(s.pending, at).Some? {
        FindIn(s.pending, at);
        FindAfterDelete(s.pending, at, at);
        FindSingle(Find(s.pending, at).value, at);
        PartHereOpen(s, row, Find(s.pending, at).value);
      } else {
        FindAfterAppend(s.pending, Excursion(s.heads[at], row), at);
      }
    }
  }

  lemma PartHereOpen(s: State, row: Reading, e: Excursion)
    requires Valid(s) && row.key in s.heads && Accepts(s.heads[row.key], row)
    requires Find(s.pending, row.key) == Some(e) && e in s.pending && e.fallback.key == row.key
    ensures CorrectionsOf(Step(s, row).corrections, row.key) == Step(Part(s, row.key), row).corrections
    ensures ExcursionsOf(Step(s, row).unresolved, row.key) == Step(Part(s, row.key), row).unresolved
  {
    assert OpenOk(s.heads, e);
    FindSingle(e, row.key);
    CorrectTwoOf(s.corrections, Correct(e.before, e.fallback), Correct(s.heads[row.key], row), row.key);
    ExcursionsOfAppend(s.unresolved, e, row.key);
  }

  /** Planning all nodes together is planning each key alone. */
  lemma {:induction false} KeysAreIndependent(rows: seq<Reading>, key: Key)
    ensures Part(Run(rows), key) == Run(RowsOf(rows, key))
  {
    if rows != [] {
      var front, row := rows[..|rows| - 1], rows[|rows| - 1];
      KeysAreIndependent(front, key);
      RunIsValid(front);
      var mine := RowsOf(front, key);
      if row.key == key {
        PartHere(Run(front), row);
        assert (mine + [row])[..|mine|] == mine;
      } else {
        PartElsewhere(Run(front), row, key);
        assert mine + [] == mine;
      }
    }
  }
}
