/** The time windows of planned corrections (scripts/repair-usage-journal-fallback.py). */
module JournalWindows {
  import opened Wrappers
  import opened JournalRepair
  import opened JournalLaws

  /** Windows of one key follow one another. */
  ghost predicate Apart(corrections: seq<Correction>) {
    forall i, j | 0 <= i < j < |corrections| && corrections[i].key == corrections[j].key ::
      corrections[i].windowEnd <= corrections[j].windowStart
  }

  /** No correction of the key reaches beyond this moment. */
  ghost predicate EndBy(corrections: seq<Correction>, key: Key, at: int) {
    forall c | c in corrections && c.key == key :: c.windowEnd <= at
  }

  ghost predicate Spaced(s: State) {
    && Apart(s.corrections)
    && (forall c | c in s.corrections :: c.key in s.heads)
    && (forall k | k in s.heads :: EndBy(s.corrections, k, s.heads[k].readAt))
    && (forall e | e in s.pending :: SpacedOpen(s, e))
  }

  ghost predicate SpacedOpen(s: State, e: Excursion) {
    && e.before.key == e.fallback.key && e.fallback.key in s.heads
    && e.before.readAt < e.fallback.readAt <= s.heads[e.fallback.key].readAt
    && EndBy(s.corrections, e.fallback.key, e.before.readAt)
  }

  /** Two corrections of one excursion, after everything corrected before it. */
  lemma PairApart(corrections: seq<Correction>, e: Excursion, last: Reading, back: Reading)
    requires Apart(corrections) && EndBy(corrections, back.key, e.before.readAt)
    requires e.before.key == e.fallback.key == last.key == back.key
    requires e.before.readAt < e.fallback.readAt <= last.readAt < back.readAt
    ensures Apart(corrections + [Correct(e.before, e.fallback), Correct(last, back)])
    ensures EndBy(corrections + [Correct(e.before, e.fallback), Correct(last, back)], back.key, back.readAt)
  {
    var n, all := |corrections|, corrections + [Correct(e.before, e.fallback), Correct(last, back)];
    assert all[n] == Correct(e.before, e.fallback) && all[n + 1] == Correct(last, back);
    forall i, j | 0 <= i < j < |all| && all[i].key == all[j].key ensures all[i].windowEnd <= all[j].windowStart {
      if i < n <= j { assert corrections[i] in corrections; }
    }
  }

  lemma StepKeepsApart(s: State, row: Reading)
    requires Valid(s) && Spaced(s) && row.key in s.heads && Accepts(s.heads[row.key], row)
    ensures var s' := Step(s, row);
            && Apart(s'.corrections) && EndBy(s'.corrections, row.key, row.readAt)
            && forall c | c in s'.corrections :: c in s.corrections || c.key == row.key
  {
    FindIn(s.pending, row.key);
    var found := Find(s.pending, row.key);
    if found.Some? && Returns(found.value, s.heads[row.key], row) {
      assert SpacedOpen(s, found.value);
      PairApart(s.corrections, found.value, s.heads[row.key], row);
    }
  }

  lemma OpenStaysSpaced(s: State, row: Reading, e: Excursion)
    requires Valid(s) && Spaced(s) && row.key in s.heads && Accepts(s.heads[row.key], row)
    requires e in Step(s, row).pending
    ensures SpacedOpen(Step(s, row), e)
  {
    FindIn(s.pending, row.key);
    DeleteLeaves(s.pending, row.key);
    if e in s.pending { assert SpacedOpen(s, e); }
  }

  lemma StepKeepsSpaced(s: State, row: Reading)
    requires Valid(s) && Spaced(s)
    ensures Spaced(Step(s, row))
  {
    if row.key in s.heads && Accepts(s.heads[row.key], row) {
      StepKeepsApart(s, row);
      var s' := Step(s, row);
      assert s'.heads == s.heads[row.key := row];
      forall e | e in s'.pending ensures SpacedOpen(s', e) { OpenStaysSpaced(s, row, e); }
    }
  }

  lemma {:induction false} RunIsSpaced(rows: seq<Reading>)
    ensures Spaced(Run(rows))
  {
    if rows != [] {
      RunIsSpaced(rows[..|rows| - 1]);
      RunIsValid(rows[..|rows| - 1]);
      StepKeepsSpaced(Run(rows[..|rows| - 1]), rows[|rows| - 1]);
    }
  }

  /** No time is corrected twice: the windows of one node and label never overlap, in the order of the
      plan, whatever the stream. */
  lemma WindowsNeverOverlap(rows: seq<Reading>, i: nat, j: nat)
    requires i < j < |Run(rows).corrections|
    requires Run(rows).corrections[i].key == Run(rows).corrections[j].key
    ensures Run(rows).corrections[i].windowEnd <= Run(rows).corrections[j].windowStart
  {
    RunIsSpaced(rows);
  }
}
