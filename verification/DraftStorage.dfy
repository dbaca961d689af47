/** `DraftStorage` (frontend/src/draft-storage.ts): the object a tab reads and writes shared storage
    through, proved against the history of branches and the facts of receipts. */
module DraftStorages {
  import opened Wrappers
  import opened DraftModel
  import opened Receipts
  import opened DraftHeads
  import opened DraftProtocol

  /** Only this tab moved, and the history of branches only grew. */
  ghost predicate OnlyTab(tab: nat, before: State, after: State) {
    && (forall t | t in before.tabs && t != tab :: t in after.tabs && after.tabs[t] == before.tabs[t])
    && |before.heads.written| <= |after.heads.written|
    && (forall i | 0 <= i < |before.heads.written| :: after.heads.written[i] == before.heads.written[i])
  }

  class DraftStorage {
    /** The `head:` records by the random part of their key, and the values of the `receipt:` records
        in the order their random keys sort. */
    var heads: map<Id, Branch>
    var receipts: seq<Receipt>

    /** The state of the protocol this storage is part of, and every step taken to reach it. */
    ghost var state: State
    ghost var steps: seq<Step>

    ghost predicate Valid()
      reads this
    {
      Holds(state.heads, state.receipts) && Reaches(steps, state)
    }

    constructor ()
      ensures Valid() && state == EMPTY
    {
      heads, receipts := map[], [];
      state, steps := EMPTY, [];
      new;
      assert Run([EMPTY], []);
    }

    /** The records are those of this history that were not removed, and these receipts. */
    ghost predicate Holds(history: Heads, stored: set<Receipt>)
      reads `heads, `receipts
    {
      && (forall id | id in heads :: Keeps(history, id, heads[id]))
      && (forall i | 0 <= i < |history.written| && Present(history, i) ::
            history.written[i].id in heads && heads[history.written[i].id] == history.written[i])
      && stored == set r | r in receipts
    }

    ghost method Take(step: Step)
      requires Reaches(steps, state) && Enabled(state, step)
      modifies `state, `steps
      ensures Reaches(steps, state) && steps == old(steps) + [step]
      ensures state == Do(old(state), step) && OnlyTab(step.tab, old(state), state)
    {
      ReachesOn(steps, state, step);
      steps := steps + [step];
      state := Do(state, step);
    }

    method Write(entries: seq<Entry>, parents: seq<Id>, id: Id, ghost history: Heads, ghost stored: set<Receipt>)
      requires Holds(history, stored) && Fresh(history, id) && id !in parents
      modifies `heads
      ensures Holds(RemoveAll(Publish(history, Branch(id, parents, entries)), parents), stored)
    {
      ghost var now := Publish(history, Branch(id, parents, entries));
      PublishedKeeps(history, Branch(id, parents, entries));
      heads := heads[id := Branch(id, parents, entries)];
      for i := 0 to |parents|
        invariant Holds(RemoveAll(now, parents[..i]), stored)
      {
        ghost var before := RemoveAll(now, parents[..i]);
        heads := heads - {parents[i]};
        assert parents[..i + 1][..i] == parents[..i];
        RemovedKeeps(before, parents[i]);
      }
      assert parents[..|parents|] == parents;
    }

    method Acknowledge(entries: seq<Entry>, ghost history: Heads, ghost stored: set<Receipt>)
      requires Holds(history, stored)
      modifies `receipts
      ensures Holds(history, stored + {ReceiptOf(entries)})
    {
      var receipt := [];
      for i := 0 to |entries|
        invariant receipt == ReceiptOf(entries[..i])
      {
        receipt := receipt + [Submitted.Submitted(entries[i].key, entries[i].editId, entries[i].op.kind)];
      }
      assert entries[..|entries|] == entries;
      // its random key sorts anywhere among the others
      var at: nat :| at <= |receipts|;
      assert receipts == receipts[..at] + receipts[at..];
      receipts := receipts[..at] + [receipt] + receipts[at..];
    }

    method Read(ghost history: Heads, ghost stored: set<Receipt>) returns (branches: seq<Branch>)
      requires Holds(history, stored)
      ensures IsReading(history, AllFacts(stored), branches)
    {
      var records := SettledRecords(receipts);
      ghost var facts := AllFacts(stored);
      var replaced := Replaced(records);
      branches := Unreplaced(records, replaced);
      ReadsLive(history, facts, heads, records, branches);
    }

    static method Replaced(records: seq<Branch>) returns (replaced: set<Id>)
      ensures replaced == ParentsOf(records)
    {
      replaced := {};
      for i := 0 to |records|
        invariant replaced == ParentsOf(records[..i])
      {
        assert records[..i + 1] == records[..i] + [records[i]];
        replaced := replaced + set p | p in records[i].parents;
      }
      assert records[..|records|] == records;
    }

    static method Unreplaced(records: seq<Branch>, replaced: set<Id>) returns (branches: seq<Branch>)
      requires DistinctIds(records)
      ensures DistinctIds(branches)
      ensures forall b :: b in branches <==> b in records && b.id !in replaced
    {
      branches := [];
      for i := 0 to |records|
        invariant DistinctIds(branches)
        invariant forall b :: b in branches <==> b in records[..i] && b.id !in replaced
      {
        assert records[..i + 1] == records[..i] + [records[i]];
        if records[i].id !in replaced {
          assert forall b | b in records[..i] :: b.id != records[i].id;
          branches := branches + [records[i]];
        }
      }
      assert records[..|records|] == records;
    }

    /** Every head record with the receipts applied, each id once. */
    method SettledRecords(submitted: seq<Receipt>) returns (records: seq<Branch>)
      requires forall id | id in heads :: heads[id].id == id
      ensures AreSettled(heads, AllFacts(set r | r in submitted), records)
    {
      var keys := heads.Keys;
      records := [];
      ghost var facts := AllFacts(set r | r in submitted);
      while keys != {}
        invariant keys <= heads.Keys
        invariant forall k | 0 <= k < |records| ::
                    records[k].id in heads && records[k].id !in keys && records[k] == Settled(heads[records[k].id], facts)
        invariant forall id | id in heads && id !in keys :: Settled(heads[id], facts) in records
        invariant DistinctIds(records)
      {
        var key :| key in keys;
        var branch := heads[key];
        var entries := branch.entries;
        for i := 0 to |submitted|
          invariant entries == AfterAll(branch.entries, submitted[..i])
        {
          assert submitted[..i + 1][..i] == submitted[..i];
          entries := AfterSubmission(entries, submitted[i]);
        }
        assert submitted[..|submitted|] == submitted;
        AfterAllIsJudge(branch.entries, submitted);
        records := records + [branch.(entries := entries)];
        keys := keys - {key};
      }
    }
  }

  function ParentsOf(records: seq<Branch>): set<Id> {
    set b, p | b in records && p in b.parents :: p
  }

  ghost predicate AreSettled(heads: map<Id, Branch>, facts: Facts, records: seq<Branch>) {
    && (forall r | r in records :: r.id in heads && r == Settled(heads[r.id], facts))
    && (forall id | id in heads :: Settled(heads[id], facts) in records)
    && DistinctIds(records)
  }

  ghost predicate DistinctIds(branches: seq<Branch>) {
    forall k, l | 0 <= k < l < |branches| :: branches[k].id != branches[l].id
  }

  /** The records that no record names as a parent are the live branches. */
  lemma ReadsLive(history: Heads, facts: Facts, heads: map<Id, Branch>, records: seq<Branch>, branches: seq<Branch>)
    requires forall id | id in heads :: Keeps(history, id, heads[id])
    requires forall i | 0 <= i < |history.written| && Present(history, i) ::
               history.written[i].id in heads && heads[history.written[i].id] == history.written[i]
    requires AreSettled(heads, facts, records)
    requires forall b :: b in branches <==> b in records && b.id !in ParentsOf(records)
    requires DistinctIds(branches)
    ensures IsReading(history, facts, branches)
  {
    forall k | 0 <= k < |branches| ensures Returns(history, facts, branches[k]) {
      var b := branches[k];
      assert b in records && b == Settled(heads[b.id], facts);
      var i :| 0 <= i < |history.written| && history.written[i] == heads[b.id] && Present(history, i);
      UnnamedIsLive(history, facts, heads, records, i);
    }
    forall i | Live(history, i) ensures Settled(history.written[i], facts) in branches {
      LiveIsUnnamed(history, facts, heads, records, i);
    }
  }

  lemma UnnamedIsLive(history: Heads, facts: Facts, heads: map<Id, Branch>, records: seq<Branch>, i: int)
    requires forall c | 0 <= c < |history.written| && Present(history, c) ::
               history.written[c].id in heads && heads[history.written[c].id] == history.written[c]
    requires AreSettled(heads, facts, records)
    requires 0 <= i < |history.written| && Present(history, i) && history.written[i].id !in ParentsOf(records)
    ensures Live(history, i)
  {
    forall c | 0 <= c < |history.written| && Present(history, c) ensures !Names(history, c, history.written[i].id) {
      var child := history.written[c];
      assert Settled(child, facts) in records && Settled(child, facts).parents == child.parents;
    }
  }

  lemma LiveIsUnnamed(history: Heads, facts: Facts, heads: map<Id, Branch>, records: seq<Branch>, i: int)
    requires forall id | id in heads :: Keeps(history, id, heads[id])
    requires AreSettled(heads, facts, records)
    requires Live(history, i)
    ensures history.written[i].id !in ParentsOf(records)
  {
    forall r, p | r in records && p in r.parents ensures p != history.written[i].id {
      var c :| 0 <= c < |history.written| && history.written[c] == heads[r.id] && Present(history, c);
      assert !Names(history, c, history.written[i].id);
    }
  }
}
