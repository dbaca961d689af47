/** Reading the heads while other tabs write (`values` and `read` in frontend/src/draft-storage.ts):
    a pass over many records amounts to one atomic step. */
module DraftReads {
  import opened Wrappers
  import opened DraftHeads
  import opened DraftHistory
  import opened DraftProtocol
  import opened DraftStorages
  import opened Receipts
  import opened DraftModel

  /** The branch published under an id. */
  function Published(written: seq<Branch>, id: Id): (found: Option<Branch>)
    ensures found.Some? <==> exists i :: 0 <= i < |written| && written[i].id == id
    ensures found.Some? ==> found.value in written && found.value.id == id
  {
    if written == [] then None
    else if written[0].id == id then Some(written[0])
    else
      var rest := Published(written[1..], id);
      assert rest.None? ==> forall i | 0 < i < |written| :: written[i] == written[1..][i - 1];
      assert rest.Some? ==> rest.value in written;
      rest
  }

  /** The records that are stored. */
  ghost function Stored(heads: Heads): map<Id, Branch> {
    map b | b in heads.written && b.id !in heads.removed :: b.id := Published(heads.written, b.id).value
  }

  lemma StoredIs(heads: Heads, id: Id)
    ensures id in Stored(heads) <==> id !in heads.removed && Published(heads.written, id).Some?
    ensures id in Stored(heads) ==> Stored(heads)[id] == Published(heads.written, id).value
  {
    if Published(heads.written, id).Some? { assert Published(heads.written, id).value in heads.written; }
  }

  /** One enumeration-and-read pass of `values` while the run goes from one state to another: the keys
      are listed at the first, record `k` is fetched at state `at[k]`, and the keys are listed again at
      the last. */
  ghost predicate CleanPass(trace: seq<State>, from: nat, to: nat, at: seq<nat>, keys: seq<Id>, values: seq<Branch>)
    requires from <= to < |trace|
  {
    && |at| == |keys| == |values|
    && (forall k, l | 0 <= k < l < |keys| :: keys[k] != keys[l])
    && (forall id :: id in keys <==> id in Stored(trace[from].heads))
    && (forall id :: id in keys <==> id in Stored(trace[to].heads))
    && (forall k | 0 <= k < |keys| :: from <= at[k] <= to && Fetches(trace[at[k]].heads, keys[k], values[k]))
  }

  ghost predicate Fetches(heads: Heads, id: Id, value: Branch) { id in Stored(heads) && value == Stored(heads)[id] }

  /** Ids are never used twice: what is stored under one is the branch published under it. */
  lemma StoredIsWritten(before: State, after: State, id: Id)
    requires Grows(before, after) && Valid(after.heads)
    requires id in Stored(before.heads) && id in Stored(after.heads)
    ensures Stored(before.heads)[id] == Stored(after.heads)[id]
  {
    StoredIs(before.heads, id);
    StoredIs(after.heads, id);
    var b := Stored(before.heads)[id];
    var i :| 0 <= i < |before.heads.written| && before.heads.written[i] == b;
    assert after.heads.written[i] == b;
  }

  /** A pass that ends with the keys it started with saw the storage of one moment, whatever other tabs
      wrote and removed during it. */
  lemma CleanPassIsSnapshot(trace: seq<State>, steps: seq<Step>, from: nat, to: nat,
                            at: seq<nat>, keys: seq<Id>, values: seq<Branch>)
    requires Run(trace, steps) && from <= to < |trace| && CleanPass(trace, from, to, at, keys, values)
    ensures forall k | 0 <= k < |keys| :: Fetches(trace[from].heads, keys[k], values[k])
    ensures Stored(trace[from].heads) == Stored(trace[to].heads)
  {
    forall k | 0 <= k < |keys| ensures Fetches(trace[from].heads, keys[k], values[k]) {
      FetchedAtStart(trace, steps, from, at[k], keys[k], values[k]);
    }
    SameStorage(trace, steps, from, to);
  }

  lemma FetchedAtStart(trace: seq<State>, steps: seq<Step>, from: nat, j: nat, id: Id, value: Branch)
    requires Run(trace, steps) && from <= j < |trace|
    requires id in Stored(trace[from].heads) && Fetches(trace[j].heads, id, value)
    ensures Fetches(trace[from].heads, id, value)
  {
    SameStored(trace, steps, from, j, id);
  }

  lemma SameStorage(trace: seq<State>, steps: seq<Step>, i: nat, j: nat)
    requires Run(trace, steps) && i <= j < |trace|
    requires forall id :: id in Stored(trace[i].heads) <==> id in Stored(trace[j].heads)
    ensures Stored(trace[i].heads) == Stored(trace[j].heads)
  {
    var before, after := Stored(trace[i].heads), Stored(trace[j].heads);
    assert before.Keys == after.Keys;
    forall id | id in before ensures before[id] == after[id] { SameStored(trace, steps, i, j, id); }
  }

  lemma SameStored(trace: seq<State>, steps: seq<Step>, i: nat, j: nat, id: Id)
    requires Run(trace, steps) && i <= j < |trace| && id in Stored(trace[i].heads) && id in Stored(trace[j].heads)
    ensures Stored(trace[i].heads)[id] == Stored(trace[j].heads)[id]
  {
    RunGrows(trace, steps, i, j);
    RunKeepsHistory(trace, steps, j);
    StoredIsWritten(trace[i], trace[j], id);
  }

  function SettledAll(values: seq<Branch>, facts: Facts): seq<Branch> {
    seq(|values|, k requires 0 <= k < |values| => Settled(values[k], facts))
  }

  /** In every run, what `read` makes of a clean pass - receipts applied, records that a record names as
      a parent left out - is a reading of the heads at the moment the pass began, and at the moment it
      ended. */
  lemma CleanPassReadsAtOnce(trace: seq<State>, steps: seq<Step>, from: nat, to: nat,
                             at: seq<nat>, keys: seq<Id>, values: seq<Branch>, facts: Facts, read: seq<Branch>)
    requires Run(trace, steps) && from <= to < |trace|
    requires CleanPass(trace, from, to, at, keys, values) && DistinctIds(read)
    requires var records := SettledAll(values, facts);
             forall b :: b in read <==> b in records && b.id !in ParentsOf(records)
    ensures IsReading(trace[from].heads, facts, read) && IsReading(trace[to].heads, facts, read)
  {
    CleanPassIsSnapshot(trace, steps, from, to, at, keys, values);
    RunKeepsHistory(trace, steps, from);
    RunKeepsHistory(trace, steps, to);
    SnapshotReads(trace[from].heads, keys, values, facts, read);
    SnapshotReads(trace[to].heads, keys, values, facts, read);
  }

  lemma SnapshotReads(heads: Heads, keys: seq<Id>, values: seq<Branch>, facts: Facts, read: seq<Branch>)
    requires Valid(heads) && |keys| == |values| && DistinctIds(read)
    requires forall k, l | 0 <= k < l < |keys| :: keys[k] != keys[l]
    requires forall id :: id in keys <==> id in Stored(heads)
    requires forall k | 0 <= k < |keys| :: Fetches(heads, keys[k], values[k])
    requires var records := SettledAll(values, facts);
             forall b :: b in read <==> b in records && b.id !in ParentsOf(records)
    ensures IsReading(heads, facts, read)
  {
    var stored := Stored(heads);
    StoredKeeps(heads);
    SettledRecords(keys, values, stored, facts);
    ReadsLive(heads, facts, stored, SettledAll(values, facts), read);
  }

  /** What is stored is what is present of the history. */
  lemma StoredKeeps(heads: Heads)
    requires Valid(heads)
    ensures forall id | id in Stored(heads) :: Keeps(heads, id, Stored(heads)[id])
    ensures forall i | 0 <= i < |heads.written| && Present(heads, i) ::
              heads.written[i].id in Stored(heads) && Stored(heads)[heads.written[i].id] == heads.written[i]
  {
    forall id | id in Stored(heads) ensures Keeps(heads, id, Stored(heads)[id]) {
      StoredIs(heads, id);
      var i :| 0 <= i < |heads.written| && heads.written[i] == Stored(heads)[id];
      assert Present(heads, i);
    }
    forall i | 0 <= i < |heads.written| && Present(heads, i)
      ensures heads.written[i].id in Stored(heads) && Stored(heads)[heads.written[i].id] == heads.written[i]
    {
      StoredIs(heads, heads.written[i].id);
    }
  }

  lemma SettledRecords(keys: seq<Id>, values: seq<Branch>, stored: map<Id, Branch>, facts: Facts)
    requires |keys| == |values| && forall id :: id in keys <==> id in stored
    requires forall k, l | 0 <= k < l < |keys| :: keys[k] != keys[l]
    requires forall id | id in stored :: stored[id].id == id
    requires forall k | 0 <= k < |keys| :: keys[k] in stored && values[k] == stored[keys[k]]
    ensures AreSettled(stored, facts, SettledAll(values, facts))
  {
    var records := SettledAll(values, facts);
    forall id | id in stored ensures Settled(stored[id], facts) in records {
      var k :| 0 <= k < |keys| && keys[k] == id;
      assert records[k] == Settled(stored[id], facts);
    }
    forall k | 0 <= k < |records| ensures records[k].id == keys[k] {}
  }

  // ----- the receipts are read in a pass of their own, before the heads

  /** The `receipt:` records of each state of a run: each stored receipt went under a key that was not
      used before, and no record is written again or removed. */
  ghost predicate KeyedReceipts(trace: seq<State>, records: seq<map<Id, Receipt>>) {
    && |records| == |trace|
    && (forall i | 0 <= i < |trace| :: records[i].Values == trace[i].receipts)
    && (forall i | 0 <= i < |trace| - 1 :: Acknowledged(records[i], records[i + 1]))
  }

  ghost predicate Acknowledged(before: map<Id, Receipt>, after: map<Id, Receipt>) {
    after == before || exists key, receipt :: Adds(before, after, key, receipt)
  }

  ghost predicate Adds(before: map<Id, Receipt>, after: map<Id, Receipt>, key: Id, receipt: Receipt) {
    key !in before && after == before[key := receipt]
  }

  lemma StepAddsReceipt(s: State, step: Step)
    requires Enabled(s, step)
    ensures Do(s, step).receipts == s.receipts || exists receipt :: Do(s, step).receipts == s.receipts + {receipt}
  {
    if step.Finish? && step.succeeded && step.stored {
      assert Do(s, step).receipts == s.receipts + {ReceiptOf(s.tabs[step.tab].submitting.value)};
    } else if step.Flush? && step.stored && s.tabs[step.tab].owed != [] {
      assert Do(s, step).receipts == s.receipts + {ReceiptOf(s.tabs[step.tab].owed[0])};
    }
  }

  /** Every run has such records. */
  lemma {:induction false} ReceiptsHaveKeys(trace: seq<State>, steps: seq<Step>) returns (records: seq<map<Id, Receipt>>)
    requires Run(trace, steps)
    ensures KeyedReceipts(trace, records)
  {
    if steps == [] { return [map[]]; }
    var n := |steps| - 1;
    assert Run(trace[..n + 1], steps[..n]);
    var front := ReceiptsHaveKeys(trace[..n + 1], steps[..n]);
    StepAddsReceipt(trace[n], steps[n]);
    var last := front[n];
    if trace[n + 1].receipts != trace[n].receipts {
      var receipt :| trace[n + 1].receipts == trace[n].receipts + {receipt};
      var key := UnusedField(last.Keys);
      last := AddRecord(last, key, receipt);
    }
    records := front + [last];
    forall i | 0 <= i < |trace| - 1 ensures Acknowledged(records[i], records[i + 1]) {
      assert i < n ==> Acknowledged(front[i], front[i + 1]);
    }
  }

  lemma AddRecord(before: map<Id, Receipt>, key: Id, receipt: Receipt) returns (after: map<Id, Receipt>)
    requires forall k | k in before :: |k| < |key|
    ensures Acknowledged(before, after) && after.Values == before.Values + {receipt}
  {
    assert key !in before;
    after := before[key := receipt];
    assert Adds(before, after, key, receipt);
    forall r | r in before.Values ensures r in after.Values {
      var k :| k in before && before[k] == r;
      assert after[k] == r;
    }
    assert after[key] == receipt;
  }

  lemma {:induction false} RecordsGrow(trace: seq<State>, records: seq<map<Id, Receipt>>, i: nat, j: nat)
    requires KeyedReceipts(trace, records) && i <= j < |trace|
    ensures forall k | k in records[i] :: k in records[j] && records[j][k] == records[i][k]
  {
    if i < j {
      RecordsGrow(trace, records, i, j - 1);
      assert Acknowledged(records[j - 1], records[j - 1 + 1]);
    }
  }

  /** One pass of `values` over the receipts, as over the heads. */
  ghost predicate ReceiptPass(records: seq<map<Id, Receipt>>, from: nat, to: nat,
                              at: seq<nat>, keys: seq<Id>, values: seq<Receipt>)
    requires from <= to < |records|
  {
    && |at| == |keys| == |values|
    && (forall id :: id in keys <==> id in records[from])
    && (forall id :: id in keys <==> id in records[to])
    && (forall k | 0 <= k < |keys| :: from <= at[k] <= to && FetchesReceipt(records[at[k]], keys[k], values[k]))
  }

  ghost predicate FetchesReceipt(records: map<Id, Receipt>, key: Id, value: Receipt) {
    key in records && value == records[key]
  }

  /** A pass over the receipts that ends with the keys it started with read exactly what was stored, and
      nothing was stored meanwhile: it may as well have been one step, at any moment of the pass. */
  lemma ReceiptPassIsSnapshot(trace: seq<State>, records: seq<map<Id, Receipt>>, from: nat, to: nat, j: nat,
                              at: seq<nat>, keys: seq<Id>, values: seq<Receipt>)
    requires KeyedReceipts(trace, records) && from <= j <= to < |trace|
    requires ReceiptPass(records, from, to, at, keys, values)
    ensures (set r | r in values) == trace[j].receipts
  {
    RecordsGrow(trace, records, from, j);
    RecordsGrow(trace, records, j, to);
    assert records[j].Keys == records[from].Keys;
    forall k | 0 <= k < |keys| ensures keys[k] in records[j] && values[k] == records[j][keys[k]] {
      assert FetchesReceipt(records[at[k]], keys[k], values[k]);
      RecordsGrow(trace, records, from, at[k]);
    }
    forall r | r in records[j].Values ensures r in values {
      var key :| key in records[j] && records[j][key] == r;
      var k :| 0 <= k < |keys| && keys[k] == key;
      assert values[k] == r;
    }
  }

  /** Every receipt read is applied to every record read. */
  function AppliedAll(values: seq<Branch>, receipts: seq<Receipt>): seq<Branch> {
    seq(|values|, k requires 0 <= k < |values| => values[k].(entries := AfterAll(values[k].entries, receipts)))
  }

  /** The whole of `read`: a clean pass over the receipts and then one over the heads give what seeing
      the receipts at one moment and the heads at a later one gives. */
  lemma ReadIsTwoSteps(trace: seq<State>, steps: seq<Step>, records: seq<map<Id, Receipt>>,
                       a: nat, b: nat, c: nat, d: nat, receiptsAt: seq<nat>, receiptKeys: seq<Id>, receipts: seq<Receipt>,
                       headsAt: seq<nat>, headKeys: seq<Id>, values: seq<Branch>, read: seq<Branch>)
    requires Run(trace, steps) && KeyedReceipts(trace, records) && a <= b <= c <= d < |trace|
    requires ReceiptPass(records, a, b, receiptsAt, receiptKeys, receipts)
    requires CleanPass(trace, c, d, headsAt, headKeys, values) && DistinctIds(read)
    requires var applied := AppliedAll(values, receipts);
             forall branch :: branch in read <==> branch in applied && branch.id !in ParentsOf(applied)
    ensures IsReading(trace[c].heads, AllFacts(trace[a].receipts), read)
    ensures IsReading(trace[d].heads, AllFacts(trace[b].receipts), read)
  {
    ReceiptPassIsSnapshot(trace, records, a, b, a, receiptsAt, receiptKeys, receipts);
    ReceiptPassIsSnapshot(trace, records, a, b, b, receiptsAt, receiptKeys, receipts);
    forall k | 0 <= k < |values|
      ensures AppliedAll(values, receipts)[k] == SettledAll(values, AllFacts(trace[a].receipts))[k]
    {
      AfterAllIsJudge(values[k].entries, receipts);
    }
    assert AppliedAll(values, receipts) == SettledAll(values, AllFacts(trace[a].receipts));
    CleanPassReadsAtOnce(trace, steps, c, d, headsAt, headKeys, values, AllFacts(trace[a].receipts), read);
  }
}
