/** No tab ever loses another tab's edit: the safety of the multi-tab draft over every run. */
module DraftSafety {
  import opened Wrappers
  import opened DraftModel
  import opened Receipts
  import opened DraftHeads
  import opened DraftProtocol

  // ----- the invariant

  /** Every edit of `from` is in `to`, or has left the draft for one of the allowed reasons. */
  ghost predicate Covered(from: seq<Entry>, to: seq<Entry>, log: seq<Event>) {
    forall x | x in Edits(from) :: x in Edits(to) || Excused(log, x)
  }

  ghost predicate AllExcused(edits: set<Edit>, log: seq<Event>) {
    forall x | x in edits :: Excused(log, x)
  }

  /** The tab's copy of a branch is a stored one, less edits that are excused. */
  ghost predicate Known(heads: Heads, log: seq<Event>, branch: Branch) {
    exists i :: 0 <= i < |heads.written| && heads.written[i].id == branch.id
                && Covered(heads.written[i].entries, branch.entries, log)
                && Edits(branch.entries) <= Edits(heads.written[i].entries)
  }

  ghost predicate AllKnown(heads: Heads, log: seq<Event>, branches: seq<Branch>) {
    forall i | 0 <= i < |branches| :: Known(heads, log, branches[i])
  }

  ghost predicate AllCovered(branches: seq<Branch>, entries: seq<Entry>, log: seq<Event>) {
    forall i | 0 <= i < |branches| :: Covered(branches[i].entries, entries, log)
  }

  ghost predicate ActionOk(heads: Heads, log: seq<Event>, action: Action) {
    action.request.Push? ==> AllKnown(heads, log, action.base)
  }

  ghost predicate CallOk(heads: Heads, log: seq<Event>, call: Call) {
    match call
    case Idle => true
    case Flushing(a) => ActionOk(heads, log, a)
    case SeeingReceipts(a) => ActionOk(heads, log, a)
    case SeeingHeads(a, facts) => ActionOk(heads, log, a) && AllExcused(facts.edits, log)
    case Acting(a) => ActionOk(heads, log, a)
    case Removing(parents) => forall p | p in parents :: Superseded(heads, p)
  }

  /** What holds of each tab. Unless it shows a conflict, everything its write would replace is
      in its display; a tab whose write failed keeps that although others have moved on. */
  ghost predicate TabOk(heads: Heads, log: seq<Event>, tab: Tab) {
    && AllKnown(heads, log, tab.branches)
    && (!tab.conflict || tab.unpersisted ==> AllCovered(tab.branches, tab.entries, log + tab.unsaved))
    && (!tab.unpersisted ==> tab.unsaved == [])
    && (forall b | b in tab.owed :: AllExcused(Edits(b), log))
    && CallOk(heads, log, tab.call)
    && (tab.call.Acting? && tab.conflict ==>
          tab.call.action.request.Resolve? || tab.call.action.request.Retry?)
    && (tab.call.Acting? && tab.call.action.request.Retry? ==> tab.unpersisted)
    && (tab.call.SeeingReceipts? || tab.call.SeeingHeads? || tab.call.Removing? ==> !tab.unpersisted)
  }

  /** A write drops none of its parents' edits without an excuse. */
  ghost predicate EdgesOk(heads: Heads, log: seq<Event>) {
    forall i, j | 0 <= i < |heads.written| && 0 <= j < |heads.written| && Names(heads, i, heads.written[j].id) ::
      Covered(heads.written[j].entries, heads.written[i].entries, log)
  }

  ghost predicate Inv(s: State) {
    && Valid(s.heads)
    && EdgesOk(s.heads, s.log)
    && AllExcused(AllFacts(s.receipts).edits, s.log)
    && forall t | t in s.tabs :: TabOk(s.heads, s.log, s.tabs[t])
  }

  /** What the tab is about to write leaves out nothing unseen: unless it is a push whose target has
      changed, it goes on top of the tab's current draft; such a push goes on top of the draft that
      was displayed, which then must have had every edit of the versions it replaces. */
  ghost predicate SafeWrite(tab: Tab, log: seq<Event>)
    requires tab.call.Acting?
  {
    var action := tab.call.action;
    action.request.Push? && !SameTarget(tab, KeyOf(action.request.op, action.request.nonce), action.shown) ==>
      AllCovered(action.base, action.shown, log + tab.unsaved)
  }

  ghost predicate Safe(s: State, step: Step)
    requires Enabled(s, step)
  {
    step.Commit? || step.CommitFails? ==> SafeWrite(s.tabs[step.tab], s.log)
  }

  // ----- small steps of the argument

  /** Everything the one history excuses the other does too. */
  ghost predicate Wider(log: seq<Event>, log': seq<Event>) {
    forall x | Excused(log, x) :: Excused(log', x)
  }

  lemma ExcusedSum(log: seq<Event>, more: seq<Event>)
    ensures forall x :: Excused(log + more, x) <==> Excused(log, x) || Excused(more, x)
  {
    forall x ensures Excused(log + more, x) <==> Excused(log, x) || Excused(more, x) {
      if Excused(log, x) {
        var i :| 0 <= i < |log| && Excuses(log[i], x);
        assert (log + more)[i] == log[i];
      }
      if Excused(more, x) {
        var i :| 0 <= i < |more| && Excuses(more[i], x);
        assert (log + more)[|log| + i] == more[i];
      }
      if Excused(log + more, x) {
        var i :| 0 <= i < |log + more| && Excuses((log + more)[i], x);
        if i < |log| { assert Excuses(log[i], x); } else { assert Excuses(more[i - |log|], x); }
      }
    }
  }

  lemma ExcusedGrows(log: seq<Event>, more: seq<Event>)
    ensures Wider(log, log + more)
  {
    ExcusedSum(log, more);
  }

  lemma WiderBoth(log: seq<Event>, log': seq<Event>, more: seq<Event>)
    requires Wider(log, log')
    ensures Wider(log + more, log' + more)
  {
    ExcusedSum(log, more);
    ExcusedSum(log', more);
  }

  lemma CoveredTrans(a: seq<Entry>, b: seq<Entry>, c: seq<Entry>, log: seq<Event>)
    requires Covered(a, b, log) && Covered(b, c, log)
    ensures Covered(a, c, log)
  {}

  /** Extending the history of heads and of events keeps what each tab knows. */
  ghost predicate Extends(heads: Heads, log: seq<Event>, heads': Heads, log': seq<Event>) {
    && Wider(log, log')
    && |heads.written| <= |heads'.written|
    && (forall i | 0 <= i < |heads.written| :: heads'.written[i] == heads.written[i])
  }

  lemma SupersededGrows(heads: Heads, heads': Heads, id: Id)
    requires |heads.written| <= |heads'.written|
    requires forall i | 0 <= i < |heads.written| :: heads'.written[i] == heads.written[i]
    requires Superseded(heads, id)
    ensures Superseded(heads', id)
  {
    var c :| 0 <= c < |heads.written| && Names(heads, c, id);
    assert Names(heads', c, id);
  }

  lemma KnownGrows(heads: Heads, log: seq<Event>, heads': Heads, log': seq<Event>, branches: seq<Branch>)
    requires Extends(heads, log, heads', log')
    requires AllKnown(heads, log, branches)
    ensures AllKnown(heads', log', branches)
  {
    forall k | 0 <= k < |branches| ensures Known(heads', log', branches[k]) {
      var i :| 0 <= i < |heads.written| && heads.written[i].id == branches[k].id
               && Covered(heads.written[i].entries, branches[k].entries, log)
               && Edits(branches[k].entries) <= Edits(heads.written[i].entries);
      assert heads'.written[i] == heads.written[i];
    }
  }

  lemma CoveredGrows(log: seq<Event>, log': seq<Event>, branches: seq<Branch>, entries: seq<Entry>)
    requires Wider(log, log') && AllCovered(branches, entries, log)
    ensures AllCovered(branches, entries, log')
  {
  }

  lemma CallGrows(heads: Heads, log: seq<Event>, heads': Heads, log': seq<Event>, call: Call)
    requires Extends(heads, log, heads', log') && CallOk(heads, log, call)
    ensures CallOk(heads', log', call)
  {
    if call.Removing? {
      forall p | p in call.parents ensures Superseded(heads', p) {
        SupersededGrows(heads, heads', p);
      }
    } else if !call.Idle? && call.action.request.Push? {
      KnownGrows(heads, log, heads', log', call.action.base);
    }
  }

  lemma TabGrows(heads: Heads, log: seq<Event>, heads': Heads, log': seq<Event>, tab: Tab)
    requires Extends(heads, log, heads', log') && TabOk(heads, log, tab)
    ensures TabOk(heads', log', tab)
  {
    KnownGrows(heads, log, heads', log', tab.branches);
    WiderBoth(log, log', tab.unsaved);
    if !tab.conflict || tab.unpersisted {
      CoveredGrows(log + tab.unsaved, log' + tab.unsaved, tab.branches, tab.entries);
    }
    CallGrows(heads, log, heads', log', tab.call);
  }

  lemma ReceiptWithin(batch: seq<Entry>)
    ensures FactsOf(ReceiptOf(batch)).edits <= Edits(batch)
  {
    var receipt := ReceiptOf(batch);
    var sent := Sent(receipt);
    SentIsKeyed(receipt);
    forall k | k in sent ensures (k, sent[k].editId) in Edits(batch) {
      var j :| 0 <= j < |receipt| && receipt[j] == sent[k];
      assert batch[j] in batch;
    }
  }

  lemma SettleCovers(entries: seq<Entry>, facts: Facts, log: seq<Event>)
    requires AllExcused(facts.edits, log)
    ensures Covered(entries, JudgeAll(entries, facts), log)
  {
    SettledEdits(entries, facts);
  }

  /** Applying owed receipts takes out only submitted edits. */
  lemma {:induction false} OwingCovers(entries: seq<Entry>, owed: seq<seq<Entry>>, log: seq<Event>)
    requires forall b | b in owed :: AllExcused(Edits(b), log)
    ensures Covered(entries, AfterAll(entries, OwedReceipts(owed)), log)
  {
    if owed == [] {
    } else {
      var rest, last := owed[..|owed| - 1], owed[|owed| - 1];
      var receipts := OwedReceipts(owed);
      assert receipts[..|receipts| - 1] == OwedReceipts(rest);
      OwingCovers(entries, rest, log);
      var settled := AfterAll(entries, OwedReceipts(rest));
      SettleIsJudge(settled, ReceiptOf(last));
      ReceiptWithin(last);
      SettleCovers(settled, FactsOf(ReceiptOf(last)), log);
    }
  }

  lemma OwingTakesOnly(entries: seq<Entry>, owed: seq<seq<Entry>>)
    ensures Edits(AfterAll(entries, OwedReceipts(owed))) <= Edits(entries)
  {
    var receipts := OwedReceipts(owed);
    AfterAllIsJudge(entries, receipts);
    SettledEdits(entries, AllFacts(set r | r in receipts));
  }

  lemma {:induction false} DropCovers(entries: seq<Entry>, key: Key, edit: Option<string>)
    ensures forall x | x in Edits(entries) ::
              x in Edits(DropEntry(entries, key, edit)) || (x.0 == key && edit == Some(x.1))
  {
    if entries != [] {
      DropCovers(entries[1..], key, edit);
      var after, tail := DropEntry(entries, key, edit), DropEntry(entries[1..], key, edit);
      forall x | x in Edits(entries)
        ensures x in Edits(after) || (x.0 == key && edit == Some(x.1))
      {
        var e :| e in entries && x == (e.key, e.editId);
        if e != entries[0] { assert x in Edits(entries[1..]); }
        if x in Edits(tail) { EditsMonotone(tail, after, x); }
      }
    }
  }

  lemma EditsMonotone(some: seq<Entry>, more: seq<Entry>, x: Edit)
    requires x in Edits(some) && forall e | e in some :: e in more
    ensures x in Edits(more)
  {
    var e :| e in some && x == (e.key, e.editId);
    assert e in more;
  }

  lemma {:induction false} ClearCovers(entries: seq<Entry>, ids: set<string>)
    ensures forall x | x in Edits(entries) :: x in Edits(ClearEntries(entries, ids)) || x.1 in ids
  {
    if entries != [] {
      ClearCovers(entries[1..], ids);
      var after, tail := ClearEntries(entries, ids), ClearEntries(entries[1..], ids);
      forall x | x in Edits(entries) ensures x in Edits(after) || x.1 in ids {
        var e :| e in entries && x == (e.key, e.editId);
        if e != entries[0] { assert x in Edits(entries[1..]); }
        if x in Edits(tail) { EditsMonotone(tail, after, x); }
      }
    }
  }

  /** A push takes out only the edit it replaces. */
  lemma PushCovers(entries: seq<Entry>, op: Op, key: Key, editId: string)
    ensures forall x | x in Edits(entries) ::
              x in Edits(PushEntries(entries, op, key, editId)) || (x.0 == key && EditOf(entries, key) == Some(x.1))
  {
    var at, after := IndexOf(entries, key), PushEntries(entries, op, key, editId);
    forall x | x in Edits(entries)
      ensures x in Edits(after) || (x.0 == key && EditOf(entries, key) == Some(x.1))
    {
      var i :| 0 <= i < |entries| && x == (entries[i].key, entries[i].editId);
      if i != at {
        var j := if at >= 0 && Moves(op.kind) && i > at then i - 1 else i;
        assert after[j] == entries[i];
      }
    }
  }

  /** The heart of it: whatever a tab is about to write covers every branch it will replace,
      given the event that goes into the history with it. */
  lemma PlannedCovers(heads: Heads, log: seq<Event>, tab: Tab)
    requires TabOk(heads, log, tab) && tab.call.Acting? && Writes(tab.call.action.request) && SafeWrite(tab, log)
    requires !Refused(tab)
    ensures var (entries, parents) := Planned(tab, tab.call.action);
            var log' := log + tab.unsaved + EventsOf(tab, tab.call.action);
            AllKnown(heads, log, parents) && AllCovered(parents, entries, log')
  {
    var action := tab.call.action;
    var (entries, parents) := Planned(tab, action);
    var events := EventsOf(tab, action);
    var before := log + tab.unsaved;
    var log' := before + events;
    ExcusedGrows(before, events);
    if events != [] { assert log'[|before|] == events[0]; }
    match action.request {
      case Push(op, nonce, editId) =>
        var key := KeyOf(op, nonce);
        var from := if SameTarget(tab, key, action.shown) then tab.entries else action.shown;
        CoveredGrows(before, log', parents, from);
        PushCovers(from, op, key, editId);
        assert Covered(from, entries, log');
      case Drop(key) =>
        CoveredGrows(before, log', parents, tab.entries);
        DropCovers(tab.entries, key, EditOf(action.shown, key));
        assert Covered(tab.entries, entries, log');
      case Clear =>
        CoveredGrows(before, log', parents, tab.entries);
        ClearCovers(tab.entries, EditIds(action.shown));
        assert Covered(tab.entries, entries, log');
      case Resolve(id) =>
        var chosen := OfferedAt(tab.branches, id);
        forall i, x | 0 <= i < |parents| && x in Edits(parents[i].entries)
          ensures x in Edits(entries) || Excused(log', x)
        {
          assert parents[i] in tab.branches && IsOffered(tab.branches, chosen, id);
          if x !in Edits(entries) { assert Excuses(log'[|before|], x); }
        }
      case Retry =>
        assert log' == before;
      case _ =>
    }
  }

  // ----- every step keeps the invariant

  lemma AfterSyncOk(heads: Heads, log: seq<Event>, tab: Tab, action: Action)
    requires TabOk(heads, log, tab.(call := Idle)) && ActionOk(heads, log, action)
    ensures TabOk(heads, log, tab.(call := AfterSync(tab, action)))
  {
    var t := tab.(call := AfterSync(tab, action));
    assert AllKnown(heads, log, t.branches);
  }

  lemma SyncedOk(heads: Heads, log: seq<Event>, tab: Tab, facts: Facts, read: seq<Branch>)
    requires TabOk(heads, log, tab) && AllExcused(facts.edits, log)
    requires IsReading(heads, facts, read)
    requires !tab.unpersisted
    ensures TabOk(heads, log, Synced(tab, read).(call := Idle))
  {
    var after := Synced(tab, read);
    var branches := AllOwing(read, tab.owed);
    forall k | 0 <= k < |read| ensures Known(heads, log, branches[k]) {
      var i :| Live(heads, i) && Settled(heads.written[i], facts) == read[k];
      SettleCovers(heads.written[i].entries, facts, log);
      OwingCovers(read[k].entries, tab.owed, log);
      CoveredTrans(heads.written[i].entries, read[k].entries, branches[k].entries, log);
      assert heads.written[i].id == branches[k].id;
      SettledEdits(heads.written[i].entries, facts);
      OwingTakesOnly(read[k].entries, tab.owed);
    }
    assert log + tab.unsaved == log;
    if branches != tab.branches && !Differ(branches) {
      forall k | 0 <= k < |branches| ensures Covered(branches[k].entries, after.entries, log) {
        assert branches[k].entries == branches[0].entries;
      }
    }
  }

  lemma FinishKeepsInv(s: State, t: nat, succeeded: bool, stored: bool)
    requires Inv(s) && Enabled(s, Finish(t, succeeded, stored))
    ensures Inv(DoFinish(s, t, succeeded, stored))
  {
    var s', tab, batch := DoFinish(s, t, succeeded, stored), s.tabs[t], s.tabs[t].submitting.value;
    var events := [Event.Submitted(batch)];
    if succeeded {
      var log' := s.log + events;
      ExcusedGrows(s.log, events);
      assert Extends(s.heads, s.log, s.heads, log');
      forall x | x in Edits(batch) ensures Excused(log', x) {
        assert Excuses(log'[|s.log|], x);
      }
      ReceiptWithin(batch);
      AllFactsAdd(s.receipts, ReceiptOf(batch));
      forall u | u in s.tabs ensures TabOk(s.heads, log', s.tabs[u]) {
        TabGrows(s.heads, s.log, s.heads, log', s.tabs[u]);
      }
      SettleIsJudge(tab.entries, ReceiptOf(batch));
      var mine := log' + tab.unsaved;
      ExcusedGrows(log', tab.unsaved);
      SettleCovers(tab.entries, FactsOf(ReceiptOf(batch)), mine);
      if !tab.conflict || tab.unpersisted {
        forall k | 0 <= k < |tab.branches| ensures Covered(tab.branches[k].entries, s'.tabs[t].entries, mine) {
          CoveredTrans(tab.branches[k].entries, tab.entries, s'.tabs[t].entries, mine);
        }
      }
      assert TabOk(s.heads, log', s'.tabs[t]);
      EdgesGrow(s.heads, s.log, log');
    }
  }

  lemma EdgesGrow(heads: Heads, log: seq<Event>, log': seq<Event>)
    requires EdgesOk(heads, log) && Wider(log, log')
    ensures EdgesOk(heads, log')
  {
  }

  lemma FlushKeepsInv(s: State, t: nat, stored: bool)
    requires Inv(s) && Enabled(s, Flush(t, stored))
    ensures Inv(DoFlush(s, t, stored))
  {
    var tab := s.tabs[t];
    if tab.owed == [] && tab.unpersisted {
      AfterSyncOk(s.heads, s.log, tab, tab.call.action);
    }
    if tab.owed != [] && stored {
      assert tab.owed[0] in tab.owed;
      ReceiptWithin(tab.owed[0]);
      AllFactsAdd(s.receipts, ReceiptOf(tab.owed[0]));
    }
  }

  /** A write that succeeds: the tab's plan covers what it replaces, so the new branch does. */
  lemma CommitKeepsInv(s: State, t: nat, id: Id)
    requires Inv(s) && Enabled(s, Commit(t, id)) && Safe(s, Commit(t, id))
    ensures Inv(Do(s, Commit(t, id)))
  {
    var tab, s' := s.tabs[t], Do(s, Commit(t, id));
    var (entries, parents) := Planned(tab, tab.call.action);
    var log' := s.log + tab.unsaved + EventsOf(tab, tab.call.action);
    var heads' := Publish(s.heads, Branch(id, Ids(parents), entries));
    assert log' == s'.log && heads' == s'.heads;
    PlannedCovers(s.heads, s.log, tab);
    assert Wider(s.log, log') by {
      ExcusedGrows(s.log, tab.unsaved);
      ExcusedGrows(s.log + tab.unsaved, EventsOf(tab, tab.call.action));
    }
    EdgesGrow(s.heads, s.log, log');
    OthersGrow(s, heads', log');
    KnownGrows(s.heads, s.log, s.heads, log', parents);
    KnownGrows(s.heads, log', heads', log', parents);
    PublishOk(s.heads, log', Branch(id, Ids(parents), entries), parents);
    WrittenTabOk(heads', log', tab, entries, parents);
  }

  /** A write that fails: the draft stays with the tab, and so does what the operator did. */
  lemma FailureKeepsInv(s: State, t: nat)
    requires Inv(s) && Enabled(s, CommitFails(t)) && Safe(s, CommitFails(t))
    ensures Inv(Do(s, CommitFails(t)))
  {
    var tab := s.tabs[t];
    var (entries, parents) := Planned(tab, tab.call.action);
    var events := EventsOf(tab, tab.call.action);
    PlannedCovers(s.heads, s.log, tab);
    assert s.log + tab.unsaved + events == s.log + (tab.unsaved + events);
    UnwrittenTabOk(s.heads, s.log, tab, entries, parents, tab.unsaved + events);
  }

  lemma WrittenTabOk(heads: Heads, log: seq<Event>, tab: Tab, entries: seq<Entry>, parents: seq<Branch>)
    requires TabOk(heads, log, tab) && AllKnown(heads, log, parents) && AllCovered(parents, entries, log)
    requires forall p | p in Ids(parents) :: Superseded(heads, p)
    ensures TabOk(heads, log, tab.(entries := entries, branches := parents, unpersisted := false, unsaved := [],
                                   call := Removing(Ids(parents))))
  {
    assert log + [] == log;
  }

  lemma UnwrittenTabOk(heads: Heads, log: seq<Event>, tab: Tab, entries: seq<Entry>, parents: seq<Branch>,
                       unsaved: seq<Event>)
    requires TabOk(heads, log, tab) && AllKnown(heads, log, parents) && AllCovered(parents, entries, log + unsaved)
    ensures TabOk(heads, log, tab.(entries := entries, branches := parents, unpersisted := true, unsaved := unsaved,
                                   call := Idle))
  {
  }

  lemma OthersGrow(s: State, heads': Heads, log': seq<Event>)
    requires Inv(s) && Wider(s.log, log') && |s.heads.written| <= |heads'.written|
    requires forall i | 0 <= i < |s.heads.written| :: heads'.written[i] == s.heads.written[i]
    ensures forall u | u in s.tabs :: TabOk(heads', log', s.tabs[u])
  {
    forall u | u in s.tabs ensures TabOk(heads', log', s.tabs[u]) {
      TabGrows(s.heads, s.log, heads', log', s.tabs[u]);
    }
  }

  lemma PublishOk(heads: Heads, log: seq<Event>, branch: Branch, parents: seq<Branch>)
    requires Valid(heads) && EdgesOk(heads, log) && Fresh(heads, branch.id)
    requires branch.parents == Ids(parents)
    requires AllKnown(heads, log, parents) && AllCovered(parents, branch.entries, log)
    ensures Valid(Publish(heads, branch)) && EdgesOk(Publish(heads, branch), log)
    ensures forall p | p in branch.parents :: Superseded(Publish(heads, branch), p)
  {
    var after, n := Publish(heads, branch), |heads.written|;
    forall p | p in branch.parents ensures Written(heads, p) && Superseded(after, p) {
      var k :| 0 <= k < |parents| && parents[k].id == p;
      assert Known(heads, log, parents[k]);
      assert Names(after, n, p);
    }
    PublishKeepsValid(heads, branch);
    forall i, j | 0 <= i < |after.written| && 0 <= j < |after.written| && Names(after, i, after.written[j].id)
      ensures Covered(after.written[j].entries, after.written[i].entries, log)
    {
      if i < n {
        assert Names(heads, i, after.written[j].id);
        var l :| 0 <= l < i && heads.written[l].id == after.written[j].id;
        assert after.written[l].id == after.written[j].id;
        assert l == j;
      } else {
        var k :| 0 <= k < |parents| && parents[k].id == after.written[j].id;
        var l :| 0 <= l < n && heads.written[l].id == parents[k].id
                 && Covered(heads.written[l].entries, parents[k].entries, log);
        assert after.written[l].id == after.written[j].id;
        assert l == j;
        CoveredTrans(heads.written[l].entries, parents[k].entries, branch.entries, log);
      }
    }
  }

  lemma RemoveOk(heads: Heads, log: seq<Event>, id: Id)
    requires Valid(heads) && EdgesOk(heads, log) && Superseded(heads, id)
    ensures Valid(Remove(heads, id)) && EdgesOk(Remove(heads, id), log)
    ensures Extends(heads, log, Remove(heads, id), log)
  {
    RemoveKeepsValid(heads, id);
    RemovedEdges(heads, log, id);
    RemovedExtends(heads, log, id);
  }

  lemma RemovedExtends(heads: Heads, log: seq<Event>, id: Id)
    ensures Extends(heads, log, Remove(heads, id), log)
  {
  }

  lemma RemovedEdges(heads: Heads, log: seq<Event>, id: Id)
    requires EdgesOk(heads, log)
    ensures EdgesOk(Remove(heads, id), log)
  {
    var after := Remove(heads, id);
    forall i, j | 0 <= i < |after.written| && 0 <= j < |after.written| && Names(after, i, after.written[j].id)
      ensures Covered(after.written[j].entries, after.written[i].entries, log)
    {
      assert Names(heads, i, heads.written[j].id);
    }
  }

  lemma RemoveKeepsInv(s: State, t: nat)
    requires Inv(s) && Enabled(s, RemoveParent(t))
    ensures Inv(Do(s, RemoveParent(t)))
  {
    var parents := s.tabs[t].call.parents;
    if parents != [] {
      assert parents[0] in parents;
      RemoveOk(s.heads, s.log, parents[0]);
      var heads' := Remove(s.heads, parents[0]);
      forall u | u in s.tabs ensures TabOk(heads', s.log, s.tabs[u]) {
        TabGrows(s.heads, s.log, heads', s.log, s.tabs[u]);
      }
      assert CallOk(heads', s.log, s.tabs[t].call);
      assert TabOk(heads', s.log, s.tabs[t].(call := Removing(parents[1..])));
    }
  }

  lemma StartKeepsInv(s: State, t: nat, request: Request)
    requires Inv(s) && Enabled(s, Start(t, request))
    ensures Inv(Do(s, Start(t, request)))
  {
    assert CallOk(s.heads, s.log, Begun(s.tabs[t], request));
  }

  /** Steps that leave the storage and every draft as they are. */
  lemma TabStepKeepsInv(s: State, step: Step)
    requires Inv(s) && Enabled(s, step) && (step.Open? || step.Close? || step.SeeReceipts? || step.Act?)
    ensures Inv(Do(s, step))
  {
  }

  lemma SeeHeadsKeepsInv(s: State, t: nat, read: seq<Branch>)
    requires Inv(s) && Enabled(s, SeeHeads(t, read))
    ensures Inv(Do(s, SeeHeads(t, read)))
  {
    SyncedOk(s.heads, s.log, s.tabs[t], s.tabs[t].call.facts, read);
    AfterSyncOk(s.heads, s.log, Synced(s.tabs[t], read), s.tabs[t].call.action);
  }

  lemma SeeNothingKeepsInv(s: State, t: nat)
    requires Inv(s) && Enabled(s, SeeNothing(t))
    ensures Inv(Do(s, SeeNothing(t)))
  {
    AfterSyncOk(s.heads, s.log, s.tabs[t], s.tabs[t].call.action);
  }

  lemma StepKeepsInv(s: State, step: Step)
    requires Inv(s) && Enabled(s, step) && Safe(s, step)
    ensures Inv(Do(s, step))
  {
    match step {
      case Open(t) => TabStepKeepsInv(s, step);
      case Close(t) => TabStepKeepsInv(s, step);
      case Start(t, request) => StartKeepsInv(s, t, request);
      case Finish(t, succeeded, stored) => FinishKeepsInv(s, t, succeeded, stored);
      case Flush(t, stored) => FlushKeepsInv(s, t, stored);
      case SeeReceipts(t) => TabStepKeepsInv(s, step);
      case SeeHeads(t, read) => SeeHeadsKeepsInv(s, t, read);
      case SeeNothing(t) => SeeNothingKeepsInv(s, t);
      case Act(t) => TabStepKeepsInv(s, step);
      case Commit(t, id) => CommitKeepsInv(s, t, id);
      case CommitFails(t) => FailureKeepsInv(s, t);
      case RemoveParent(t) => RemoveKeepsInv(s, t);
    }
  }

  // ----- the theorems

  ghost predicate SafeRun(trace: seq<State>, steps: seq<Step>) {
    Run(trace, steps) && forall i | 0 <= i < |steps| :: Safe(trace[i], steps[i])
  }

  lemma {:induction false} RunKeepsInv(trace: seq<State>, steps: seq<Step>, i: nat)
    requires SafeRun(trace, steps) && i < |trace|
    ensures Inv(trace[i])
  {
    if i == 0 {
      assert AllFacts({}).edits == {};
    } else {
      RunKeepsInv(trace, steps, i - 1);
      StepKeepsInv(trace[i - 1], steps[i - 1]);
    }
  }

  /** An edit of a stored branch is excused, or some branch that `read` returns still has it. */
  lemma {:induction false} LiveCarrier(s: State, i: int, x: Edit) returns (live: int)
    requires Inv(s) && 0 <= i < |s.heads.written|
    requires x in Edits(s.heads.written[i].entries) && !Excused(s.log, x)
    ensures Live(s.heads, live) && x in Edits(s.heads.written[live].entries)
    decreases |s.heads.written| - i
  {
    var heads := s.heads;
    if Superseded(heads, heads.written[i].id) {
      var c :| 0 <= c < |heads.written| && Names(heads, c, heads.written[i].id);
      var j :| 0 <= j < c && heads.written[j].id == heads.written[i].id;
      assert j == i;
      assert Covered(heads.written[i].entries, heads.written[c].entries, s.log);
      live := LiveCarrier(s, c, x);
    } else {
      LeafIsLive(heads);
      assert Leaf(heads, i);
      live := i;
    }
  }

  /** The safety of the shared draft. In any interleaving of any number of tabs, with any failed
      writes, failed reads and vanished tabs: an edit that ever reached a stored head is returned
      by the next read of the heads, unless the history shows that it was submitted, overwritten,
      dropped or cleared by a tab that displayed it, or given up when a conflict was resolved in
      favour of a version without it. */
  lemma EditsLeaveOnlyForAReason(trace: seq<State>, steps: seq<Step>, i: nat, b: int, x: Edit, read: seq<Branch>)
    requires SafeRun(trace, steps) && i < |trace|
    requires 0 <= b < |trace[i].heads.written| && x in Edits(trace[i].heads.written[b].entries)
    requires IsReading(trace[i].heads, AllFacts(trace[i].receipts), read)
    ensures Excused(trace[i].log, x) || exists k :: 0 <= k < |read| && x in Edits(read[k].entries)
  {
    RunKeepsInv(trace, steps, i);
    var s := trace[i];
    if !Excused(s.log, x) {
      var live := LiveCarrier(s, b, x);
      var facts := AllFacts(s.receipts);
      var seen := Settled(s.heads.written[live], facts);
      SettledEdits(s.heads.written[live].entries, facts);
      assert x in Edits(seen.entries);
      var k :| 0 <= k < |read| && read[k] == seen;
    }
  }

  // ----- what an operator can do to stay safe

  /** A push is careful when the tab shows no open conflict at the moment it is made, or still holds
      edits it could not save. */
  ghost predicate Careful(s: State, step: Step) {
    step.Start? && step.request.Push? && step.tab in s.tabs ==>
      !s.tabs[step.tab].conflict || s.tabs[step.tab].unpersisted
  }

  ghost predicate CarefulRun(trace: seq<State>, steps: seq<Step>) {
    Run(trace, steps) && forall i | 0 <= i < |steps| :: Careful(trace[i], steps[i])
  }

  /** A push under way was made from a draft that had every edit of the versions it stood on. */
  ghost predicate CallDisplayed(call: Call, log: seq<Event>) {
    (call.Flushing? || call.SeeingReceipts? || call.SeeingHeads? || call.Acting?) && call.action.request.Push? ==>
      AllCovered(call.action.base, call.action.shown, log)
  }

  ghost predicate Displayed(s: State) {
    forall t | t in s.tabs :: CallDisplayed(s.tabs[t].call, s.log + s.tabs[t].unsaved)
  }

  lemma LogGrows(s: State, step: Step)
    requires Enabled(s, step)
    ensures Wider(s.log, Do(s, step).log)
  {
    if step.Commit? {
      var tab := s.tabs[step.tab];
      ExcusedGrows(s.log, tab.unsaved);
      ExcusedGrows(s.log + tab.unsaved, EventsOf(tab, tab.call.action));
    } else if step.Finish? && step.succeeded {
      ExcusedGrows(s.log, [Event.Submitted(s.tabs[step.tab].submitting.value)]);
    } else {
      assert Do(s, step).log == s.log;
    }
  }

  /** A step hands an action on, drops it, or starts a new one from what is displayed. */
  lemma ActionHandedOn(s: State, step: Step, t: nat)
    requires Enabled(s, step) && t in Do(s, step).tabs && t in s.tabs
    ensures var before, after := s.tabs[t].call, Do(s, step).tabs[t].call;
            || after.Idle? || after.Removing?
            || after.action.request.Sync?
            || (!before.Idle? && !before.Removing? && after.action == before.action
                && Do(s, step).tabs[t].unsaved == s.tabs[t].unsaved)
            || (step.Start? && Do(s, step).tabs[t].unsaved == s.tabs[t].unsaved
                && step.tab == t && after.action == Action(step.request, s.tabs[t].entries, s.tabs[t].branches))
  {
  }

  lemma StepKeepsDisplayed(s: State, step: Step)
    requires Inv(s) && Displayed(s) && Enabled(s, step) && Careful(s, step)
    ensures Displayed(Do(s, step))
  {
    forall t | t in Do(s, step).tabs
      ensures CallDisplayed(Do(s, step).tabs[t].call, Do(s, step).log + Do(s, step).tabs[t].unsaved)
    {
      if t in s.tabs { TabKeepsDisplayed(s, step, t); }
    }
  }

  lemma TabKeepsDisplayed(s: State, step: Step, t: nat)
    requires Inv(s) && Displayed(s) && Enabled(s, step) && Careful(s, step) && t in s.tabs && t in Do(s, step).tabs
    ensures CallDisplayed(Do(s, step).tabs[t].call, Do(s, step).log + Do(s, step).tabs[t].unsaved)
  {
    LogGrows(s, step);
    ActionHandedOn(s, step, t);
    var after, unsaved, now := Do(s, step).tabs[t].call, s.tabs[t].unsaved, Do(s, step).log;
    WiderBoth(s.log, now, unsaved);
    if !after.Idle? && !after.Removing? && after.action.request.Push? {
      if step.Start? && step.tab == t {
        CoveredGrows(s.log + unsaved, now + unsaved, s.tabs[t].branches, s.tabs[t].entries);
      } else {
        CoveredGrows(s.log + unsaved, now + unsaved, after.action.base, after.action.shown);
      }
    }
  }

  /** As long as nobody pushes from a tab that shows a conflict, every write is safe. */
  lemma {:induction false} CarefulPrefixIsSafe(trace: seq<State>, steps: seq<Step>, n: nat)
    requires CarefulRun(trace, steps) && n <= |steps|
    ensures Inv(trace[n]) && Displayed(trace[n])
    ensures forall i | 0 <= i < n :: Safe(trace[i], steps[i])
  {
    if n == 0 {
      assert AllFacts({}).edits == {};
    } else {
      CarefulPrefixIsSafe(trace, steps, n - 1);
      var s, step := trace[n - 1], steps[n - 1];
      assert Safe(s, step);
      StepKeepsInv(s, step);
      StepKeepsDisplayed(s, step);
    }
  }

  lemma CarefulIsSafe(trace: seq<State>, steps: seq<Step>)
    requires CarefulRun(trace, steps)
    ensures SafeRun(trace, steps)
  {
    CarefulPrefixIsSafe(trace, steps, |steps|);
  }
}
