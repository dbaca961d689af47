/** Pushes that race with edits they have not seen: what both sides keep, and the one case in
  which the draft does lose an edit. */
module DraftRaces {
  import opened Wrappers
  import opened DraftModel
  import opened Receipts
  import opened DraftHeads
  import opened DraftProtocol
  import opened DraftSafety

  // ----- a key never occurs twice in any stored or displayed draft

  ghost predicate BranchesUnique(branches: seq<Branch>) {
    forall i | 0 <= i < |branches| :: UniqueKeys(branches[i].entries)
  }

  ghost predicate CallUnique(call: Call) {
    call.Flushing? || call.SeeingReceipts? || call.SeeingHeads? || call.Acting? ==>
      UniqueKeys(call.action.shown) && BranchesUnique(call.action.base)
  }

  ghost predicate KeysOk(s: State) {
    && BranchesUnique(s.heads.written)
    && forall t | t in s.tabs ::
         UniqueKeys(s.tabs[t].entries) && BranchesUnique(s.tabs[t].branches) && CallUnique(s.tabs[t].call)
  }

  lemma {:induction false} AfterAllUnique(entries: seq<Entry>, receipts: seq<Receipt>)
    requires UniqueKeys(entries)
    ensures UniqueKeys(AfterAll(entries, receipts))
  {
    if receipts != [] {
      var rest := receipts[..|receipts| - 1];
      AfterAllUnique(entries, rest);
      SettleIsJudge(AfterAll(entries, rest), receipts[|receipts| - 1]);
      SettledKeysUnique(AfterAll(entries, rest), FactsOf(receipts[|receipts| - 1]));
    }
  }

  lemma {:induction false} DropUnique(entries: seq<Entry>, key: Key, edit: Option<string>)
    requires UniqueKeys(entries)
    ensures UniqueKeys(DropEntry(entries, key, edit))
    ensures forall e | e in DropEntry(entries, key, edit) :: e in entries
  {
    if entries != [] {
      DropUnique(entries[1..], key, edit);
      assert forall e | e in entries[1..] :: e.key != entries[0].key;
    }
  }

  lemma {:induction false} ClearUnique(entries: seq<Entry>, ids: set<string>)
    requires UniqueKeys(entries)
    ensures UniqueKeys(ClearEntries(entries, ids))
    ensures forall e | e in ClearEntries(entries, ids) :: e in entries
  {
    if entries != [] {
      ClearUnique(entries[1..], ids);
      assert forall e | e in entries[1..] :: e.key != entries[0].key;
    }
  }

  lemma {:induction false} ChosenUnique(branches: seq<Branch>, id: Id)
    requires BranchesUnique(branches)
    ensures UniqueKeys(Chosen(branches, id))
  {
    if branches != [] {
      assert UniqueKeys(branches[0].entries);
      if branches[0].id != id { ChosenUnique(branches[1..], id); }
    }
  }

  lemma PlannedUnique(tab: Tab)
    requires tab.call.Acting? && CallUnique(tab.call)
    requires UniqueKeys(tab.entries) && BranchesUnique(tab.branches)
    ensures UniqueKeys(Planned(tab, tab.call.action).0) && BranchesUnique(Planned(tab, tab.call.action).1)
  {
    var action := tab.call.action;
    match action.request {
      case Push(op, nonce, editId) =>
        var key := KeyOf(op, nonce);
        PushKeepsOthers(if SameTarget(tab, key, action.shown) then tab.entries else action.shown, op, key, editId);
      case Drop(key) => DropUnique(tab.entries, key, EditOf(action.shown, key));
      case Clear => ClearUnique(tab.entries, EditIds(action.shown));
      case Resolve(id) => ChosenUnique(tab.branches, id);
      case _ =>
    }
  }

  lemma SyncedUnique(heads: Heads, facts: Facts, tab: Tab, read: seq<Branch>)
    requires BranchesUnique(heads.written) && IsReading(heads, facts, read)
    requires UniqueKeys(tab.entries) && BranchesUnique(tab.branches)
    ensures UniqueKeys(Synced(tab, read).entries) && BranchesUnique(Synced(tab, read).branches)
  {
    var branches := AllOwing(read, tab.owed);
    forall k | 0 <= k < |read| ensures UniqueKeys(branches[k].entries) {
      var i :| Live(heads, i) && Settled(heads.written[i], facts) == read[k];
      SettledKeysUnique(heads.written[i].entries, facts);
      AfterAllUnique(read[k].entries, OwedReceipts(tab.owed));
    }
  }

  lemma FinishKeepsKeys(s: State, t: nat, succeeded: bool, stored: bool)
    requires KeysOk(s) && Enabled(s, Finish(t, succeeded, stored))
    requires UniqueKeys(AfterSubmission(s.tabs[t].entries, ReceiptOf(s.tabs[t].submitting.value)))
    ensures KeysOk(DoFinish(s, t, succeeded, stored))
  {}

  lemma SeeHeadsKeepsKeys(s: State, t: nat, read: seq<Branch>)
    requires KeysOk(s) && Enabled(s, SeeHeads(t, read))
    requires UniqueKeys(Synced(s.tabs[t], read).entries) && BranchesUnique(Synced(s.tabs[t], read).branches)
    ensures KeysOk(Do(s, SeeHeads(t, read)))
  {}

  lemma FlushKeepsKeys(s: State, t: nat, stored: bool)
    requires KeysOk(s) && Enabled(s, Flush(t, stored))
    ensures KeysOk(DoFlush(s, t, stored))
  {}

  lemma ActKeepsKeys(s: State, t: nat)
    requires KeysOk(s) && Enabled(s, Act(t))
    ensures KeysOk(Do(s, Act(t)))
  {}

  lemma StartKeepsKeys(s: State, t: nat, request: Request)
    requires KeysOk(s) && Enabled(s, Start(t, request))
    ensures KeysOk(Do(s, Start(t, request)))
  {}

  lemma OtherStepKeepsKeys(s: State, step: Step)
    requires KeysOk(s) && Enabled(s, step)
    requires !step.Finish? && !step.SeeHeads? && !step.Commit? && !step.CommitFails?
    ensures KeysOk(Do(s, step))
  {
    if step.Flush? {
      FlushKeepsKeys(s, step.tab, step.stored);
    } else if step.Act? {
      ActKeepsKeys(s, step.tab);
    } else if step.Start? {
      StartKeepsKeys(s, step.tab, step.request);
    }
  }

  lemma StepKeepsKeys(s: State, step: Step)
    requires KeysOk(s) && Enabled(s, step)
    ensures KeysOk(Do(s, step))
  {
    if step.Finish? {
      var tab := s.tabs[step.tab];
      SettleIsJudge(tab.entries, ReceiptOf(tab.submitting.value));
      SettledKeysUnique(tab.entries, FactsOf(ReceiptOf(tab.submitting.value)));
      FinishKeepsKeys(s, step.tab, step.succeeded, step.stored);
    } else if step.SeeHeads? {
      SyncedUnique(s.heads, s.tabs[step.tab].call.facts, s.tabs[step.tab], step.read);
      SeeHeadsKeepsKeys(s, step.tab, step.read);
    } else if step.Commit? || step.CommitFails? {
      PlannedUnique(s.tabs[step.tab]);
    } else {
      OtherStepKeepsKeys(s, step);
    }
  }

  /** In every run, careful or not. */
  lemma {:induction false} KeysStayUnique(trace: seq<State>, steps: seq<Step>, i: nat)
    requires Run(trace, steps) && i < |trace|
    ensures KeysOk(trace[i])
  {
    if i > 0 {
      KeysStayUnique(trace, steps, i - 1);
      StepKeepsKeys(trace[i - 1], steps[i - 1]);
    }
  }

  // ----- two edits of one target made without seeing each other

  /** The tab is about to write a push of y's target, and y is an edit it was not displaying. */
  ghost predicate Races(tab: Tab, y: Edit) {
    && tab.call.Acting? && tab.call.action.request.Push?
    && y.0 == KeyOf(tab.call.action.request.op, tab.call.action.request.nonce)
    && y !in Edits(tab.call.action.shown)
    && y.1 != tab.call.action.request.editId
  }

  /** What the racing tab writes holds its own edit of the target and not the unseen one. */
  lemma RacingWrite(tab: Tab, y: Edit)
    requires Races(tab, y)
    requires UniqueKeys(tab.entries) && UniqueKeys(tab.call.action.shown)
    ensures EditOf(Planned(tab, tab.call.action).0, y.0) == Some(tab.call.action.request.editId)
    ensures y !in Edits(Planned(tab, tab.call.action).0)
  {
    var action := tab.call.action;
    var from := if SameTarget(tab, y.0, action.shown) then tab.entries else action.shown;
    PushKeepsOthers(from, action.request.op, y.0, action.request.editId);
    EditOfUnique(Planned(tab, action).0, y);
  }

  /** A published branch is live at that moment. */
  lemma PublishedIsLive(s: State, t: nat, id: Id)
    requires Inv(s) && Enabled(s, Commit(t, id))
    ensures Live(Do(s, Commit(t, id)).heads, |s.heads.written|)
  {
    var tab := s.tabs[t];
    var (entries, parents) := Planned(tab, tab.call.action);
    forall p | p in Ids(parents) ensures Written(s.heads, p) {
      var k :| 0 <= k < |parents| && parents[k].id == p;
      assert Known(s.heads, s.log, parents[k]);
    }
    PublishKeepsValid(s.heads, Branch(id, Ids(parents), entries));
  }

  /** A push never silently overwrites an edit of its target that its tab did not display: at the
      moment it is published, its own branch and another one holding that edit are both live. */
  lemma RacingPushKeepsBoth(trace: seq<State>, steps: seq<Step>, i: nat, b: int, y: Edit) returns (other: int)
    requires SafeRun(trace, steps) && i < |steps| && steps[i].Commit?
    requires Races(trace[i].tabs[steps[i].tab], y)
    requires 0 <= b < |trace[i].heads.written| && y in Edits(trace[i].heads.written[b].entries)
    requires !Excused(trace[i].log + trace[i].tabs[steps[i].tab].unsaved, y)
    ensures var after, mine := trace[i + 1].heads, |trace[i].heads.written|;
            && Live(after, mine) && after.written[mine].id == steps[i].id
            && y !in Edits(after.written[mine].entries)
            && EditOf(after.written[mine].entries, y.0) == Some(trace[i].tabs[steps[i].tab].call.action.request.editId)
            && Live(after, other) && y in Edits(after.written[other].entries)
  {
    RunKeepsInv(trace, steps, i);
    RunKeepsInv(trace, steps, i + 1);
    KeysStayUnique(trace, steps, i);
    PublishedIsLive(trace[i], steps[i].tab, steps[i].id);
    RacingWrite(trace[i].tabs[steps[i].tab], y);
    PushExcusesNothingUnseen(trace[i].log + trace[i].tabs[steps[i].tab].unsaved, trace[i].tabs[steps[i].tab], y);
    assert trace[i + 1].heads.written[b] == trace[i].heads.written[b];
    other := LiveCarrier(trace[i + 1], b, y);
  }

  lemma PushExcusesNothingUnseen(log: seq<Event>, tab: Tab, y: Edit)
    requires Races(tab, y) && !Excused(log, y)
    ensures !Excused(log + EventsOf(tab, tab.call.action), y)
  {
    var shown := tab.call.action.shown;
    ExcusedSplit(log, PushedOver(y.0, shown), y);
    if EditOf(shown, y.0).Some? { ShownEdit(shown, y.0); }
  }

  lemma ExcusedSplit(log: seq<Event>, event: Event, x: Edit)
    ensures Excused(log + [event], x) <==> Excused(log, x) || Excuses(event, x)
  {
    var log' := log + [event];
    ExcusedGrows(log, [event]);
    assert log'[|log|] == event;
    if Excused(log', x) {
      var i :| 0 <= i < |log'| && Excuses(log'[i], x);
      assert i < |log| ==> log'[i] == log[i];
    }
  }

  lemma ShownEdit(shown: seq<Entry>, key: Key)
    requires EditOf(shown, key).Some?
    ensures (key, EditOf(shown, key).value) in Edits(shown)
  {
    assert shown[IndexOf(shown, key)] in shown;
  }

  /** In a draft with unique keys the displayed edit of a key is its only one. */
  lemma EditOfUnique(entries: seq<Entry>, y: Edit)
    requires UniqueKeys(entries)
    ensures y in Edits(entries) <==> EditOf(entries, y.0) == Some(y.1)
  {
    var at := IndexOf(entries, y.0);
    if y in Edits(entries) {
      var i :| 0 <= i < |entries| && y == (entries[i].key, entries[i].editId);
      assert at == i;
    } else if at >= 0 {
      assert entries[at] in entries;
    }
  }

  // ----- exactly which edits a push loses

  /** Some branch that a read returns has the edit. */
  ghost predicate Held(heads: Heads, x: Edit) {
    exists i :: Live(heads, i) && x in Edits(heads.written[i].entries)
  }

  /** The push goes over the draft that was displayed, which lacks this unexcused edit, and replaces
      every live version that has it. */
  ghost predicate PushedAway(s: State, t: nat, x: Edit)
    requires t in s.tabs && s.tabs[t].call.Acting? && s.tabs[t].call.action.request.Push?
  {
    var tab, action := s.tabs[t], s.tabs[t].call.action;
    && !SameTarget(tab, KeyOf(action.request.op, action.request.nonce), action.shown)
    && x !in Edits(action.shown) && !Excused(s.log + tab.unsaved, x)
    && forall i | Live(s.heads, i) && x in Edits(s.heads.written[i].entries) ::
         s.heads.written[i].id in Ids(action.base)
  }

  /** After any safe run, the next push takes another edit out of every live head without an excuse
      exactly when its target changed since it was displayed, the displayed draft lacked the edit, and
      every live version that has it is one the push was made from. */
  lemma PushLosesEditIff(trace: seq<State>, steps: seq<Step>, t: nat, id: Id, x: Edit)
    requires SafeRun(trace, steps)
    requires Enabled(trace[|steps|], Commit(t, id)) && trace[|steps|].tabs[t].call.action.request.Push?
    requires var request := trace[|steps|].tabs[t].call.action.request;
             x != (KeyOf(request.op, request.nonce), request.editId)
    requires Held(trace[|steps|].heads, x)
    ensures var after := Do(trace[|steps|], Commit(t, id));
            !Held(after.heads, x) && !Excused(after.log, x) <==> PushedAway(trace[|steps|], t, x)
  {
    RunKeepsInv(trace, steps, |steps|);
    KeysStayUnique(trace, steps, |steps|);
    CommitLosesEditIff(trace[|steps|], t, id, x);
  }

  lemma CommitLosesEditIff(s: State, t: nat, id: Id, x: Edit)
    requires Inv(s) && KeysOk(s) && Enabled(s, Commit(t, id)) && s.tabs[t].call.action.request.Push?
    requires var request := s.tabs[t].call.action.request; x != (KeyOf(request.op, request.nonce), request.editId)
    requires Held(s.heads, x)
    ensures var after := Do(s, Commit(t, id));
            !Held(after.heads, x) && !Excused(after.log, x) <==> PushedAway(s, t, x)
  {
    var tab, action, after := s.tabs[t], s.tabs[t].call.action, Do(s, Commit(t, id));
    if SameTarget(tab, KeyOf(action.request.op, action.request.nonce), action.shown) {
      CommitKeepsInv(s, t, id);
      if !Excused(after.log, x) {
        var i :| Live(s.heads, i) && x in Edits(s.heads.written[i].entries);
        assert after.heads.written[i] == s.heads.written[i];
        var live := LiveCarrier(after, i, x);
      }
    } else {
      PushedOverDisplay(s, t, id);
      PublishedIsLive(s, t, id);
      HeldAfter(s.heads, after.heads.written[|s.heads.written|], x);
      ShownOrLost(s, t, x);
    }
  }

  /** Publishing a branch replaces the live versions it names and no others. */
  lemma HeldAfter(heads: Heads, branch: Branch, x: Edit)
    requires Live(Publish(heads, branch), |heads.written|)
    ensures Held(Publish(heads, branch), x) <==>
            || x in Edits(branch.entries)
            || exists i :: Live(heads, i) && x in Edits(heads.written[i].entries) && heads.written[i].id !in branch.parents
  {
    var after, n := Publish(heads, branch), |heads.written|;
    forall i | 0 <= i < n ensures Live(after, i) <==> Live(heads, i) && heads.written[i].id !in branch.parents {
      assert Names(after, n, heads.written[i].id) <==> heads.written[i].id in branch.parents;
      assert forall c | 0 <= c < n :: Names(after, c, heads.written[i].id) <==> Names(heads, c, heads.written[i].id);
      assert Present(after, n);
    }
    if x in Edits(branch.entries) { assert Live(after, n) && x in Edits(after.written[n].entries); }
    if i :| Live(heads, i) && x in Edits(heads.written[i].entries) && heads.written[i].id !in branch.parents {
      assert Live(after, i) && x in Edits(after.written[i].entries);
    }
  }

  /** What such a push writes has the edit, or excuses it, exactly when it was displayed. */
  lemma ShownOrLost(s: State, t: nat, x: Edit)
    requires KeysOk(s) && t in s.tabs && s.tabs[t].call.Acting? && s.tabs[t].call.action.request.Push?
    requires var request := s.tabs[t].call.action.request; x != (KeyOf(request.op, request.nonce), request.editId)
    ensures var tab, action := s.tabs[t], s.tabs[t].call.action;
            var key, before := KeyOf(action.request.op, action.request.nonce), s.log + tab.unsaved;
            var entries := PushEntries(action.shown, action.request.op, key, action.request.editId);
            x in Edits(entries) || Excused(before + [PushedOver(key, action.shown)], x) <==>
            x in Edits(action.shown) || Excused(before, x)
  {
    var action := s.tabs[t].call.action;
    var op, editId, shown := action.request.op, action.request.editId, action.shown;
    var key := KeyOf(op, action.request.nonce);
    ExcusedSplit(s.log + s.tabs[t].unsaved, PushedOver(key, shown), x);
    PushCovers(shown, op, key, editId);
    if x in Edits(PushEntries(shown, op, key, editId)) { PushedFromShown(shown, op, key, editId, x); }
    if EditOf(shown, key).Some? { ShownEdit(shown, key); }
  }

  /** When its target has changed a push publishes over the draft and the branches it was made from. */
  lemma PushedOverDisplay(s: State, t: nat, id: Id)
    requires Enabled(s, Commit(t, id)) && s.tabs[t].call.action.request.Push?
    requires var action := s.tabs[t].call.action;
             !SameTarget(s.tabs[t], KeyOf(action.request.op, action.request.nonce), action.shown)
    ensures var action, after := s.tabs[t].call.action, Do(s, Commit(t, id));
            var key := KeyOf(action.request.op, action.request.nonce);
            && after.log == s.log + s.tabs[t].unsaved + [PushedOver(key, action.shown)]
            && after.heads.written == s.heads.written + [
                 Branch(id, Ids(action.base), PushEntries(action.shown, action.request.op, key, action.request.editId))]
  {
  }

  /** All a push adds to a draft is its own edit. */
  lemma PushedFromShown(shown: seq<Entry>, op: Op, key: Key, editId: string, x: Edit)
    requires UniqueKeys(shown) && x in Edits(PushEntries(shown, op, key, editId)) && x != (key, editId)
    ensures x in Edits(shown)
  {
    var entries := PushEntries(shown, op, key, editId);
    PushKeepsOthers(shown, op, key, editId);
    EditOfUnique(entries, x);
    var e :| e in entries && x == (e.key, e.editId);
    assert e.key != key;
  }
}
