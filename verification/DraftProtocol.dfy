/** Several tabs editing one operator's draft through shared storage, with no lock
  (`DraftStore` in frontend/src/draft.ts over frontend/src/draft-storage.ts).

  A tab's call runs as separate steps - storing owed receipts, reading receipts, reading heads,
  computing and publishing, removing each parent - and any other tab's steps may fall between
  them. A write can fail, a read can fail, and a tab can vanish at any point. */
module DraftProtocol {
  import opened Wrappers
  import opened DraftModel
  import opened Receipts
  import opened DraftHeads

  type Edit = (Key, string)

  /** What an operator asks of a tab. */
  datatype Request =
    | Push(op: Op, nonce: string, editId: string)
    | Drop(key: Key)
    | Clear
    | Begin
    | Resolve(id: Id)
    | Retry
    | Sync

  /** A request together with what the tab displayed when it was made. */
  datatype Action = Action(request: Request, shown: seq<Entry>, base: seq<Branch>)

  datatype Call =
    | Idle
    | Flushing(action: Action)
    | SeeingReceipts(action: Action)
    | SeeingHeads(action: Action, facts: Facts)
    | Acting(action: Action)
    | Removing(parents: seq<Id>)

  /** `unsaved` is what the operator did since the last write that succeeded: it enters the history
      when a write publishes it. */
  datatype Tab = Tab(
    entries: seq<Entry>,
    branches: seq<Branch>,
    conflict: bool,
    unpersisted: bool,
    owed: seq<seq<Entry>>,
    submitting: Option<seq<Entry>>,
    unsaved: seq<Event>,
    call: Call)

  /** The history of what operators did, as far as it can take edits out of a draft. */
  datatype Event =
    | Submitted(batch: seq<Entry>)
    | PushedOver(key: Key, shown: seq<Entry>)
    | Dropped(key: Key, shown: seq<Entry>)
    | Cleared(shown: seq<Entry>)
    | Resolved(choices: seq<Branch>, chosen: Id)

  datatype State = State(heads: Heads, receipts: set<Receipt>, tabs: map<nat, Tab>, log: seq<Event>)

  const NEW_TAB := Tab([], [], false, false, [], None, [], SeeingReceipts(Action(Sync, [], [])))

  /** The only ways an edit may leave the draft: it was submitted, it was overwritten or dropped
      or cleared by a tab that was displaying it, or a conflict it took part in was resolved in
      favour of a version without it. */
  ghost predicate Excuses(event: Event, edit: Edit) {
    match event
    case Submitted(batch) => edit in Edits(batch)
    case PushedOver(key, shown) => edit.0 == key && EditOf(shown, key) == Some(edit.1)
    case Dropped(key, shown) => edit.0 == key && EditOf(shown, key) == Some(edit.1)
    case Cleared(shown) => exists e :: e in shown && e.editId == edit.1
    case Resolved(choices, chosen) =>
      exists i, j :: IsOffered(choices, i, chosen) && edit !in Edits(choices[i].entries)
                     && 0 <= j < |choices| && edit in Edits(choices[j].entries)
  }

  /** The first branch on offer with this id. */
  ghost predicate IsOffered(branches: seq<Branch>, i: int, id: Id) {
    0 <= i < |branches| && branches[i].id == id && forall j | 0 <= j < i :: branches[j].id != id
  }

  ghost predicate Excused(log: seq<Event>, edit: Edit) {
    exists i :: 0 <= i < |log| && Excuses(log[i], edit)
  }

  // ----- what a tab computes

  function OwedReceipts(owed: seq<seq<Entry>>): seq<Receipt> {
    seq(|owed|, i requires 0 <= i < |owed| => ReceiptOf(owed[i]))
  }

  /** The branch as this tab sees it: receipts it still owes are applied too. */
  function Owing(branch: Branch, owed: seq<seq<Entry>>): Branch {
    branch.(entries := AfterAll(branch.entries, OwedReceipts(owed)))
  }

  function AllOwing(branches: seq<Branch>, owed: seq<seq<Entry>>): seq<Branch> {
    seq(|branches|, i requires 0 <= i < |branches| => Owing(branches[i], owed))
  }

  predicate Differ(branches: seq<Branch>) {
    exists i :: 0 <= i < |branches| && branches[i].entries != branches[0].entries
  }

  /** `sync` once the heads are read. */
  function Synced(tab: Tab, read: seq<Branch>): Tab {
    var branches := AllOwing(read, tab.owed);
    if branches == tab.branches then tab
    else
      tab.(branches := branches, conflict := Differ(branches),
           entries := if Differ(branches) then tab.entries
                      else if branches == [] then [] else branches[0].entries)
  }

  function DropEntry(entries: seq<Entry>, key: Key, edit: Option<string>): seq<Entry> {
    if entries == [] then []
    else if entries[0].key == key && Some(entries[0].editId) == edit then DropEntry(entries[1..], key, edit)
    else [entries[0]] + DropEntry(entries[1..], key, edit)
  }

  function ClearEntries(entries: seq<Entry>, edits: set<string>): seq<Entry> {
    if entries == [] then []
    else if entries[0].editId in edits then ClearEntries(entries[1..], edits)
    else [entries[0]] + ClearEntries(entries[1..], edits)
  }

  function EditIds(entries: seq<Entry>): set<string> {
    set e | e in entries :: e.editId
  }

  /** The first can be read off the second from left to right. */
  ghost predicate IsWithin(some: seq<Entry>, all: seq<Entry>) {
    some == [] || (all != [] &&
      if some[0] == all[0] then IsWithin(some[1..], all[1..]) else IsWithin(some, all[1..]))
  }

  /** `after` is `before` without these entries, the others as often and in the same order. */
  ghost predicate Leaves(before: seq<Entry>, gone: set<Entry>, after: seq<Entry>) {
    && IsWithin(after, before)
    && forall e :: multiset(after)[e] == if e in gone then 0 else multiset(before)[e]
  }

  lemma LeavesOneMore(before: seq<Entry>, gone: set<Entry>, rest: seq<Entry>)
    requires before != [] && Leaves(before[1..], gone, rest)
    ensures before[0] !in gone ==> Leaves(before, gone, [before[0]] + rest)
    ensures before[0] in gone ==> Leaves(before, gone, rest)
  {
    var head, tail := before[0], before[1..];
    assert before == [head] + tail;
    assert ([head] + rest)[1..] == rest;
    assert multiset(rest)[head] == if head in gone then 0 else multiset(tail)[head];
  }

  /** Dropping removes the entries of this key that are the displayed edit, and nothing else. */
  lemma {:induction false} DropLeaves(entries: seq<Entry>, key: Key, edit: Option<string>, gone: set<Entry>)
    requires forall e | e in entries :: e in gone <==> e.key == key && edit == Some(e.editId)
    ensures Leaves(entries, gone, DropEntry(entries, key, edit))
  {
    if entries != [] {
      DropLeaves(entries[1..], key, edit, gone);
      LeavesOneMore(entries, gone, DropEntry(entries[1..], key, edit));
    }
  }

  /** Clearing removes the entries that are displayed edits, and nothing else. */
  lemma {:induction false} ClearLeaves(entries: seq<Entry>, shown: seq<Entry>, gone: set<Entry>)
    requires forall e | e in entries :: e in gone <==> exists x :: x in shown && x.editId == e.editId
    ensures Leaves(entries, gone, ClearEntries(entries, EditIds(shown)))
  {
    if entries != [] {
      ClearLeaves(entries[1..], shown, gone);
      LeavesOneMore(entries, gone, ClearEntries(entries[1..], EditIds(shown)));
      assert entries[0].editId in EditIds(shown) <==> exists x :: x in shown && x.editId == entries[0].editId;
    }
  }

  lemma {:induction false} OfferedAt(branches: seq<Branch>, id: Id) returns (i: int)
    requires Offers(branches, id)
    ensures IsOffered(branches, i, id) && Chosen(branches, id) == branches[i].entries
  {
    i := 0;
    if branches[0].id != id {
      var k :| 0 <= k < |branches| && branches[k].id == id;
      assert branches[1..][k - 1].id == id;
      i := OfferedAt(branches[1..], id);
      i := i + 1;
      forall j | 0 <= j < i ensures branches[j].id != id { assert j > 0 ==> branches[1..][j - 1] == branches[j]; }
    }
    ChosenIs(branches, i);
  }

  /** Resolving takes the version with this id. */
  lemma {:induction false} ChosenIs(branches: seq<Branch>, i: nat)
    requires i < |branches| && forall j | 0 <= j < i :: branches[j].id != branches[i].id
    ensures Chosen(branches, branches[i].id) == branches[i].entries
  {
    if i > 0 {
      assert branches[0].id != branches[i].id;
      ChosenIs(branches[1..], i - 1);
    }
  }

  /** The target of a push is still the edit the operator was looking at. When it is not, `push`
      writes on top of what was displayed, so that the two versions stay side by side. */
  predicate SameTarget(tab: Tab, key: Key, shown: seq<Entry>) {
    EditOf(shown, key) == EditOf(tab.entries, key)
  }

  /** What the tab will write: its new entries and the branches they replace. */
  function Planned(tab: Tab, action: Action): (seq<Entry>, seq<Branch>) {
    match action.request
    case Push(op, nonce, editId) =>
      var key := KeyOf(op, nonce);
      if SameTarget(tab, key, action.shown)
      then (PushEntries(tab.entries, op, key, editId), tab.branches)
      else (PushEntries(action.shown, op, key, editId), action.base)
    case Drop(key) => (DropEntry(tab.entries, key, EditOf(action.shown, key)), tab.branches)
    case Clear => (ClearEntries(tab.entries, EditIds(action.shown)), tab.branches)
    case Resolve(id) => (Chosen(tab.branches, id), tab.branches)
    case _ => (tab.entries, tab.branches)
  }

  predicate Offers(branches: seq<Branch>, id: Id) {
    exists i :: 0 <= i < |branches| && branches[i].id == id
  }

  /** The entries of the branch with this id (empty when there is none). */
  function Chosen(branches: seq<Branch>, id: Id): seq<Entry> {
    if branches == [] then []
    else if branches[0].id == id then branches[0].entries
    else Chosen(branches[1..], id)
  }

  function EventsOf(tab: Tab, action: Action): seq<Event> {
    match action.request
    case Push(op, nonce, _) => [PushedOver(KeyOf(op, nonce), action.shown)]
    case Drop(key) => [Dropped(key, action.shown)]
    case Clear => [Cleared(action.shown)]
    case Resolve(id) => [Resolved(tab.branches, id)]
    case _ => []
  }

  function Ids(branches: seq<Branch>): seq<Id> {
    seq(|branches|, i requires 0 <= i < |branches| => branches[i].id)
  }

  // ----- steps

  datatype Step =
    | Open(tab: nat)
    | Close(tab: nat)
    | Start(tab: nat, request: Request)
    | Finish(tab: nat, succeeded: bool, stored: bool)
    | Flush(tab: nat, stored: bool)
    | SeeReceipts(tab: nat)
    | SeeHeads(tab: nat, read: seq<Branch>)
    | SeeNothing(tab: nat)
    | Act(tab: nat)
    | Commit(tab: nat, id: Id)
    | CommitFails(tab: nat)
    | RemoveParent(tab: nat)

  ghost predicate Returns(heads: Heads, facts: Facts, branch: Branch) {
    exists i :: Live(heads, i) && Settled(heads.written[i], facts) == branch
  }

  /** A possible result of reading the heads: each live branch once, settled by the receipts
      read before. */
  ghost predicate IsReading(heads: Heads, facts: Facts, read: seq<Branch>) {
    && (forall k | 0 <= k < |read| :: Returns(heads, facts, read[k]))
    && (forall i | Live(heads, i) :: Settled(heads.written[i], facts) in read)
    && (forall k, l | 0 <= k < l < |read| :: read[k].id != read[l].id)
  }

  function Settled(branch: Branch, facts: Facts): Branch {
    branch.(entries := JudgeAll(branch.entries, facts))
  }

  predicate Writes(request: Request) {
    request.Push? || request.Drop? || request.Clear? || request.Resolve? || request.Retry?
  }

  /** Where a call goes once `sync` is done or skipped: a shown conflict stops every write that
      is not its resolution. */
  function AfterSync(tab: Tab, action: Action): Call {
    if action.request.Sync? || (action.request.Retry? && !tab.unpersisted) then Idle
    else if tab.conflict && !action.request.Resolve? && !action.request.Retry? then Idle
    else Acting(action)
  }

  function Begun(tab: Tab, request: Request): Call {
    var action := Action(request, tab.entries, tab.branches);
    match request
    case Sync => if tab.unpersisted then Idle else SeeingReceipts(action)
    case Resolve(_) => if tab.unpersisted then Acting(action) else SeeingReceipts(action)
    case _ => Flushing(action)
  }

  ghost predicate Enabled(s: State, step: Step) {
    match step
    case Open(t) => t !in s.tabs
    case Close(t) => t in s.tabs
    case Start(t, request) => t in s.tabs && s.tabs[t].call == Idle
    case Finish(t, _, _) => t in s.tabs && s.tabs[t].call == Idle && s.tabs[t].submitting.Some?
    case Flush(t, _) => t in s.tabs && s.tabs[t].call.Flushing?
    case SeeReceipts(t) => t in s.tabs && s.tabs[t].call.SeeingReceipts?
    case SeeHeads(t, read) =>
      t in s.tabs && s.tabs[t].call.SeeingHeads? && IsReading(s.heads, s.tabs[t].call.facts, read)
    case SeeNothing(t) => t in s.tabs && (s.tabs[t].call.SeeingReceipts? || s.tabs[t].call.SeeingHeads?)
    case Act(t) =>
      && t in s.tabs && s.tabs[t].call.Acting?
      && (!Writes(s.tabs[t].call.action.request) || Refused(s.tabs[t]))
    case Commit(t, id) =>
      && t in s.tabs && s.tabs[t].call.Acting? && Writes(s.tabs[t].call.action.request)
      && !Refused(s.tabs[t]) && Fresh(s.heads, id)
    case CommitFails(t) =>
      && t in s.tabs && s.tabs[t].call.Acting? && Writes(s.tabs[t].call.action.request)
      && !Refused(s.tabs[t])
    case RemoveParent(t) => t in s.tabs && s.tabs[t].call.Removing?
  }

  /** `resolveConflict` throws when the chosen version is gone. */
  predicate Refused(tab: Tab)
    requires tab.call.Acting?
  {
    tab.call.action.request.Resolve? && !Offers(tab.branches, tab.call.action.request.id)
  }

  function SetTab(s: State, t: nat, tab: Tab): State {
    s.(tabs := s.tabs[t := tab])
  }

  ghost function Do(s: State, step: Step): State
    requires Enabled(s, step)
  {
    match step
    case Open(t) => SetTab(s, t, NEW_TAB)
    case Close(t) => s.(tabs := s.tabs - {t})
    case Start(t, request) => SetTab(s, t, s.tabs[t].(call := Begun(s.tabs[t], request)))
    case Finish(t, succeeded, stored) => DoFinish(s, t, succeeded, stored)
    case Flush(t, stored) => DoFlush(s, t, stored)
    case SeeReceipts(t) =>
      SetTab(s, t, s.tabs[t].(call := SeeingHeads(s.tabs[t].call.action, AllFacts(s.receipts))))
    case SeeHeads(t, read) =>
      var tab := Synced(s.tabs[t], read);
      SetTab(s, t, tab.(call := AfterSync(tab, s.tabs[t].call.action)))
    case SeeNothing(t) => SetTab(s, t, s.tabs[t].(call := AfterSync(s.tabs[t], s.tabs[t].call.action)))
    case Act(t) => SetTab(s, t, Concluded(s.tabs[t]))
    case Commit(t, id) =>
      var tab, action := s.tabs[t], s.tabs[t].call.action;
      var (entries, parents) := Planned(tab, action);
      State(Publish(s.heads, Branch(id, Ids(parents), entries)), s.receipts,
            s.tabs[t := tab.(entries := entries, branches := parents, unpersisted := false, unsaved := [],
                             call := Removing(Ids(parents)))],
            s.log + tab.unsaved + EventsOf(tab, action))
    case CommitFails(t) =>
      var tab, action := s.tabs[t], s.tabs[t].call.action;
      var (entries, parents) := Planned(tab, action);
      SetTab(s, t, tab.(entries := entries, branches := parents, unpersisted := true,
                        unsaved := tab.unsaved + EventsOf(tab, action), call := Idle))
    case RemoveParent(t) =>
      var parents := s.tabs[t].call.parents;
      if parents == [] then
        SetTab(s, t, s.tabs[t].(call := SeeingReceipts(Action(Sync, [], []))))
      else
        SetTab(s, t, s.tabs[t].(call := Removing(parents[1..]))).(heads := Remove(s.heads, parents[0]))
  }

  /** `finishSubmission`: on success the batch becomes a receipt, or is owed if storing failed. */
  function DoFinish(s: State, t: nat, succeeded: bool, stored: bool): State
    requires t in s.tabs && s.tabs[t].submitting.Some?
  {
    var tab := s.tabs[t].(submitting := None);
    var batch := s.tabs[t].submitting.value;
    if !succeeded then SetTab(s, t, tab)
    else
      var after := tab.(entries := AfterSubmission(tab.entries, ReceiptOf(batch)),
                        owed := if stored then tab.owed else tab.owed + [batch],
                        call := if tab.unpersisted then Idle else SeeingReceipts(Action(Sync, [], [])));
      State(s.heads, if stored then s.receipts + {ReceiptOf(batch)} else s.receipts,
            s.tabs[t := after], s.log + [Event.Submitted(batch)])
  }

  /** One round of `flushReceipts`; a receipt that cannot be stored aborts the call. */
  function DoFlush(s: State, t: nat, stored: bool): State
    requires t in s.tabs && s.tabs[t].call.Flushing?
  {
    var tab, action := s.tabs[t], s.tabs[t].call.action;
    if tab.owed == [] then
      SetTab(s, t, tab.(call := if tab.unpersisted then AfterSync(tab, action) else SeeingReceipts(action)))
    else if stored then
      SetTab(s, t, tab.(owed := tab.owed[1..])).(receipts := s.receipts + {ReceiptOf(tab.owed[0])})
    else SetTab(s, t, tab.(call := Idle))
  }

  /** Calls that write nothing: `beginSubmission` after `prepare`: refused if the draft is not the one reviewed. */
  function Concluded(tab: Tab): Tab
    requires tab.call.Acting?
  {
    if tab.call.action.request.Begin? && tab.entries == tab.call.action.shown && tab.submitting.None?
    then tab.(submitting := Some(tab.entries), call := Idle)
    else tab.(call := Idle)
  }

  const EMPTY := State(Heads([], {}), {}, map[], [])

  ghost predicate Run(trace: seq<State>, steps: seq<Step>) {
    && |trace| == |steps| + 1 && trace[0] == EMPTY
    && (forall i | 0 <= i < |steps| :: Enabled(trace[i], steps[i]) && trace[i + 1] == Do(trace[i], steps[i]))
  }

  /** These steps, taken from the start, lead to this state. */
  ghost predicate Reaches(steps: seq<Step>, to: State) {
    exists trace :: Run(trace, steps) && trace[|steps|] == to
  }

  lemma ReachesOn(steps: seq<Step>, s: State, step: Step)
    requires Reaches(steps, s) && Enabled(s, step)
    ensures Reaches(steps + [step], Do(s, step))
  {
    var trace :| Run(trace, steps) && trace[|steps|] == s;
    var longer := trace + [Do(s, step)];
    forall i | 0 <= i < |steps + [step]|
      ensures Enabled(longer[i], (steps + [step])[i]) && longer[i + 1] == Do(longer[i], (steps + [step])[i])
    {
      if i < |steps| { assert longer[i] == trace[i] && longer[i + 1] == trace[i + 1]; }
    }
    assert Run(longer, steps + [step]);
  }
}
