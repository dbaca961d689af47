/** `DraftStore` (frontend/src/draft.ts): one tab's editor, changing its fields in place. Every method
    is proved to take the steps of the protocol, so what holds of all runs holds of every call. */
module DraftStores {
  import opened Wrappers
  import opened IngressMerge
  import opened DraftModel
  import opened Receipts
  import opened DraftHeads
  import opened DraftProtocol
  import opened DraftHistory
  import opened DraftStorages

  /** What `prepare` and the writing calls have in common. */
  const REFRESH := Action(Sync, [], [])

  class DraftStore {
    const tab: nat
    const storage: DraftStorage
    var entries: seq<Entry>
    var branches: seq<Branch>
    var conflict: bool
    var unpersisted: bool
    var pendingReceipts: seq<seq<Entry>>
    var submitting: Option<seq<Entry>>
    ghost var unsaved: seq<Event>

    ghost function Value(call: Call): Tab
      reads this
    {
      Tab(entries, branches, conflict, unpersisted, pendingReceipts, submitting, unsaved, call)
    }

    /** The tab is at this point of a call, and its fields are what the protocol has of it. */
    ghost predicate At(call: Call)
      reads this, storage
    {
      && storage.Valid()
      && tab in storage.state.tabs && storage.state.tabs[tab] == Value(call)
      && AllWritten(storage.state.heads, branches)
    }

    /** Between calls. */
    ghost predicate Valid()
      reads this, storage
    {
      At(Idle)
    }

    /** These entries are the newest branch, or are kept in the tab as an unsaved draft. */
    ghost predicate Wrote(before: Heads, id: Id, what: seq<Entry>)
      reads this, storage
    {
      var written := storage.state.heads.written;
      if unpersisted then written == before.written && entries == what
      else
        && |written| == |before.written| + 1 && written[..|before.written|] == before.written
        && written[|before.written|].id == id && written[|before.written|].entries == what
    }

    /** What was written is these entries without those gone, the others in their order. */
    ghost predicate WroteLeft(before: Heads, id: Id, current: seq<Entry>, gone: set<Entry>)
      reads this, storage
    {
      exists left :: Leaves(current, gone, left) && Wrote(before, id, left)
    }

    /** What was done is in the history if the write succeeded, after what was unsaved before it, and
        otherwise waits with the tab. */
    ghost predicate Records(log: seq<Event>, pending: seq<Event>, events: seq<Event>)
      reads this, storage
    {
      if unpersisted then storage.state.log == log && unsaved == pending + events
      else storage.state.log == log + pending + events && unsaved == []
    }

    /** `init`, in a tab that was not there before. */
    constructor (tab: nat, storage: DraftStorage)
      requires storage.Valid() && tab !in storage.state.tabs
      modifies storage
      ensures Valid() && this.tab == tab && this.storage == storage
      ensures OnlyTab(tab, old(storage.state), storage.state) && storage.state.log == old(storage.state.log)
      ensures storage.state.heads == old(storage.state.heads)
      ensures !unpersisted && pendingReceipts == [] && submitting.None?
      ensures Shows(storage.state.heads, storage.state.receipts, entries, branches, conflict)
    {
      this.tab, this.storage := tab, storage;
      entries, branches, conflict, unpersisted := [], [], false, false;
      pendingReceipts, submitting, unsaved := [], None, [];
      new;
      storage.Take(Step.Open(tab));
      ghost var before := Value(Idle);
      SyncStorage(REFRESH);
      OpenShows(storage.state.heads, storage.state.receipts, before, Value(Idle));
    }

    /** `sync`, when the write before it did not fail. */
    method SyncStorage(ghost action: Action)
      requires At(SeeingReceipts(action)) && !unpersisted
      modifies this`entries, this`branches, this`conflict, storage`state, storage`steps
      ensures At(AfterSync(Value(Idle), action))
      ensures OnlyTab(tab, old(storage.state), storage.state)
      ensures storage.state.heads == old(storage.state.heads) && storage.state.log == old(storage.state.log)
      ensures storage.state.receipts == old(storage.state.receipts)
      ensures || Value(Idle) == old(Value(Idle))
              || exists read :: IsReading(storage.state.heads, AllFacts(storage.state.receipts), read)
                                && Value(Idle) == Synced(old(Value(Idle)), read)
    {
      var readable: bool := *;
      if readable { ReadHeads(action); } else { storage.Take(SeeNothing(tab)); }
    }

    method ReadHeads(ghost action: Action)
      requires At(SeeingReceipts(action))
      modifies this`entries, this`branches, this`conflict, storage`state, storage`steps
      ensures At(AfterSync(Value(Idle), action))
      ensures OnlyTab(tab, old(storage.state), storage.state)
      ensures storage.state.heads == old(storage.state.heads) && storage.state.log == old(storage.state.log)
      ensures storage.state.receipts == old(storage.state.receipts)
      ensures exists read :: IsReading(storage.state.heads, AllFacts(storage.state.receipts), read)
                             && Value(Idle) == Synced(old(Value(Idle)), read)
    {
      ghost var heads, receipts := storage.state.heads, storage.state.receipts;
      NoteReceipts(action);
      var read := storage.Read(heads, receipts);
      storage.Take(SeeHeads(tab, read));
      Adopt(read, heads, AllFacts(receipts));
    }

    ghost method NoteReceipts(action: Action)
      requires At(SeeingReceipts(action))
      modifies storage`state, storage`steps
      ensures At(SeeingHeads(action, AllFacts(storage.state.receipts)))
      ensures OnlyTab(tab, old(storage.state), storage.state)
      ensures storage.state.heads == old(storage.state.heads) && storage.state.log == old(storage.state.log)
      ensures storage.state.receipts == old(storage.state.receipts)
    {
      storage.Take(SeeReceipts(tab));
    }

    /** A call begins. */
    ghost method Ask(request: Request)
      requires Valid()
      modifies storage`state, storage`steps
      ensures At(Begun(Value(Idle), request))
      ensures OnlyTab(tab, old(storage.state), storage.state)
      ensures storage.state.heads == old(storage.state.heads) && storage.state.log == old(storage.state.log)
      ensures storage.state.receipts == old(storage.state.receipts)
    {
      storage.Take(Start(tab, request));
    }

    /** What `sync` does with the heads it read. */
    method Adopt(read: seq<Branch>, ghost heads: Heads, ghost facts: Facts)
      requires IsReading(heads, facts, read) && AllWritten(heads, branches)
      modifies this`entries, this`branches, this`conflict
      ensures Value(Idle) == Synced(old(Value(Idle)), read) && AllWritten(heads, branches)
    {
      ReadIsWritten(heads, facts, read, pendingReceipts);
      var seen := AllOwing(read, pendingReceipts);
      if seen == branches { return; }
      branches := seen;
      conflict := Differ(seen);
      if !conflict { entries := if seen == [] then [] else seen[0].entries; }
    }

    /** Another tab changed the storage. */
    method OnStorage()
      requires Valid()
      modifies this`entries, this`branches, this`conflict, storage`state, storage`steps
      ensures Valid() && OnlyTab(tab, old(storage.state), storage.state)
      ensures storage.state.heads == old(storage.state.heads) && storage.state.log == old(storage.state.log)
    {
      ghost var action := Action(Sync, entries, branches);
      Ask(Sync);
      if unpersisted { return; }
      SyncStorage(action);
    }

    method FlushReceipts(ghost action: Action) returns (flushed: bool)
      requires At(Flushing(action))
      modifies this`pendingReceipts, storage`receipts, storage`state, storage`steps
      ensures OnlyTab(tab, old(storage.state), storage.state)
      ensures storage.state.heads == old(storage.state.heads) && storage.state.log == old(storage.state.log)
      ensures flushed ==> At(if unpersisted then AfterSync(Value(Idle), action) else SeeingReceipts(action))
      ensures flushed ==> pendingReceipts == []
      ensures !flushed ==> Valid()
      ensures SentInOrder(old(pendingReceipts), pendingReceipts, old(storage.state.receipts), storage.state.receipts)
    {
      SentNone(pendingReceipts, storage.state.receipts);
      while pendingReceipts != []
        invariant At(Flushing(action)) && OnlyTab(tab, old(storage.state), storage.state)
        invariant storage.state.heads == old(storage.state.heads) && storage.state.log == old(storage.state.log)
        invariant SentInOrder(old(pendingReceipts), pendingReceipts, old(storage.state.receipts), storage.state.receipts)
        decreases |pendingReceipts|
      {
        SentOneMore(old(pendingReceipts), pendingReceipts, old(storage.state.receipts), storage.state.receipts);
        var stored := FlushFirst(action);
        if !stored { return false; }
      }
      FlushDone(action);
      return true;
    }

    /** A call that begins by flushing. */
    method AskFlushed(request: Request, ghost action: Action) returns (flushed: bool)
      requires Valid() && action == Action(request, entries, branches) && !request.Sync? && !request.Resolve?
      modifies this`pendingReceipts, storage`receipts, storage`state, storage`steps
      ensures OnlyTab(tab, old(storage.state), storage.state)
      ensures storage.state.heads == old(storage.state.heads) && storage.state.log == old(storage.state.log)
      ensures flushed ==> At(if unpersisted then AfterSync(Value(Idle), action) else SeeingReceipts(action))
      ensures flushed ==> pendingReceipts == []
      ensures !flushed ==> Valid()
    {
      Ask(request);
      flushed := FlushReceipts(action);
    }

    ghost method FlushDone(action: Action)
      requires At(Flushing(action)) && pendingReceipts == []
      modifies storage`state, storage`steps
      ensures At(if unpersisted then AfterSync(Value(Idle), action) else SeeingReceipts(action))
      ensures OnlyTab(tab, old(storage.state), storage.state)
      ensures storage.state.heads == old(storage.state.heads) && storage.state.log == old(storage.state.log)
      ensures storage.state.receipts == old(storage.state.receipts)
    {
      storage.Take(Flush(tab, true));
    }

    method FlushFirst(ghost action: Action) returns (stored: bool)
      requires At(Flushing(action)) && pendingReceipts != []
      modifies this`pendingReceipts, storage`receipts, storage`state, storage`steps
      ensures OnlyTab(tab, old(storage.state), storage.state)
      ensures storage.state.heads == old(storage.state.heads) && storage.state.log == old(storage.state.log)
      ensures At(if stored then Flushing(action) else Idle)
      ensures if stored
              then pendingReceipts == old(pendingReceipts)[1..]
                   && storage.state.receipts == old(storage.state.receipts) + {ReceiptOf(old(pendingReceipts)[0])}
              else pendingReceipts == old(pendingReceipts) && storage.state.receipts == old(storage.state.receipts)
    {
      stored := *;
      if stored {
        storage.Acknowledge(pendingReceipts[0], storage.state.heads, storage.state.receipts);
        storage.Take(Flush(tab, true));
        pendingReceipts := pendingReceipts[1..];
      } else {
        storage.Take(Flush(tab, false));
      }
    }

    /** `prepare` after the request is made; `false` when it throws. */
    method Prepare(request: Request, ghost action: Action) returns (ready: bool)
      requires Valid() && action == Action(request, entries, branches)
      requires request.Push? || request.Drop? || request.Clear? || request.Begin?
      modifies this`entries, this`branches, this`conflict, this`pendingReceipts
      modifies storage`receipts, storage`state, storage`steps
      ensures At(if ready then Acting(action) else Idle)
      ensures ready ==> !conflict
      ensures ready ==> Refreshed(storage.state.heads, storage.state.receipts, old(entries), entries)
      ensures OnlyTab(tab, old(storage.state), storage.state)
      ensures storage.state.heads == old(storage.state.heads) && storage.state.log == old(storage.state.log)
    {
      var flushed := AskFlushed(request, action);
      if !flushed { return false; }
      if !unpersisted { Refresh(action); }
      return !conflict;
    }

    method Refresh(ghost action: Action)
      requires At(SeeingReceipts(action)) && !unpersisted && pendingReceipts == []
      modifies this`entries, this`branches, this`conflict, storage`state, storage`steps
      ensures At(AfterSync(Value(Idle), action))
      ensures !conflict ==> Refreshed(storage.state.heads, storage.state.receipts, old(entries), entries)
      ensures OnlyTab(tab, old(storage.state), storage.state)
      ensures storage.state.heads == old(storage.state.heads) && storage.state.log == old(storage.state.log)
    {
      ghost var before := Value(Idle);
      SyncStorage(action);
      SyncedIsRefreshed(storage.state.heads, storage.state.receipts, before, Value(Idle));
    }

    /** `commit`, once the fields hold what the call is to write. */
    method Save(id: Id, ghost before: Tab, ghost action: Action)
      requires storage.Valid() && tab in storage.state.tabs && storage.state.tabs[tab] == before
      requires before.call == Acting(action) && Writes(action.request) && !Refused(before)
      requires Value(Idle) == before.(entries := entries, branches := branches, call := Idle)
      requires (entries, branches) == Planned(before, action)
      requires AllWritten(storage.state.heads, branches) && Fresh(storage.state.heads, id)
      modifies this`entries, this`branches, this`conflict, this`unpersisted, this`unsaved
      modifies storage`heads, storage`state, storage`steps
      ensures Valid() && OnlyTab(tab, old(storage.state), storage.state)
      ensures Records(old(storage.state.log), old(unsaved), EventsOf(before, action))
      ensures Wrote(old(storage.state.heads), id, old(entries))
      ensures unpersisted ==> branches == old(branches)
      ensures !unpersisted ==> storage.state.heads.written[|old(storage.state.heads.written)|].parents == Ids(old(branches))
    {
      var stored: bool := *;
      if !stored {
        unpersisted := true;
        unsaved := unsaved + EventsOf(before, action);
        storage.Take(CommitFails(tab));
        return;
      }
      SaveStored(id, before, action);
      SyncStorage(REFRESH);
    }

    /** The same, when what is written is what is left of a draft. */
    method SaveLeft(id: Id, ghost before: Tab, ghost action: Action, ghost current: seq<Entry>, ghost gone: set<Entry>)
      requires storage.Valid() && tab in storage.state.tabs && storage.state.tabs[tab] == before
      requires before.call == Acting(action) && Writes(action.request) && !Refused(before)
      requires Value(Idle) == before.(entries := entries, branches := branches, call := Idle)
      requires (entries, branches) == Planned(before, action)
      requires AllWritten(storage.state.heads, branches) && Fresh(storage.state.heads, id)
      requires Leaves(current, gone, entries)
      modifies this`entries, this`branches, this`conflict, this`unpersisted, this`unsaved
      modifies storage`heads, storage`state, storage`steps
      ensures Valid() && OnlyTab(tab, old(storage.state), storage.state)
      ensures Records(old(storage.state.log), old(unsaved), EventsOf(before, action))
      ensures WroteLeft(old(storage.state.heads), id, current, gone)
    {
      Save(id, before, action);
      assert Wrote(old(storage.state.heads), id, old(entries));
    }

    /** `write`: the branch is published, then its parents are removed. */
    method SaveStored(id: Id, ghost before: Tab, ghost action: Action)
      requires storage.Valid() && tab in storage.state.tabs && storage.state.tabs[tab] == before
      requires before.call == Acting(action) && Writes(action.request) && !Refused(before)
      requires Value(Idle) == before.(entries := entries, branches := branches, call := Idle)
      requires (entries, branches) == Planned(before, action)
      requires AllWritten(storage.state.heads, branches) && Fresh(storage.state.heads, id)
      modifies this`unpersisted, this`unsaved
      modifies storage`heads, storage`state, storage`steps
      ensures At(SeeingReceipts(REFRESH)) && !unpersisted && unsaved == []
      ensures OnlyTab(tab, old(storage.state), storage.state)
      ensures storage.state.log == old(storage.state.log) + old(unsaved) + EventsOf(before, action)
      ensures storage.state.heads.written == old(storage.state.heads.written) + [Branch(id, Ids(branches), entries)]
    {
      ghost var heads, receipts := storage.state.heads, storage.state.receipts;
      var parents := Ids(branches);
      FreshIsNoParent(heads, branches, id);
      storage.Write(entries, parents, id, heads, receipts);
      unpersisted := false;
      unsaved := [];
      storage.Take(Commit(tab, id));
      assert storage.state.heads == Publish(heads, Branch(id, parents, entries));
      StillWritten(heads, storage.state.heads, branches);
      RemoveAllKeeps(storage.state.heads, parents);
      RemoveParents(parents);
    }

    /** The steps in which `write` removed the parents, one at a time. */
    ghost method RemoveParents(parents: seq<Id>)
      requires Reaches(storage.steps, storage.state)
      requires tab in storage.state.tabs && storage.state.tabs[tab] == Value(Removing(parents))
      requires storage.Holds(RemoveAll(storage.state.heads, parents), storage.state.receipts)
      requires AllWritten(storage.state.heads, branches)
      modifies storage`state, storage`steps
      ensures At(SeeingReceipts(REFRESH)) && OnlyTab(tab, old(storage.state), storage.state)
      ensures storage.state.heads == RemoveAll(old(storage.state.heads), parents)
      ensures storage.state.log == old(storage.state.log)
      decreases |parents|
    {
      if parents == [] {
        storage.Take(RemoveParent(tab));
      } else {
        RemoveFirst(storage.state.heads, parents);
        storage.Take(RemoveParent(tab));
        RemoveParents(parents[1..]);
      }
    }

    /** Returns `false` when `prepare` throws. */
    method Push(op: Op, nonce: string, editId: string, id: Id) returns (pushed: bool)
      requires Valid() && Fresh(storage.state.heads, id)
      modifies this, storage
      ensures Valid() && OnlyTab(tab, old(storage.state), storage.state)
      ensures pushed ==> Records(old(storage.state.log), old(unsaved), [PushedOver(KeyOf(op, nonce), old(entries))])
      ensures pushed ==>
                exists current ::
                  && Refreshed(old(storage.state.heads), storage.state.receipts, old(entries), current)
                  && Wrote(old(storage.state.heads), id, PushedOn(old(entries), current, op, KeyOf(op, nonce), editId))
      ensures !pushed ==> unpersisted == old(unpersisted) && unsaved == old(unsaved)
      ensures !pushed ==> storage.state.heads == old(storage.state.heads) && storage.state.log == old(storage.state.log)
    {
      var baseEntries, baseBranches := entries, branches;
      var key := KeyOf(op, nonce);
      ghost var action := Action(Request.Push(op, nonce, editId), entries, branches);
      var ready := Prepare(Request.Push(op, nonce, editId), action);
      if !ready { return false; }
      ghost var current := entries;
      PushReady(op, key, editId, id, baseEntries, baseBranches, action);
      assert Wrote(old(storage.state.heads), id, PushedOn(baseEntries, current, op, key, editId));
      return true;
    }

    /** The rest of a push, after `prepare`. */
    method PushReady(op: Op, key: Key, editId: string, id: Id, baseEntries: seq<Entry>, baseBranches: seq<Branch>,
                     ghost action: Action)
      requires At(Acting(action)) && Fresh(storage.state.heads, id) && AllWritten(storage.state.heads, baseBranches)
      requires exists nonce :: key == KeyOf(op, nonce)
                               && action == Action(Request.Push(op, nonce, editId), baseEntries, baseBranches)
      modifies this`entries, this`branches, this`conflict, this`unpersisted, this`unsaved
      modifies storage`heads, storage`state, storage`steps
      ensures Valid() && OnlyTab(tab, old(storage.state), storage.state)
      ensures Records(old(storage.state.log), old(unsaved), [PushedOver(key, baseEntries)])
      ensures Wrote(old(storage.state.heads), id, PushedOn(baseEntries, old(entries), op, key, editId))
    {
      ghost var before := Value(Acting(action));
      if EditOf(baseEntries, key) != EditOf(entries, key) {
        entries := baseEntries;
        branches := baseBranches;
      }
      PutEntry(op, key, editId);
      Save(id, before, action);
    }

    /** Only the fields the panel changed are carried into the pending body of the draft. */
    method PushIngress(target: seq<string>, base: Body, next: Body, editId: string, id: Id) returns (pushed: bool)
      requires Valid() && Fresh(storage.state.heads, id)
      modifies this, storage
      ensures Valid() && OnlyTab(tab, old(storage.state), storage.state)
      ensures pushed ==> Records(old(storage.state.log), old(unsaved), [PushedOver(Key(IngressScope, target), old(entries))])
      ensures pushed ==>
                exists current ::
                  var key := Key(IngressScope, target);
                  && Refreshed(old(storage.state.heads), storage.state.receipts, old(entries), current)
                  && Wrote(old(storage.state.heads), id,
                           PushedOn(old(entries), current, IngressOp(OpAt(old(entries), key), target, base, next), key, editId))
      ensures !pushed ==> unpersisted == old(unpersisted) && unsaved == old(unsaved)
      ensures !pushed ==> storage.state.heads == old(storage.state.heads) && storage.state.log == old(storage.state.log)
    {
      var key := Key(IngressScope, target);
      var op := MakeIngressOp(OpAt(entries, key), target, base, next);
      assert KeyOf(op, "") == key;
      pushed := Push(op, "", editId, id);
    }

    static method MakeIngressOp(previous: Option<Op>, target: seq<string>, base: Body, next: Body) returns (op: Op)
      ensures op == IngressOp(previous, target, base, next)
    {
      var ingress := next;
      if previous.Some? {
        var isIngress := previous.value.kind == UpsertIngress || previous.value.kind == CreateIngress;
        var merged := MergeInPlace(Rec(base), Rec(next), Rec(if isIngress then previous.value.body else next));
        if merged.Rec? { ingress := merged.fields; }
      }
      op := if previous.Some? && previous.value.kind == CreateIngress
            then Op(CreateIngress, target, ingress)
            else Op(UpsertIngress, target, ingress);
    }

    /** Repeated edits keep their place; what depends on everything before it moves to the end. */
    method PutEntry(op: Op, key: Key, editId: string)
      modifies this`entries
      ensures entries == PushEntries(old(entries), op, key, editId)
    {
      var at := IndexOf(entries, key);
      var put := op;
      if at >= 0 {
        var previous := entries[at].op;
        if previous.kind == CreateApp && op.kind == UpsertApp {
          put := Op(CreateApp, op.target, op.body);
        } else if previous.kind == CreateChain && op.kind == UpsertChain {
          put := Op(CreateChain, op.target, op.body);
        } else if previous.kind == CreateIngress && op.kind == UpsertIngress {
          put := Op(CreateIngress, op.target, op.body);
        } else if previous.kind == PutStep && op.kind == PutStep {
          put := Op(PutStep, op.target, previous.body + op.body);
        } else if previous.kind == UpdateNode && op.kind == UpdateNode {
          put := Op(UpdateNode, op.target, previous.body + op.body);
        }
      }
      var entry := Entry(key, editId, put);
      if at >= 0 && op.kind != DeleteExternalOutbound && op.kind != PruneChain && op.kind != ReorderNodeEgressDns
        && op.kind != ReorderApps && op.kind != ReorderChains {
        entries := entries[at := entry];
      } else {
        if at >= 0 { entries := entries[..at] + entries[at + 1..]; }
        entries := entries + [entry];
      }
    }

    method Drop(key: Key, id: Id) returns (dropped: bool)
      requires Valid() && Fresh(storage.state.heads, id)
      modifies this, storage
      ensures Valid() && OnlyTab(tab, old(storage.state), storage.state)
      ensures dropped ==> Records(old(storage.state.log), old(unsaved), [Dropped(key, old(entries))])
      ensures dropped ==>
                exists current ::
                  && Refreshed(old(storage.state.heads), storage.state.receipts, old(entries), current)
                  && WroteLeft(old(storage.state.heads), id, current, DisplayedOf(current, old(entries), key))
      ensures !dropped ==> unpersisted == old(unpersisted) && unsaved == old(unsaved)
      ensures !dropped ==> storage.state.heads == old(storage.state.heads) && storage.state.log == old(storage.state.log)
    {
      var shown := EditOf(entries, key);
      ghost var action := Action(Request.Drop(key), entries, branches);
      var ready := Prepare(Request.Drop(key), action);
      if !ready { return false; }
      DropReady(key, shown, id, action);
      return true;
    }

    /** The rest of a drop, after `prepare`. */
    method DropReady(key: Key, shown: Option<string>, id: Id, ghost action: Action)
      requires At(Acting(action)) && Fresh(storage.state.heads, id)
      requires action.request == Request.Drop(key) && shown == EditOf(action.shown, key)
      modifies this`entries, this`branches, this`conflict, this`unpersisted, this`unsaved
      modifies storage`heads, storage`state, storage`steps
      ensures Valid() && OnlyTab(tab, old(storage.state), storage.state)
      ensures Records(old(storage.state.log), old(unsaved), [Dropped(key, action.shown)])
      ensures WroteLeft(old(storage.state.heads), id, old(entries), DisplayedOf(old(entries), action.shown, key))
    {
      ghost var before, gone := Value(Acting(action)), DisplayedOf(entries, action.shown, key);
      DropLeaves(entries, key, shown, gone);
      entries := DropEntry(entries, key, shown);
      SaveLeft(id, before, action, old(entries), gone);
    }

    method Clear(id: Id) returns (cleared: bool)
      requires Valid() && Fresh(storage.state.heads, id)
      modifies this, storage
      ensures Valid() && OnlyTab(tab, old(storage.state), storage.state)
      ensures cleared ==> Records(old(storage.state.log), old(unsaved), [Cleared(old(entries))])
      ensures cleared ==>
                exists current ::
                  && Refreshed(old(storage.state.heads), storage.state.receipts, old(entries), current)
                  && WroteLeft(old(storage.state.heads), id, current, Displayed(current, old(entries)))
      ensures !cleared ==> unpersisted == old(unpersisted) && unsaved == old(unsaved)
      ensures !cleared ==> storage.state.heads == old(storage.state.heads) && storage.state.log == old(storage.state.log)
    {
      var shown := EditIds(entries);
      ghost var action := Action(Request.Clear, entries, branches);
      var ready := Prepare(Request.Clear, action);
      if !ready { return false; }
      ClearReady(shown, id, action);
      return true;
    }

    /** The rest of a clear, after `prepare`. */
    method ClearReady(shown: set<string>, id: Id, ghost action: Action)
      requires At(Acting(action)) && Fresh(storage.state.heads, id)
      requires action.request == Request.Clear && shown == EditIds(action.shown)
      modifies this`entries, this`branches, this`conflict, this`unpersisted, this`unsaved
      modifies storage`heads, storage`state, storage`steps
      ensures Valid() && OnlyTab(tab, old(storage.state), storage.state)
      ensures Records(old(storage.state.log), old(unsaved), [Cleared(action.shown)])
      ensures WroteLeft(old(storage.state.heads), id, old(entries), Displayed(old(entries), action.shown))
    {
      ghost var before, gone := Value(Acting(action)), Displayed(entries, action.shown);
      ClearLeaves(entries, action.shown, gone);
      entries := ClearEntries(entries, shown);
      SaveLeft(id, before, action, old(entries), gone);
    }

    method LookAgain(choice: Id, ghost action: Action)
      requires Valid() && action == Action(Request.Resolve(choice), entries, branches)
      modifies this`entries, this`branches, this`conflict, storage`state, storage`steps
      ensures At(Acting(action)) && OnlyTab(tab, old(storage.state), storage.state)
      ensures storage.state.heads == old(storage.state.heads) && storage.state.log == old(storage.state.log)
    {
      Ask(Request.Resolve(choice));
      if !unpersisted { SyncStorage(action); }
    }

    /** Returns `false` when the chosen version is no longer there. */
    method ResolveConflict(choice: Id, id: Id) returns (resolved: bool)
      requires Valid() && Fresh(storage.state.heads, id)
      modifies this, storage
      ensures Valid() && OnlyTab(tab, old(storage.state), storage.state)
      ensures !resolved ==> unpersisted == old(unpersisted) && unsaved == old(unsaved)
      ensures !resolved ==> storage.state.heads == old(storage.state.heads) && storage.state.log == old(storage.state.log)
      ensures resolved ==>
                exists seen: seq<Branch>, i: int ::
                  && IsOffered(seen, i, choice) && Wrote(old(storage.state.heads), id, seen[i].entries)
                  && Records(old(storage.state.log), old(unsaved), [Resolved(seen, choice)])
    {
      ghost var action := Action(Request.Resolve(choice), entries, branches);
      LookAgain(choice, action);
      ghost var before := Value(Acting(action));
      if !Offers(branches, choice) {
        storage.Take(Act(tab));
        return false;
      }
      ghost var seen, heads := branches, storage.state.heads;
      entries := Chosen(branches, choice);
      Save(id, before, action);
      ghost var i := OfferedAt(seen, choice);
      assert IsOffered(seen, i, choice) && Wrote(heads, id, seen[i].entries);
      return true;
    }

    /** Returns `false` when a receipt still cannot be stored. */
    method RetryPersistence(id: Id) returns (retried: bool)
      requires Valid() && Fresh(storage.state.heads, id)
      modifies this, storage
      ensures Valid() && OnlyTab(tab, old(storage.state), storage.state)
      ensures !old(unpersisted) || !retried ==>
                storage.state.heads == old(storage.state.heads) && storage.state.log == old(storage.state.log)
      ensures old(unpersisted) && retried ==>
                Records(old(storage.state.log), old(unsaved), []) && Wrote(old(storage.state.heads), id, old(entries))
      ensures old(unpersisted) && retried && !unpersisted ==>
                storage.state.heads.written[|old(storage.state.heads.written)|].parents == Ids(old(branches))
    {
      ghost var action := Action(Retry, entries, branches);
      var flushed := AskFlushed(Retry, action);
      if !flushed { return false; }
      if unpersisted {
        ghost var before := Value(Acting(action));
        Save(id, before, action);
      } else {
        SyncStorage(action);
      }
      return true;
    }

    /** `None` when `prepare` throws, the draft is not the one reviewed, or a submission is under way. */
    method BeginSubmission() returns (batch: Option<seq<Entry>>)
      requires Valid()
      modifies this, storage
      ensures Valid() && OnlyTab(tab, old(storage.state), storage.state)
      ensures storage.state.heads == old(storage.state.heads) && storage.state.log == old(storage.state.log)
      ensures batch.Some? ==> batch == submitting == Some(old(entries)) && entries == old(entries) && old(submitting).None?
      ensures batch.None? ==> submitting == old(submitting)
    {
      var reviewed := entries;
      ghost var action := Action(Begin, entries, branches);
      var ready := Prepare(Begin, action);
      if !ready { return None; }
      storage.Take(Act(tab));
      if entries != reviewed || submitting.Some? { return None; }
      submitting := Some(entries);
      return submitting;
    }

    method FinishSubmission(batch: seq<Entry>, succeeded: bool)
      requires Valid() && submitting == Some(batch)
      modifies this, storage
      ensures Valid() && OnlyTab(tab, old(storage.state), storage.state) && submitting.None?
      ensures storage.state.heads == old(storage.state.heads)
      ensures storage.state.log == old(storage.state.log) + (if succeeded then [Event.Submitted(batch)] else [])
      ensures !succeeded ==> Value(Idle) == old(Value(Idle)).(submitting := None)
                             && storage.state.receipts == old(storage.state.receipts)
      ensures succeeded ==> Recorded(batch, old(pendingReceipts), pendingReceipts,
                                     old(storage.state.receipts), storage.state.receipts)
      ensures succeeded && unpersisted ==> entries == AfterSubmission(old(entries), ReceiptOf(batch))
    {
      if !succeeded {
        storage.Take(Finish(tab, false, false));
        submitting := None;
        return;
      }
      RecordSubmission(batch);
      if !unpersisted { SyncStorage(REFRESH); }
    }

    method RecordSubmission(batch: seq<Entry>)
      requires Valid() && submitting == Some(batch)
      modifies this`pendingReceipts, this`entries, this`submitting
      modifies storage`receipts, storage`state, storage`steps
      ensures At(if unpersisted then Idle else SeeingReceipts(REFRESH)) && submitting.None?
      ensures OnlyTab(tab, old(storage.state), storage.state)
      ensures storage.state.heads == old(storage.state.heads)
      ensures storage.state.log == old(storage.state.log) + [Event.Submitted(batch)]
      ensures Recorded(batch, old(pendingReceipts), pendingReceipts, old(storage.state.receipts), storage.state.receipts)
      ensures entries == AfterSubmission(old(entries), ReceiptOf(batch))
    {
      var stored: bool := *;
      if stored {
        storage.Acknowledge(batch, storage.state.heads, storage.state.receipts);
        storage.Take(Finish(tab, true, true));
      } else {
        storage.Take(Finish(tab, true, false));
        pendingReceipts := pendingReceipts + [batch];
      }
      entries := AfterSubmission(entries, ReceiptOf(batch));
      submitting := None;
    }
  }

  /** The batch is a stored receipt, or the last of those owed. */
  ghost predicate Recorded(batch: seq<Entry>, owed: seq<seq<Entry>>, now: seq<seq<Entry>>,
                           before: set<Receipt>, after: set<Receipt>) {
    || (now == owed && after == before + {ReceiptOf(batch)})
    || (now == owed + [batch] && after == before)
  }

  /** The first of the owed batches are stored receipts, the others are owed still. */
  ghost predicate SentInOrder(owed: seq<seq<Entry>>, left: seq<seq<Entry>>, before: set<Receipt>, after: set<Receipt>) {
    |left| <= |owed| &&
    var n := |owed| - |left|;
    left == owed[n..] && after == before + set i | 0 <= i < n :: ReceiptOf(owed[i])
  }

  lemma SentNone(owed: seq<seq<Entry>>, receipts: set<Receipt>)
    ensures SentInOrder(owed, owed, receipts, receipts)
  {
    assert owed[0..] == owed;
    assert receipts + {} == receipts;
  }

  lemma SentOneMore(owed: seq<seq<Entry>>, left: seq<seq<Entry>>, before: set<Receipt>, after: set<Receipt>)
    requires SentInOrder(owed, left, before, after) && left != []
    ensures SentInOrder(owed, left[1..], before, after + {ReceiptOf(left[0])})
  {
    var n := |owed| - |left|;
    assert owed[n] == left[0];
    assert (set i | 0 <= i < n + 1 :: ReceiptOf(owed[i])) == (set i | 0 <= i < n :: ReceiptOf(owed[i])) + {ReceiptOf(owed[n])};
  }

  /** What a new tab shows: a reading of the heads, its conflict if it has one, or nothing when reading failed. */
  ghost predicate Shows(heads: Heads, receipts: set<Receipt>, entries: seq<Entry>, branches: seq<Branch>, conflict: bool) {
    (entries == [] && branches == [] && !conflict) ||
    (IsReading(heads, AllFacts(receipts), branches) && conflict == Differ(branches)
     && entries == if branches == [] || conflict then [] else branches[0].entries)
  }

  lemma OpenShows(heads: Heads, receipts: set<Receipt>, before: Tab, after: Tab)
    requires before.entries == [] && before.branches == [] && !before.conflict && before.owed == []
    requires after == before || exists read :: IsReading(heads, AllFacts(receipts), read) && after == Synced(before, read)
    ensures Shows(heads, receipts, after.entries, after.branches, after.conflict)
  {
    if after != before {
      var read :| IsReading(heads, AllFacts(receipts), read) && after == Synced(before, read);
      NothingOwed(read);
    }
  }

  /** The entries of this key that are the displayed edit. */
  ghost function DisplayedOf(current: seq<Entry>, shown: seq<Entry>, key: Key): set<Entry> {
    set e | e in current && e.key == key && EditOf(shown, key) == Some(e.editId)
  }

  /** The entries that are displayed edits. */
  ghost function Displayed(current: seq<Entry>, shown: seq<Entry>): set<Entry> {
    set e | e in current && exists x :: x in shown && x.editId == e.editId
  }

  /** What a tab without a conflict shows after `prepare`: what it showed before, or the draft just read. */
  ghost predicate Refreshed(heads: Heads, receipts: set<Receipt>, before: seq<Entry>, after: seq<Entry>) {
    after == before ||
    exists read: seq<Branch> :: IsReading(heads, AllFacts(receipts), read) && !Differ(read)
                   && after == if read == [] then [] else read[0].entries
  }

  lemma NothingOwed(read: seq<Branch>)
    ensures AllOwing(read, []) == read
  {
    assert OwedReceipts([]) == [];
    forall i | 0 <= i < |read| ensures Owing(read[i], []) == read[i] {
      assert AfterAll(read[i].entries, []) == read[i].entries;
    }
  }

  lemma SyncedIsRefreshed(heads: Heads, receipts: set<Receipt>, before: Tab, after: Tab)
    requires before.owed == []
    requires after == before || exists read :: IsReading(heads, AllFacts(receipts), read) && after == Synced(before, read)
    ensures !after.conflict ==> Refreshed(heads, receipts, before.entries, after.entries)
  {
    if after != before {
      var read :| IsReading(heads, AllFacts(receipts), read) && after == Synced(before, read);
      NothingOwed(read);
    }
  }

  /** The entries a push writes: on top of the current draft, or of what was displayed if its target
      changed. */
  function PushedOn(shown: seq<Entry>, current: seq<Entry>, op: Op, key: Key, editId: string): seq<Entry> {
    PushEntries(if EditOf(shown, key) == EditOf(current, key) then current else shown, op, key, editId)
  }

  /** The operation the draft holds for a key. */
  function OpAt(entries: seq<Entry>, key: Key): (op: Option<Op>)
    ensures op.None? <==> forall e | e in entries :: e.key != key
    ensures op.Some? ==> exists e :: e in entries && e.key == key && op == Some(e.op)
  {
    var at := IndexOf(entries, key);
    if at >= 0 then Some(entries[at].op) else None
  }
}
