/** The one way a run loses an edit for no allowed reason: a push from a tab that shows a
  conflict. Three tabs, no failures.

  Tab 1 writes `x`, then `y`, and is slow to remove the parent of its second write. Tab 2 adds
  `z` on top, so the forgotten parent is read next to the newest head and tab 0 shows a conflict
  between them. Tab 1 finishes; the conflict is gone. Tab 0 now pushes an edit of the target of
  `x`, which it never displayed: the write goes over the empty draft on display, and replaces
  both versions of the conflict - `y` and `z` are in no head any more. */
module DraftLostEdit {
  import opened Wrappers
  import opened DraftModel
  import opened Receipts
  import opened DraftHeads
  import opened DraftProtocol

  ghost predicate Reachable(s: State) {
    exists steps :: Reaches(steps, s)
  }

  lemma Reach(s: State, step: Step)
    requires Reachable(s) && Enabled(s, step)
    ensures Reachable(Do(s, step))
  {
    var steps :| Reaches(steps, s);
    ReachesOn(steps, s, step);
  }

  const NO_FACTS := Facts({}, {})

  /** A healthy read while no receipts are stored. */
  lemma Reads(s: State, t: nat, read: seq<Branch>)
    requires Reachable(s) && s.receipts == {} && t in s.tabs && s.tabs[t].call.SeeingReceipts?
    requires IsReading(s.heads, NO_FACTS, read)
    ensures var tab := Synced(s.tabs[t], read);
            Reachable(SetTab(s, t, tab.(call := AfterSync(tab, s.tabs[t].call.action))))
  {
    var action := s.tabs[t].call.action;
    Reach(s, SeeReceipts(t));
    assert AllFacts(s.receipts) == NO_FACTS;
    var seeing := s.tabs[t].(call := SeeingHeads(action, NO_FACTS));
    var s1 := SetTab(s, t, seeing);
    assert Do(s, SeeReceipts(t)) == s1;
    Reach(s1, SeeHeads(t, read));
    SeesHeads(s, t, seeing, read);
  }

  lemma SeesHeads(s: State, t: nat, seeing: Tab, read: seq<Branch>)
    requires t in s.tabs && seeing.call.SeeingHeads? && seeing == s.tabs[t].(call := seeing.call)
    requires Enabled(SetTab(s, t, seeing), SeeHeads(t, read))
    ensures var tab := Synced(s.tabs[t], read);
            Do(SetTab(s, t, seeing), SeeHeads(t, read)) ==
            SetTab(s, t, tab.(call := AfterSync(tab, seeing.call.action)))
  {
    var tab, after := Synced(s.tabs[t], read), Synced(seeing, read);
    assert after == tab.(call := seeing.call);
    assert AfterSync(after, seeing.call.action) == AfterSync(tab, seeing.call.action);
  }

  lemma Opens(s: State, t: nat, read: seq<Branch>)
    requires Reachable(s) && s.receipts == {} && t !in s.tabs && IsReading(s.heads, NO_FACTS, read)
    ensures Reachable(SetTab(s, t, Synced(NEW_TAB, read).(call := Idle)))
  {
    Reach(s, Open(t));
    var s1 := SetTab(s, t, NEW_TAB);
    Reads(s1, t, read);
    assert SetTab(s1, t, Synced(NEW_TAB, read).(call := Idle)) == SetTab(s, t, Synced(NEW_TAB, read).(call := Idle));
  }

  lemma Syncs(s: State, t: nat, read: seq<Branch>)
    requires Reachable(s) && s.receipts == {} && t in s.tabs && s.tabs[t].call == Idle && !s.tabs[t].unpersisted
    requires IsReading(s.heads, NO_FACTS, read)
    ensures Reachable(SetTab(s, t, Synced(s.tabs[t], read).(call := Idle)))
  {
    Reach(s, Start(t, Sync));
    var s1 := Do(s, Start(t, Sync));
    Reads(s1, t, read);
    var tab := Synced(s1.tabs[t], read);
    assert SetTab(s1, t, tab.(call := Idle)) == SetTab(s, t, Synced(s.tabs[t], read).(call := Idle));
  }

  /** An idle tab after a whole push, up to the publication of its branch. */
  function AfterPush(s: State, t: nat, op: Op, editId: string, read: seq<Branch>, id: Id): State
    requires t in s.tabs
  {
    var action := Action(Push(op, "", editId), s.tabs[t].entries, s.tabs[t].branches);
    var tab := Synced(s.tabs[t], read);
    var (entries, parents) := Planned(tab, action);
    State(Publish(s.heads, Branch(id, Ids(parents), entries)), s.receipts,
          s.tabs[t := tab.(entries := entries, branches := parents, unpersisted := false, unsaved := [],
                           call := Removing(Ids(parents)))],
          s.log + tab.unsaved + EventsOf(tab, action))
  }

  /** From the click to the point where the tab is about to write. */
  lemma Prepares(s: State, t: nat, request: Request, read: seq<Branch>)
    requires Reachable(s) && s.receipts == {} && t in s.tabs && request.Push?
    requires s.tabs[t].call == Idle && !s.tabs[t].unpersisted && s.tabs[t].owed == []
    requires IsReading(s.heads, NO_FACTS, read) && !Synced(s.tabs[t], read).conflict
    ensures var action := Action(request, s.tabs[t].entries, s.tabs[t].branches);
            Reachable(SetTab(s, t, Synced(s.tabs[t], read).(call := Acting(action))))
  {
    var action := Action(request, s.tabs[t].entries, s.tabs[t].branches);
    Reach(s, Start(t, request));
    var s1 := SetTab(s, t, s.tabs[t].(call := Flushing(action)));
    assert s1 == Do(s, Start(t, request));
    Reach(s1, Flush(t, true));
    var s2 := SetTab(s, t, s.tabs[t].(call := SeeingReceipts(action)));
    assert s2 == Do(s1, Flush(t, true));
    Reads(s2, t, read);
    var tab := Synced(s.tabs[t], read).(call := Acting(action));
    assert SetTab(s2, t, tab) == SetTab(s, t, tab);
  }

  lemma Pushes(s: State, t: nat, op: Op, editId: string, read: seq<Branch>, id: Id)
    requires Reachable(s) && s.receipts == {} && t in s.tabs
    requires s.tabs[t].call == Idle && !s.tabs[t].unpersisted && s.tabs[t].owed == []
    requires IsReading(s.heads, NO_FACTS, read) && !Synced(s.tabs[t], read).conflict && Fresh(s.heads, id)
    ensures Reachable(AfterPush(s, t, op, editId, read, id))
  {
    Prepares(s, t, Push(op, "", editId), read);
    var action := Action(Push(op, "", editId), s.tabs[t].entries, s.tabs[t].branches);
    var s1 := SetTab(s, t, Synced(s.tabs[t], read).(call := Acting(action)));
    Reach(s1, Commit(t, id));
    Committed(s, t, Synced(s.tabs[t], read), action, id);
  }

  /** The same publication, seen from before the call. */
  lemma Committed(s: State, t: nat, tab: Tab, action: Action, id: Id)
    requires t in s.tabs && Writes(action.request) && !action.request.Resolve? && Fresh(s.heads, id)
    ensures var (entries, parents) := Planned(tab, action);
            Do(SetTab(s, t, tab.(call := Acting(action))), Commit(t, id)) ==
            State(Publish(s.heads, Branch(id, Ids(parents), entries)), s.receipts,
                  s.tabs[t := tab.(entries := entries, branches := parents, unpersisted := false, unsaved := [],
                                   call := Removing(Ids(parents)))],
                  s.log + tab.unsaved + EventsOf(tab, action))
  {
    var acting := tab.(call := Acting(action));
    assert Planned(acting, action) == Planned(tab, action);
    assert s.tabs[t := acting][t := acting] == s.tabs[t := acting];
  }

  // ----- the branches of the run, and what a read of each stage returns

  const OP_X := Op(UpdateNode, ["n"], map[])
  const OP_Y := Op(UpdateNode, ["m"], map[])
  const OP_Z := Op(UpdateNode, ["o"], map[])
  const X := Entry(Key(NodeScope, ["n"]), "x", OP_X)
  const Y := Entry(Key(NodeScope, ["m"]), "y", OP_Y)
  const Z := Entry(Key(NodeScope, ["o"]), "z", OP_Z)
  const T := Entry(Key(NodeScope, ["n"]), "t", OP_X)
  const B1 := Branch("1", [], [X])
  const B2 := Branch("2", ["1"], [X, Y])
  const B3 := Branch("3", ["2"], [X, Y, Z])
  const B4 := Branch("4", ["1", "3"], [T])
  const H1 := Heads([B1], {})
  const H2 := Heads([B1, B2], {})
  const H3 := Heads([B1, B2, B3], {"2"})
  const H4 := Heads([B1, B2, B3], {"2", "1"})
  const H5 := Heads([B1, B2, B3, B4], {"2", "1"})

  lemma ReadingOf(heads: Heads, live: seq<nat>, read: seq<Branch>)
    requires |read| == |live| && forall k | 0 <= k < |live| :: live[k] < |heads.written| && heads.written[live[k]] == read[k]
    requires forall i :: Live(heads, i) <==> i in live
    requires forall k, l | 0 <= k < l < |read| :: read[k].id != read[l].id
    ensures IsReading(heads, NO_FACTS, read)
  {
    forall i | 0 <= i < |heads.written| ensures Settled(heads.written[i], NO_FACTS) == heads.written[i] {
      NothingSubmitted(heads.written[i].entries);
    }
    forall k | 0 <= k < |read| ensures Returns(heads, NO_FACTS, read[k]) {
      var i: int := live[k];
      assert i in live;
      assert Live(heads, i) && Settled(heads.written[i], NO_FACTS) == read[k];
    }
    forall i | Live(heads, i) ensures Settled(heads.written[i], NO_FACTS) in read {
      var k :| 0 <= k < |live| && live[k] == i;
      assert read[k] == heads.written[i];
    }
  }

  lemma ReadH1()
    ensures IsReading(H1, NO_FACTS, [B1]) && Fresh(H1, "2")
  {
    assert Live(H1, 0);
    ReadingOf(H1, [0], [B1]);
  }

  lemma ReadH2()
    ensures IsReading(H2, NO_FACTS, [B2]) && Fresh(H2, "3")
  {
    assert Names(H2, 1, "1");
    assert Live(H2, 1) && !Live(H2, 0);
    ReadingOf(H2, [1], [B2]);
  }

  lemma ReadH3()
    ensures IsReading(H3, NO_FACTS, [B1, B3])
  {
    assert Live(H3, 0) && Live(H3, 2) && !Live(H3, 1);
    ReadingOf(H3, [0, 2], [B1, B3]);
  }

  lemma ReadH4()
    ensures IsReading(H4, NO_FACTS, [B3]) && Fresh(H4, "4")
  {
    assert Live(H4, 2) && !Live(H4, 0) && !Live(H4, 1);
    ReadingOf(H4, [2], [B3]);
  }

  lemma Writes4()
    ensures PushEntries([], OP_X, X.key, "x") == [X]
    ensures PushEntries([X], OP_Y, Y.key, "y") == [X, Y]
    ensures PushEntries([X, Y], OP_Z, Z.key, "z") == [X, Y, Z]
    ensures PushEntries([], OP_X, X.key, "t") == [T]
    ensures EditOf([], X.key) == None && EditOf([X, Y, Z], X.key) == Some("x")
  {
    assert IndexOf([X], Y.key) == -1;
    assert IndexOf([X, Y], Z.key) == -1;
    assert IndexOf([X, Y, Z], X.key) == 0;
  }

  // ----- the run

  function IdleTab(entries: seq<Entry>, branches: seq<Branch>, conflict: bool): Tab {
    Tab(entries, branches, conflict, false, [], None, [], Idle)
  }

  function BusyTab(entries: seq<Entry>, branches: seq<Branch>, parents: seq<Id>): Tab {
    Tab(entries, branches, false, false, [], None, [], Removing(parents))
  }

  const NO_TAB := IdleTab([], [], false)
  const LOG1 := [PushedOver(X.key, [])]
  const LOG2 := [PushedOver(X.key, []), PushedOver(Y.key, [X])]
  const LOG3 := [PushedOver(X.key, []), PushedOver(Y.key, [X]), PushedOver(Z.key, [X, Y])]
  const LOG4 := [PushedOver(X.key, []), PushedOver(Y.key, [X]), PushedOver(Z.key, [X, Y]), PushedOver(X.key, [])]

  function S0(): State { State(Heads([], {}), {}, map[0 := NO_TAB, 1 := NO_TAB], []) }
  function S1(): State { State(H1, {}, map[0 := NO_TAB, 1 := IdleTab([X], [B1], false)], LOG1) }
  function S2(): State { State(H2, {}, map[0 := NO_TAB, 1 := BusyTab([X, Y], [B1], ["1"])], LOG2) }
  function S3(): State {
    State(H3, {}, map[0 := NO_TAB, 1 := BusyTab([X, Y], [B1], ["1"]), 2 := BusyTab([X, Y, Z], [B2], [])], LOG3)
  }
  function S4(): State {
    State(H4, {}, map[0 := IdleTab([], [B1, B3], true), 1 := BusyTab([X, Y], [B1], []),
                      2 := BusyTab([X, Y, Z], [B2], [])], LOG3)
  }

  lemma SyncedTo(tab: Tab, read: seq<Branch>)
    requires tab.owed == [] && |read| == 1
    ensures Synced(tab, read) ==
            if read == tab.branches then tab
            else tab.(branches := read, conflict := false, entries := read[0].entries)
  {
    assert AllOwing(read, []) == read by {
      assert Owing(read[0], []) == read[0];
    }
  }

  /** Tabs 0 and 1 open on an empty draft. */
  lemma RunToS0()
    ensures Reachable(S0())
  {
    var steps: seq<Step> := [];
    assert Run([EMPTY], steps) && [EMPTY][|steps|] == EMPTY;
    assert Reaches(steps, EMPTY);
    assert IsReading(Heads([], {}), NO_FACTS, []);
    assert Synced(NEW_TAB, []).(call := Idle) == NO_TAB;
    Opens(EMPTY, 0, []);
    var a := SetTab(EMPTY, 0, NO_TAB);
    Opens(a, 1, []);
    assert SetTab(a, 1, NO_TAB).tabs == S0().tabs;
  }

  const A1: State := State(H1, {}, map[0 := NO_TAB, 1 := BusyTab([X], [], [])], LOG1)

  lemma PlanX()
    ensures Planned(NO_TAB, Action(Push(OP_X, "", "x"), [], [])) == ([X], [])
  {
    Writes4();
  }

  lemma PushX()
    ensures AfterPush(S0(), 1, OP_X, "x", [], "1") == A1
    ensures !Synced(NO_TAB, []).conflict
  {
    PlanX();
    assert Synced(NO_TAB, []) == NO_TAB;
    assert Ids([]) == [];
    assert Publish(Heads([], {}), B1) == H1;
  }

  /** Tab 1 writes `x`. */
  lemma RunToA1()
    ensures Reachable(A1)
  {
    RunToS0();
    assert IsReading(Heads([], {}), NO_FACTS, []);
    PushX();
    Pushes(S0(), 1, OP_X, "x", [], "1");
  }

  const R1: Tab := BusyTab([X], [], []).(call := SeeingReceipts(Action(Sync, [], [])))

  /** The synchronization that follows every write. */
  lemma RunToS1()
    ensures Reachable(S1())
  {
    RunToA1();
    Reach(A1, RemoveParent(1));
    var b := SetTab(A1, 1, R1);
    ReadH1();
    Reads(b, 1, [B1]);
    SyncedTo(R1, [B1]);
    assert SetTab(b, 1, IdleTab([X], [B1], false)).tabs == S1().tabs;
  }

  lemma PlanY()
    ensures Planned(IdleTab([X], [B1], false), Action(Push(OP_Y, "", "y"), [X], [B1])) == ([X, Y], [B1])
  {
    Writes4();
  }

  lemma PushY()
    ensures AfterPush(S1(), 1, OP_Y, "y", [B1], "2") == S2()
    ensures !Synced(S1().tabs[1], [B1]).conflict
  {
    PlanY();
    SyncedTo(S1().tabs[1], [B1]);
    assert Ids([B1]) == ["1"];
    assert Publish(H1, B2) == H2;
  }

  /** Tab 1 publishes `y` over `x` and stalls. */
  lemma RunToS2()
    ensures Reachable(S2())
  {
    RunToS1();
    ReadH1();
    PushY();
    Pushes(S1(), 1, OP_Y, "y", [B1], "2");
  }

  function A2(): State {
    State(H2, {}, map[0 := NO_TAB, 1 := BusyTab([X, Y], [B1], ["1"]), 2 := IdleTab([X, Y], [B2], false)], LOG2)
  }

  function A3(): State {
    State(Heads([B1, B2, B3], {}), {},
          map[0 := NO_TAB, 1 := BusyTab([X, Y], [B1], ["1"]), 2 := BusyTab([X, Y, Z], [B2], ["2"])], LOG3)
  }

  /** Tab 2 opens. */
  lemma RunToA2()
    ensures Reachable(A2())
  {
    RunToS2();
    ReadH2();
    SyncedTo(NEW_TAB, [B2]);
    Opens(S2(), 2, [B2]);
    assert SetTab(S2(), 2, IdleTab([X, Y], [B2], false)).tabs == A2().tabs;
  }

  lemma PlanZ()
    ensures Planned(IdleTab([X, Y], [B2], false), Action(Push(OP_Z, "", "z"), [X, Y], [B2])) == ([X, Y, Z], [B2])
  {
    Writes4();
  }

  lemma PushZ()
    ensures AfterPush(A2(), 2, OP_Z, "z", [B2], "3") == A3()
    ensures !Synced(A2().tabs[2], [B2]).conflict
  {
    PlanZ();
    SyncedTo(A2().tabs[2], [B2]);
    assert Ids([B2]) == ["2"];
    assert Publish(H2, B3) == A3().heads;
  }

  lemma RunToA3()
    ensures Reachable(A3())
  {
    RunToA2();
    ReadH2();
    PushZ();
    Pushes(A2(), 2, OP_Z, "z", [B2], "3");
  }

  /** Tab 2 removes the parent of its write. */
  lemma RunToS3()
    ensures Reachable(S3())
  {
    RunToA3();
    Reach(A3(), RemoveParent(2));
    assert ["2"][1..] == [] && Remove(A3().heads, "2") == H3;
    assert Do(A3(), RemoveParent(2)).tabs == S3().tabs;
  }

  const TORN: Tab := IdleTab([], [B1, B3], true)

  function A4(): State {
    State(H3, {}, map[0 := TORN, 1 := BusyTab([X, Y], [B1], ["1"]), 2 := BusyTab([X, Y, Z], [B2], [])], LOG3)
  }

  lemma ConflictShown()
    ensures Synced(NO_TAB, [B1, B3]) == TORN
    ensures SetTab(S3(), 0, TORN) == A4()
  {
    var read := [B1, B3];
    assert AllOwing(read, []) == read by {
      assert Owing(B1, []) == B1 && Owing(B3, []) == B3;
    }
    assert Differ(read) by { assert read[1].entries != read[0].entries; }
  }

  /** Tab 0 sees the forgotten parent next to the newest head. */
  lemma RunToA4()
    ensures Reachable(A4())
  {
    RunToS3();
    ReadH3();
    ConflictShown();
    Syncs(S3(), 0, [B1, B3]);
    assert S3().tabs[0] == NO_TAB;
  }

  /** Tab 1 finishes removing it. */
  lemma RunToS4()
    ensures Reachable(S4())
  {
    RunToA4();
    Reach(A4(), RemoveParent(1));
    assert ["1"][1..] == [] && Remove(A4().heads, "1") == H4;
    assert Do(A4(), RemoveParent(1)).tabs == S4().tabs;
  }

  function S5(): State {
    State(H5, {}, map[0 := Tab([T], [B1, B3], false, false, [], None, [], Removing(["1", "3"])),
                      1 := BusyTab([X, Y], [B1], []), 2 := BusyTab([X, Y, Z], [B2], [])], LOG4)
  }

  lemma PlanT()
    ensures Planned(IdleTab([X, Y, Z], [B3], false), Action(Push(OP_X, "", "t"), [], [B1, B3])) == ([T], [B1, B3])
  {
    Writes4();
  }

  lemma PushT()
    ensures AfterPush(S4(), 0, OP_X, "t", [B3], "4") == S5()
    ensures !Synced(S4().tabs[0], [B3]).conflict
  {
    PlanT();
    SyncedTo(S4().tabs[0], [B3]);
    assert Ids([B1, B3]) == ["1", "3"];
    assert Publish(H4, B4) == H5;
  }

  /** Tab 0 pushes over the conflict it was shown. */
  lemma RunToS5()
    ensures Reachable(S5())
  {
    RunToS4();
    ReadH4();
    PushT();
    Pushes(S4(), 0, OP_X, "t", [B3], "4");
  }

  lemma OnlyB4Live()
    ensures forall i | Live(H5, i) :: i == 3
  {
    assert Names(H5, 3, "3");
  }

  lemma NothingExcusesY()
    ensures forall k | 0 <= k < |LOG4| :: !Excuses(LOG4[k], (Y.key, Y.editId))
  {}

  /** A reachable state in which `y` was stored, is in no live head, and nothing excuses it. */
  lemma CarelessPushLosesAnEdit()
    ensures Reachable(S5())
    ensures (Y.key, Y.editId) in Edits(S5().heads.written[1].entries)
    ensures forall i | Live(S5().heads, i) :: (Y.key, Y.editId) !in Edits(S5().heads.written[i].entries)
    ensures !Excused(S5().log, (Y.key, Y.editId))
  {
    RunToS5();
    OnlyB4Live();
    NothingExcusesY();
    assert Y in B2.entries;
    assert (Y.key, Y.editId) !in Edits(B4.entries);
  }
}
