/** What holds of the stored history in every run of the draft protocol, however tabs write, stop and
    fail, and what a read in such a run returns. */
module DraftHistory {
  import opened Wrappers
  import opened DraftModel
  import opened Receipts
  import opened DraftHeads
  import opened DraftProtocol

  ghost predicate AllWritten(heads: Heads, branches: seq<Branch>) {
    forall b | b in branches :: Written(heads, b.id)
  }

  lemma ReadIsWritten(heads: Heads, facts: Facts, read: seq<Branch>, owed: seq<seq<Entry>>)
    requires IsReading(heads, facts, read)
    ensures AllWritten(heads, AllOwing(read, owed))
  {
    forall b | b in AllOwing(read, owed) ensures Written(heads, b.id) {
      var k :| 0 <= k < |read| && AllOwing(read, owed)[k] == b;
      assert Returns(heads, facts, read[k]);
    }
  }

  lemma StillWritten(before: Heads, after: Heads, branches: seq<Branch>)
    requires AllWritten(before, branches) && |before.written| <= |after.written|
    requires forall i | 0 <= i < |before.written| :: after.written[i] == before.written[i]
    ensures AllWritten(after, branches)
  {
    forall b | b in branches ensures Written(after, b.id) {
      var i :| 0 <= i < |before.written| && before.written[i].id == b.id;
      assert after.written[i].id == b.id;
    }
  }

  lemma FreshIsNoParent(heads: Heads, branches: seq<Branch>, id: Id)
    requires AllWritten(heads, branches) && Fresh(heads, id)
    ensures id !in Ids(branches)
  {
    forall k | 0 <= k < |branches| ensures Ids(branches)[k] != id { assert branches[k] in branches; }
  }

  // ----- the history only grows

  ghost predicate Grows(before: State, after: State) {
    && |before.heads.written| <= |after.heads.written|
    && (forall i | 0 <= i < |before.heads.written| :: after.heads.written[i] == before.heads.written[i])
    && before.heads.removed <= after.heads.removed
    && before.receipts <= after.receipts
  }

  lemma StepGrows(s: State, step: Step)
    requires Enabled(s, step)
    ensures Grows(s, Do(s, step))
  {
  }

  lemma {:induction false} RunGrows(trace: seq<State>, steps: seq<Step>, i: nat, j: nat)
    requires Run(trace, steps) && i <= j < |trace|
    ensures Grows(trace[i], trace[j])
  {
    if i < j {
      RunGrows(trace, steps, i, j - 1);
      StepGrows(trace[j - 1], steps[j - 1]);
    }
  }

  // ----- and stays well formed

  /** The tab only replaces what was written, and only removes what was replaced. */
  ghost predicate TabInHistory(heads: Heads, tab: Tab) {
    && AllWritten(heads, tab.branches)
    && match tab.call
       case Idle => true
       case Removing(parents) => forall p | p in parents :: Superseded(heads, p)
       case Flushing(a) => AllWritten(heads, a.base)
       case SeeingReceipts(a) => AllWritten(heads, a.base)
       case SeeingHeads(a, _) => AllWritten(heads, a.base)
       case Acting(a) => AllWritten(heads, a.base)
  }

  ghost predicate HistoryOk(s: State) {
    Valid(s.heads) && forall t | t in s.tabs :: TabInHistory(s.heads, s.tabs[t])
  }

  lemma TabStaysInHistory(before: State, after: State, tab: Tab)
    requires Grows(before, after) && TabInHistory(before.heads, tab)
    ensures TabInHistory(after.heads, tab)
  {
    StillWritten(before.heads, after.heads, tab.branches);
    if tab.call.Removing? {
      forall p | p in tab.call.parents ensures Superseded(after.heads, p) {
        var c :| 0 <= c < |before.heads.written| && Names(before.heads, c, p);
        assert Names(after.heads, c, p);
      }
    } else if !tab.call.Idle? {
      StillWritten(before.heads, after.heads, tab.call.action.base);
    }
  }

  lemma PublishedHistory(s: State, t: nat, id: Id)
    requires HistoryOk(s) && Enabled(s, Commit(t, id))
    ensures Valid(Do(s, Commit(t, id)).heads)
    ensures TabInHistory(Do(s, Commit(t, id)).heads, Do(s, Commit(t, id)).tabs[t])
  {
    var (entries, parents) := Planned(s.tabs[t], s.tabs[t].call.action);
    var branch, after := Branch(id, Ids(parents), entries), Do(s, Commit(t, id));
    forall p | p in branch.parents ensures Written(s.heads, p) && Superseded(after.heads, p) {
      var k :| 0 <= k < |parents| && parents[k].id == p;
      assert parents[k] in parents;
      assert Names(after.heads, |s.heads.written|, p);
    }
    PublishKeepsValid(s.heads, branch);
    StillWritten(s.heads, after.heads, parents);
  }

  lemma SeenHistory(s: State, t: nat, read: seq<Branch>)
    requires HistoryOk(s) && Enabled(s, SeeHeads(t, read))
    ensures TabInHistory(s.heads, Do(s, SeeHeads(t, read)).tabs[t])
  {
    ReadIsWritten(s.heads, s.tabs[t].call.facts, read, s.tabs[t].owed);
  }

  lemma OtherTabsStay(s: State, step: Step, t: nat)
    requires Enabled(s, step) && t in Do(s, step).tabs && t != step.tab
    ensures t in s.tabs && Do(s, step).tabs[t] == s.tabs[t]
  {
  }

  lemma HeadsStayValid(s: State, step: Step)
    requires HistoryOk(s) && Enabled(s, step)
    ensures Valid(Do(s, step).heads)
  {
    if step.Commit? {
      PublishedHistory(s, step.tab, step.id);
    } else if step.RemoveParent? && s.tabs[step.tab].call.parents != [] {
      assert s.tabs[step.tab].call.parents[0] in s.tabs[step.tab].call.parents;
      RemoveKeepsValid(s.heads, s.tabs[step.tab].call.parents[0]);
    }
  }

  /** A step that neither reads nor publishes leaves its tab on the branches it stood on. */
  lemma SteppedTab(s: State, step: Step)
    requires Enabled(s, step) && !step.Open? && !step.Close? && !step.Commit? && !step.SeeHeads?
    requires TabInHistory(Do(s, step).heads, s.tabs[step.tab])
    ensures TabInHistory(Do(s, step).heads, Do(s, step).tabs[step.tab])
  {
  }

  lemma ActingTab(s: State, step: Step)
    requires HistoryOk(s) && Enabled(s, step) && step.tab in Do(s, step).tabs
    ensures TabInHistory(Do(s, step).heads, Do(s, step).tabs[step.tab])
  {
    if step.Commit? {
      PublishedHistory(s, step.tab, step.id);
    } else if step.SeeHeads? {
      SeenHistory(s, step.tab, step.read);
    } else if !step.Open? {
      StepGrows(s, step);
      TabStaysInHistory(s, Do(s, step), s.tabs[step.tab]);
      SteppedTab(s, step);
    }
  }

  lemma StepKeepsHistory(s: State, step: Step)
    requires HistoryOk(s) && Enabled(s, step)
    ensures HistoryOk(Do(s, step))
  {
    HeadsStayValid(s, step);
    StepGrows(s, step);
    forall t | t in Do(s, step).tabs ensures TabInHistory(Do(s, step).heads, Do(s, step).tabs[t]) {
      if t == step.tab {
        ActingTab(s, step);
      } else {
        OtherTabsStay(s, step, t);
        TabStaysInHistory(s, Do(s, step), s.tabs[t]);
      }
    }
  }

  lemma {:induction false} RunKeepsHistory(trace: seq<State>, steps: seq<Step>, i: nat)
    requires Run(trace, steps) && i < |trace|
    ensures HistoryOk(trace[i])
  {
    if i > 0 {
      RunKeepsHistory(trace, steps, i - 1);
      StepKeepsHistory(trace[i - 1], steps[i - 1]);
    }
  }

  /** In every state of every run, careful or not, every branch ever written starts a chain of
      replacements that ends in a branch no write replaced, and a read returns that branch. */
  lemma NothingIsEverLost(trace: seq<State>, steps: seq<Step>, i: nat, b: int) returns (chain: seq<int>)
    requires Run(trace, steps) && i < |trace| && 0 <= b < |trace[i].heads.written|
    ensures Descends(trace[i].heads, chain) && chain[0] == b
    ensures Leaf(trace[i].heads, chain[|chain| - 1]) && Live(trace[i].heads, chain[|chain| - 1])
  {
    RunKeepsHistory(trace, steps, i);
    chain := NothingIsLost(trace[i].heads, b);
  }

  // ----- exact heads, once started writes finish

  /** Some tab still has to remove this id. */
  ghost predicate Owes(s: State, id: Id) {
    exists t :: t in s.tabs && s.tabs[t].call.Removing? && id in s.tabs[t].call.parents
  }

  ghost predicate AllSettled(s: State) {
    forall id | Superseded(s.heads, id) :: id in s.heads.removed || Owes(s, id)
  }

  /** No tab vanishes between publishing a branch and removing the parents of it. */
  ghost predicate WritesComplete(trace: seq<State>, steps: seq<Step>) {
    Run(trace, steps) &&
    forall i | 0 <= i < |steps| && steps[i].Close? :: !trace[i].tabs[steps[i].tab].call.Removing?
  }

  lemma OwedAfter(s: State, step: Step, id: Id)
    requires Enabled(s, step) && Owes(s, id) && (step.Close? ==> !s.tabs[step.tab].call.Removing?)
    ensures id in Do(s, step).heads.removed || Owes(Do(s, step), id)
  {
    var t :| t in s.tabs && s.tabs[t].call.Removing? && id in s.tabs[t].call.parents;
    var after := Do(s, step);
    if step.RemoveParent? && step.tab == t {
      var parents := s.tabs[t].call.parents;
      assert parents == [parents[0]] + parents[1..];
      if id != parents[0] { assert after.tabs[t].call == Removing(parents[1..]); }
    } else {
      assert t in after.tabs && after.tabs[t] == s.tabs[t];
    }
  }

  lemma StepKeepsSettled(s: State, step: Step)
    requires AllSettled(s) && Enabled(s, step) && (step.Close? ==> !s.tabs[step.tab].call.Removing?)
    ensures AllSettled(Do(s, step))
  {
    var after, n := Do(s, step), |s.heads.written|;
    StepGrows(s, step);
    forall id | Superseded(after.heads, id) ensures id in after.heads.removed || Owes(after, id) {
      if Superseded(s.heads, id) {
        if Owes(s, id) { OwedAfter(s, step, id); }
      } else {
        NewlySuperseded(s, step, id);
      }
    }
  }

  lemma NewlySuperseded(s: State, step: Step, id: Id)
    requires Enabled(s, step) && Superseded(Do(s, step).heads, id) && !Superseded(s.heads, id)
    ensures Owes(Do(s, step), id)
  {
    var after, n := Do(s, step), |s.heads.written|;
    var c :| 0 <= c < |after.heads.written| && Names(after.heads, c, id);
    assert c < n ==> Names(s.heads, c, id);
    assert step.Commit? && c == n;
    assert after.tabs[step.tab].call.Removing? && id in after.tabs[step.tab].call.parents;
  }

  lemma {:induction false} RunKeepsSettled(trace: seq<State>, steps: seq<Step>, i: nat)
    requires WritesComplete(trace, steps) && i < |trace|
    ensures AllSettled(trace[i])
  {
    if i > 0 {
      RunKeepsSettled(trace, steps, i - 1);
      StepKeepsSettled(trace[i - 1], steps[i - 1]);
    }
  }

  /** In a run in which no tab vanishes in the middle of a write, whenever no tab has parents left to
      remove, a read returns exactly the branches that no write replaced. */
  lemma ReadIsExact(trace: seq<State>, steps: seq<Step>, i: nat, b: int)
    requires WritesComplete(trace, steps) && i < |trace|
    requires forall t | t in trace[i].tabs && trace[i].tabs[t].call.Removing? :: trace[i].tabs[t].call.parents == []
    ensures Live(trace[i].heads, b) <==> Leaf(trace[i].heads, b)
  {
    RunKeepsHistory(trace, steps, i);
    RunKeepsSettled(trace, steps, i);
    LeafIsLive(trace[i].heads);
    forall id | Superseded(trace[i].heads, id) ensures id in trace[i].heads.removed {
      assert !Owes(trace[i], id);
    }
  }

  // ----- receipts are final

  /** A step of another tab leaves this tab as it is. */
  lemma OthersStep(s: State, step: Step, t: nat)
    requires Enabled(s, step) && t in s.tabs && step.tab != t
    ensures t in Do(s, step).tabs && Do(s, step).tabs[t] == s.tabs[t]
  {
  }

  /** What a tab has seen of the receipts it keeps until it reads the heads. */
  lemma {:induction false} FactsPersist(trace: seq<State>, steps: seq<Step>, t: nat, a: nat, k: nat)
    requires Run(trace, steps) && a < k <= |steps| && steps[a] == SeeReceipts(t)
    requires forall j | a < j < k :: steps[j].tab != t
    ensures t in trace[k].tabs && trace[k].tabs[t].call.SeeingHeads?
    ensures trace[k].tabs[t].call.facts == AllFacts(trace[a].receipts)
  {
    if k > a + 1 {
      FactsPersist(trace, steps, t, a, k - 1);
      OthersStep(trace[k - 1], steps[k - 1], t);
    } else {
      assert trace[k] == Do(trace[a], SeeReceipts(t));
    }
  }

  /** In every run, whatever late writes from stale heads say: a read that starts after a receipt was
      stored returns no edit it records, and no create of an object whose create it records. */
  lemma SubmittedStaysSubmitted(trace: seq<State>, steps: seq<Step>, t: nat, i: nat, a: nat, k: nat,
                                read: seq<Branch>, b: nat, e: Entry)
    requires Run(trace, steps) && i <= a < k < |steps|
    requires steps[a] == SeeReceipts(t) && steps[k] == SeeHeads(t, read)
    requires forall j | a < j < k :: steps[j].tab != t
    requires b < |read| && e in read[b].entries
    ensures (e.key, e.editId) !in AllFacts(trace[i].receipts).edits
    ensures e.op.kind in {CreateApp, CreateChain, CreateIngress} ==>
              (e.key, e.op.kind) !in AllFacts(trace[i].receipts).sentAs
  {
    RunGrows(trace, steps, i, a);
    FactsPersist(trace, steps, t, a, k);
    var facts := AllFacts(trace[a].receipts);
    assert AllFacts(trace[i].receipts).edits <= facts.edits && AllFacts(trace[i].receipts).sentAs <= facts.sentAs;
    assert Returns(trace[k].heads, facts, read[b]);
    var j :| Live(trace[k].heads, j) && Settled(trace[k].heads.written[j], facts) == read[b];
    ReceiptIsFinal(trace[k].heads.written[j].entries, facts);
  }
}
