/** Exactly which editing sessions a coalesced draft stands for (`push` in frontend/src/draft.ts): an
    unfaithful pair can be masked by what is pushed after it. */
module DraftSessions {
  import opened Wrappers
  import opened IngressMerge
  import opened DraftModel

  // ----- the operations pushed on one key

  ghost predicate OneScope(ops: seq<Op>) {
    forall i, j | 0 <= i < j < |ops| :: ScopeOf(ops[i].kind) == ScopeOf(ops[j].kind)
  }

  /** Every one of them, in order. */
  function Run(ops: seq<Op>, current: Option<Body>): Outcome {
    if ops == [] then Now(current)
    else
      match Run(ops[..|ops| - 1], current)
      case Rejected => Rejected
      case Now(o) => Effect(ops[|ops| - 1], o)
  }

  /** The one operation the draft keeps of them. */
  function Coalesced(ops: seq<Op>): Op
    requires ops != []
  {
    if |ops| == 1 then ops[0] else MergedOp(Coalesced(ops[..|ops| - 1]), ops[|ops| - 1])
  }

  // ----- what the operations on one key amount to

  /** Whatever the object is: refused; always `result`; `result` unless it is occupied; its fields
      changed, refused if it is missing; or its fields changed. */
  datatype Meaning =
    | Never
    | Always(result: Option<Body>)
    | IfAbsent(result: Option<Body>)
    | Updates(added: Body)
    | Adds(added: Body)

  function Means(m: Meaning, current: Option<Body>): Outcome {
    match m
    case Never => Rejected
    case Always(result) => Now(result)
    case IfAbsent(result) => if current.Some? then Rejected else Now(result)
    case Updates(added) => if current.None? then Rejected else Now(Some(current.value + added))
    case Adds(added) => Now(Some((if current.None? then map[] else current.value) + added))
  }

  function MeaningOf(op: Op): Meaning {
    if IsCreate(op.kind) then IfAbsent(Some(op.body))
    else if IsDelete(op.kind) then Always(None)
    else if op.kind == UpdateNode then Updates(op.body)
    else if op.kind == PutStep then Adds(op.body)
    else Always(Some(op.body))
  }

  /** `op` after operations of this meaning, when a result is settled: absent or a body. */
  function After(m: Meaning, op: Op): Meaning {
    match m
    case Never => Never
    case Always(result) => Settle(Effect(op, result), false)
    case IfAbsent(result) => Settle(Effect(op, result), true)
    case Updates(added) => Updates(added + op.body)
    case Adds(added) => if IsDelete(op.kind) then Always(None) else Adds(added + op.body)
  }

  function Settle(outcome: Outcome, ifAbsent: bool): Meaning {
    match outcome
    case Rejected => Never
    case Now(o) => if ifAbsent then IfAbsent(o) else Always(o)
  }

  function Summary(ops: seq<Op>): Meaning
    requires ops != []
  {
    if |ops| == 1 then MeaningOf(ops[0]) else After(Summary(ops[..|ops| - 1]), ops[|ops| - 1])
  }

  lemma MeaningIsEffect(op: Op, current: Option<Body>)
    ensures Means(MeaningOf(op), current) == Effect(op, current)
  {
  }

  /** Only steps are added to, and only nodes are updated. */
  ghost predicate Fits(m: Meaning, scope: Scope) {
    (m.Updates? ==> scope == NodeScope) && (m.Adds? ==> scope == StepScope)
  }

  lemma AfterIsEffect(m: Meaning, op: Op, current: Option<Body>)
    requires Fits(m, ScopeOf(op.kind))
    ensures Fits(After(m, op), ScopeOf(op.kind))
    ensures Means(After(m, op), current) ==
            match Means(m, current) case Rejected => Rejected case Now(o) => Effect(op, o)
  {
    if m.Updates? && current.Some? {
      assert current.value + (m.added + op.body) == current.value + m.added + op.body;
    }
    if m.Adds? {
      var o := if current.None? then map[] else current.value;
      assert o + (m.added + op.body) == o + m.added + op.body;
    }
  }

  lemma {:induction false} SummaryIsRun(ops: seq<Op>, current: Option<Body>)
    requires ops != [] && OneScope(ops)
    ensures Means(Summary(ops), current) == Run(ops, current)
    ensures Fits(Summary(ops), ScopeOf(ops[0].kind))
  {
    var front, last := ops[..|ops| - 1], ops[|ops| - 1];
    if front == [] {
      MeaningIsEffect(last, current);
      assert Run(front, current) == Now(current);
    } else {
      SummaryIsRun(front, current);
      AfterIsEffect(Summary(front), last, current);
    }
  }

  /** Two meanings that do the same to every object are the same meaning. */
  lemma MeaningsDiffer(a: Meaning, b: Meaning) returns (current: Option<Body>)
    requires a != b
    ensures Means(a, current) != Means(b, current)
  {
    var field := UnusedField(Fields(a) + Fields(b));
    var other := map[field := Null];
    if Means(a, None) != Means(b, None) { return None; }
    if Means(a, Some(map[])) != Means(b, Some(map[])) { return Some(map[]); }
    current := Some(other);
    if a.Adds? || a.Updates? {
      assert field in other + a.added;
      assert map[] + a.added == a.added;
    }
    if b.Adds? || b.Updates? {
      assert field in other + b.added;
      assert map[] + b.added == b.added;
    }
  }

  function Fields(m: Meaning): set<string> {
    match m
    case Never => {}
    case Always(result) => if result.Some? then result.value.Keys else {}
    case IfAbsent(result) => if result.Some? then result.value.Keys else {}
    case Updates(added) => added.Keys
    case Adds(added) => added.Keys
  }

  // ----- when coalescing them is exact, read off their kinds

  /** Every create after the first operation directly follows a deletion. */
  ghost predicate CreatesAreFree(ops: seq<Op>) {
    forall i | 0 < i < |ops| && IsCreate(ops[i].kind) :: IsDelete(ops[i - 1].kind)
  }

  /** A create is not followed by a deletion. */
  ghost predicate EndsCreated(ops: seq<Op>) {
    exists i :: 0 <= i < |ops| && IsCreate(ops[i].kind) && forall j | i < j < |ops| :: !IsDelete(ops[j].kind)
  }

  /** A step was deleted and ends written again. */
  ghost predicate WrittenAgain(ops: seq<Op>) {
    ops != [] && ops[|ops| - 1].kind == PutStep && exists i :: 0 <= i < |ops| && ops[i].kind == DeleteStep
  }

  ghost predicate CoalescesExactly(ops: seq<Op>)
    requires ops != []
  {
    CreatesAreFree(ops) && (IsCreate(ops[0].kind) <==> EndsCreated(ops)) && !WrittenAgain(ops)
  }

  /** The meaning told from the kinds: of the first and the last operation, whether creates are free and
      whether a deleted step is written again. */
  ghost predicate HasShape(m: Meaning, first: OpKind, last: OpKind, free: bool, again: bool) {
    && (m.Never? <==> !free)
    && (m.IfAbsent? <==> free && IsCreate(first))
    && (m.Updates? <==> last == UpdateNode)
    && (m.Adds? <==> last == PutStep && !again)
    && (m.Always? || m.IfAbsent? ==> (m.result.None? <==> IsDelete(last)))
  }

  /** What sharing a scope means for steps and nodes. */
  ghost predicate Siblings(previous: OpKind, op: OpKind) {
    && (previous == UpdateNode <==> op == UpdateNode)
    && (previous == PutStep || previous == DeleteStep <==> op == PutStep || op == DeleteStep)
  }

  lemma SameScopeIsSibling(previous: OpKind, op: OpKind)
    requires ScopeOf(previous) == ScopeOf(op)
    ensures Siblings(previous, op)
  {
  }

  lemma {:induction false} SummaryShape(ops: seq<Op>)
    requires ops != [] && OneScope(ops)
    ensures HasShape(Summary(ops), ops[0].kind, ops[|ops| - 1].kind, CreatesAreFree(ops), WrittenAgain(ops))
  {
    if |ops| > 1 {
      var front, last := ops[..|ops| - 1], ops[|ops| - 1];
      SummaryShape(front);
      FreeSplit(ops);
      AgainSplit(ops);
      SameScopeIsSibling(front[|front| - 1].kind, last.kind);
      NextShape(Summary(front), front[0].kind, front[|front| - 1].kind, CreatesAreFree(front), WrittenAgain(front), last);
    }
  }

  lemma NextShape(m: Meaning, first: OpKind, previous: OpKind, free: bool, again: bool, op: Op)
    requires Siblings(previous, op.kind) && HasShape(m, first, previous, free, again)
    ensures HasShape(After(m, op), first, op.kind, free && (IsCreate(op.kind) ==> IsDelete(previous)),
                     op.kind == PutStep && (again || previous == DeleteStep))
  {
  }

  lemma FreeSplit(ops: seq<Op>)
    requires |ops| > 1
    ensures CreatesAreFree(ops) <==>
            CreatesAreFree(ops[..|ops| - 1]) && (IsCreate(ops[|ops| - 1].kind) ==> IsDelete(ops[|ops| - 2].kind))
  {
    var front := ops[..|ops| - 1];
    forall i | 0 < i < |front| && IsCreate(front[i].kind) && CreatesAreFree(ops) ensures IsDelete(front[i - 1].kind) {
      assert IsCreate(ops[i].kind);
    }
    forall i | 0 < i < |front| && IsCreate(ops[i].kind) && CreatesAreFree(front) ensures IsDelete(ops[i - 1].kind) {
      assert IsCreate(front[i].kind);
    }
  }

  lemma AgainSplit(ops: seq<Op>)
    requires |ops| > 1 && ScopeOf(ops[|ops| - 2].kind) == ScopeOf(ops[|ops| - 1].kind)
    ensures WrittenAgain(ops) <==>
            ops[|ops| - 1].kind == PutStep && (WrittenAgain(ops[..|ops| - 1]) || ops[|ops| - 2].kind == DeleteStep)
  {
    var front := ops[..|ops| - 1];
    if WrittenAgain(front) {
      var i :| 0 <= i < |front| && front[i].kind == DeleteStep;
      assert ops[i].kind == DeleteStep;
    }
    if WrittenAgain(ops) {
      var i :| 0 <= i < |ops| && ops[i].kind == DeleteStep;
      assert front[i].kind == DeleteStep;
    }
  }

  /** The kept operation told from the kinds. */
  lemma {:induction false} CoalescedShape(ops: seq<Op>)
    requires ops != [] && OneScope(ops)
    ensures IsCreate(Coalesced(ops).kind) <==> EndsCreated(ops)
    ensures !IsCreate(Coalesced(ops).kind) ==> Coalesced(ops).kind == ops[|ops| - 1].kind
    ensures ScopeOf(Coalesced(ops).kind) == ScopeOf(ops[0].kind)
  {
    var front, last := ops[..|ops| - 1], ops[|ops| - 1];
    assert ops == front + [last];
    if front != [] {
      CoalescedShape(front);
      EndsSplit(front, last);
      assert ScopeOf(ops[0].kind) == ScopeOf(last.kind);
      MergedKind(Coalesced(front), last);
    } else {
      assert IsCreate(ops[0].kind) ==> EndsCreated(ops);
    }
  }

  lemma EndsSplit(front: seq<Op>, last: Op)
    ensures EndsCreated(front + [last]) <==> IsCreate(last.kind) || (EndsCreated(front) && !IsDelete(last.kind))
  {
    var ops := front + [last];
    assert forall i | 0 <= i < |front| :: ops[i] == front[i];
    assert ops[|front|] == last;
    if EndsCreated(front) && !IsDelete(last.kind) {
      var i :| 0 <= i < |front| && IsCreate(front[i].kind) && forall j | i < j < |front| :: !IsDelete(front[j].kind);
      assert IsCreate(ops[i].kind) && forall j | i < j < |ops| :: !IsDelete(ops[j].kind);
    }
    if EndsCreated(ops) && !IsCreate(last.kind) {
      var i :| 0 <= i < |ops| && IsCreate(ops[i].kind) && forall j | i < j < |ops| :: !IsDelete(ops[j].kind);
      assert !IsDelete(ops[|front|].kind);
      assert IsCreate(front[i].kind) && forall j | i < j < |front| :: !IsDelete(front[j].kind);
    }
  }

  lemma MergedKind(previous: Op, op: Op)
    requires ScopeOf(previous.kind) == ScopeOf(op.kind)
    ensures var merged := MergedOp(previous, op);
            && (IsCreate(merged.kind) <==> IsCreate(op.kind) || (IsCreate(previous.kind) && !IsDelete(op.kind)))
            && (!IsCreate(merged.kind) ==> merged.kind == op.kind)
            && ScopeOf(merged.kind) == ScopeOf(op.kind)
  {
  }

  /** Where the pushes left a body, the kept operation carries it. */
  ghost predicate Carries(op: Op, m: Meaning) {
    match m
    case Never => true
    case Always(result) => result.Some? ==> op.body == result.value
    case IfAbsent(result) => result.Some? ==> op.body == result.value
    case Updates(added) => op.body == added
    case Adds(added) => op.body == added
  }

  lemma NextCarries(kept: Op, m: Meaning, previous: OpKind, op: Op)
    requires Carries(kept, m) && Siblings(previous, op.kind)
    requires op.kind == PutStep || op.kind == UpdateNode ==> kept.kind == previous
    requires m.Always? || m.IfAbsent? ==> (m.result.None? <==> IsDelete(previous))
    requires (m.Updates? <==> previous == UpdateNode) && (m.Adds? ==> previous == PutStep)
    ensures Carries(MergedOp(kept, op), After(m, op))
  {
    MergedBody(kept, op);
    assert map[] + op.body == op.body;
  }

  lemma NoCreates(kept: OpKind, op: OpKind)
    requires ScopeOf(kept) == ScopeOf(op) && (op == PutStep || op == UpdateNode)
    ensures !IsCreate(kept)
  {
  }

  lemma MergedBody(kept: Op, op: Op)
    ensures MergedOp(kept, op).body ==
            if kept.kind == op.kind && (op.kind == PutStep || op.kind == UpdateNode) then kept.body + op.body else op.body
  {
  }

  lemma {:induction false} CoalescedCarries(ops: seq<Op>)
    requires ops != [] && OneScope(ops)
    ensures Carries(Coalesced(ops), Summary(ops))
  {
    if |ops| > 1 {
      var front, last := ops[..|ops| - 1], ops[|ops| - 1];
      CoalescedCarries(front);
      SummaryShape(front);
      CoalescedShape(front);
      assert ScopeOf(ops[0].kind) == ScopeOf(ops[|front| - 1].kind) == ScopeOf(last.kind);
      SameScopeIsSibling(front[|front| - 1].kind, last.kind);
      if last.kind == PutStep || last.kind == UpdateNode { NoCreates(Coalesced(front).kind, last.kind); }
      NextCarries(Coalesced(front), Summary(front), front[|front| - 1].kind, last);
    }
  }

  lemma MeaningsAgreeIff(m: Meaning, kept: Op, first: OpKind, last: OpKind, free: bool, again: bool, ends: bool)
    requires HasShape(m, first, last, free, again) && Carries(kept, m)
    requires (IsCreate(kept.kind) <==> ends) && (!ends ==> kept.kind == last)
    requires again ==> last == PutStep
    requires ScopeOf(kept.kind) == ScopeOf(first) == ScopeOf(last) && (ends ==> !IsDelete(last))
    ensures m == MeaningOf(kept) <==> free && (IsCreate(first) <==> ends) && !again
  {
  }

  /** The kept operation means what all of them mean exactly under this condition on their kinds. */
  lemma SummaryIsCoalescedIff(ops: seq<Op>)
    requires ops != [] && OneScope(ops)
    ensures Summary(ops) == MeaningOf(Coalesced(ops)) <==> CoalescesExactly(ops)
  {
    SummaryShape(ops);
    CoalescedShape(ops);
    CoalescedCarries(ops);
    if EndsCreated(ops) { EndsUndeleted(ops); }
    assert ScopeOf(ops[0].kind) == ScopeOf(ops[|ops| - 1].kind);
    MeaningsAgreeIff(Summary(ops), Coalesced(ops), ops[0].kind, ops[|ops| - 1].kind,
                     CreatesAreFree(ops), WrittenAgain(ops), EndsCreated(ops));
  }

  lemma EndsUndeleted(ops: seq<Op>)
    requires EndsCreated(ops)
    ensures !IsDelete(ops[|ops| - 1].kind)
  {
  }

  /** The operations pushed on one key do to every object what the one kept of them does, if and only if
      every create after the first directly follows a deletion, the first is a create exactly when some
      create is not followed by a deletion, and no deleted step ends written again. */
  lemma KeyIsExactIff(ops: seq<Op>)
    requires ops != [] && OneScope(ops)
    ensures (forall current :: Run(ops, current) == Effect(Coalesced(ops), current)) <==> CoalescesExactly(ops)
  {
    var a, b := Summary(ops), MeaningOf(Coalesced(ops));
    SummaryIsCoalescedIff(ops);
    forall current ensures Means(a, current) == Run(ops, current) && Means(b, current) == Effect(Coalesced(ops), current) {
      SummaryIsRun(ops, current);
      MeaningIsEffect(Coalesced(ops), current);
    }
    if a != b { var current := MeaningsDiffer(a, b); }
  }

  // ----- replaying a batch, key by key

  /** The operations of a batch on one key. */
  function On(entries: seq<Entry>, key: Key): seq<Op> {
    if entries == [] then []
    else
      var rest, last := On(entries[..|entries| - 1], key), entries[|entries| - 1];
      if last.key == key then rest + [last.op] else rest
  }

  lemma OnLast(entries: seq<Entry>, key: Key, current: Option<Body>)
    requires entries != []
    ensures var rest, last := On(entries[..|entries| - 1], key), entries[|entries| - 1];
            Run(On(entries, key), current) ==
            if last.key != key then Run(rest, current)
            else match Run(rest, current) case Rejected => Rejected case Now(o) => Effect(last.op, o)
  {
    var rest, last := On(entries[..|entries| - 1], key), entries[|entries| - 1];
    assert (rest + [last.op])[..|rest|] == rest;
  }

  /** A batch is refused exactly if it is on some key, and otherwise leaves each key its own result. */
  lemma {:induction false} ReplayByKey(entries: seq<Entry>, store: Store)
    ensures var after := Replay(entries, Some(store));
            if after.None? then exists key :: Run(On(entries, key), Read(store, key)).Rejected?
            else forall key :: Run(On(entries, key), Read(store, key)) == Now(Read(after.value, key))
  {
    if entries == [] {
      forall key ensures Run(On(entries, key), Read(store, key)) == Now(Read(store, key)) {}
    } else {
      var rest, last := entries[..|entries| - 1], entries[|entries| - 1];
      ReplayByKey(rest, store);
      var before := Replay(rest, Some(store));
      if before.None? {
        var key :| Run(On(rest, key), Read(store, key)).Rejected?;
        OnLast(entries, key, Read(store, key));
      } else {
        OnLast(entries, last.key, Read(store, last.key));
        var effect := Effect(last.op, Read(before.value, last.key));
        if effect.Now? {
          forall key ensures Run(On(entries, key), Read(store, key)) ==
                             Now(Read(Put(before.value, last.key, effect.result), key)) {
            OnLast(entries, key, Read(store, key));
          }
        }
      }
    }
  }

  lemma SameStore(a: Store, b: Store)
    requires forall key :: Read(a, key) == Read(b, key)
    ensures a == b
  {
    forall key ensures key in a <==> key in b { assert Read(a, key) == Read(b, key); }
    forall key | key in a ensures a[key] == b[key] { assert Read(a, key) == Read(b, key); }
  }

  ghost predicate SameOn(some: seq<Entry>, others: seq<Entry>, key: Key) {
    forall current :: Run(On(some, key), current) == Run(On(others, key), current)
  }

  lemma SameReplay(some: seq<Entry>, others: seq<Entry>, store: Store)
    requires forall key :: SameOn(some, others, key)
    ensures Replay(some, Some(store)) == Replay(others, Some(store))
  {
    ReplayByKey(some, store);
    ReplayByKey(others, store);
    var a, b := Replay(some, Some(store)), Replay(others, Some(store));
    forall key ensures Run(On(some, key), Read(store, key)) == Run(On(others, key), Read(store, key)) {
      assert SameOn(some, others, key);
    }
    if a.Some? && b.Some? {
      forall key ensures Read(a.value, key) == Read(b.value, key) {
        assert Run(On(some, key), Read(store, key)) == Run(On(others, key), Read(store, key));
      }
      SameStore(a.value, b.value);
    }
  }

  // ----- whole sessions

  function AsEntries(log: seq<Pushed>): seq<Entry> {
    seq(|log|, i requires 0 <= i < |log| => Entry(log[i].Target(), log[i].editId, log[i].op))
  }

  lemma {:induction false} ReplayAllIsReplay(log: seq<Pushed>, store: Option<Store>)
    ensures ReplayAll(log, store) == Replay(AsEntries(log), store)
  {
    if log != [] {
      assert AsEntries(log)[..|log| - 1] == AsEntries(log[..|log| - 1]);
      ReplayAllIsReplay(log[..|log| - 1], store);
    }
  }

  /** The operations a session pushed on one key. */
  function OpsOf(log: seq<Pushed>, key: Key): seq<Op> { On(AsEntries(log), key) }

  lemma OpsOfSnoc(log: seq<Pushed>, last: Pushed, key: Key)
    ensures OpsOf(log + [last], key) == if last.Target() == key then OpsOf(log, key) + [last.op] else OpsOf(log, key)
  {
    var entries := AsEntries(log + [last]);
    assert entries[..|log|] == AsEntries(log);
  }

  lemma {:induction false} OpsShareScope(log: seq<Pushed>, key: Key)
    ensures forall i | 0 <= i < |OpsOf(log, key)| :: ScopeOf(OpsOf(log, key)[i].kind) == key.scope
    ensures OneScope(OpsOf(log, key))
  {
    if log != [] {
      OpsShareScope(log[..|log| - 1], key);
      OpsOfSnoc(log[..|log| - 1], log[|log| - 1], key);
      assert log == log[..|log| - 1] + [log[|log| - 1]];
    }
  }

  lemma {:induction false} OnAbsent(entries: seq<Entry>, key: Key)
    requires forall e | e in entries :: e.key != key
    ensures On(entries, key) == []
  {
    if entries != [] { OnAbsent(entries[..|entries| - 1], key); }
  }

  lemma {:induction false} OnMember(entries: seq<Entry>, entry: Entry)
    requires UniqueKeys(entries) && entry in entries
    ensures On(entries, entry.key) == [entry.op]
  {
    var rest, last := entries[..|entries| - 1], entries[|entries| - 1];
    assert entries == rest + [last];
    if last.key == entry.key {
      var i :| 0 <= i < |entries| && entries[i] == entry;
      assert i == |rest|;
      OnAbsent(rest, entry.key);
    } else {
      OnMember(rest, entry);
    }
  }

  lemma PushedOn(entries: seq<Entry>, op: Op, target: Key, editId: string, key: Key)
    requires UniqueKeys(entries)
    ensures var was, now := On(entries, key), On(PushEntries(entries, op, target, editId), key);
            && (key != target ==> now == was)
            && (key == target ==> if was == [] then now == [op] else |was| == 1 && now == [MergedOp(was[0], op)])
  {
    PushKeepsOthers(entries, op, target, editId);
    var at, after := IndexOf(entries, target), PushEntries(entries, op, target, editId);
    if key == target {
      var entry := Entry(key, editId, if at < 0 then op else MergedOp(entries[at].op, op));
      assert entry in after by { assert after[if at < 0 || Moves(op.kind) then |after| - 1 else at] == entry; }
      OnMember(after, entry);
      if at < 0 { OnAbsent(entries, key); } else { OnMember(entries, entries[at]); }
    } else if e: Entry :| e in entries && e.key == key {
      OnMember(entries, e);
      OnMember(after, e);
    } else {
      OnAbsent(entries, key);
      OnAbsent(after, key);
    }
  }

  /** For each key the draft holds the one operation all pushes on it coalesce to. */
  lemma {:induction false} DraftOn(log: seq<Pushed>, key: Key)
    ensures On(Draft(log), key) == if OpsOf(log, key) == [] then [] else [Coalesced(OpsOf(log, key))]
  {
    if log != [] {
      var front, last := log[..|log| - 1], log[|log| - 1];
      assert log == front + [last];
      DraftOn(front, key);
      DraftHasUniqueKeys(front);
      OpsOfSnoc(front, last, key);
      PushedOn(Draft(front), last.op, last.Target(), last.editId, key);
      var ops := OpsOf(front, key);
      assert (ops + [last.op])[..|ops|] == ops;
    }
  }

  lemma RunOne(op: Op, current: Option<Body>)
    ensures Run([op], current) == Effect(op, current)
  {
    assert [op][..0] == [];
  }

  ghost predicate SessionCoalescesExactly(log: seq<Pushed>) {
    forall key | OpsOf(log, key) != [] :: CoalescesExactly(OpsOf(log, key))
  }

  lemma KeyIsSameIff(log: seq<Pushed>, key: Key)
    ensures SameOn(Draft(log), AsEntries(log), key) <==> OpsOf(log, key) == [] || CoalescesExactly(OpsOf(log, key))
  {
    var ops := OpsOf(log, key);
    DraftOn(log, key);
    OpsShareScope(log, key);
    if ops != [] {
      KeyIsExactIff(ops);
      forall current ensures Run(On(Draft(log), key), current) == Effect(Coalesced(ops), current) {
        RunOne(Coalesced(ops), current);
      }
    }
  }

  /** A store on which the draft goes through: it has nothing but the nodes the draft updates. */
  lemma Accepting(entries: seq<Entry>) returns (store: Store)
    requires UniqueKeys(entries)
    ensures Replay(entries, Some(store)).Some?
  {
    store := map e | e in entries && e.op.kind == UpdateNode :: e.key := map[];
    forall key ensures Run(On(entries, key), Read(store, key)).Now? {
      if e: Entry :| e in entries && e.key == key {
        OnMember(entries, e);
        RunOne(e.op, Read(store, key));
        assert forall other | other in entries && other.key == key :: other == e;
      } else {
        OnAbsent(entries, key);
      }
    }
    ReplayByKey(entries, store);
  }

  /** Where a batch went through, changing one object leaves only that one to decide. */
  lemma OneChanged(entries: seq<Entry>, store: Store, key: Key, current: Option<Body>)
    requires Replay(entries, Some(store)).Some?
    ensures var after := Replay(entries, Some(Put(store, key, current)));
            Run(On(entries, key), current) == if after.None? then Rejected else Now(Read(after.value, key))
  {
    var changed := Put(store, key, current);
    ReplayByKey(entries, store);
    ReplayByKey(entries, changed);
    forall other | other != key ensures Run(On(entries, other), Read(changed, other)).Now? {
      PutElsewhere(store, key, current, other);
    }
  }

  /** Some store tells a session from its draft, if one of its keys does. */
  lemma DraftDiffers(log: seq<Pushed>, key: Key) returns (store: Store)
    requires !SameOn(Draft(log), AsEntries(log), key)
    ensures Replay(Draft(log), Some(store)) != ReplayAll(log, Some(store))
  {
    DraftHasUniqueKeys(log);
    store := Accepting(Draft(log));
    ReplayAllIsReplay(log, Some(store));
    if ReplayAll(log, Some(store)).Some? {
      var current :| Run(On(Draft(log), key), current) != Run(On(AsEntries(log), key), current);
      OneChanged(Draft(log), store, key, current);
      OneChanged(AsEntries(log), store, key, current);
      store := Put(store, key, current);
      ReplayAllIsReplay(log, Some(store));
    }
  }

  /** Submitting the draft of a session does to every store exactly what replaying its pushes in order
      does, if and only if the pushes on every key coalesce exactly: this is told from their kinds. */
  lemma SessionIsExactIff(log: seq<Pushed>)
    ensures (forall store :: Replay(Draft(log), Some(store)) == ReplayAll(log, Some(store)))
            <==> SessionCoalescesExactly(log)
  {
    forall key ensures SameOn(Draft(log), AsEntries(log), key) <==>
                       OpsOf(log, key) == [] || CoalescesExactly(OpsOf(log, key)) {
      KeyIsSameIff(log, key);
    }
    if SessionCoalescesExactly(log) {
      forall store ensures Replay(Draft(log), Some(store)) == ReplayAll(log, Some(store)) {
        SameReplay(Draft(log), AsEntries(log), store);
        ReplayAllIsReplay(log, Some(store));
      }
    } else {
      var key :| OpsOf(log, key) != [] && !CoalescesExactly(OpsOf(log, key));
      var store := DraftDiffers(log, key);
    }
  }

  /** Faithful pushes are among them. */
  lemma FaithfulSessionsAreExact(log: seq<Pushed>)
    requires FaithfulLog(log)
    ensures SessionCoalescesExactly(log)
  {
    forall store ensures Replay(Draft(log), Some(store)) == ReplayAll(log, Some(store)) {
      CoalescedDraftMeansEveryEdit(log, store);
    }
    SessionIsExactIff(log);
  }

  /** So are others: an object created, deleted and created again is refused or written as by its draft,
      although neither pair of these coalesces faithfully. */
  lemma MaskedSession(first: Pushed, second: Pushed, third: Pushed)
    requires first.op.kind == third.op.kind == CreateChain && second.op.kind == DeleteChain
    requires first.op.target == second.op.target == third.op.target
    ensures !FaithfulLog([first, second]) && !FaithfulLog([first, second, third])
    ensures SessionCoalescesExactly([first, second, third])
  {
    var none: seq<Pushed> := [];
    var one, two, log := [first], [first, second], [first, second, third];
    assert one[..0] == none && two[..1] == one && log[..2] == two;
    assert Draft(one) == [Entry(first.Target(), first.editId, first.op)];
    CreatedAgain(first.op, second.op, third.op);
    forall k | OpsOf(log, k) != [] ensures CoalescesExactly(OpsOf(log, k)) {
      OpsOfThree(first, second, third, k);
    }
  }

  lemma OpsOfThree(first: Pushed, second: Pushed, third: Pushed, key: Key)
    requires first.Target() == second.Target() == third.Target()
    ensures OpsOf([first, second, third], key) ==
            if key == first.Target() then [first.op, second.op, third.op] else []
  {
    var none: seq<Pushed> := [];
    var log := [first, second, third];
    assert none + [first] + [second] + [third] == log;
    OpsOfSnoc(none, first, key);
    OpsOfSnoc(none + [first], second, key);
    OpsOfSnoc(none + [first] + [second], third, key);
  }

  lemma CreatedAgain(first: Op, second: Op, third: Op)
    requires first.kind == third.kind == CreateChain && second.kind == DeleteChain
    ensures CoalescesExactly([first, second, third])
  {
    var ops := [first, second, third];
    assert IsCreate(ops[2].kind) && EndsCreated(ops);
  }
}
