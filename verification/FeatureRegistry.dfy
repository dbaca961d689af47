/** Callbacks that wait for features arriving in any order, and may themselves register callbacks
  and features (components/xray-core/core/xray.go, lines 36-96, 254-259 and 310-404). */
module FeatureRegistry {

  type TypeId = string

  /** A callback, by identity, the feature types it takes, and the calls it makes when it runs. */
  datatype Resolution = Resolution(callback: nat, deps: seq<TypeId>, calls: seq<Call>)

  datatype Call =
    | Require(resolution: Resolution, optional: bool)
    | Add(feature: TypeId)

  /** What remains to be done: a call, or a callback whose dependencies were found. */
  datatype Work = Do(call: Call) | Invoke(resolution: Resolution)

  predicate Found(features: seq<TypeId>, deps: seq<TypeId>) {
    forall d | d in deps :: d in features
  }

  function Ready(features: seq<TypeId>, pending: seq<Resolution>): seq<Resolution> {
    if pending == [] then []
    else
      var last := pending[|pending| - 1];
      Ready(features, pending[..|pending| - 1]) + if Found(features, last.deps) then [last] else []
  }

  function Waiting(features: seq<TypeId>, pending: seq<Resolution>): seq<Resolution> {
    if pending == [] then []
    else
      var last := pending[|pending| - 1];
      Waiting(features, pending[..|pending| - 1]) + if Found(features, last.deps) then [] else [last]
  }

  /** The instance, and every invocation with the features it saw. */
  datatype Registry = Registry(
    running: bool, started: seq<TypeId>,
    features: seq<TypeId>, pending: seq<Resolution>, pendingOptional: seq<Resolution>,
    invoked: seq<(Resolution, seq<TypeId>)>)

  const FRESH := Registry(false, [], [], [], [], [])

  function Dos(calls: seq<Call>): seq<Work> {
    seq(|calls|, i requires 0 <= i < |calls| => Do(calls[i]))
  }

  function Invokes(resolutions: seq<Resolution>): seq<Work> {
    seq(|resolutions|, i requires 0 <= i < |resolutions| => Invoke(resolutions[i]))
  }

  /** A new feature: who no longer waits runs, required callbacks first. */
  function Available(r: Registry, feature: TypeId): seq<Resolution> {
    Ready(r.features + [feature], r.pending) + Ready(r.features + [feature], r.pendingOptional)
  }

  function WithFeature(r: Registry, feature: TypeId): Registry {
    var features := r.features + [feature];
    r.(features := features, pending := Waiting(features, r.pending),
       pendingOptional := Waiting(features, r.pendingOptional))
  }

  /** One piece of work: the new state, and what it must do before anything else goes on. */
  function Step(r: Registry, work: Work): (Registry, seq<Work>) {
    match work
    case Do(Require(x, optional)) =>
      if Found(r.features, x.deps) then (r, [Invoke(x)])
      else if optional then (r.(pendingOptional := r.pendingOptional + [x]), [])
      else (r.(pending := r.pending + [x]), [])
    case Do(Add(feature)) =>
      if r.running then (r.(started := r.started + [feature]), [])
      else (WithFeature(r, feature), Invokes(Available(r, feature)))
    case Invoke(x) => (r.(invoked := r.invoked + [(x, r.features)]), Dos(x.calls))
  }

  /** A call returns when everything it led to has returned. */
  function Exec(r: Registry, todo: seq<Work>): Registry
    decreases Load(r) + Size(todo)
  {
    if todo == [] then r
    else
      var (next, first) := Step(r, todo[0]);
      StepShrinks(r, todo[0]);
      SizeAppend(first, todo[1..]);
      Exec(next, first + todo[1..])
  }

  function Run(calls: seq<Call>): Registry { Exec(FRESH, Dos(calls)) }

  // ----- every call returns: each step uses up one of the calls written in callbacks

  function CallsSize(calls: seq<Call>): nat {
    if calls == [] then 0
    else CallSize(calls[0]) + CallsSize(calls[1..])
  }

  function CallSize(call: Call): nat {
    if call.Require? then 2 + CallsSize(call.resolution.calls) else 1
  }

  function WorkSize(work: Work): nat {
    match work
    case Do(call) => CallSize(call)
    case Invoke(x) => 1 + CallsSize(x.calls)
  }

  function Size(todo: seq<Work>): nat {
    if todo == [] then 0 else WorkSize(todo[0]) + Size(todo[1..])
  }

  function Load(r: Registry): nat { Size(Invokes(r.pending)) + Size(Invokes(r.pendingOptional)) }

  lemma {:induction false} SizeAppend(a: seq<Work>, b: seq<Work>)
    ensures Size(a + b) == Size(a) + Size(b)
  {
    if a == [] {
      assert a + b == b;
    } else {
      assert (a + b)[1..] == a[1..] + b;
      SizeAppend(a[1..], b);
    }
  }

  lemma {:induction false} DosSize(calls: seq<Call>)
    ensures Size(Dos(calls)) == CallsSize(calls)
  {
    if calls != [] {
      assert Dos(calls)[1..] == Dos(calls[1..]);
      DosSize(calls[1..]);
    }
  }

  lemma InvokesAppend(a: seq<Resolution>, b: seq<Resolution>)
    ensures Invokes(a + b) == Invokes(a) + Invokes(b)
    ensures Size(Invokes(a + b)) == Size(Invokes(a)) + Size(Invokes(b))
  {
    assert Invokes(a + b) == Invokes(a) + Invokes(b);
    SizeAppend(Invokes(a), Invokes(b));
  }

  lemma {:induction false} PartitionSize(features: seq<TypeId>, pending: seq<Resolution>)
    ensures Size(Invokes(Ready(features, pending))) + Size(Invokes(Waiting(features, pending)))
         == Size(Invokes(pending))
  {
    if pending != [] {
      var front, last := pending[..|pending| - 1], pending[|pending| - 1];
      PartitionSize(features, front);
      assert pending == front + [last];
      InvokesAppend(front, [last]);
      InvokesAppend(Ready(features, front), if Found(features, last.deps) then [last] else []);
      InvokesAppend(Waiting(features, front), if Found(features, last.deps) then [] else [last]);
    }
  }

  lemma OneSize(x: Resolution)
    ensures Size(Invokes([x])) == 1 + CallsSize(x.calls)
  {
    assert Invokes([x]) == [Invoke(x)];
  }

  lemma StepShrinks(r: Registry, work: Work)
    ensures Load(Step(r, work).0) + Size(Step(r, work).1) == Load(r) + WorkSize(work) - 1
    ensures Step(r, work).0.running == r.running
  {
    match work
    case Do(Require(x, optional)) =>
      OneSize(x);
      InvokesAppend(r.pending, [x]);
      InvokesAppend(r.pendingOptional, [x]);
      assert [Invoke(x)] == Invokes([x]);
    case Do(Add(feature)) =>
      var features := r.features + [feature];
      PartitionSize(features, r.pending);
      PartitionSize(features, r.pendingOptional);
      InvokesAppend(Ready(features, r.pending), Ready(features, r.pendingOptional));
      assert r.running ==> Step(r, work).1 == [];
    case Invoke(x) =>
      DosSize(x.calls);
  }

  lemma {:induction false} ExecShrinks(r: Registry, todo: seq<Work>)
    ensures Load(Exec(r, todo)) <= Load(r) + Size(todo)
    ensures Exec(r, todo).running == r.running
    decreases Load(r) + Size(todo)
  {
    if todo != [] {
      var (next, first) := Step(r, todo[0]);
      StepShrinks(r, todo[0]);
      SizeAppend(first, todo[1..]);
      ExecShrinks(next, first + todo[1..]);
    }
  }

  /** Work is done in order: what an earlier call led to is over before the later call begins. */
  lemma {:induction false} ExecAppend(r: Registry, a: seq<Work>, b: seq<Work>)
    ensures Exec(r, a + b) == Exec(Exec(r, a), b)
    decreases Load(r) + Size(a)
  {
    if a == [] {
      assert a + b == b;
    } else {
      var (next, first) := Step(r, a[0]);
      StepShrinks(r, a[0]);
      SizeAppend(first, a[1..]);
      assert first + (a + b)[1..] == (first + a[1..]) + b;
      ExecAppend(next, first + a[1..], b);
    }
  }

  lemma ExecOne(r: Registry, work: Work)
    ensures Exec(r, [work]) == Exec(Step(r, work).0, Step(r, work).1)
  {
    assert Step(r, work).1 + [work][1..] == Step(r, work).1;
  }

  // ----- `Instance`

  /** `Instance`, as the fields its methods update. */
  class Instance {
    var features: seq<TypeId>
    var pendingResolutions: seq<Resolution>
    var pendingOptionalResolutions: seq<Resolution>
    var running: bool
    var started: seq<TypeId>
    var invoked: seq<(Resolution, seq<TypeId>)>

    constructor ()
      ensures View() == FRESH
    {
      features, pendingResolutions, pendingOptionalResolutions, invoked := [], [], [], [];
      running, started := false, [];
    }

    ghost function View(): Registry
      reads this
    {
      Registry(running, started, features, pendingResolutions, pendingOptionalResolutions, invoked)
    }

    /** `RequireFeatures`: call now if everything is there, otherwise wait. */
    method RequireFeatures(resolution: Resolution, optional: bool)
      modifies this
      ensures View() == Exec(old(View()), [Do(Require(resolution, optional))])
      decreases Load(View()) + CallsSize(resolution.calls) + 2, 0
    {
      ExecOne(View(), Do(Require(resolution, optional)));
      var foundAll := AllFound(resolution.deps);
      if foundAll {
        RunCallback(resolution);
      } else if optional {
        pendingOptionalResolutions := pendingOptionalResolutions + [resolution];
      } else {
        pendingResolutions := pendingResolutions + [resolution];
      }
    }

    /** `callbackResolution`: the callback runs with the features now registered, and its own calls
        come back to this instance. */
    method RunCallback(resolution: Resolution)
      modifies this
      ensures View() == Exec(old(View()), [Invoke(resolution)])
      decreases Load(View()) + CallsSize(resolution.calls) + 1, 0
    {
      ExecOne(View(), Invoke(resolution));
      var calls := resolution.calls;
      invoked := invoked + [(resolution, features)];
      ghost var entered := View();
      DosSize(calls);
      for i := 0 to |calls|
        invariant View() == Exec(entered, Dos(calls[..i]))
        invariant Load(View()) + CallsSize(calls[i..]) <= Load(entered) + CallsSize(calls)
      {
        assert calls[i..][1..] == calls[i + 1..];
        assert Size([Do(calls[i])]) == CallSize(calls[i]);
        assert Dos(calls[..i + 1]) == Dos(calls[..i]) + [Do(calls[i])];
        ExecAppend(entered, Dos(calls[..i]), [Do(calls[i])]);
        ExecShrinks(View(), [Do(calls[i])]);
        match calls[i] {
          case Require(x, optional) => RequireFeatures(x, optional);
          case Add(feature) => AddFeature(feature);
        }
      }
      assert calls[..|calls|] == calls;
    }

    method AllFound(deps: seq<TypeId>) returns (foundAll: bool)
      ensures foundAll <==> Found(features, deps)
    {
      foundAll := true;
      for i := 0 to |deps|
        invariant foundAll && forall k | 0 <= k < i :: deps[k] in features
      {
        if deps[i] !in features { return false; }
      }
    }

    /** One of the two loops of `AddFeature`: what can run now, and what keeps waiting. */
    method Partition(resolutions: seq<Resolution>) returns (available: seq<Resolution>, pending: seq<Resolution>)
      ensures available == Ready(features, resolutions) && pending == Waiting(features, resolutions)
    {
      available, pending := [], [];
      for i := 0 to |resolutions|
        invariant available == Ready(features, resolutions[..i]) && pending == Waiting(features, resolutions[..i])
      {
        assert resolutions[..i + 1][..i] == resolutions[..i];
        var foundAll := AllFound(resolutions[i].deps);
        if foundAll {
          available := available + [resolutions[i]];
        } else {
          pending := pending + [resolutions[i]];
        }
      }
      assert resolutions[..|resolutions|] == resolutions;
    }

    /** `AddFeature`: a running instance only starts the feature; otherwise it is registered and
        every waiting callback that is now complete runs. */
    method AddFeature(feature: TypeId)
      modifies this
      ensures View() == Exec(old(View()), [Do(Add(feature))])
      decreases Load(View()) + 1, 0
    {
      StepShrinks(View(), Do(Add(feature)));
      ExecOne(View(), Do(Add(feature)));
      if running {
        started := started + [feature];
        return;
      }
      features := features + [feature];
      var available, pending := Partition(pendingResolutions);
      pendingResolutions := pending;
      var availableOptional, pendingOptional := Partition(pendingOptionalResolutions);
      pendingOptionalResolutions := pendingOptional;
      assert View() == Step(old(View()), Do(Add(feature))).0;
      assert available + availableOptional == Available(old(View()), feature);
      RunAvailable(available + availableOptional);
    }

    /** The callbacks run after the lock is released. */
    method RunAvailable(available: seq<Resolution>)
      modifies this
      ensures View() == Exec(old(View()), Invokes(available))
      decreases Load(View()) + Size(Invokes(available)), 1
    {
      ghost var entered := View();
      for i := 0 to |available|
        invariant View() == Exec(entered, Invokes(available[..i]))
        invariant Load(View()) + Size(Invokes(available[i..])) <= Load(entered) + Size(Invokes(available))
      {
        assert available[i..] == [available[i]] + available[i + 1..];
        assert Invokes([available[i]]) == [Invoke(available[i])];
        InvokesAppend([available[i]], available[i + 1..]);
        assert available[..i + 1] == available[..i] + [available[i]];
        InvokesAppend(available[..i], [available[i]]);
        ExecAppend(entered, Invokes(available[..i]), [Invoke(available[i])]);
        ExecShrinks(View(), [Invoke(available[i])]);
        RunCallback(available[i]);
      }
      assert available[..|available|] == available;
    }

    /** The check before handlers are added in `initInstanceWithConfig`. */
    method InitCheck() returns (ok: bool)
      ensures ok <==> pendingResolutions == []
    {
      ok := pendingResolutions == [];
    }
  }

  // ----- counting registrations and invocations

  function Callbacks(invoked: seq<(Resolution, seq<TypeId>)>): seq<Resolution> {
    seq(|invoked|, i requires 0 <= i < |invoked| => invoked[i].0)
  }

  function Count(xs: seq<Resolution>, x: Resolution): nat {
    if xs == [] then 0 else Count(xs[..|xs| - 1], x) + if xs[|xs| - 1] == x then 1 else 0
  }

  /** How often a list of calls registers a callback, as an optional one only if `all` counts. */
  function Registered(calls: seq<Call>, x: Resolution, all: bool): nat {
    if calls == [] then 0 else RegisteredBy(calls[0], x, all) + Registered(calls[1..], x, all)
  }

  function RegisteredBy(call: Call, x: Resolution, all: bool): nat {
    if call.Require? && call.resolution == x && (all || !call.optional) then 1 else 0
  }

  /** How often it is registered from within callbacks, as those run. */
  function Made(callbacks: seq<Resolution>, x: Resolution, all: bool): nat {
    if callbacks == [] then 0
    else
      Made(callbacks[..|callbacks| - 1], x, all) + Registered(callbacks[|callbacks| - 1].calls, x, all)
  }

  /** Every registration made in a run: by the program, and by callbacks at any depth. */
  function AllRegistered(calls: seq<Call>, x: Resolution, all: bool): nat {
    Registered(calls, x, all) + Made(Callbacks(Run(calls).invoked), x, all)
  }

  /** A feature is added by the program, or by a callback that ran. */
  ghost predicate IsAdded(calls: seq<Call>, callbacks: seq<Resolution>, t: TypeId) {
    Add(t) in calls || exists x | x in callbacks :: Add(t) in x.calls
  }

  /** Registrations still to come, and callbacks about to run. */
  function DueCalls(todo: seq<Work>, x: Resolution, all: bool): nat {
    if todo == [] then 0
    else (if todo[0].Do? then RegisteredBy(todo[0].call, x, all) else 0) + DueCalls(todo[1..], x, all)
  }

  function DueRuns(todo: seq<Work>, x: Resolution): nat {
    if todo == [] then 0 else (if todo[0] == Invoke(x) then 1 else 0) + DueRuns(todo[1..], x)
  }

  lemma {:induction false} DueAppend(a: seq<Work>, b: seq<Work>, x: Resolution, all: bool)
    ensures DueCalls(a + b, x, all) == DueCalls(a, x, all) + DueCalls(b, x, all)
    ensures DueRuns(a + b, x) == DueRuns(a, x) + DueRuns(b, x)
  {
    if a == [] {
      assert a + b == b;
    } else {
      assert (a + b)[1..] == a[1..] + b;
      DueAppend(a[1..], b, x, all);
    }
  }

  lemma {:induction false} DueDos(calls: seq<Call>, x: Resolution, all: bool)
    ensures DueCalls(Dos(calls), x, all) == Registered(calls, x, all)
    ensures DueRuns(Dos(calls), x) == 0
  {
    if calls != [] {
      assert Dos(calls)[1..] == Dos(calls[1..]);
      DueDos(calls[1..], x, all);
    }
  }

  lemma {:induction false} DueInvokes(resolutions: seq<Resolution>, x: Resolution, all: bool)
    ensures DueCalls(Invokes(resolutions), x, all) == 0
    ensures DueRuns(Invokes(resolutions), x) == Count(resolutions, x)
  {
    if resolutions != [] {
      var front, last := resolutions[..|resolutions| - 1], resolutions[|resolutions| - 1];
      DueInvokes(front, x, all);
      assert Invokes(resolutions) == Invokes(front) + [Invoke(last)];
      DueAppend(Invokes(front), [Invoke(last)], x, all);
    }
  }

  lemma CountLast(xs: seq<Resolution>, last: Resolution, x: Resolution)
    ensures Count(xs + [last], x) == Count(xs, x) + if last == x then 1 else 0
  {
    assert (xs + [last])[..|xs|] == xs;
  }

  lemma {:induction false} CountAppend(a: seq<Resolution>, b: seq<Resolution>, x: Resolution)
    ensures Count(a + b, x) == Count(a, x) + Count(b, x)
  {
    if b == [] {
      assert a + b == a;
    } else {
      assert (a + b)[..|a + b| - 1] == a + b[..|b| - 1];
      CountAppend(a, b[..|b| - 1], x);
    }
  }

  lemma {:induction false} CountIsMultiset(xs: seq<Resolution>, x: Resolution)
    ensures Count(xs, x) == multiset(xs)[x]
  {
    if xs != [] {
      var front := xs[..|xs| - 1];
      CountIsMultiset(front, x);
      assert xs == front + [xs[|xs| - 1]];
    }
  }

  lemma {:induction false} MadeAppend(a: seq<Resolution>, b: seq<Resolution>, x: Resolution, all: bool)
    ensures Made(a + b, x, all) == Made(a, x, all) + Made(b, x, all)
  {
    if b == [] {
      assert a + b == a;
    } else {
      assert (a + b)[..|a + b| - 1] == a + b[..|b| - 1];
      MadeAppend(a, b[..|b| - 1], x, all);
    }
  }

  lemma {:induction false} ReadyCounts(features: seq<TypeId>, pending: seq<Resolution>, x: Resolution)
    ensures Count(Ready(features, pending), x) == if Found(features, x.deps) then Count(pending, x) else 0
  {
    if pending != [] {
      var front, last := pending[..|pending| - 1], pending[|pending| - 1];
      ReadyCounts(features, front, x);
      if Found(features, last.deps) {
        assert Ready(features, pending) == Ready(features, front) + [last];
        CountLast(Ready(features, front), last, x);
      } else {
        assert Ready(features, pending) == Ready(features, front) + [] == Ready(features, front);
      }
    }
  }

  lemma {:induction false} WaitingCounts(features: seq<TypeId>, pending: seq<Resolution>, x: Resolution)
    ensures Count(Waiting(features, pending), x) == if Found(features, x.deps) then 0 else Count(pending, x)
  {
    if pending != [] {
      var front, last := pending[..|pending| - 1], pending[|pending| - 1];
      WaitingCounts(features, front, x);
      if Found(features, last.deps) {
        assert Waiting(features, pending) == Waiting(features, front) + [] == Waiting(features, front);
      } else {
        assert Waiting(features, pending) == Waiting(features, front) + [last];
        CountLast(Waiting(features, front), last, x);
      }
    }
  }

  /** Partitioning loses and duplicates nothing. */
  lemma PartitionCounts(features: seq<TypeId>, pending: seq<Resolution>, x: Resolution)
    ensures Count(Ready(features, pending), x) == if Found(features, x.deps) then Count(pending, x) else 0
    ensures Count(Waiting(features, pending), x) == if Found(features, x.deps) then 0 else Count(pending, x)
  {
    ReadyCounts(features, pending, x);
    WaitingCounts(features, pending, x);
  }

  // ----- what holds at every moment of a run

  /** Each registration of `x` was invoked, waits, is about to run or is still to come. */
  ghost predicate Conserves(r: Registry, todo: seq<Work>, calls: seq<Call>, x: Resolution) {
    Count(Callbacks(r.invoked), x) + Count(r.pending, x) + Count(r.pendingOptional, x)
    + DueRuns(todo, x) + DueCalls(todo, x, true)
    == Registered(calls, x, true) + Made(Callbacks(r.invoked), x, true)
  }

  /** ... and a required one that lacks a dependency waits among the required ones. */
  ghost predicate HoldsRequired(r: Registry, todo: seq<Work>, calls: seq<Call>, x: Resolution) {
    !Found(r.features, x.deps) ==>
      Count(r.pending, x) + DueCalls(todo, x, false)
      == Registered(calls, x, false) + Made(Callbacks(r.invoked), x, false)
  }

  /** Who waits lacks something; who ran, or is about to, has everything. */
  ghost predicate InPlace(r: Registry, todo: seq<Work>, x: Resolution) {
    && (Found(r.features, x.deps) ==> Count(r.pending, x) + Count(r.pendingOptional, x) == 0)
    && (!Found(r.features, x.deps) ==> Count(Callbacks(r.invoked), x) + DueRuns(todo, x) == 0)
  }

  ghost predicate AddsUp(r: Registry, todo: seq<Work>, calls: seq<Call>, t: TypeId) {
    t in r.features || Do(Add(t)) in todo <==> IsAdded(calls, Callbacks(r.invoked), t)
  }

  /** An invocation had its dependencies, all of them added by now, and answers a registration made
      before it. */
  ghost predicate Justified(calls: seq<Call>, before: seq<Resolution>, x: Resolution, features: seq<TypeId>) {
    && Found(features, x.deps)
    && (forall t | t in features :: IsAdded(calls, before, t))
    && Count(before, x) < Registered(calls, x, true) + Made(before, x, true)
  }

  ghost predicate Explained(calls: seq<Call>, invoked: seq<(Resolution, seq<TypeId>)>) {
    forall k | 0 <= k < |invoked| :: Justified(calls, Callbacks(invoked[..k]), invoked[k].0, invoked[k].1)
  }

  ghost predicate Balanced(r: Registry, todo: seq<Work>, calls: seq<Call>, x: Resolution) {
    Conserves(r, todo, calls, x) && HoldsRequired(r, todo, calls, x) && InPlace(r, todo, x)
  }

  ghost predicate Sound(r: Registry, todo: seq<Work>, calls: seq<Call>) {
    && !r.running
    && (forall x :: Balanced(r, todo, calls, x))
    && (forall t :: AddsUp(r, todo, calls, t))
    && Explained(calls, r.invoked)
  }

  /** What one more invocation changes in the counts. */
  lemma OneMoreRun(invoked: seq<(Resolution, seq<TypeId>)>, y: Resolution, features: seq<TypeId>,
                   x: Resolution, all: bool)
    ensures var was, now := Callbacks(invoked), Callbacks(invoked + [(y, features)]);
            && now == was + [y]
            && Made(now, x, all) == Made(was, x, all) + Registered(y.calls, x, all)
            && Count(now, x) == Count(was, x) + if y == x then 1 else 0
  {
    var was := Callbacks(invoked);
    assert Callbacks(invoked + [(y, features)]) == was + [y];
    assert (was + [y])[..|was|] == was;
  }

  lemma AddCounts(r: Registry, feature: TypeId, x: Resolution)
    ensures var next, found := WithFeature(r, feature), Found(r.features + [feature], x.deps);
            && Count(next.pending, x) == (if found then 0 else Count(r.pending, x))
            && Count(next.pendingOptional, x) == (if found then 0 else Count(r.pendingOptional, x))
            && Count(Available(r, feature), x)
               == (if found then Count(r.pending, x) + Count(r.pendingOptional, x) else 0)
            && (Found(r.features, x.deps) ==> found)
  {
    var features := r.features + [feature];
    PartitionCounts(features, r.pending, x);
    PartitionCounts(features, r.pendingOptional, x);
    CountAppend(Ready(features, r.pending), Ready(features, r.pendingOptional), x);
  }

  lemma AddIsBalanced(r: Registry, feature: TypeId, rest: seq<Work>, calls: seq<Call>, x: Resolution)
    requires Balanced(r, [Do(Add(feature))] + rest, calls, x)
    ensures Balanced(WithFeature(r, feature), Invokes(Available(r, feature)) + rest, calls, x)
  {
    AddCounts(r, feature, x);
    forall all ensures DueCalls(Invokes(Available(r, feature)) + rest, x, all) == DueCalls([Do(Add(feature))] + rest, x, all)
                       && DueRuns(Invokes(Available(r, feature)) + rest, x) == Count(Available(r, feature), x) + DueRuns(rest, x)
                       && DueRuns([Do(Add(feature))] + rest, x) == DueRuns(rest, x) {
      DueInvokes(Available(r, feature), x, all);
      DueAppend(Invokes(Available(r, feature)), rest, x, all);
      DueAppend([Do(Add(feature))], rest, x, all);
    }
  }

  lemma RequireFinds(r: Registry, y: Resolution, optional: bool, rest: seq<Work>, calls: seq<Call>, x: Resolution)
    requires Balanced(r, [Do(Require(y, optional))] + rest, calls, x) && Found(r.features, y.deps)
    ensures Balanced(r, [Invoke(y)] + rest, calls, x)
  {
    forall all ensures DueCalls([Do(Require(y, optional))] + rest, x, all)
                       == RegisteredBy(Require(y, optional), x, all) + DueCalls([Invoke(y)] + rest, x, all)
                       && DueRuns([Do(Require(y, optional))] + rest, x) == DueRuns(rest, x)
                       && DueRuns([Invoke(y)] + rest, x) == (if y == x then 1 else 0) + DueRuns(rest, x) {
      DueAppend([Do(Require(y, optional))], rest, x, all);
      DueAppend([Invoke(y)], rest, x, all);
    }
  }

  lemma RequireMustWait(r: Registry, y: Resolution, optional: bool, rest: seq<Work>, calls: seq<Call>, x: Resolution)
    requires Balanced(r, [Do(Require(y, optional))] + rest, calls, x) && !Found(r.features, y.deps)
    ensures Balanced(Step(r, Do(Require(y, optional))).0, rest, calls, x)
  {
    CountLast(r.pending, y, x);
    CountLast(r.pendingOptional, y, x);
    forall all ensures DueCalls([Do(Require(y, optional))] + rest, x, all)
                       == RegisteredBy(Require(y, optional), x, all) + DueCalls(rest, x, all)
                       && DueRuns([Do(Require(y, optional))] + rest, x) == DueRuns(rest, x) {
      DueAppend([Do(Require(y, optional))], rest, x, all);
    }
  }

  lemma InvokeIsBalanced(r: Registry, y: Resolution, rest: seq<Work>, calls: seq<Call>, x: Resolution)
    requires Balanced(r, [Invoke(y)] + rest, calls, x)
    ensures var (next, first) := Step(r, Invoke(y)); Balanced(next, first + rest, calls, x)
  {
    forall all ensures DueCalls([Invoke(y)] + rest, x, all) == DueCalls(rest, x, all)
                       && DueCalls(Dos(y.calls) + rest, x, all) == Registered(y.calls, x, all) + DueCalls(rest, x, all)
                       && DueRuns(Dos(y.calls) + rest, x) == DueRuns(rest, x)
                       && DueRuns([Invoke(y)] + rest, x) == (if y == x then 1 else 0) + DueRuns(rest, x) {
      DueAppend([Invoke(y)], rest, x, all);
      DueDos(y.calls, x, all);
      DueAppend(Dos(y.calls), rest, x, all);
    }
    OneMoreRun(r.invoked, y, r.features, x, true);
    OneMoreRun(r.invoked, y, r.features, x, false);
  }

  lemma StepIsBalanced(r: Registry, todo: seq<Work>, calls: seq<Call>, x: Resolution)
    requires todo != [] && !r.running && Balanced(r, todo, calls, x)
    ensures var (next, first) := Step(r, todo[0]); Balanced(next, first + todo[1..], calls, x)
  {
    assert todo == [todo[0]] + todo[1..];
    match todo[0]
    case Do(Require(y, optional)) =>
      if Found(r.features, y.deps) {
        RequireFinds(r, y, optional, todo[1..], calls, x);
      } else {
        RequireMustWait(r, y, optional, todo[1..], calls, x);
        assert [] + todo[1..] == todo[1..];
      }
    case Do(Add(feature)) => AddIsBalanced(r, feature, todo[1..], calls, x);
    case Invoke(y) => InvokeIsBalanced(r, y, todo[1..], calls, x);
  }

  lemma AddIsDue(calls: seq<Call>, t: TypeId)
    ensures Do(Add(t)) in Dos(calls) <==> Add(t) in calls
  {
    forall i | 0 <= i < |calls| && calls[i] == Add(t) ensures Do(Add(t)) in Dos(calls) {
      assert Dos(calls)[i] == Do(Add(t));
    }
  }

  lemma StepAddsUp(r: Registry, todo: seq<Work>, calls: seq<Call>, t: TypeId)
    requires todo != [] && !r.running && AddsUp(r, todo, calls, t)
    ensures var (next, first) := Step(r, todo[0]); AddsUp(next, first + todo[1..], calls, t)
  {
    var (next, first) := Step(r, todo[0]);
    var was := Callbacks(r.invoked);
    assert Do(Add(t)) in todo <==> Do(Add(t)) == todo[0] || Do(Add(t)) in todo[1..];
    match todo[0]
    case Do(Require(_, _)) =>
    case Do(Add(_)) =>
    case Invoke(y) =>
      OneMoreRun(r.invoked, y, r.features, y, true);
      AddIsDue(y.calls, t);
      assert IsAdded(calls, was + [y], t) <==> IsAdded(calls, was, t) || Add(t) in y.calls;
  }

  /** A callback about to run is one more than the times it ran, and no more than it was registered. */
  lemma NextIsJustified(r: Registry, todo: seq<Work>, calls: seq<Call>)
    requires todo != [] && todo[0].Invoke? && Sound(r, todo, calls)
    ensures Justified(calls, Callbacks(r.invoked), todo[0].resolution, r.features)
  {
    var x := todo[0].resolution;
    assert Balanced(r, todo, calls, x);
    forall t | t in r.features ensures IsAdded(calls, Callbacks(r.invoked), t) {
      assert AddsUp(r, todo, calls, t);
    }
  }

  lemma StepIsSound(r: Registry, todo: seq<Work>, calls: seq<Call>)
    requires todo != [] && Sound(r, todo, calls)
    ensures Sound(Step(r, todo[0]).0, Step(r, todo[0]).1 + todo[1..], calls)
  {
    var (next, first) := Step(r, todo[0]);
    forall x ensures Balanced(next, first + todo[1..], calls, x) { StepIsBalanced(r, todo, calls, x); }
    forall t ensures AddsUp(next, first + todo[1..], calls, t) { StepAddsUp(r, todo, calls, t); }
    if todo[0].Invoke? {
      NextIsJustified(r, todo, calls);
      assert forall k | 0 <= k < |r.invoked| :: next.invoked[..k] == r.invoked[..k];
      assert next.invoked[..|r.invoked|] == r.invoked;
    }
  }

  lemma {:induction false} ExecIsSound(r: Registry, todo: seq<Work>, calls: seq<Call>)
    requires Sound(r, todo, calls)
    ensures Sound(Exec(r, todo), [], calls)
    decreases Load(r) + Size(todo)
  {
    if todo != [] {
      var (next, first) := Step(r, todo[0]);
      StepIsSound(r, todo, calls);
      StepShrinks(r, todo[0]);
      SizeAppend(first, todo[1..]);
      ExecIsSound(next, first + todo[1..], calls);
    }
  }

  lemma RunIsSound(calls: seq<Call>)
    ensures Sound(Run(calls), [], calls)
  {
    var todo := Dos(calls);
    assert Callbacks(FRESH.invoked) == [];
    forall x ensures Balanced(FRESH, todo, calls, x) {
      DueDos(calls, x, true);
      DueDos(calls, x, false);
    }
    forall t ensures AddsUp(FRESH, todo, calls, t) { AddIsDue(calls, t); }
    ExecIsSound(FRESH, todo, calls);
  }

  // ----- laws of any run before start, calls made by callbacks included

  /** Each callback is invoked exactly as often as it was registered, by the program or by callbacks
      at any depth, once all its dependencies are there, and waits that often until then. The
      features there are those added, by the program or by a callback that ran. */
  lemma InvokedExactlyOnce(calls: seq<Call>, x: Resolution)
    ensures var r := Run(calls);
            var complete := forall d | d in x.deps :: d in r.features;
            && Count(Callbacks(r.invoked), x) == (if complete then AllRegistered(calls, x, true) else 0)
            && Count(r.pending, x) + Count(r.pendingOptional, x)
               == (if complete then 0 else AllRegistered(calls, x, true))
            && forall t :: t in r.features <==> IsAdded(calls, Callbacks(r.invoked), t)
  {
    RunIsSound(calls);
    var r := Run(calls);
    assert Balanced(r, [], calls, x);
    forall t ensures t in r.features <==> IsAdded(calls, Callbacks(r.invoked), t) { assert AddsUp(r, [], calls, t); }
  }

  lemma EveryRunIsJustified(calls: seq<Call>, k: nat)
    requires k < |Run(calls).invoked|
    ensures Justified(calls, Callbacks(Run(calls).invoked[..k]), Run(calls).invoked[k].0, Run(calls).invoked[k].1)
  {
    RunIsSound(calls);
  }

  /** No callback runs before all its dependencies exist, nor before it was registered once more
      than it ran: each invocation answers an earlier registration of its own. */
  lemma NeverTooEarly(calls: seq<Call>, k: nat)
    requires k < |Run(calls).invoked|
    ensures var (x, seen) := Run(calls).invoked[k];
            var before := Callbacks(Run(calls).invoked[..k]);
            && (forall d | d in x.deps :: d in seen)
            && Count(before, x) < Registered(calls, x, true) + Made(before, x, true)
  {
    EveryRunIsJustified(calls, k);
  }

  /** Waiting required callbacks are those whose dependencies are not all there... */
  lemma RequiredWaits(calls: seq<Call>, x: Resolution)
    ensures Count(Run(calls).pending, x)
         == if forall d | d in x.deps :: d in Run(calls).features then 0 else AllRegistered(calls, x, false)
  {
    RunIsSound(calls);
    assert Balanced(Run(calls), [], calls, x);
  }

  /** ... so passing the check before handlers are added means exactly that every required
      callback has its dependencies, and has therefore been invoked. */
  lemma InitCheckMeansResolved(calls: seq<Call>)
    ensures Run(calls).pending == [] <==>
            forall x | AllRegistered(calls, x, false) > 0 :: forall d | d in x.deps :: d in Run(calls).features
  {
    var pending := Run(calls).pending;
    if pending != [] {
      var x := pending[|pending| - 1];
      RequiredWaits(calls, x);
      assert Count(pending, x) > 0;
    }
    forall x | AllRegistered(calls, x, false) > 0 && pending == [] ensures Found(Run(calls).features, x.deps) {
      RequiredWaits(calls, x);
    }
  }

  // ----- the order of the calls does not matter

  ghost predicate NoMoreThan(some: seq<Resolution>, more: seq<Resolution>) {
    forall y :: Count(some, y) <= Count(more, y)
  }

  lemma {:induction false} CountedIsIn(xs: seq<Resolution>, x: Resolution)
    ensures Count(xs, x) > 0 <==> x in xs
  {
    if xs != [] {
      CountedIsIn(xs[..|xs| - 1], x);
      assert xs == xs[..|xs| - 1] + [xs[|xs| - 1]];
    }
  }

  /** The more callbacks ran, the more registrations they made. */
  lemma {:induction false} MadeByMonotone(some: seq<Resolution>, more: seq<Resolution>, x: Resolution)
    requires NoMoreThan(some, more)
    ensures Made(some, x, true) <= Made(more, x, true)
  {
    if some != [] {
      var front, last := some[..|some| - 1], some[|some| - 1];
      assert Count(some, last) <= Count(more, last);
      CountedIsIn(more, last);
      var i :| 0 <= i < |more| && more[i] == last;
      var a, b := more[..i], more[i + 1..];
      assert more == (a + [last]) + b;
      forall y ensures Count(front, y) <= Count(a + b, y) {
        assert Count(some, y) <= Count(more, y);
        CountAppend(a + [last], b, y);
        CountLast(a, last, y);
        CountAppend(a, b, y);
      }
      MadeByMonotone(front, a + b, x);
      MadeAppend(a, b, x, true);
      MadeAppend(a + [last], b, x, true);
      MadeAppend(a, [last], x, true);
    }
  }

  /** The same registrations and features, in any order. */
  ghost predicate SameCalls(some: seq<Call>, others: seq<Call>) {
    && (forall x :: Registered(some, x, true) == Registered(others, x, true))
    && (forall t :: Add(t) in some <==> Add(t) in others)
  }

  lemma OthersAddIt(some: seq<Call>, others: seq<Call>, before: seq<Resolution>, t: TypeId)
    requires SameCalls(some, others) && NoMoreThan(before, Callbacks(Run(others).invoked))
    requires IsAdded(some, before, t)
    ensures t in Run(others).features
  {
    var theirs := Callbacks(Run(others).invoked);
    RunIsSound(others);
    forall x | x in before ensures x in theirs {
      assert Count(before, x) <= Count(theirs, x);
      CountedIsIn(before, x);
      CountedIsIn(theirs, x);
    }
    assert AddsUp(Run(others), [], others, t);
  }

  /** A callback one order invokes next is invoked by the other at least once more than so far. */
  lemma OthersRunIt(some: seq<Call>, others: seq<Call>, before: seq<Resolution>, y: Resolution, seen: seq<TypeId>)
    requires SameCalls(some, others) && NoMoreThan(before, Callbacks(Run(others).invoked))
    requires Justified(some, before, y, seen)
    ensures Count(before, y) < Count(Callbacks(Run(others).invoked), y)
  {
    InvokedExactlyOnce(others, y);
    forall t | t in seen ensures t in Run(others).features { OthersAddIt(some, others, before, t); }
    MadeByMonotone(before, Callbacks(Run(others).invoked), y);
  }

  /** Whatever one order has invoked so far, the other invokes as well. */
  lemma {:induction false} OthersInvokeIt(some: seq<Call>, others: seq<Call>, k: nat)
    requires k <= |Run(some).invoked| && SameCalls(some, others)
    ensures NoMoreThan(Callbacks(Run(some).invoked[..k]), Callbacks(Run(others).invoked))
  {
    if k > 0 {
      var invoked, theirs := Run(some).invoked, Callbacks(Run(others).invoked);
      var before, y := Callbacks(invoked[..k - 1]), invoked[k - 1].0;
      OthersInvokeIt(some, others, k - 1);
      EveryRunIsJustified(some, k - 1);
      OthersRunIt(some, others, before, y, invoked[k - 1].1);
      assert Callbacks(invoked[..k]) == before + [y];
      forall x ensures Count(before + [y], x) <= Count(theirs, x) {
        CountLast(before, y, x);
        assert Count(before, x) <= Count(theirs, x);
      }
    }
  }

  lemma OneInvokesAllOfTheOther(some: seq<Call>, others: seq<Call>)
    requires SameCalls(some, others)
    ensures NoMoreThan(Callbacks(Run(some).invoked), Callbacks(Run(others).invoked))
    ensures forall t | t in Run(some).features :: t in Run(others).features
  {
    var invoked := Run(some).invoked;
    OthersInvokeIt(some, others, |invoked|);
    assert invoked[..|invoked|] == invoked;
    RunIsSound(some);
    forall t | t in Run(some).features ensures t in Run(others).features {
      assert AddsUp(Run(some), [], some, t);
      OthersAddIt(some, others, Callbacks(invoked), t);
    }
  }

  /** Two orders of the same registrations and features invoke the same callbacks, each as often,
      and so lead to the same features, however deep the calls were made. */
  lemma OrderIndependent(some: seq<Call>, others: seq<Call>)
    requires SameCalls(some, others)
    ensures multiset(Callbacks(Run(some).invoked)) == multiset(Callbacks(Run(others).invoked))
    ensures forall t :: t in Run(some).features <==> t in Run(others).features
  {
    OneInvokesAllOfTheOther(some, others);
    OneInvokesAllOfTheOther(others, some);
    var mine, theirs := Callbacks(Run(some).invoked), Callbacks(Run(others).invoked);
    forall x ensures multiset(mine)[x] == multiset(theirs)[x] {
      assert Count(mine, x) <= Count(theirs, x) <= Count(mine, x);
      CountIsMultiset(mine, x);
      CountIsMultiset(theirs, x);
    }
  }
}
