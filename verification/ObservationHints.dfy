/** The source of observation hints (frontend/src/observation-events.ts): one event stream per query
    cache, whose hints are gathered for a second and then flushed as one invalidation. */
module ObservationHints {
  import opened Wrappers

  /** The query groups a domain refreshes; a domain that is not listed refreshes none. */
  function Groups(domain: string): seq<string> {
    if domain == "nodes" then ["nodes"]
    else if domain == "load" then ["node-load-list", "node-nic-list", "node-load-history", "node-load-metrics"]
    else if domain == "traffic" then ["node-traffic", "usage-node-series", "usage-chain"]
    else if domain == "e2e" then ["e2e-probes"]
    else if domain == "unlock" then ["chain-unlock-probes", "node-unlock-probe", "chain-unlock-probe"]
    else if domain == "deployments" then ["deployments"]
    else if domain == "tunnel_probes" then ["tunnel-probes", "tunnel-probe"]
    else []
  }

  const DOMAINS: seq<string> := ["nodes", "load", "traffic", "e2e", "unlock", "deployments", "tunnel_probes"]

  /** What an `invalidate` frame carries: `None` when it does not parse to a list; an item is `None`
      when it is not a string. */
  type Hint = Option<seq<Option<string>>>

  function KeysOf(hint: Hint): set<string> {
    match hint
    case None => {}
    case Some(domains) => set i, k | 0 <= i < |domains| && domains[i].Some? && k in Groups(domains[i].value) :: k
  }

  function AllDomains(): Hint { Some(seq(|DOMAINS|, i requires 0 <= i < |DOMAINS| => Some(DOMAINS[i]))) }

  /** The domain whose changes a query group shows. */
  ghost predicate Shows(group: string, domain: string) {
    || (group == "nodes" && domain == "nodes")
    || (group in {"node-load-list", "node-nic-list", "node-load-history", "node-load-metrics"} && domain == "load")
    || (group in {"node-traffic", "usage-node-series", "usage-chain"} && domain == "traffic")
    || (group == "e2e-probes" && domain == "e2e")
    || (group in {"chain-unlock-probes", "node-unlock-probe", "chain-unlock-probe"} && domain == "unlock")
    || (group == "deployments" && domain == "deployments")
    || (group in {"tunnel-probes", "tunnel-probe"} && domain == "tunnel_probes")
  }

  /** A hint refreshes the groups that show one of its domains, and no others. */
  lemma HintRefreshes(domains: seq<Option<string>>, k: string)
    ensures k in KeysOf(Some(domains)) <==> exists d :: Some(d) in domains && Shows(k, d)
  {
    forall d ensures k in Groups(d) <==> Shows(k, d) { GroupsShow(d, k); }
    if d :| Some(d) in domains && Shows(k, d) {
      var i :| 0 <= i < |domains| && domains[i] == Some(d);
      assert domains[i].Some? && k in Groups(domains[i].value);
    }
    if k in KeysOf(Some(domains)) {
      var i :| 0 <= i < |domains| && domains[i].Some? && k in Groups(domains[i].value);
      assert domains[i] == Some(domains[i].value);
    }
  }

  lemma GroupsShow(d: string, k: string)
    ensures k in Groups(d) <==> Shows(k, d)
  {
  }

  /** A stream that becomes ready refreshes every group of every domain. */
  lemma ReadyRefreshesAll(k: string)
    ensures k in KeysOf(AllDomains()) <==> exists d :: Shows(k, d)
  {
    var all := AllDomains().value;
    HintRefreshes(all, k);
    if d :| Shows(k, d) {
      DomainIsListed(k, d);
      var i :| 0 <= i < |DOMAINS| && DOMAINS[i] == d;
      assert all[i] == Some(d);
    }
  }

  lemma DomainIsListed(k: string, d: string)
    requires Shows(k, d)
    ensures d in DOMAINS
  {
    assert DOMAINS[0] == "nodes" && DOMAINS[1] == "load" && DOMAINS[2] == "traffic" && DOMAINS[3] == "e2e";
    assert DOMAINS[4] == "unlock" && DOMAINS[5] == "deployments" && DOMAINS[6] == "tunnel_probes";
  }

  /** `source` numbers the open stream; `streams` counts the streams ever opened. `reopen` says that a
      reopening timeout is armed. `inFlight` holds the keys of invalidations that have not settled. */
  datatype State = State(
    users: nat, source: Option<nat>, streams: nat, timer: bool, reopen: bool,
    pending: set<string>, flushing: bool, inFlight: seq<set<string>>, hidden: bool, supported: bool)

  function Initial(hidden: bool, supported: bool): State {
    State(0, None, 0, false, false, {}, false, [], hidden, supported)
  }

  // ----- the handlers

  function Scheduled(s: State): State {
    if s.users == 0 || s.timer || s.flushing || s.pending == {} then s else s.(timer := true)
  }

  function Enqueued(s: State, hint: Hint): State {
    if hint.None? then s else Scheduled(s.(pending := s.pending + KeysOf(hint)))
  }

  function Closed(s: State): State { s.(source := None, timer := false, reopen := false, pending := {}) }

  function Opened(s: State): State {
    if s.users == 0 || s.source.Some? || s.hidden || !s.supported then s
    else s.(source := Some(s.streams), streams := s.streams + 1)
  }

  function Fired(s: State): State {
    s.(timer := false, pending := {}, flushing := true, inFlight := s.inFlight + [s.pending])
  }

  function Settled(s: State, i: nat): State
    requires i < |s.inFlight|
  {
    Scheduled(s.(flushing := false, inFlight := s.inFlight[..i] + s.inFlight[i + 1..]))
  }

  function Retained(s: State): State {
    var more := s.(users := s.users + 1);
    if more.users == 1 then Opened(more) else more
  }

  function Released(s: State): State
    requires s.users > 0
  {
    var less := s.(users := s.users - 1);
    if less.users == 0 then Closed(less) else less
  }

  function Shown(s: State, hidden: bool): State {
    var seen := s.(hidden := hidden);
    if s.users == 0 then seen else if hidden then Closed(seen) else Opened(seen)
  }

  datatype Event =
    | Retain
    | Release
    | Ready(id: nat)
    | Invalidate(id: nat, hint: Hint)
    | Reset(id: nat)
    | TimerFires
    | FlushSettles(index: nat)
    | ReopenFires
    | VisibilityChange(hiding: bool)

  predicate Enabled(s: State, e: Event) {
    match e
    case Release => s.users > 0
    case Ready(id) => id < s.streams
    case Invalidate(id, _) => id < s.streams
    case Reset(id) => id < s.streams
    case TimerFires => s.timer
    case FlushSettles(i) => i < |s.inFlight|
    case ReopenFires => s.reopen
    case _ => true
  }

  function Do(s: State, e: Event): State
    requires Enabled(s, e)
  {
    match e
    case Retain => Retained(s)
    case Release => Released(s)
    case Ready(id) => if s.source == Some(id) then Enqueued(s, AllDomains()) else s
    case Invalidate(id, hint) => if s.source == Some(id) then Enqueued(s, hint) else s
    case Reset(id) => if s.source == Some(id) then Closed(s).(reopen := true) else s
    case TimerFires => Fired(s)
    case FlushSettles(i) => Settled(s, i)
    case ReopenFires => Opened(s.(reopen := false))
    case VisibilityChange(hiding) => Shown(s, hiding)
  }

  /** One step of a run. */
  ghost predicate StepsAt(states: seq<State>, events: seq<Event>, i: nat)
    requires i < |events| < |states|
  {
    Enabled(states[i], events[i]) && states[i + 1] == Do(states[i], events[i])
  }

  /** States a run passes through, one more than its events. */
  ghost predicate IsRun(states: seq<State>, events: seq<Event>) {
    && |states| == |events| + 1
    && (exists hidden, supported :: states[0] == Initial(hidden, supported))
    && forall i | 0 <= i < |events| :: StepsAt(states, events, i)
  }

  /** What a stream says after it was closed is ignored. */
  lemma StaleIsIgnored(s: State, id: nat, hint: Hint)
    requires id < s.streams && s.source != Some(id)
    ensures Do(s, Ready(id)) == Do(s, Invalidate(id, hint)) == Do(s, Reset(id)) == s
  {
  }

  // ----- what every reachable state satisfies

  ghost predicate Inv(s: State) {
    // a waiting hint has a timer armed or a flush in progress, never both
    && (s.pending != {} ==> s.timer || s.flushing)
    && !(s.timer && s.flushing)
    && (s.timer ==> s.pending != {})
    // at most one flush is in flight, and the flag says whether there is one
    && |s.inFlight| == (if s.flushing then 1 else 0)
    // hints wait only while a stream is open
    && (s.source.None? ==> s.pending == {} && !s.timer)
    && (s.source.Some? ==> s.source.value < s.streams)
    // a stream is open, or about to be reopened, exactly while the source is used and visible
    && (s.source.Some? || s.reopen <==> s.users > 0 && !s.hidden && s.supported)
  }

  lemma EnqueuedKeepsInv(s: State, hint: Hint)
    requires Inv(s) && s.source.Some?
    ensures Inv(Enqueued(s, hint))
  {
  }

  lemma SettledKeepsInv(s: State, i: nat)
    requires Inv(s) && i < |s.inFlight|
    ensures Inv(Settled(s, i))
  {
  }

  lemma RetainedKeepsInv(s: State)
    requires Inv(s)
    ensures Inv(Retained(s))
  {
  }

  lemma ReleasedKeepsInv(s: State)
    requires Inv(s) && s.users > 0
    ensures Inv(Released(s))
  {
  }

  lemma ShownKeepsInv(s: State, hidden: bool)
    requires Inv(s)
    ensures Inv(Shown(s, hidden))
  {
  }

  lemma StepKeepsInv(s: State, e: Event)
    requires Inv(s) && Enabled(s, e)
    ensures Inv(Do(s, e))
  {
    match e
    case Retain => RetainedKeepsInv(s);
    case Release => ReleasedKeepsInv(s);
    case Ready(id) => if s.source == Some(id) { EnqueuedKeepsInv(s, AllDomains()); }
    case Invalidate(id, hint) => if s.source == Some(id) { EnqueuedKeepsInv(s, hint); }
    case Reset(_) =>
    case TimerFires =>
    case FlushSettles(i) => SettledKeepsInv(s, i);
    case ReopenFires =>
    case VisibilityChange(hiding) => ShownKeepsInv(s, hiding);
  }

  lemma NextKeepsInv(states: seq<State>, events: seq<Event>, i: nat)
    requires IsRun(states, events) && i < |events| && Inv(states[i])
    ensures Inv(states[i + 1])
  {
    assert StepsAt(states, events, i);
    StepKeepsInv(states[i], events[i]);
  }

  lemma {:induction false} RunKeepsInv(states: seq<State>, events: seq<Event>, n: nat)
    requires IsRun(states, events) && n < |states|
    ensures Inv(states[n])
  {
    if n > 0 {
      RunKeepsInv(states, events, n - 1);
      NextKeepsInv(states, events, n - 1);
    }
  }

  // ----- hints are not lost

  /** The keys the step accepts from the stream that is open. */
  function Accepts(s: State, e: Event): set<string> {
    match e
    case Ready(id) => if s.source == Some(id) then KeysOf(AllDomains()) else {}
    case Invalidate(id, hint) => if s.source == Some(id) then KeysOf(hint) else {}
    case _ => {}
  }

  /** The keys whose queries the step invalidates. */
  function Flushes(s: State, e: Event): set<string> { if e.TimerFires? then s.pending else {} }

  /** The step closes the open stream. */
  predicate Closes(s: State, e: Event) {
    s.source.Some? &&
    match e
    case Release => s.users == 1
    case Reset(id) => s.source == Some(id)
    case VisibilityChange(hiding) => hiding
    case _ => false
  }

  /** The step ends a key's wait. */
  predicate Ends(s: State, e: Event, k: string) { k in Flushes(s, e) || Closes(s, e) }

  /** A step that does not end its wait keeps a waiting key, and an accepted one waits. */
  lemma StaysPending(s: State, e: Event, k: string)
    requires Inv(s) && Enabled(s, e) && k in s.pending
    ensures k in Do(s, e).pending || Ends(s, e, k)
  {
  }

  lemma AcceptedWaits(s: State, e: Event, k: string)
    requires Inv(s) && Enabled(s, e) && k in Accepts(s, e)
    ensures k in Do(s, e).pending
  {
  }

  lemma NextKeepsPending(states: seq<State>, events: seq<Event>, i: nat, k: string)
    requires IsRun(states, events) && i < |events|
    ensures k in Accepts(states[i], events[i]) ==> k in states[i + 1].pending
    ensures k in states[i].pending ==> k in states[i + 1].pending || Ends(states[i], events[i], k)
  {
    assert StepsAt(states, events, i);
    RunKeepsInv(states, events, i);
    if k in Accepts(states[i], events[i]) { AcceptedWaits(states[i], events[i], k); }
    if k in states[i].pending { StaysPending(states[i], events[i], k); }
  }

  /** A key accepted at one step is still waiting at any later state, unless a step in between flushed
      it or closed the stream it came from. A flush that was already running does not count. */
  lemma {:induction false} AcceptedUntilFlushed(states: seq<State>, events: seq<Event>, i: nat, n: nat, k: string)
    requires IsRun(states, events) && i < n < |states| && k in Accepts(states[i], events[i])
    ensures || k in states[n].pending
            || exists j :: i < j < n && Ends(states[j], events[j], k)
  {
    NextKeepsPending(states, events, n - 1, k);
    if n - 1 > i { AcceptedUntilFlushed(states, events, i, n - 1, k); }
  }

  lemma ClosesIffStreamGoes(s: State, e: Event)
    requires Inv(s) && Enabled(s, e)
    ensures Closes(s, e) <==> s.source.Some? && Do(s, e).source != s.source
    ensures Do(s, e).source.Some? ==> Do(s, e).source == s.source || Do(s, e).source == Some(s.streams)
    ensures s.streams <= Do(s, e).streams
  {
  }

  lemma StreamsGrowBy(s: State, e: Event)
    requires Enabled(s, e)
    ensures s.streams <= Do(s, e).streams
  {
  }

  lemma NextGrows(states: seq<State>, events: seq<Event>, i: nat)
    requires IsRun(states, events) && i < |events|
    ensures states[i].streams <= states[i + 1].streams
  {
    assert StepsAt(states, events, i);
    StreamsGrowBy(states[i], events[i]);
  }

  lemma {:induction false} StreamsGrow(states: seq<State>, events: seq<Event>, i: nat, n: nat)
    requires IsRun(states, events) && i <= n < |states|
    ensures states[i].streams <= states[n].streams
  {
    if i < n {
      StreamsGrow(states, events, i, n - 1);
      NextGrows(states, events, n - 1);
    }
  }

  /** The number of a stream is never given again, and a step that leaves it open keeps its keys. */
  lemma OpenStreamKeeps(s: State, e: Event, id: nat, k: string)
    requires Inv(s) && Enabled(s, e) && id < s.streams && Do(s, e).source == Some(id)
    ensures s.source == Some(id)
    ensures k in s.pending || k in Accepts(s, e) ==> k in Do(s, e).pending || k in Flushes(s, e)
  {
    ClosesIffStreamGoes(s, e);
    if k in s.pending { StaysPending(s, e, k); }
    if k in Accepts(s, e) { AcceptedWaits(s, e, k); }
  }

  lemma OpenStreamKeepsAt(states: seq<State>, events: seq<Event>, i: nat, j: nat, k: string)
    requires IsRun(states, events) && i <= j < |events| && states[i].source.Some?
    requires states[j + 1].source == states[i].source
    ensures states[j].source == states[i].source
    ensures k in states[j].pending || k in Accepts(states[j], events[j]) ==>
              k in states[j + 1].pending || k in Flushes(states[j], events[j])
  {
    RunKeepsInv(states, events, i);
    RunKeepsInv(states, events, j);
    StreamsGrow(states, events, i, j);
    assert StepsAt(states, events, j);
    OpenStreamKeeps(states[j], events[j], states[i].source.value, k);
  }

  /** As long as the stream a key came from is the open one, the key is waiting or has been flushed. */
  lemma KeptWhileStreamIsOpen(states: seq<State>, events: seq<Event>, i: nat, n: nat, k: string)
    requires IsRun(states, events) && i < n < |states| && k in Accepts(states[i], events[i])
    requires states[n].source == states[i].source
    ensures k in states[n].pending || exists j :: i < j < n && k in Flushes(states[j], events[j])
  {
    var open := seq(n + 1, j requires 0 <= j <= n => states[j].source == states[i].source);
    var waits := seq(n + 1, j requires 0 <= j <= n => k in states[j].pending);
    var flushed := seq(n, j requires 0 <= j < n => k in Flushes(states[j], events[j]));
    forall j | i <= j < n && open[j + 1] ensures open[j] && (waits[j] || j == i ==> waits[j + 1] || flushed[j]) {
      OpenStreamKeepsAt(states, events, i, j, k);
    }
    assert !flushed[i];
    WaitsThrough(open, waits, flushed, i, n);
  }

  lemma {:induction false} WaitsThrough(open: seq<bool>, waits: seq<bool>, flushed: seq<bool>, i: nat, n: nat)
    requires |open| == |waits| > n > i && |flushed| >= n && open[n] && !flushed[i]
    requires forall j | i <= j < n && open[j + 1] :: open[j] && (waits[j] || j == i ==> waits[j + 1] || flushed[j])
    ensures waits[n] || exists j :: i < j < n && flushed[j]
  {
    assert open[n - 1 + 1];
    if n - 1 > i { WaitsThrough(open, waits, flushed, i, n - 1); }
  }

  /** What is waiting, and so whatever is flushed, was accepted from the stream that is open now, after
      the last flush of that key. */
  lemma WaitingWasAccepted(states: seq<State>, events: seq<Event>, n: nat, k: string) returns (i: nat)
    requires IsRun(states, events) && n < |states| && k in states[n].pending
    ensures i < n && k in Accepts(states[i], events[i])
    ensures forall j | i < j < n :: !Ends(states[j], events[j], k)
  {
    var waits := seq(n + 1, j requires 0 <= j <= n => k in states[j].pending);
    var accepts := seq(n, j requires 0 <= j < n => k in Accepts(states[j], events[j]));
    var ends := seq(n, j requires 0 <= j < n => Ends(states[j], events[j], k));
    forall j | 0 <= j < n && waits[j + 1] ensures accepts[j] || (waits[j] && !ends[j]) {
      RunKeepsInv(states, events, j);
      assert StepsAt(states, events, j);
      WaitingBefore(states[j], events[j], k);
    }
    i := TraceBack(waits, accepts, ends, n);
    forall j | i < j < n ensures !Ends(states[j], events[j], k) { assert !ends[j]; }
  }

  lemma {:induction false} TraceBack(waits: seq<bool>, accepts: seq<bool>, ends: seq<bool>, n: nat) returns (i: nat)
    requires |waits| > |accepts| == |ends| >= n && waits[n] && !waits[0]
    requires forall j | 0 <= j < n && waits[j + 1] :: accepts[j] || (waits[j] && !ends[j])
    ensures i < n && accepts[i] && forall j | i < j < n :: !ends[j]
  {
    assert waits[n - 1 + 1];
    if accepts[n - 1] { i := n - 1; } else { i := TraceBack(waits, accepts, ends, n - 1); }
  }

  /** A waiting key was already waiting before the last step, undisturbed by it, or accepted by it. */
  lemma WaitingBefore(s: State, e: Event, k: string)
    requires Inv(s) && Enabled(s, e) && k in Do(s, e).pending
    ensures k in Accepts(s, e) || (k in s.pending && !Ends(s, e, k))
  {
  }

  /** A waiting hint is at most two steps from its flush: the timer fires, or first the running flush
      settles and arms it. Both are enabled in every reachable state, whatever closed or reopened. */
  lemma WaitingIsArmed(s: State)
    requires Inv(s) && s.pending != {}
    ensures var ready := if s.timer then s else Do(s, FlushSettles(0));
            && (s.timer || Enabled(s, FlushSettles(0)))
            && Enabled(ready, TimerFires) && Flushes(ready, TimerFires) == s.pending
            && Do(ready, TimerFires).pending == {} && Do(ready, TimerFires).inFlight == [s.pending]
  {
    if !s.timer { assert s.inFlight[..0] + s.inFlight[1..] == []; }
  }

  /** With no users left nothing stays open, armed or waiting. */
  lemma UnusedIsQuiet(states: seq<State>, events: seq<Event>, n: nat)
    requires IsRun(states, events) && n < |states| && states[n].users == 0
    ensures states[n].source.None? && !states[n].timer && !states[n].reopen && states[n].pending == {}
  {
    RunKeepsInv(states, events, n);
  }

  // ----- the closures, updating their variables in place

  class Source {
    var users: nat
    var source: Option<nat>
    var streams: nat
    var timer: bool
    var reopen: bool
    var pending: set<string>
    var flushing: bool
    var inFlight: seq<set<string>>
    var hidden: bool
    const supported: bool

    /** Every state so far and the events between them. */
    ghost var states: seq<State>
    ghost var events: seq<Event>

    ghost function Value(): State
      reads this
    {
      State(users, source, streams, timer, reopen, pending, flushing, inFlight, hidden, supported)
    }

    /** The variables are the last state of a run, so every law of runs speaks of them. */
    ghost predicate Valid()
      reads this
    {
      IsRun(states, events) && states[|events|] == Value() && Inv(Value())
    }

    /** The handler of this event has run. */
    twostate predicate Took(e: Event)
      reads this
    {
      && Valid() && Enabled(old(Value()), e) && Value() == Do(old(Value()), e)
      && events == old(events) + [e] && states == old(states) + [Value()]
    }

    /** A run goes on with one more step. */
    static lemma RunsOn(states: seq<State>, events: seq<Event>, e: Event, now: State)
      requires IsRun(states, events) && Enabled(states[|events|], e) && now == Do(states[|events|], e)
      ensures IsRun(states + [now], events + [e]) && Inv(now)
    {
      var after, taken := states + [now], events + [e];
      forall i | 0 <= i < |taken| ensures StepsAt(after, taken, i) {
        assert i < |events| ==> StepsAt(states, events, i);
      }
      RunKeepsInv(after, taken, |taken|);
    }

    ghost method Record(e: Event, was: State)
      requires IsRun(states, events) && states[|events|] == was
      requires Enabled(was, e) && Value() == Do(was, e)
      modifies `states, `events
      ensures Valid() && events == old(events) + [e] && states == old(states) + [Value()]
    {
      RunsOn(states, events, e, Value());
      states, events := states + [Value()], events + [e];
    }

    constructor (hidden: bool, supported: bool)
      ensures Valid() && Value() == Initial(hidden, supported) && events == []
    {
      users, source, streams := 0, None, 0;
      timer, reopen, pending := false, false, {};
      flushing, inFlight := false, [];
      this.hidden, this.supported := hidden, supported;
      states, events := [Initial(hidden, supported)], [];
    }

    method Schedule()
      modifies `timer
      ensures Value() == Scheduled(old(Value()))
    {
      if users == 0 || timer || flushing || pending == {} { return; }
      timer := true;
    }

    method OnTimer()
      requires Valid() && timer
      modifies this
      ensures Took(TimerFires)
    {
      timer := false;
      var keys := pending;
      pending := {};
      flushing := true;
      inFlight := inFlight + [keys];
      Record(TimerFires, old(Value()));
    }

    method OnSettled(index: nat)
      requires Valid() && index < |inFlight|
      modifies this
      ensures Took(FlushSettles(index))
    {
      inFlight := inFlight[..index] + inFlight[index + 1..];
      flushing := false;
      Schedule();
      Record(FlushSettles(index), old(Value()));
    }

    method AddAll(keys: seq<string>)
      modifies `pending
      ensures pending == old(pending) + set k | k in keys
    {
      for j := 0 to |keys|
        invariant pending == old(pending) + set k | k in keys[..j]
      {
        assert keys[..j + 1] == keys[..j] + [keys[j]];
        pending := pending + {keys[j]};
      }
      assert keys[..|keys|] == keys;
    }

    method AddDomains(domains: seq<Option<string>>)
      modifies `pending
      ensures pending == old(pending) + KeysOf(Some(domains))
    {
      for i := 0 to |domains|
        invariant pending == old(pending) + KeysOf(Some(domains[..i]))
      {
        KeysOfOneMore(domains, i);
        if domains[i].Some? { AddAll(Groups(domains[i].value)); }
      }
      assert domains[..|domains|] == domains;
    }

    method Enqueue(hint: Hint)
      modifies `pending, `timer
      ensures Value() == Enqueued(old(Value()), hint)
    {
      if hint.None? { return; }
      AddDomains(hint.value);
      Schedule();
    }

    method Close()
      modifies `source, `timer, `reopen, `pending
      ensures Value() == Closed(old(Value()))
    {
      source := None;
      timer := false;
      reopen := false;
      pending := {};
    }

    method Open()
      modifies `source, `streams
      ensures Value() == Opened(old(Value()))
    {
      if users == 0 || source.Some? || hidden || !supported { return; }
      source := Some(streams);
      streams := streams + 1;
    }

    method OnReady(id: nat)
      requires Valid() && id < streams
      modifies this
      ensures Took(Ready(id))
    {
      if source == Some(id) { Enqueue(AllDomains()); }
      Record(Ready(id), old(Value()));
    }

    method OnInvalidate(id: nat, hint: Hint)
      requires Valid() && id < streams
      modifies this
      ensures Took(Invalidate(id, hint))
    {
      if source == Some(id) { Enqueue(hint); }
      Record(Invalidate(id, hint), old(Value()));
    }

    method OnReset(id: nat)
      requires Valid() && id < streams
      modifies this
      ensures Took(Reset(id))
    {
      if source == Some(id) {
        Close();
        reopen := true;
      }
      Record(Reset(id), old(Value()));
    }

    method OnReopen()
      requires Valid() && reopen
      modifies this
      ensures Took(ReopenFires)
    {
      reopen := false;
      Open();
      Record(ReopenFires, old(Value()));
    }

    method OnVisibility(hiding: bool)
      requires Valid()
      modifies this
      ensures Took(VisibilityChange(hiding))
    {
      hidden := hiding;
      if users > 0 {
        if hidden { Close(); } else { Open(); }
      }
      Record(VisibilityChange(hiding), old(Value()));
    }

    method RetainOne()
      requires Valid()
      modifies this
      ensures Took(Retain)
    {
      users := users + 1;
      if users == 1 { Open(); }
      Record(Retain, old(Value()));
    }

    method ReleaseOne()
      requires Valid() && users > 0
      modifies this
      ensures Took(Release)
    {
      users := users - 1;
      if users == 0 { Close(); }
      Record(Release, old(Value()));
    }
  }

  lemma KeysOfOneMore(domains: seq<Option<string>>, i: nat)
    requires i < |domains|
    ensures KeysOf(Some(domains[..i + 1])) ==
            KeysOf(Some(domains[..i])) + (if domains[i].Some? then set k | k in Groups(domains[i].value) else {})
  {
    var less, more := domains[..i], domains[..i + 1];
    assert forall j | 0 <= j < i :: more[j] == less[j];
    assert more[i] == domains[i];
  }
}
