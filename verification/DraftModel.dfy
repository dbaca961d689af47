/** Draft entries and how a pushed operation is folded into them (frontend/src/draft.ts). */
module DraftModel {
  import opened Wrappers
  import opened IngressMerge

  /** The `op` tag of a `ModelOp`. */
  datatype OpKind =
    | CreateApp | UpsertApp | ReorderApps | ReorderChains | MoveChain
    | UpsertExternalOutbound | DeleteExternalOutbound
    | CreateChain | UpsertChain | DeleteChain | PruneChain
    | CreateIngress | UpsertIngress
    | PutStep | DeleteStep
    | SetNodeEgressDns | ReorderNodeEgressDns
    | UpsertGrant | CreateTenant | CreateUser | RotateUserUuid | UpdateUserStatus
    | UpdateNode | SetNodeCertGroup | UpdateNodeStatus | SetWireguardLinkDisabled
    | UpdateSettings

  /** What the part of a key before its first `:` names. */
  datatype Scope =
    | AppScope | AppOrder | ChainOrder | ChainMove | ExternalOutbound | ChainScope | Prune
    | IngressScope | StepScope | EgressDns | EgressDnsOrder | Grant | Tenant | User | UserUuid
    | UserStatus | NodeScope | NodeCertGroup | NodeStatus | WireguardLink | Settings

  function ScopeOf(kind: OpKind): Scope {
    match kind
    case CreateApp => AppScope
    case UpsertApp => AppScope
    case ReorderApps => AppOrder
    case ReorderChains => ChainOrder
    case MoveChain => ChainMove
    case UpsertExternalOutbound => ExternalOutbound
    case DeleteExternalOutbound => ExternalOutbound
    case CreateChain => ChainScope
    case UpsertChain => ChainScope
    case DeleteChain => ChainScope
    case PruneChain => Prune
    case CreateIngress => IngressScope
    case UpsertIngress => IngressScope
    case PutStep => StepScope
    case DeleteStep => StepScope
    case SetNodeEgressDns => EgressDns
    case ReorderNodeEgressDns => EgressDnsOrder
    case UpsertGrant => Grant
    case CreateTenant => Tenant
    case CreateUser => User
    case RotateUserUuid => UserUuid
    case UpdateUserStatus => UserStatus
    case UpdateNode => NodeScope
    case SetNodeCertGroup => NodeCertGroup
    case UpdateNodeStatus => NodeStatus
    case SetWireguardLinkDisabled => WireguardLink
    case UpdateSettings => Settings
  }

  /** An operation: its tag, the ids that name its target, and the body it writes. */
  datatype Op = Op(kind: OpKind, target: seq<string>, body: map<string, Json>)

  datatype Key = Key(scope: Scope, target: seq<string>)

  /** `entryOf`: the target of an operation. Moves never share a key, whence the nonce. */
  function KeyOf(op: Op, nonce: string): Key {
    Key(ScopeOf(op.kind), if op.kind == MoveChain then op.target + [nonce] else op.target)
  }

  /** Which operations act on one kind of object: those of one tag, the creation, update and deletion of
      an app, a chain, an ingress or an external outbound, and writing or deleting a step. */
  ghost predicate SameObjects(a: OpKind, b: OpKind) {
    || a == b
    || (a in {CreateApp, UpsertApp} && b in {CreateApp, UpsertApp})
    || (a in {CreateChain, UpsertChain, DeleteChain} && b in {CreateChain, UpsertChain, DeleteChain})
    || (a in {CreateIngress, UpsertIngress} && b in {CreateIngress, UpsertIngress})
    || (a in {UpsertExternalOutbound, DeleteExternalOutbound} && b in {UpsertExternalOutbound, DeleteExternalOutbound})
    || (a in {PutStep, DeleteStep} && b in {PutStep, DeleteStep})
  }

  /** Two operations share a key exactly when they act on one object; moves of a chain only if they are
      one move. */
  lemma KeysAreObjects(a: Op, x: string, b: Op, y: string)
    ensures KeyOf(a, x) == KeyOf(b, y) <==>
            SameObjects(a.kind, b.kind) && a.target == b.target && (a.kind == MoveChain ==> x == y)
  {
    ScopesAreObjects(a.kind, b.kind);
    if a.kind == MoveChain && b.kind == MoveChain {
      assert (a.target + [x])[..|a.target|] == a.target && (b.target + [y])[..|b.target|] == b.target;
      assert a.target + [x] == b.target + [y] ==> |a.target| == |b.target| && (a.target + [x])[|a.target|] == x;
    }
  }

  lemma ScopesAreObjects(a: OpKind, b: OpKind)
    ensures ScopeOf(a) == ScopeOf(b) <==> SameObjects(a, b)
  {
    SharedScopes(a);
    SharedScopes(b);
    if ScopeOf(a) == ScopeOf(b) && ScopeOf(a) !in {AppScope, ChainScope, IngressScope, ExternalOutbound, StepScope} {
      OwnScope(a, b);
    }
  }

  lemma SharedScopes(a: OpKind)
    ensures ScopeOf(a) == AppScope <==> a in {CreateApp, UpsertApp}
    ensures ScopeOf(a) == ChainScope <==> a in {CreateChain, UpsertChain, DeleteChain}
    ensures ScopeOf(a) == IngressScope <==> a in {CreateIngress, UpsertIngress}
    ensures ScopeOf(a) == ExternalOutbound <==> a in {UpsertExternalOutbound, DeleteExternalOutbound}
    ensures ScopeOf(a) == StepScope <==> a in {PutStep, DeleteStep}
  {
  }

  lemma OwnScope(a: OpKind, b: OpKind)
    requires ScopeOf(a) == ScopeOf(b) && ScopeOf(a) !in {AppScope, ChainScope, IngressScope, ExternalOutbound, StepScope}
    ensures a == b
  {
  }

  datatype Entry = Entry(key: Key, editId: string, op: Op)

  /** Position of the entry with this key, or -1. */
  function IndexOf(entries: seq<Entry>, key: Key): (at: int)
    ensures -1 <= at < |entries|
    ensures at >= 0 ==> entries[at].key == key
    ensures at < 0 ==> forall e | e in entries :: e.key != key
  {
    if entries == [] then -1
    else if entries[0].key == key then 0
    else
      var rest := IndexOf(entries[1..], key);
      if rest < 0 then -1 else rest + 1
  }

  /** The `editId` shown for a key, if the key is in the draft. */
  function EditOf(entries: seq<Entry>, key: Key): (edit: Option<string>)
    ensures edit.None? <==> forall e | e in entries :: e.key != key
    ensures edit.Some? ==> exists e :: e in entries && e.key == key && edit == Some(e.editId)
  {
    var at := IndexOf(entries, key);
    if at < 0 then None else Some(entries[at].editId)
  }

  ghost predicate UniqueKeys(entries: seq<Entry>) {
    forall i, j | 0 <= i < j < |entries| :: entries[i].key != entries[j].key
  }

  // ----- push

  predicate IsCreate(kind: OpKind) {
    kind in {CreateApp, CreateChain, CreateIngress, CreateTenant, CreateUser}
  }

  predicate IsDelete(kind: OpKind) {
    kind in {DeleteChain, DeleteStep, DeleteExternalOutbound}
  }

  /** Operations that depend on everything written before them move to the end. */
  predicate Moves(kind: OpKind) {
    kind in {DeleteExternalOutbound, PruneChain, ReorderNodeEgressDns, ReorderApps, ReorderChains}
  }

  /** The operation that replaces `previous` when `op` is pushed on the same key. */
  function MergedOp(previous: Op, op: Op): Op {
    if previous.kind == CreateApp && op.kind == UpsertApp then op.(kind := CreateApp)
    else if previous.kind == CreateChain && op.kind == UpsertChain then op.(kind := CreateChain)
    else if previous.kind == CreateIngress && op.kind == UpsertIngress then op.(kind := CreateIngress)
    else if previous.kind == PutStep && op.kind == PutStep then op.(body := previous.body + op.body)
    else if previous.kind == UpdateNode && op.kind == UpdateNode then op.(body := previous.body + op.body)
    else op
  }

  /** The draft after `push(op)`, with `editId` the fresh id of the edit. */
  function PushEntries(entries: seq<Entry>, op: Op, key: Key, editId: string): seq<Entry> {
    var at := IndexOf(entries, key);
    if at < 0 then entries + [Entry(key, editId, op)]
    else
      var entry := Entry(key, editId, MergedOp(entries[at].op, op));
      if Moves(op.kind) then entries[..at] + entries[at + 1..] + [entry]
      else entries[at := entry]
  }

  lemma IndexIsUnique(entries: seq<Entry>, at: int)
    requires UniqueKeys(entries) && 0 <= at < |entries|
    ensures IndexOf(entries, entries[at].key) == at
  {
  }

  /** Replacing an entry under its own key, in place or at the end, keeps keys unique. */
  lemma ReplacedIsUnique(left: seq<Entry>, was: Entry, right: seq<Entry>, now: Entry)
    requires UniqueKeys(left + [was] + right) && now.key == was.key
    ensures UniqueKeys(left + [now] + right) && UniqueKeys(left + right + [now])
  {
    var before, moved := left + [was] + right, left + right + [now];
    var n := |left|;
    assert forall i | 0 <= i < |before| :: (left + [now] + right)[i].key == before[i].key;
    forall i, j | 0 <= i < j < |moved| ensures moved[i].key != moved[j].key {
      var i', j' := if i < n then i else i + 1, if j < n then j else if j < |moved| - 1 then j + 1 else n;
      assert moved[i].key == before[i'].key && moved[j].key == before[j'].key;
    }
  }

  /** A push keeps keys unique, and every other entry as it was. */
  lemma PushKeepsOthers(entries: seq<Entry>, op: Op, key: Key, editId: string)
    requires UniqueKeys(entries)
    ensures UniqueKeys(PushEntries(entries, op, key, editId))
    ensures forall e: Entry | e.key != key :: e in PushEntries(entries, op, key, editId) <==> e in entries
    ensures EditOf(PushEntries(entries, op, key, editId), key) == Some(editId)
  {
    var at := IndexOf(entries, key);
    var after := PushEntries(entries, op, key, editId);
    if at < 0 {
      IndexIsUnique(after, |entries|);
    } else {
      var left, right := entries[..at], entries[at + 1..];
      var entry := Entry(key, editId, MergedOp(entries[at].op, op));
      assert entries == left + [entries[at]] + right;
      ReplacedIsUnique(left, entries[at], right, entry);
      if Moves(op.kind) {
        assert after == left + right + [entry];
        IndexIsUnique(after, |after| - 1);
      } else {
        assert after == left + [entry] + right;
        IndexIsUnique(after, at);
      }
    }
  }

  /** Both keys are in the draft, the first ahead of the second. */
  ghost predicate Before(entries: seq<Entry>, first: Key, second: Key) {
    0 <= IndexOf(entries, first) < IndexOf(entries, second)
  }

  // ----- whole editing sessions

  datatype Pushed = Pushed(op: Op, nonce: string, editId: string) {
    function Target(): Key { KeyOf(op, nonce) }
  }

  /** The draft built by pushing everything in order. */
  function Draft(log: seq<Pushed>): seq<Entry> {
    if log == [] then []
    else
      var last := log[|log| - 1];
      PushEntries(Draft(log[..|log| - 1]), last.op, last.Target(), last.editId)
  }

  ghost predicate Scoped(entries: seq<Entry>) {
    forall e | e in entries :: e.key.scope == ScopeOf(e.op.kind)
  }

  lemma MergedScope(previous: Op, op: Op)
    requires ScopeOf(previous.kind) == ScopeOf(op.kind)
    ensures ScopeOf(MergedOp(previous, op).kind) == ScopeOf(op.kind)
  {
  }

  lemma PushKeepsScopes(entries: seq<Entry>, op: Op, key: Key, editId: string)
    requires Scoped(entries) && key.scope == ScopeOf(op.kind)
    ensures Scoped(PushEntries(entries, op, key, editId))
  {
    var at := IndexOf(entries, key);
    if at >= 0 { MergedScope(entries[at].op, op); }
  }

  lemma {:induction false} DraftHasUniqueKeys(log: seq<Pushed>)
    ensures UniqueKeys(Draft(log)) && Scoped(Draft(log))
  {
    if log != [] {
      var rest, last := log[..|log| - 1], log[|log| - 1];
      DraftHasUniqueKeys(rest);
      PushKeepsOthers(Draft(rest), last.op, last.Target(), last.editId);
      PushKeepsScopes(Draft(rest), last.op, last.Target(), last.editId);
    }
  }

  /** A pushed prune or full order stays behind everything that was in the draft when it was
      last pushed, however the draft grows afterwards. */
  lemma {:induction false} OrderingStaysLast(before: seq<Pushed>, moved: Pushed, after: seq<Pushed>, other: Key)
    requires Moves(moved.op.kind)
    requires IndexOf(Draft(before), other) >= 0 && other != moved.Target()
    requires forall p | p in after :: p.Target() != moved.Target()
    requires forall p | p in after :: p.Target() == other ==> !Moves(p.op.kind)
    ensures Before(Draft(before + [moved] + after), other, moved.Target())
  {
    var m := moved.Target();
    if after == [] {
      assert before + [moved] + after == before + [moved];
      DraftHasUniqueKeys(before);
      DraftSnoc(before, moved);
      MovedGoesLast(Draft(before), moved.op, m, moved.editId, other);
    } else {
      var last, rest := after[|after| - 1], after[..|after| - 1];
      var upTo := before + [moved] + rest;
      OrderingStaysLast(before, moved, rest, other);
      assert before + [moved] + after == upTo + [last];
      StaysLast(upTo, last, other, m);
    }
  }

  lemma StaysLast(log: seq<Pushed>, last: Pushed, other: Key, moved: Key)
    requires Before(Draft(log), other, moved)
    requires last.Target() != moved && (last.Target() == other ==> !Moves(last.op.kind))
    ensures Before(Draft(log + [last]), other, moved)
  {
    DraftHasUniqueKeys(log);
    DraftSnoc(log, last);
    KeptOrder(Draft(log), last.op, last.Target(), last.editId, other, moved);
  }

  lemma DraftSnoc(log: seq<Pushed>, last: Pushed)
    ensures Draft(log + [last]) == PushEntries(Draft(log), last.op, last.Target(), last.editId)
  {
    assert (log + [last])[..|log|] == log;
  }

  lemma MovedGoesLast(entries: seq<Entry>, op: Op, key: Key, editId: string, other: Key)
    requires Moves(op.kind) && UniqueKeys(entries) && other != key && IndexOf(entries, other) >= 0
    ensures Before(PushEntries(entries, op, key, editId), other, key)
  {
    PushKeepsOthers(entries, op, key, editId);
    var after := PushEntries(entries, op, key, editId);
    IndexIsUnique(after, |after| - 1);
    assert entries[IndexOf(entries, other)] in after;
  }

  /** Pushing anything else in place, or moving something else, keeps two keys in order. */
  lemma KeptOrder(entries: seq<Entry>, op: Op, key: Key, editId: string, first: Key, second: Key)
    requires UniqueKeys(entries) && Before(entries, first, second)
    requires key != second && (key == first ==> !Moves(op.kind))
    ensures Before(PushEntries(entries, op, key, editId), first, second)
  {
    PushKeepsOthers(entries, op, key, editId);
    var after := PushEntries(entries, op, key, editId);
    var i, j := IndexOf(entries, first), IndexOf(entries, second);
    var i' := PushedPosition(entries, op, key, editId, i);
    var j' := PushedPosition(entries, op, key, editId, j);
    IndexIsUnique(after, i');
    IndexIsUnique(after, j');
  }

  /** Where an entry is after a push that does not move it. */
  lemma PushedPosition(entries: seq<Entry>, op: Op, key: Key, editId: string, i: int) returns (i': int)
    requires 0 <= i < |entries| && (entries[i].key == key ==> !Moves(op.kind))
    ensures var after, at := PushEntries(entries, op, key, editId), IndexOf(entries, key);
            && 0 <= i' < |after| && after[i'].key == entries[i].key
            && i' == if 0 <= at < i && Moves(op.kind) then i - 1 else i
  {
    var at := IndexOf(entries, key);
    if 0 <= at < i && Moves(op.kind) {
      i' := i - 1;
      assert (entries[..at] + entries[at + 1..])[i'] == entries[i];
    } else {
      i' := i;
    }
  }

  // ----- what replaying a draft does to a store whose keys are independent

  type Body = map<string, Json>
  type Store = map<Key, Body>

  datatype Outcome = Rejected | Now(result: Option<Body>)

  /** One operation on the object it targets. Creates are refused on an occupied id, a node
      update on a missing node; optional fields left out of a node or step body stay unchanged. */
  function Effect(op: Op, current: Option<Body>): Outcome {
    if IsCreate(op.kind) then (if current.Some? then Rejected else Now(Some(op.body)))
    else if IsDelete(op.kind) then Now(None)
    else if op.kind == UpdateNode then (if current.None? then Rejected else Now(Some(current.value + op.body)))
    else if op.kind == PutStep then
      Now(Some((if current.None? then map[] else current.value) + op.body))
    else Now(Some(op.body))
  }

  function Then(first: Op, second: Op, current: Option<Body>): Outcome {
    match Effect(first, current)
    case Rejected => Rejected
    case Now(o) => Effect(second, o)
  }

  /** Pairs of operations on one key that coalesce without changing what they do. */
  predicate Faithful(previous: OpKind, op: OpKind) {
    && !IsCreate(op)
    && !(IsCreate(previous) && IsDelete(op))
    && !(previous == DeleteStep && op == PutStep)
  }

  /** Coalescing two operations on one target preserves their meaning exactly when the pair is
      `Faithful`: it is wrong after a second create, for a create that is deleted again, and for
      a deleted step that is written again with only some of its fields. */
  lemma CoalescingIsExact(previous: Op, op: Op)
    requires ScopeOf(previous.kind) == ScopeOf(op.kind)
    ensures (forall current :: Then(previous, op, current) == Effect(MergedOp(previous, op), current))
            <==> Faithful(previous.kind, op.kind)
  {
    if Faithful(previous.kind, op.kind) {
      forall current ensures Then(previous, op, current) == Effect(MergedOp(previous, op), current) {
        FaithfulPair(previous, op, current);
      }
    } else {
      var current := UnfaithfulWitness(previous, op);
    }
  }

  /** Its effect does not depend on the object there is. */
  predicate Overwrites(kind: OpKind) {
    !IsCreate(kind) && kind != UpdateNode && kind != PutStep
  }

  /** The faithful pairs: an edit of an object created in the draft, two partial edits of a step or
      a node, or an edit or deletion that overwrites what came before. */
  lemma FaithfulKinds(previous: OpKind, op: OpKind)
    requires ScopeOf(previous) == ScopeOf(op) && Faithful(previous, op)
    ensures || (IsCreate(previous) && Overwrites(op) && !IsDelete(op)
                && (previous, op) in {(CreateApp, UpsertApp), (CreateChain, UpsertChain), (CreateIngress, UpsertIngress)})
            || (previous == op && op in {PutStep, UpdateNode})
            || (!IsCreate(previous) && previous != UpdateNode && Overwrites(op))
  {
  }

  lemma FaithfulPair(previous: Op, op: Op, current: Option<Body>)
    requires ScopeOf(previous.kind) == ScopeOf(op.kind)
    requires Faithful(previous.kind, op.kind)
    ensures Then(previous, op, current) == Effect(MergedOp(previous, op), current)
  {
    FaithfulKinds(previous.kind, op.kind);
    if previous.kind == op.kind && op.kind in {PutStep, UpdateNode} {
      PartialPair(previous, op, current);
    } else if IsCreate(previous.kind) {
      assert MergedOp(previous, op) == op.(kind := previous.kind);
    } else {
      OverwritingPair(previous, op, current);
    }
  }

  lemma PartialPair(previous: Op, op: Op, current: Option<Body>)
    requires previous.kind == op.kind && op.kind in {PutStep, UpdateNode}
    ensures Then(previous, op, current) == Effect(MergedOp(previous, op), current)
  {
    var o := if current.Some? then current.value else map[];
    assert o + previous.body + op.body == o + (previous.body + op.body);
  }

  lemma OverwritingPair(previous: Op, op: Op, current: Option<Body>)
    requires !IsCreate(previous.kind) && previous.kind != UpdateNode && Overwrites(op.kind)
    ensures Then(previous, op, current) == Effect(MergedOp(previous, op), current)
  {
    assert MergedOp(previous, op) == op;
  }

  lemma UnfaithfulWitness(previous: Op, op: Op) returns (current: Option<Body>)
    requires ScopeOf(previous.kind) == ScopeOf(op.kind)
    requires !Faithful(previous.kind, op.kind)
    ensures Then(previous, op, current) != Effect(MergedOp(previous, op), current)
  {
    if previous.kind == DeleteStep && op.kind == PutStep {
      var field := UnusedField(op.body.Keys);
      current := Some(map[field := Null]);
      var kept := Effect(MergedOp(previous, op), current).result.value;
      assert field in kept && field !in map[] + op.body;
    } else if IsCreate(op.kind) && !IsDelete(previous.kind) {
      current := None;
    } else {
      current := Some(map[]);
    }
  }

  lemma UnusedField(used: set<string>) returns (field: string)
    ensures forall f | f in used :: |f| < |field|
    decreases used
  {
    if used == {} { return "a"; }
    var f :| f in used;
    field := UnusedField(used - {f});
    if |field| <= |f| { field := f + "a"; }
  }

  function Put(store: Store, key: Key, value: Option<Body>): Store {
    match value
    case None => store - {key}
    case Some(o) => store[key := o]
  }

  function Read(store: Store, key: Key): Option<Body> {
    if key in store then Some(store[key]) else None
  }

  /** Applying one operation to the store; a rejected one rejects the whole batch. */
  function Apply(store: Option<Store>, key: Key, op: Op): Option<Store> {
    if store.None? then None
    else match Effect(op, Read(store.value, key))
      case Rejected => None
      case Now(o) => Some(Put(store.value, key, o))
  }

  function Replay(entries: seq<Entry>, store: Option<Store>): Option<Store> {
    if entries == [] then store
    else
      var last := entries[|entries| - 1];
      Apply(Replay(entries[..|entries| - 1], store), last.key, last.op)
  }

  /** Replaying every push, nothing coalesced. */
  function ReplayAll(log: seq<Pushed>, store: Option<Store>): Option<Store> {
    if log == [] then store
    else
      var last := log[|log| - 1];
      Apply(ReplayAll(log[..|log| - 1], store), last.Target(), last.op)
  }

  lemma ApplyCommutes(store: Option<Store>, key: Key, op: Op, other: Key, otherOp: Op)
    requires key != other
    ensures Apply(Apply(store, key, op), other, otherOp) == Apply(Apply(store, other, otherOp), key, op)
  {
    if store.Some? {
      var s := store.value;
      var e, f := Effect(op, Read(s, key)), Effect(otherOp, Read(s, other));
      if e.Now? { PutElsewhere(s, key, e.result, other); }
      if f.Now? { PutElsewhere(s, other, f.result, key); }
      if e.Now? && f.Now? { PutCommutes(s, key, e.result, other, f.result); }
    }
  }

  lemma PutElsewhere(store: Store, key: Key, value: Option<Body>, other: Key)
    requires key != other
    ensures Read(Put(store, key, value), other) == Read(store, other)
  {}

  lemma PutCommutes(store: Store, key: Key, value: Option<Body>, other: Key, otherValue: Option<Body>)
    requires key != other
    ensures Put(Put(store, key, value), other, otherValue) == Put(Put(store, other, otherValue), key, value)
  {
    var left, right := Put(Put(store, key, value), other, otherValue), Put(Put(store, other, otherValue), key, value);
    assert forall k :: k in left <==> k in right;
    assert forall k | k in left :: left[k] == right[k];
  }

  /** An operation on a key the rest does not touch can be replayed before or after the rest. */
  lemma {:induction false} ApplyPastEntries(entries: seq<Entry>, store: Option<Store>, key: Key, op: Op)
    requires forall e | e in entries :: e.key != key
    ensures Apply(Replay(entries, store), key, op) == Replay(entries, Apply(store, key, op))
  {
    if entries != [] {
      var rest, last := entries[..|entries| - 1], entries[|entries| - 1];
      ApplyPastEntries(rest, store, key, op);
      ApplyCommutes(Replay(rest, store), last.key, last.op, key, op);
    }
  }

  lemma {:induction false} ReplaySplit(left: seq<Entry>, right: seq<Entry>, store: Option<Store>)
    ensures Replay(left + right, store) == Replay(right, Replay(left, store))
  {
    if right == [] {
      assert left + right == left;
    } else {
      var whole, last := left + right, right[|right| - 1];
      assert whole[..|whole| - 1] == left + right[..|right| - 1];
      ReplaySplit(left, right[..|right| - 1], store);
    }
  }

  function Outcomes(store: Store, key: Key, outcome: Outcome): Option<Store> {
    match outcome
    case Rejected => None
    case Now(o) => Some(Put(store, key, o))
  }

  lemma ApplyTwice(store: Store, key: Key, previous: Op, op: Op)
    ensures Apply(Apply(Some(store), key, previous), key, op) ==
            Outcomes(store, key, Then(previous, op, Read(store, key)))
  {
    var once := Effect(previous, Read(store, key));
    if once.Now? {
      PutTwice(store, key, once.result, Effect(op, once.result));
    }
  }

  lemma PutTwice(store: Store, key: Key, value: Option<Body>, outcome: Outcome)
    ensures Read(Put(store, key, value), key) == value
    ensures Outcomes(Put(store, key, value), key, outcome) == Outcomes(store, key, outcome)
  {
    if outcome.Now? {
      assert Put(Put(store, key, value), key, outcome.result) == Put(store, key, outcome.result);
    }
  }

  lemma ApplyPair(store: Option<Store>, key: Key, previous: Op, op: Op)
    requires ScopeOf(previous.kind) == ScopeOf(op.kind)
    requires Faithful(previous.kind, op.kind)
    ensures Apply(Apply(store, key, previous), key, op) == Apply(store, key, MergedOp(previous, op))
  {
    if store.Some? {
      FaithfulPair(previous, op, Read(store.value, key));
      ApplyTwice(store.value, key, previous, op);
      assert Apply(store, key, MergedOp(previous, op)) ==
             Outcomes(store.value, key, Effect(MergedOp(previous, op), Read(store.value, key)));
    }
  }

  /** One push: the coalesced draft replays as the old draft followed by the operation. */
  lemma PushReplays(entries: seq<Entry>, op: Op, key: Key, editId: string, store: Option<Store>)
    requires UniqueKeys(entries)
    requires var at := IndexOf(entries, key);
             at >= 0 ==> ScopeOf(entries[at].op.kind) == ScopeOf(op.kind) && Faithful(entries[at].op.kind, op.kind)
    ensures Replay(PushEntries(entries, op, key, editId), store) == Apply(Replay(entries, store), key, op)
  {
    var at := IndexOf(entries, key);
    if at < 0 {
      ReplaySplit(entries, [Entry(key, editId, op)], store);
      ReplaySingle(Entry(key, editId, op), Replay(entries, store));
    } else {
      var entry := Entry(key, editId, MergedOp(entries[at].op, op));
      TakenApart(entries, at, entry);
      CoalescedReplays(entries[..at], entries[at], entries[at + 1..], op, editId, store);
    }
  }

  lemma TakenApart(entries: seq<Entry>, at: nat, entry: Entry)
    requires at < |entries|
    ensures entries == entries[..at] + [entries[at]] + entries[at + 1..]
    ensures entries[at := entry] == entries[..at] + [entry] + entries[at + 1..]
  {
  }

  lemma ReplayThree(left: seq<Entry>, entry: Entry, right: seq<Entry>, store: Option<Store>)
    ensures Replay(left + [entry] + right, store) == Replay(right, Apply(Replay(left, store), entry.key, entry.op))
  {
    ReplaySplit(left + [entry], right, store);
    ReplaySplit(left, [entry], store);
    ReplaySingle(entry, Replay(left, store));
  }

  /** Coalescing in place, or at the end, does what pushing after the rest would. */
  lemma CoalescedReplays(left: seq<Entry>, was: Entry, right: seq<Entry>, op: Op, editId: string, store: Option<Store>)
    requires UniqueKeys(left + [was] + right)
    requires ScopeOf(was.op.kind) == ScopeOf(op.kind) && Faithful(was.op.kind, op.kind)
    ensures Replay(left + [Entry(was.key, editId, MergedOp(was.op, op))] + right, store) ==
            Apply(Replay(left + [was] + right, store), was.key, op)
    ensures Replay(left + right + [Entry(was.key, editId, MergedOp(was.op, op))], store) ==
            Apply(Replay(left + [was] + right, store), was.key, op)
  {
    var entry, mid := Entry(was.key, editId, MergedOp(was.op, op)), Replay(left, store);
    OthersDiffer(left, was, right);
    ReplayThree(left, was, right, store);
    ApplyPastEntries(right, Apply(mid, was.key, was.op), was.key, op);
    ApplyPair(mid, was.key, was.op, op);
    ReplayThree(left, entry, right, store);
    ApplyPastEntries(right, mid, was.key, entry.op);
    ReplaySplit(left + right, [entry], store);
    ReplaySplit(left, right, store);
    ReplaySingle(entry, Replay(left + right, store));
  }

  lemma OthersDiffer(left: seq<Entry>, was: Entry, right: seq<Entry>)
    requires UniqueKeys(left + [was] + right)
    ensures forall e | e in right :: e.key != was.key
  {
    var entries := left + [was] + right;
    assert entries[|left|] == was;
    forall k | 0 <= k < |right| ensures right[k].key != was.key { assert entries[|left| + 1 + k] == right[k]; }
  }

  lemma ReplaySingle(entry: Entry, store: Option<Store>)
    ensures Replay([entry], store) == Apply(store, entry.key, entry.op)
  {
    assert [entry][..0] == [];
  }

  /** Every push coalesced faithfully with what the draft then held for its key. */
  ghost predicate FaithfulLog(log: seq<Pushed>)
    decreases |log|
  {
    log == [] ||
    var rest, last := log[..|log| - 1], log[|log| - 1];
    var at := IndexOf(Draft(rest), last.Target());
    && FaithfulLog(rest)
    && (at >= 0 ==> Faithful(Draft(rest)[at].op.kind, last.op.kind))
  }

  /** Submitting the coalesced draft does exactly what replaying every edit in order would. */
  lemma {:induction false} CoalescedDraftMeansEveryEdit(log: seq<Pushed>, store: Store)
    requires FaithfulLog(log)
    ensures Replay(Draft(log), Some(store)) == ReplayAll(log, Some(store))
    decreases |log|
  {
    if log != [] {
      var rest, last := log[..|log| - 1], log[|log| - 1];
      CoalescedDraftMeansEveryEdit(rest, store);
      DraftHasUniqueKeys(rest);
      PushReplays(Draft(rest), last.op, last.Target(), last.editId, Some(store));
    }
  }

  // ----- pushIngress

  /** The operation `pushIngress` builds from a panel's base and next body and the entry the
      draft holds for that ingress. */
  function IngressOp(previous: Option<Op>, target: seq<string>, base: Body, next: Body): Op {
    if previous.None? then Op(UpsertIngress, target, next)
    else
      var pending := if previous.value.kind in {UpsertIngress, CreateIngress} then previous.value.body else next;
      var merged := MergeChanged(Rec(base), Rec(next), Rec(pending));
      Op(if previous.value.kind == CreateIngress then CreateIngress else UpsertIngress, target,
         if merged.Rec? then merged.fields else next)
  }

  /** It creates the ingress exactly when the draft does so already, and otherwise updates it; its body is
      the panel's own, or the panel's changes merged into the pending body of an ingress. */
  lemma IngressOpIs(previous: Option<Op>, target: seq<string>, base: Body, next: Body)
    ensures var op := IngressOp(previous, target, base, next);
            && op.target == target
            && op.kind == (if previous.Some? && previous.value.kind == CreateIngress then CreateIngress else UpsertIngress)
            && (previous.None? ==> op.body == next)
            && (previous.Some? && base == next ==>
                  op.body == if previous.value.kind in {CreateIngress, UpsertIngress} then previous.value.body else next)
            && (previous.Some? && previous.value.kind in {CreateIngress, UpsertIngress} ==>
                  MergeChanged(Rec(base), Rec(next), Rec(previous.value.body)) == Rec(op.body))
  {
    SameValueEquivalence(Rec(base), Rec(base), Rec(base));
  }

  /** Two panels that edited disjoint fields of one ingress leave the same pending body,
      whichever saves first. */
  lemma PanelsCommute(target: seq<string>, base: Body, left: Body, right: Body)
    requires Defined(Rec(base)) && Defined(Rec(left)) && Defined(Rec(right))
    requires DisjointEdits(Rec(base), Rec(left), Rec(right))
    ensures IngressOp(Some(IngressOp(None, target, base, left)), target, base, right) ==
            IngressOp(Some(IngressOp(None, target, base, right)), target, base, left)
  {
    DisjointEditsCommute(Rec(base), Rec(left), Rec(right));
    assert MergeChanged(Rec(base), Rec(left), Rec(right)).Rec?;
    assert MergeChanged(Rec(base), Rec(right), Rec(left)).Rec?;
  }
}
