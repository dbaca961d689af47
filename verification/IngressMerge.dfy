/** Comparison and three-way merge of JSON bodies (frontend/src/draft.ts).

  Several panels edit the same ingress from one base snapshot. `MergeChanged` carries only
  the fields a panel changed into the pending body of the draft. */
module IngressMerge {

  /** A JSON value as the editor sees it. `Undef` is what a missing field reads as; an atom
      stands for one primitive up to `Object.is`. */
  datatype Json =
    | Undef
    | Null
    | Atom(text: string)
    | Arr(items: seq<Json>)
    | Rec(fields: map<string, Json>)

  /** Reading a field of a record; a missing one is `undefined`. */
  function Get(fields: map<string, Json>, key: string): Json {
    if key in fields then fields[key] else Undef
  }

  /** No field or item anywhere is an explicit `undefined`: everything JSON can carry. */
  ghost predicate Defined(v: Json) {
    match v
    case Undef => false
    case Null => true
    case Atom(_) => true
    case Arr(items) => forall i | 0 <= i < |items| :: Defined(items[i])
    case Rec(fields) => forall k | k in fields :: Defined(fields[k])
  }

  /** `sameValue`: arrays by position, records over the union of their keys, the rest by
      identity. */
  predicate SameValue(left: Json, right: Json) {
    match (left, right)
    case (Arr(xs), Arr(ys)) =>
      |xs| == |ys| && forall i | 0 <= i < |xs| :: SameValue(xs[i], ys[i])
    case (Rec(xs), Rec(ys)) =>
      && (forall k | k in xs :: SameValue(xs[k], Get(ys, k)))
      && (forall k | k in ys && k !in xs :: ys[k] == Undef)
    case _ => left == right
  }

  // ----- sameValue is an equivalence, and on JSON proper it is equality

  /** The normal form `SameValue` compares: explicitly undefined fields are dropped. */
  function Strip(v: Json): Json {
    match v
    case Undef => Undef
    case Null => Null
    case Atom(_) => v
    case Arr(items) => Arr(seq(|items|, i requires 0 <= i < |items| => Strip(items[i])))
    case Rec(fields) => Rec(map k | k in fields && fields[k] != Undef :: Strip(fields[k]))
  }

  lemma StripKeepsShape(v: Json)
    ensures Strip(v) == Undef <==> v == Undef
    ensures Strip(v).Rec? <==> v.Rec?
  {}

  lemma {:induction false} SameValueIsStripEquality(left: Json, right: Json)
    ensures SameValue(left, right) <==> Strip(left) == Strip(right)
    decreases left, 1
  {
    match (left, right) {
      case (Arr(xs), Arr(ys)) =>
        if |xs| == |ys| {
          forall i | 0 <= i < |xs|
            ensures SameValue(xs[i], ys[i]) <==> Strip(xs[i]) == Strip(ys[i])
          {
            SameValueIsStripEquality(xs[i], ys[i]);
          }
          if Strip(left) == Strip(right) {
            forall i | 0 <= i < |xs| ensures SameValue(xs[i], ys[i]) {
              assert Strip(left).items[i] == Strip(right).items[i];
            }
          }
        }
      case (Rec(xs), Rec(ys)) =>
        SameFieldsIsStripEquality(xs, ys, left, right);
      case _ =>
    }
  }

  lemma {:induction false} SameFieldsIsStripEquality(
      xs: map<string, Json>, ys: map<string, Json>, left: Json, right: Json)
    requires left == Rec(xs) && right == Rec(ys)
    ensures SameValue(left, right) <==> Strip(left) == Strip(right)
    decreases left, 0
  {
    forall k | k in xs
      ensures SameValue(xs[k], Get(ys, k)) <==> Strip(xs[k]) == Strip(Get(ys, k))
    {
      SameValueIsStripEquality(xs[k], Get(ys, k));
    }
    var sx, sy := Strip(left).fields, Strip(right).fields;
    if SameValue(left, right) {
      forall k ensures k in sx <==> k in sy {
        if k in xs {
          StripKeepsShape(xs[k]);
          StripKeepsShape(Get(ys, k));
        }
      }
      assert sx == sy;
    }
    if sx == sy {
      forall k | k in xs ensures SameValue(xs[k], Get(ys, k)) {
        assert k in sx <==> xs[k] != Undef;
        assert k in sy <==> k in ys && ys[k] != Undef;
      }
      forall k | k in ys && k !in xs ensures ys[k] == Undef {
        assert k !in sx;
      }
    }
  }

  lemma SameValueEquivalence(a: Json, b: Json, c: Json)
    ensures SameValue(a, a)
    ensures SameValue(a, b) ==> SameValue(b, a)
    ensures SameValue(a, b) && SameValue(b, c) ==> SameValue(a, c)
  {
    SameValueIsStripEquality(a, a);
    SameValueIsStripEquality(a, b);
    SameValueIsStripEquality(b, a);
    SameValueIsStripEquality(b, c);
    SameValueIsStripEquality(a, c);
  }

  lemma {:induction false} DefinedStrip(v: Json)
    requires Defined(v)
    ensures Strip(v) == v
  {
    match v {
      case Arr(items) =>
        forall i | 0 <= i < |items| ensures Strip(items[i]) == items[i] {
          DefinedStrip(items[i]);
        }
      case Rec(fields) =>
        forall k | k in fields ensures Strip(fields[k]) == fields[k] {
          DefinedStrip(fields[k]);
        }
      case _ =>
    }
  }

  /** On values JSON can carry (or a missing one) the comparison is exact. */
  lemma SameValueIsEquality(left: Json, right: Json)
    requires Defined(left) || left == Undef
    requires Defined(right) || right == Undef
    ensures SameValue(left, right) <==> left == right
  {
    SameValueIsStripEquality(left, right);
    if left != Undef { DefinedStrip(left); }
    if right != Undef { DefinedStrip(right); }
  }

  // ----- mergeChanged

  /** The child whose edit alone never re-creates a removed projection endpoint. */
  const DOWNLOAD := "download"

  function ChangedKeys(base: map<string, Json>, next: map<string, Json>): set<string> {
    set k | k in base.Keys + next.Keys && !SameValue(Get(base, k), Get(next, k))
  }

  /** What one round of the merge loop leaves at `k`; `Undef` here means the field is absent. */
  function MergedAt(base: map<string, Json>, next: map<string, Json>, start: map<string, Json>, k: string): Json
    requires k in next && (k !in base || !SameValue(base[k], next[k]))
    decreases Rec(base), 0
  {
    if k in base && base[k].Rec? && next[k].Rec?
    then MergeChanged(base[k], next[k], Get(start, k))
    else next[k]
  }

  /** Does the merged record have field `k`? */
  predicate KeptAt(base: map<string, Json>, next: map<string, Json>, start: map<string, Json>, k: string) {
    if k !in next then k !in base && k in start
    else if k !in base || !SameValue(base[k], next[k]) then true
    else k in start
  }

  function MergeFields(base: map<string, Json>, next: map<string, Json>, start: map<string, Json>): map<string, Json>
    decreases Rec(base), 1
  {
    map k | k in base.Keys + next.Keys + start.Keys && KeptAt(base, next, start, k) ::
      if k in next && (k !in base || !SameValue(base[k], next[k]))
      then MergedAt(base, next, start, k)
      else start[k]
  }

  /** `mergeChanged(base, next, pending)`. */
  function MergeChanged(base: Json, next: Json, pending: Json): Json
    decreases base, 2
  {
    if SameValue(base, next) then pending
    else if !base.Rec? || !next.Rec? then next
    else if pending == Null && ChangedKeys(base.fields, next.fields) == {DOWNLOAD} then pending
    else
      assert base == Rec(base.fields);
      Rec(MergeFields(base.fields, next.fields, if pending.Rec? then pending.fields else base.fields))
  }

  /** Both records have the field with one value, or neither has it. */
  ghost predicate Agree(left: map<string, Json>, right: map<string, Json>, k: string) {
    (k in left <==> k in right) && (k in left && k in right ==> left[k] == right[k])
  }

  lemma AgreeEverywhere(left: map<string, Json>, right: map<string, Json>)
    requires forall k :: Agree(left, right, k)
    ensures left == right
  {
    assert forall k :: Agree(left, right, k) ==> (k in left <==> k in right);
    assert left.Keys == right.Keys;
    forall k | k in left ensures left[k] == right[k] {
      assert Agree(left, right, k);
    }
  }

  /** One field of the merged record. */
  lemma MergeFieldsAt(base: map<string, Json>, next: map<string, Json>, start: map<string, Json>, k: string)
    ensures
      var m := MergeFields(base, next, start);
      if k in next && (k !in base || !SameValue(base[k], next[k])) then
        k in m && m[k] == (if k in base && base[k].Rec? && next[k].Rec?
                           then MergeChanged(base[k], next[k], Get(start, k))
                           else next[k])
      else if k !in next && k in base then k !in m
      else Agree(m, start, k)
  {}

  /** One round of the loop in `mergeChanged`: only `key` changes, to its merged value. */
  method MergeKey(b: map<string, Json>, n: map<string, Json>, ghost start: map<string, Json>,
                  result: map<string, Json>, key: string) returns (updated: map<string, Json>)
    requires key in b || key in n
    requires Agree(result, start, key)
    ensures Agree(updated, MergeFields(b, n, start), key)
    ensures forall k | k != key :: Agree(updated, result, k)
    decreases Rec(b), 0
  {
    MergeFieldsAt(b, n, start, key);
    updated := result;
    if key !in n {
      updated := result - {key};
    } else if key !in b || !SameValue(b[key], n[key]) {
      var value := n[key];
      if key in b && b[key].Rec? && n[key].Rec? {
        value := MergeInPlace(b[key], n[key], Get(result, key));
      }
      updated := result[key := value];
    }
  }

  /** The merge as the source runs it: a copy of the pending body, changed key by key, in
      whatever order the keys come. */
  method MergeInPlace(base: Json, next: Json, pending: Json) returns (merged: Json)
    ensures merged == MergeChanged(base, next, pending)
    decreases base, 1
  {
    if SameValue(base, next) { return pending; }
    if !base.Rec? || !next.Rec? { return next; }
    var b, n := base.fields, next.fields;
    var changed := set k | k in b.Keys + n.Keys && !SameValue(Get(b, k), Get(n, k));
    if pending == Null && changed == {"download"} { return pending; }
    assert base == Rec(b);
    var start := if pending.Rec? then pending.fields else b;
    var result := start;
    var todo := b.Keys + n.Keys;
    while todo != {}
      invariant todo <= b.Keys + n.Keys
      invariant Progress(b, n, start, result, todo)
    {
      var key :| key in todo;
      assert Agree(result, start, key);
      var updated := MergeKey(b, n, start, result, key);
      ProgressStep(b, n, start, result, todo, key, updated);
      todo := todo - {key};
      result := updated;
    }
    ProgressDone(b, n, start, result);
    merged := Rec(result);
  }

  /** Keys still to do read as in the start, the others as merged. */
  ghost predicate Progress(b: map<string, Json>, n: map<string, Json>, start: map<string, Json>,
                           result: map<string, Json>, todo: set<string>) {
    && (forall k | k in b.Keys + n.Keys :: k !in todo ==> Agree(result, MergeFields(b, n, start), k))
    && (forall k :: k in todo || k !in b.Keys + n.Keys ==> Agree(result, start, k))
  }

  lemma ProgressStep(b: map<string, Json>, n: map<string, Json>, start: map<string, Json>,
                     result: map<string, Json>, todo: set<string>, key: string, updated: map<string, Json>)
    requires key in todo && todo <= b.Keys + n.Keys
    requires Progress(b, n, start, result, todo)
    requires Agree(updated, MergeFields(b, n, start), key)
    requires forall k | k != key :: Agree(updated, result, k)
    ensures Progress(b, n, start, updated, todo - {key})
  {
    var target := MergeFields(b, n, start);
    forall k | k in b.Keys + n.Keys && k !in todo - {key} ensures Agree(updated, target, k) {
      if k != key { assert Agree(result, target, k) && Agree(updated, result, k); }
    }
    forall k | k in todo - {key} || k !in b.Keys + n.Keys ensures Agree(updated, start, k) {
      assert Agree(result, start, k) && Agree(updated, result, k);
    }
  }

  lemma ProgressDone(b: map<string, Json>, n: map<string, Json>, start: map<string, Json>, result: map<string, Json>)
    requires Progress(b, n, start, result, {})
    ensures result == MergeFields(b, n, start)
  {
    forall k ensures Agree(result, MergeFields(b, n, start), k) {
      MergeFieldsAt(b, n, start, k);
      if k !in b.Keys + n.Keys { assert Agree(result, start, k); }
    }
    AgreeEverywhere(result, MergeFields(b, n, start));
  }

  // ----- laws of the merge

  /** A panel that saves on top of its own base gets exactly what it asked for. */
  lemma {:induction false} MergeOntoBase(base: Json, next: Json, pending: Json)
    requires SameValue(base, pending)
    ensures SameValue(MergeChanged(base, next, pending), next)
    decreases base, 1
  {
    SameValueEquivalence(base, pending, next);
    SameValueEquivalence(pending, base, next);
    SameValueEquivalence(next, next, next);
    if !SameValue(base, next) && base.Rec? && next.Rec? {
      SameValueIsStripEquality(base, pending);
      StripKeepsShape(base);
      StripKeepsShape(pending);
      MergeFieldsOntoBase(base, next.fields, pending.fields);
    }
  }

  lemma {:induction false} MergeFieldsOntoBase(base: Json, next: map<string, Json>, start: map<string, Json>)
    requires base.Rec? && SameValue(base, Rec(start))
    ensures SameValue(Rec(MergeFields(base.fields, next, start)), Rec(next))
    decreases base, 0
  {
    var b, m := base.fields, MergeFields(base.fields, next, start);
    forall k | k in m ensures SameValue(m[k], Get(next, k)) {
      SameValueEquivalence(Get(next, k), Get(next, k), Get(next, k));
      MergeFieldsAt(b, next, start, k);
      if k in next && (k !in b || !SameValue(b[k], next[k])) {
        if k in b && b[k].Rec? && next[k].Rec? {
          MergeOntoBase(b[k], next[k], Get(start, k));
        }
      } else if k in b {
        SameValueEquivalence(start[k], b[k], Get(next, k));
        SameValueEquivalence(b[k], start[k], Get(next, k));
      } else {
        assert start[k] == Undef;
      }
    }
    forall k | k in next && k !in m ensures next[k] == Undef {
      MergeFieldsAt(b, next, start, k);
      assert k in b && SameValue(b[k], next[k]) && k !in start;
      assert SameValue(b[k], Get(start, k));
      SameValueIsStripEquality(b[k], Undef);
      SameValueIsStripEquality(b[k], next[k]);
      StripKeepsShape(next[k]);
    }
  }

  /** Two edits of one base that never change the same field: at every level at most one
      changed the value, or all three are records whose fields are again disjointly edited. */
  ghost predicate DisjointEdits(base: Json, left: Json, right: Json)
    decreases base
  {
    || base == left
    || base == right
    || (base.Rec? && left.Rec? && right.Rec?
        && forall k | k in base.fields.Keys + left.fields.Keys + right.fields.Keys ::
             if k in base.fields
             then DisjointEdits(base.fields[k], Get(left.fields, k), Get(right.fields, k))
             else k !in left.fields || k !in right.fields)
  }

  /** Saving two panels in either order gives the same body. */
  lemma {:induction false} DisjointEditsCommute(base: Json, left: Json, right: Json)
    requires Defined(base) && (Defined(left) || left == Undef) && (Defined(right) || right == Undef)
    requires DisjointEdits(base, left, right)
    ensures MergeChanged(base, left, right) == MergeChanged(base, right, left)
    decreases base, 1, 1
  {
    SameValueIsEquality(base, left);
    SameValueIsEquality(base, right);
    if base == left {
      UneditedCommutes(base, right);
    } else if base == right {
      UneditedCommutes(base, left);
    } else {
      RecordsCommute(base, left, right);
    }
  }

  lemma {:induction false} RecordsCommute(base: Json, left: Json, right: Json)
    requires base.Rec? && left.Rec? && right.Rec?
    requires Defined(base) && Defined(left) && Defined(right)
    requires DisjointEdits(base, left, right) && base != left && base != right
    ensures MergeChanged(base, left, right) == MergeChanged(base, right, left)
    decreases base, 1, 0
  {
    SameValueIsEquality(base, left);
    SameValueIsEquality(base, right);
    var lr := MergeFields(base.fields, left.fields, right.fields);
    var rl := MergeFields(base.fields, right.fields, left.fields);
    forall k ensures Agree(lr, rl, k) { FieldsCommute(base, left, right, k); }
    AgreeEverywhere(lr, rl);
  }

  /** One side changed nothing: either way the other side's value remains. */
  lemma UneditedCommutes(base: Json, other: Json)
    requires Defined(base) && (Defined(other) || other == Undef)
    ensures MergeChanged(base, base, other) == other && MergeChanged(base, other, base) == other
  {
    SameValueIsEquality(base, base);
    SameValueIsEquality(base, other);
    MergeOntoBase(base, other, base);
    MergeIsDefined(base, other, base);
    if base != other { SameValueIsEquality(MergeChanged(base, other, base), other); }
  }

  lemma {:induction false} FieldsCommute(base: Json, left: Json, right: Json, k: string)
    requires base.Rec? && left.Rec? && right.Rec?
    requires Defined(base) && Defined(left) && Defined(right)
    requires DisjointEdits(base, left, right) && base != left && base != right
    ensures Agree(MergeFields(base.fields, left.fields, right.fields),
                  MergeFields(base.fields, right.fields, left.fields), k)
    decreases base, 0
  {
    var b, l, r := base.fields, left.fields, right.fields;
    MergeFieldsAt(b, l, r, k);
    MergeFieldsAt(b, r, l, k);
    if k in b {
      SameValueIsEquality(b[k], Get(l, k));
      SameValueIsEquality(b[k], Get(r, k));
      DisjointEditsCommute(b[k], Get(l, k), Get(r, k));
    } else if k in l || k in r {
      assert k in b.Keys + l.Keys + r.Keys;
    }
  }

  /** Merging values JSON can carry gives such a value (or removes the field). */
  lemma {:induction false} MergeIsDefined(base: Json, next: Json, pending: Json)
    requires Defined(base) || base == Undef
    requires Defined(next) || next == Undef
    requires Defined(pending) || pending == Undef
    ensures Defined(MergeChanged(base, next, pending)) || MergeChanged(base, next, pending) == Undef
    decreases base
  {
    if !SameValue(base, next) && base.Rec? && next.Rec? {
      var start := if pending.Rec? then pending.fields else base.fields;
      var m := MergeFields(base.fields, next.fields, start);
      forall k | k in m ensures Defined(m[k]) {
        MergeFieldsAt(base.fields, next.fields, start, k);
        if k in next.fields && k in base.fields && base.fields[k].Rec? && next.fields[k].Rec? {
          MergeIsDefined(base.fields[k], next.fields[k], Get(start, k));
        }
      }
    }
  }

  // ----- the merge, read off along any path

  /** The value at a path of field names. */
  function At(v: Json, path: seq<string>): Json
    decreases |path|
  {
    if path == [] then v
    else if v.Rec? then At(Get(v.fields, path[0]), path[1..])
    else Undef
  }

  /** All three bodies are records all the way down to (not including) the end of the path. */
  ghost predicate RecordsAlong(base: Json, next: Json, pending: Json, path: seq<string>)
    decreases |path|
  {
    path == [] ||
    (base.Rec? && next.Rec? && pending.Rec?
     && RecordsAlong(Get(base.fields, path[0]), Get(next.fields, path[0]), Get(pending.fields, path[0]), path[1..]))
  }

  /** At any depth: where the panel left the base alone the pending edit survives, and where it
      changed a leaf its own value wins. */
  lemma {:induction false} MergeAlongPath(base: Json, next: Json, pending: Json, path: seq<string>)
    requires Defined(base) || base == Undef
    requires Defined(next) || next == Undef
    requires Defined(pending) || pending == Undef
    requires RecordsAlong(base, next, pending, path)
    ensures At(base, path) == At(next, path) ==>
              At(MergeChanged(base, next, pending), path) == At(pending, path)
    ensures At(base, path) != At(next, path) && !(At(base, path).Rec? && At(next, path).Rec?) ==>
              At(MergeChanged(base, next, pending), path) == At(next, path)
    decreases |path|
  {
    SameValueIsEquality(base, next);
    if path != [] && base != next {
      var k := path[0];
      var b, n, p := Get(base.fields, k), Get(next.fields, k), Get(pending.fields, k);
      SameValueIsEquality(b, n);
      MergeFieldsAt(base.fields, next.fields, pending.fields, k);
      MergeAlongPath(b, n, p, path[1..]);
      assert Get(MergeFields(base.fields, next.fields, pending.fields), k) == MergeChanged(b, n, p);
    }
  }

  /** A removed endpoint stays removed exactly when the other panel touched only its download
      child; any other change brings the endpoint back. */
  lemma RemovedEndpointStaysRemoved(base: Json, next: Json)
    requires base.Rec? && next.Rec? && !SameValue(base, next)
    ensures MergeChanged(base, next, Null) == Null <==>
            forall k :: SameValue(Get(base.fields, k), Get(next.fields, k)) <==> k != "download"
  {
    var b, n := base.fields, next.fields;
    forall k ensures k in ChangedKeys(b, n) <==> !SameValue(Get(b, k), Get(n, k)) {
      assert k !in b && k !in n ==> Get(b, k) == Get(n, k) == Undef;
    }
    if forall k :: SameValue(Get(b, k), Get(n, k)) <==> k != "download" {
      assert ChangedKeys(b, n) == {DOWNLOAD};
    }
  }

  /** With an explicit `undefined` in the base the two orders can differ, so `Defined` is needed:
      the second save deletes the field the first one had set. */
  lemma ExplicitUndefinedBreaksCommuting()
    ensures
      var base := Rec(map["a" := Undef, "c" := Null]);
      var left := Rec(map["c" := Atom("2")]);
      var right := Rec(map["a" := Atom("5"), "c" := Null]);
      !SameValue(MergeChanged(base, left, right), MergeChanged(base, right, left))
  {
    var b, l, r := map["a" := Undef, "c" := Null], map["c" := Atom("2")], map["a" := Atom("5"), "c" := Null];
    assert !SameValue(b["c"], l["c"]) && !SameValue(b["a"], r["a"]);
    FieldUndone(b, l, r, "a");
  }

  lemma FieldUndone(b: map<string, Json>, l: map<string, Json>, r: map<string, Json>, k: string)
    requires !SameValue(Rec(b), Rec(l)) && !SameValue(Rec(b), Rec(r))
    requires k in b && b[k] == Undef && k !in l && k in r && !SameValue(Undef, r[k])
    ensures !SameValue(MergeChanged(Rec(b), Rec(l), Rec(r)), MergeChanged(Rec(b), Rec(r), Rec(l)))
  {
    MergeFieldsAt(b, l, r, k);
    MergeFieldsAt(b, r, l, k);
  }
}
