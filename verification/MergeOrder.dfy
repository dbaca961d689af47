/** Exactly when two panels of an ingress may save in either order, explicit `undefined` included
    (`mergeChanged` in frontend/src/draft.ts). */
module MergeOrder {
  import opened IngressMerge

  /** Two edits that change no value both: at every level one of them reads as the base, or all three
      are records whose fields are again edited so. */
  ghost predicate Disjoint(base: Json, left: Json, right: Json)
    decreases base
  {
    || SameValue(base, left)
    || SameValue(base, right)
    || (base.Rec? && left.Rec? && right.Rec?
        && forall k | k in base.fields.Keys + left.fields.Keys + right.fields.Keys ::
             if k in base.fields then Disjoint(base.fields[k], Get(left.fields, k), Get(right.fields, k))
             else Get(left.fields, k) == Undef || Get(right.fields, k) == Undef)
  }

  /** The first edit leaves a field undefined that the second sets, and its save touches that field all
      the same: it drops an explicit `undefined` of the base, or adds one of its own. */
  predicate Undoes(base: map<string, Json>, first: map<string, Json>, second: map<string, Json>, k: string) {
    && Get(base, k) == Undef && Get(first, k) == Undef && Get(second, k) != Undef
    && (k in base <==> k !in first)
  }

  /** Somewhere both edits changed, one undoes the other. */
  ghost predicate Clash(base: Json, left: Json, right: Json)
    decreases base
  {
    && !SameValue(base, left) && !SameValue(base, right)
    && base.Rec? && left.Rec? && right.Rec?
    && exists k :: k in base.fields.Keys + left.fields.Keys + right.fields.Keys
         && (|| Undoes(base.fields, left.fields, right.fields, k)
             || Undoes(base.fields, right.fields, left.fields, k)
             || (k in base.fields && Clash(base.fields[k], Get(left.fields, k), Get(right.fields, k))))
  }

  lemma SameFields(x: map<string, Json>, y: map<string, Json>)
    ensures SameValue(Rec(x), Rec(y)) <==> forall k :: SameValue(Get(x, k), Get(y, k))
  {
    if forall k :: SameValue(Get(x, k), Get(y, k)) {
      forall k | k in x ensures SameValue(x[k], Get(y, k)) { assert SameValue(Get(x, k), Get(y, k)); }
      forall k | k in y && k !in x ensures y[k] == Undef { assert SameValue(Get(x, k), Get(y, k)); }
    }
  }

  /** One side reads as the base: either way the other side's value remains. */
  lemma UneditedAgrees(base: Json, same: Json, other: Json)
    requires SameValue(base, same)
    ensures SameValue(MergeChanged(base, same, other), MergeChanged(base, other, same))
    ensures SameValue(MergeChanged(base, other, same), MergeChanged(base, same, other))
  {
    MergeOntoBase(base, other, same);
    SameValueEquivalence(MergeChanged(base, other, same), other, other);
  }

  /** A field the base has is merged like a whole value. */
  lemma FieldMerges(b: map<string, Json>, n: map<string, Json>, start: map<string, Json>, k: string)
    requires k in b && b[k] != Undef
    ensures Get(MergeFields(b, n, start), k) == MergeChanged(b[k], Get(n, k), Get(start, k))
  {
    MergeFieldsAt(b, n, start, k);
  }

  /** A field it has not, or has as `undefined`, is set, left as pending, or undone. */
  lemma NewFieldMerges(b: map<string, Json>, n: map<string, Json>, start: map<string, Json>, k: string)
    requires Get(b, k) == Undef
    ensures Get(MergeFields(b, n, start), k) ==
            if Get(n, k) != Undef then n[k] else if k in b <==> k in n then Get(start, k) else Undef
  {
    MergeFieldsAt(b, n, start, k);
  }

  /** In this field the two orders differ. */
  ghost predicate ClashAt(b: map<string, Json>, l: map<string, Json>, r: map<string, Json>, k: string) {
    Undoes(b, l, r, k) || Undoes(b, r, l, k) || (k in b && Clash(b[k], Get(l, k), Get(r, k)))
  }

  lemma NewFieldCommutesIff(b: map<string, Json>, l: map<string, Json>, r: map<string, Json>, k: string)
    requires Get(b, k) == Undef && (Get(l, k) == Undef || Get(r, k) == Undef)
    ensures SameValue(Get(MergeFields(b, l, r), k), Get(MergeFields(b, r, l), k)) <==> !ClashAt(b, l, r, k)
  {
    NewFieldMerges(b, l, r, k);
    NewFieldMerges(b, r, l, k);
    SameValueEquivalence(Get(l, k), Get(r, k), Get(r, k));
    SameValueEquivalence(Get(r, k), Get(l, k), Get(l, k));
  }

  /** Saving two disjoint edits in either order gives the same body if and only if neither undoes the
      other. */
  lemma {:induction false} CommutesIff(base: Json, left: Json, right: Json)
    requires Disjoint(base, left, right)
    ensures SameValue(MergeChanged(base, left, right), MergeChanged(base, right, left)) <==> !Clash(base, left, right)
    decreases base, 1
  {
    if SameValue(base, left) {
      UneditedAgrees(base, left, right);
    } else if SameValue(base, right) {
      UneditedAgrees(base, right, left);
    } else {
      FieldsCommuteIff(base, left, right);
    }
  }

  lemma {:induction false} FieldsCommuteIff(base: Json, left: Json, right: Json)
    requires base.Rec? && left.Rec? && right.Rec? && Disjoint(base, left, right)
    requires !SameValue(base, left) && !SameValue(base, right)
    ensures SameValue(MergeChanged(base, left, right), MergeChanged(base, right, left)) <==> !Clash(base, left, right)
    decreases base, 0
  {
    var b, l, r := base.fields, left.fields, right.fields;
    var lr, rl := MergeFields(b, l, r), MergeFields(b, r, l);
    forall k ensures SameValue(Get(lr, k), Get(rl, k)) <==> !ClashAt(b, l, r, k) {
      if Get(b, k) == Undef {
        assert k in b || k in l || k in r ==> k in b.Keys + l.Keys + r.Keys;
        DisjointAt(base, left, right, k);
        NewFieldCommutesIff(b, l, r, k);
      } else {
        FieldMerges(b, l, r, k);
        FieldMerges(b, r, l, k);
        DisjointAt(base, left, right, k);
        CommutesIff(b[k], Get(l, k), Get(r, k));
      }
    }
    SameFields(lr, rl);
    ClashIsAt(base, left, right);
  }

  lemma DisjointAt(base: Json, left: Json, right: Json, k: string)
    requires base.Rec? && left.Rec? && right.Rec? && Disjoint(base, left, right)
    requires !SameValue(base, left) && !SameValue(base, right)
    ensures k in base.fields ==> Disjoint(base.fields[k], Get(left.fields, k), Get(right.fields, k))
    ensures Get(base.fields, k) == Undef ==> Get(left.fields, k) == Undef || Get(right.fields, k) == Undef
  {
    var keys := base.fields.Keys + left.fields.Keys + right.fields.Keys;
    assert k !in keys ==> Get(left.fields, k) == Undef;
  }

  lemma ClashIsAt(base: Json, left: Json, right: Json)
    requires base.Rec? && left.Rec? && right.Rec?
    requires !SameValue(base, left) && !SameValue(base, right)
    ensures Clash(base, left, right) <==> exists k :: ClashAt(base.fields, left.fields, right.fields, k)
  {
    var b, l, r := base.fields, left.fields, right.fields;
    if k :| ClashAt(b, l, r, k) { assert k in b.Keys + l.Keys + r.Keys; }
    if Clash(base, left, right) {
      var k :| k in b.Keys + l.Keys + r.Keys
               && (Undoes(b, l, r, k) || Undoes(b, r, l, k) || (k in b && Clash(b[k], Get(l, k), Get(r, k))));
      assert ClashAt(b, l, r, k);
    }
  }

  /** Values JSON can carry never clash. */
  lemma {:induction false} JsonNeverClashes(base: Json, left: Json, right: Json)
    requires Defined(base) && (Defined(left) || left == Undef) && (Defined(right) || right == Undef)
    ensures !Clash(base, left, right)
    decreases base
  {
    if base.Rec? && left.Rec? && right.Rec? {
      var b, l, r := base.fields, left.fields, right.fields;
      forall k | k in b ensures !Clash(b[k], Get(l, k), Get(r, k)) {
        JsonNeverClashes(b[k], Get(l, k), Get(r, k));
      }
    }
  }
}
