/** The shared branch heads in localStorage (frontend/src/draft-storage.ts).

  Every write publishes an immutable branch under a fresh id and then removes its parents one
  by one; a tab can stop anywhere in between. The state keeps the whole publication history. */
module DraftHeads {
  import opened Wrappers
  import opened DraftModel
  import opened Receipts

  type Id = string

  datatype Branch = Branch(id: Id, parents: seq<Id>, entries: seq<Entry>)

  /** Everything ever published, oldest first, and the ids whose record was removed again. */
  datatype Heads = Heads(written: seq<Branch>, removed: set<Id>)

  ghost predicate Names(heads: Heads, child: int, id: Id)
    requires 0 <= child < |heads.written|
  {
    id in heads.written[child].parents
  }

  /** Some write named this id as a parent. */
  ghost predicate Superseded(heads: Heads, id: Id) {
    exists c :: 0 <= c < |heads.written| && Names(heads, c, id)
  }

  ghost predicate Present(heads: Heads, i: int)
    requires 0 <= i < |heads.written|
  {
    heads.written[i].id !in heads.removed
  }

  ghost predicate Valid(heads: Heads) {
    && (forall i, j | 0 <= i < j < |heads.written| :: heads.written[i].id != heads.written[j].id)
    && (forall i, p | 0 <= i < |heads.written| && p in heads.written[i].parents ::
          exists j :: 0 <= j < i && heads.written[j].id == p)
    && (forall id | id in heads.removed :: Superseded(heads, id))
  }

  /** `read` keeps the present records that no present record names as a parent. */
  ghost predicate Live(heads: Heads, i: int) {
    && 0 <= i < |heads.written|
    && Present(heads, i)
    && (forall c | 0 <= c < |heads.written| && Present(heads, c) :: !Names(heads, c, heads.written[i].id))
  }

  ghost predicate Leaf(heads: Heads, i: int) {
    0 <= i < |heads.written| && !Superseded(heads, heads.written[i].id)
  }

  // ----- the two storage steps

  ghost predicate Fresh(heads: Heads, id: Id) {
    && (forall i | 0 <= i < |heads.written| :: heads.written[i].id != id)
    && id !in heads.removed
    && !Superseded(heads, id)
  }

  ghost predicate Written(heads: Heads, id: Id) {
    exists i :: 0 <= i < |heads.written| && heads.written[i].id == id
  }

  /** `setItem` of a new head. */
  function Publish(heads: Heads, branch: Branch): Heads {
    heads.(written := heads.written + [branch])
  }

  /** `removeItem` of one parent. */
  function Remove(heads: Heads, id: Id): Heads {
    heads.(removed := heads.removed + {id})
  }

  lemma PublishKeepsValid(heads: Heads, branch: Branch)
    requires Valid(heads) && Fresh(heads, branch.id)
    requires forall p | p in branch.parents :: Written(heads, p)
    ensures Valid(Publish(heads, branch))
    ensures forall id :: Superseded(heads, id) ==> Superseded(Publish(heads, branch), id)
    ensures Live(Publish(heads, branch), |heads.written|)
  {
    var after := Publish(heads, branch);
    forall id | Superseded(heads, id) ensures Superseded(after, id) {
      var c :| 0 <= c < |heads.written| && Names(heads, c, id);
      assert Names(after, c, id);
    }
    forall i, p | 0 <= i < |after.written| && p in after.written[i].parents
      ensures exists j :: 0 <= j < i && after.written[j].id == p
    {
      if i < |heads.written| {
        var j :| 0 <= j < i && heads.written[j].id == p;
        assert after.written[j].id == p;
      } else {
        var j :| 0 <= j < |heads.written| && heads.written[j].id == p;
        assert after.written[j].id == p;
      }
    }
    forall c | 0 <= c < |heads.written| ensures !Names(after, c, branch.id) {
      assert !Superseded(heads, branch.id);
      assert !Names(heads, c, branch.id);
    }
    forall p | p in branch.parents ensures p != branch.id {
      assert Written(heads, p);
    }
  }

  lemma RemoveKeepsValid(heads: Heads, id: Id)
    requires Valid(heads) && Superseded(heads, id)
    ensures Valid(Remove(heads, id))
    ensures forall other :: Superseded(heads, other) ==> Superseded(Remove(heads, id), other)
  {
    var after := Remove(heads, id);
    forall other | Superseded(heads, other) ensures Superseded(after, other) {
      var c :| 0 <= c < |heads.written| && Names(heads, c, other);
      assert Names(after, c, other);
    }
  }

  /** The record is in the history and was not removed from it. */
  ghost predicate Keeps(history: Heads, id: Id, branch: Branch) {
    branch.id == id && exists i :: 0 <= i < |history.written| && history.written[i] == branch && Present(history, i)
  }

  lemma PublishedKeeps(history: Heads, branch: Branch)
    requires branch.id !in history.removed
    ensures Keeps(Publish(history, branch), branch.id, branch)
    ensures forall k, b: Branch | Keeps(history, k, b) :: Keeps(Publish(history, branch), k, b)
  {
    var now := Publish(history, branch);
    assert now.written[|history.written|] == branch && Present(now, |history.written|);
    forall k, b: Branch | Keeps(history, k, b) ensures Keeps(now, k, b) {
      var i :| 0 <= i < |history.written| && history.written[i] == b && Present(history, i);
      assert now.written[i] == b && Present(now, i);
    }
  }

  function RemoveAll(history: Heads, ids: seq<Id>): Heads {
    if ids == [] then history else Remove(RemoveAll(history, ids[..|ids| - 1]), ids[|ids| - 1])
  }

  lemma RemovedKeeps(history: Heads, id: Id)
    ensures forall k, b: Branch | k != id && Keeps(history, k, b) :: Keeps(Remove(history, id), k, b)
  {
    forall k, b: Branch | k != id && Keeps(history, k, b) ensures Keeps(Remove(history, id), k, b) {
      var i :| 0 <= i < |history.written| && history.written[i] == b && Present(history, i);
      assert Remove(history, id).written[i] == b && Present(Remove(history, id), i);
    }
  }

  lemma {:induction false} RemoveAllKeeps(history: Heads, ids: seq<Id>)
    ensures RemoveAll(history, ids).written == history.written
  {
    if ids != [] { RemoveAllKeeps(history, ids[..|ids| - 1]); }
  }

  lemma {:induction false} RemoveFirst(history: Heads, ids: seq<Id>)
    requires ids != []
    ensures RemoveAll(history, ids) == RemoveAll(Remove(history, ids[0]), ids[1..])
  {
    if |ids| > 1 {
      RemoveFirst(history, ids[..|ids| - 1]);
      assert ids[..|ids| - 1][1..] == ids[1..][..|ids| - 2];
    }
  }

  // ----- nothing written is ever lost

  /** A chain of writes, each superseding the one before it. */
  ghost predicate Descends(heads: Heads, chain: seq<int>) {
    && |chain| > 0
    && (forall k | 0 <= k < |chain| :: 0 <= chain[k] < |heads.written|)
    && (forall k | 0 < k < |chain| :: Names(heads, chain[k], heads.written[chain[k - 1]].id))
  }

  /** However tabs stop between publishing and removing, every branch ever written is present
      or has a present descendant; indeed one that no write supersedes and that `read` returns. */
  lemma {:induction false} NothingIsLost(heads: Heads, i: int) returns (chain: seq<int>)
    requires Valid(heads) && 0 <= i < |heads.written|
    ensures Descends(heads, chain) && chain[0] == i
    ensures Leaf(heads, chain[|chain| - 1]) && Live(heads, chain[|chain| - 1])
    decreases |heads.written| - i
  {
    if Superseded(heads, heads.written[i].id) {
      var c :| 0 <= c < |heads.written| && Names(heads, c, heads.written[i].id);
      var j :| 0 <= j < c && heads.written[j].id == heads.written[i].id;
      assert j == i;
      var rest := NothingIsLost(heads, c);
      chain := [i] + rest;
    } else {
      chain := [i];
    }
  }

  /** A read returns every branch that no write superseded. */
  lemma LeafIsLive(heads: Heads)
    ensures forall i | Leaf(heads, i) && Present(heads, i) :: Live(heads, i)
    ensures Valid(heads) ==> forall i | Leaf(heads, i) :: Live(heads, i)
  {
    forall i | Leaf(heads, i) && Present(heads, i) ensures Live(heads, i) {
      forall c | 0 <= c < |heads.written| ensures !Names(heads, c, heads.written[i].id) {
        assert !Superseded(heads, heads.written[i].id);
      }
    }
  }

  /** What is read can be more than that: a tab that stops after publishing leaves its parent behind,
      and the parent is read again once the child is itself superseded and removed. */
  lemma StoppedWriteCanResurface()
    ensures
      var b0, b1, b2 := Branch("0", [], []), Branch("1", ["0"], []), Branch("2", ["1"], []);
      var heads := Remove(Publish(Publish(Publish(Heads([], {}), b0), b1), b2), "1");
      Valid(heads) && Live(heads, 0) && !Leaf(heads, 0)
  {
    var b0, b1, b2 := Branch("0", [], []), Branch("1", ["0"], []), Branch("2", ["1"], []);
    var heads := Remove(Publish(Publish(Publish(Heads([], {}), b0), b1), b2), "1");
    assert heads.written == [b0, b1, b2];
    ThreeInARow(heads, b0, b1, b2);
  }

  lemma ThreeInARow(heads: Heads, b0: Branch, b1: Branch, b2: Branch)
    requires heads == Heads([b0, b1, b2], {b1.id})
    requires b0.parents == [] && b1.parents == [b0.id] && b2.parents == [b1.id]
    requires b0.id != b1.id && b1.id != b2.id && b0.id != b2.id
    ensures Valid(heads) && Live(heads, 0) && !Leaf(heads, 0)
  {
    assert Names(heads, 1, b0.id) && Names(heads, 2, b1.id);
    assert !Present(heads, 1) && !Names(heads, 2, b0.id);
    forall i, p | 0 <= i < 3 && p in heads.written[i].parents
      ensures exists j :: 0 <= j < i && heads.written[j].id == p
    {
      assert heads.written[i - 1].id == p;
    }
  }
}
