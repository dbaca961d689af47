/** Submission receipts and what they do to stored drafts (frontend/src/draft-storage.ts). */
module Receipts {
  import opened Wrappers
  import opened DraftModel

  /** The identifiers a receipt keeps of a submitted entry. */
  datatype Submitted = Submitted(key: Key, editId: string, kind: OpKind)

  type Receipt = seq<Submitted>

  /** The map `afterSubmission` builds: the last item of a key counts. */
  function Sent(receipt: Receipt): map<Key, Submitted> {
    if receipt == [] then map[]
    else
      var last := receipt[|receipt| - 1];
      Sent(receipt[..|receipt| - 1])[last.key := last]
  }

  /** Create tags that a later edit must not replay, with the update that takes their place. */
  function Demoted(kind: OpKind): Option<OpKind> {
    match kind
    case CreateApp => Some(UpsertApp)
    case CreateChain => Some(UpsertChain)
    case CreateIngress => Some(UpsertIngress)
    case _ => None
  }

  function SettleEntry(entry: Entry, sent: map<Key, Submitted>): seq<Entry> {
    if entry.key !in sent then [entry]
    else
      var previous := sent[entry.key];
      if entry.editId == previous.editId then []
      else if previous.kind == entry.op.kind && Demoted(entry.op.kind).Some?
      then [entry.(op := entry.op.(kind := Demoted(entry.op.kind).value))]
      else [entry]
  }

  function Settle(entries: seq<Entry>, sent: map<Key, Submitted>): seq<Entry> {
    if entries == [] then [] else SettleEntry(entries[0], sent) + Settle(entries[1..], sent)
  }

  /** `afterSubmission(entries, submitted)`. */
  function AfterSubmission(entries: seq<Entry>, receipt: Receipt): seq<Entry> {
    Settle(entries, Sent(receipt))
  }

  /** The loop in `read`: every stored receipt, in the order its storage key sorts. */
  function AfterAll(entries: seq<Entry>, receipts: seq<Receipt>): seq<Entry> {
    if receipts == [] then entries
    else AfterSubmission(AfterAll(entries, receipts[..|receipts| - 1]), receipts[|receipts| - 1])
  }

  // ----- receipts as facts, independent of order

  /** What receipts say: which edits are in the database, and which keys were sent as what. */
  datatype Facts = Facts(edits: set<(Key, string)>, sentAs: set<(Key, OpKind)>) {
    function Union(other: Facts): Facts {
      Facts(edits + other.edits, sentAs + other.sentAs)
    }
  }

  function FactsOf(receipt: Receipt): Facts {
    var sent := Sent(receipt);
    Facts(set k | k in sent :: (k, sent[k].editId), set k | k in sent :: (k, sent[k].kind))
  }

  function AllFacts(receipts: set<Receipt>): Facts {
    Facts(set r, e | r in receipts && e in FactsOf(r).edits :: e,
          set r, c | r in receipts && c in FactsOf(r).sentAs :: c)
  }

  /** What is left of one entry, given everything the receipts say. */
  function Judge(entry: Entry, facts: Facts): seq<Entry> {
    if (entry.key, entry.editId) in facts.edits then []
    else if (entry.key, entry.op.kind) in facts.sentAs && Demoted(entry.op.kind).Some?
    then [entry.(op := entry.op.(kind := Demoted(entry.op.kind).value))]
    else [entry]
  }

  function JudgeAll(entries: seq<Entry>, facts: Facts): seq<Entry> {
    if entries == [] then [] else Judge(entries[0], facts) + JudgeAll(entries[1..], facts)
  }

  lemma {:induction false} SentIsKeyed(receipt: Receipt)
    ensures forall k | k in Sent(receipt) :: Sent(receipt)[k].key == k && Sent(receipt)[k] in receipt
    ensures forall s | s in receipt :: s.key in Sent(receipt)
  {
    if receipt != [] { SentIsKeyed(receipt[..|receipt| - 1]); }
  }

  /** Of several items of one key the last counts. */
  lemma {:induction false} SentIsLast(receipt: Receipt, i: nat)
    requires i < |receipt| && forall j | i < j < |receipt| :: receipt[j].key != receipt[i].key
    ensures receipt[i].key in Sent(receipt) && Sent(receipt)[receipt[i].key] == receipt[i]
  {
    if i < |receipt| - 1 { SentIsLast(receipt[..|receipt| - 1], i); }
  }

  lemma {:induction false} SettleIsJudge(entries: seq<Entry>, receipt: Receipt)
    ensures AfterSubmission(entries, receipt) == JudgeAll(entries, FactsOf(receipt))
  {
    if entries != [] {
      SettleIsJudge(entries[1..], receipt);
      var e, sent, facts := entries[0], Sent(receipt), FactsOf(receipt);
      assert (e.key, e.editId) in facts.edits <==> e.key in sent && sent[e.key].editId == e.editId;
      assert (e.key, e.op.kind) in facts.sentAs <==> e.key in sent && sent[e.key].kind == e.op.kind;
    }
  }

  lemma {:induction false} JudgeSplit(left: seq<Entry>, right: seq<Entry>, facts: Facts)
    ensures JudgeAll(left + right, facts) == JudgeAll(left, facts) + JudgeAll(right, facts)
  {
    if left == [] {
      assert left + right == right;
    } else {
      assert (left + right)[1..] == left[1..] + right;
      JudgeSplit(left[1..], right, facts);
    }
  }

  lemma {:induction false} JudgeTwice(entries: seq<Entry>, first: Facts, second: Facts)
    ensures JudgeAll(JudgeAll(entries, first), second) == JudgeAll(entries, first.Union(second))
  {
    if entries != [] {
      JudgeTwice(entries[1..], first, second);
      JudgeSplit(Judge(entries[0], first), JudgeAll(entries[1..], first), second);
      JudgeOne(entries[0], first, second);
    }
  }

  lemma JudgeOne(entry: Entry, first: Facts, second: Facts)
    ensures JudgeAll(Judge(entry, first), second) == Judge(entry, first.Union(second))
  {
    var once := Judge(entry, first);
    if once != [] {
      assert once[1..] == [];
      assert JudgeAll(once, second) == Judge(once[0], second);
    }
  }

  lemma {:induction false} NothingSubmitted(entries: seq<Entry>)
    ensures JudgeAll(entries, Facts({}, {})) == entries
  {
    if entries != [] { NothingSubmitted(entries[1..]); }
  }

  /** Applying receipts one by one is judging each entry by their union. */
  lemma {:induction false} AfterAllIsJudge(entries: seq<Entry>, receipts: seq<Receipt>)
    ensures AfterAll(entries, receipts) == JudgeAll(entries, AllFacts(set r | r in receipts))
  {
    if receipts == [] {
      NothingSubmitted(entries);
      assert AllFacts(set r | r in receipts) == Facts({}, {});
    } else {
      var rest, last := receipts[..|receipts| - 1], receipts[|receipts| - 1];
      AfterAllIsJudge(entries, rest);
      SettleIsJudge(AfterAll(entries, rest), last);
      JudgeTwice(entries, AllFacts((set r | r in rest)), FactsOf(last));
      assert receipts == rest + [last];
      AllFactsAdd((set r | r in rest), last);
      assert (set r | r in receipts) == (set r | r in rest) + {last};
    }
  }

  lemma AllFactsAdd(receipts: set<Receipt>, more: Receipt)
    ensures AllFacts(receipts + {more}) == AllFacts(receipts).Union(FactsOf(more))
  {
    var both, one := AllFacts(receipts + {more}), AllFacts(receipts).Union(FactsOf(more));
    assert both.edits == one.edits;
    assert both.sentAs == one.sentAs;
  }

  /** Receipts commute and are idempotent: only which receipts are stored matters. */
  lemma ReceiptsCommute(entries: seq<Entry>, some: seq<Receipt>, others: seq<Receipt>)
    requires (set r | r in some) == (set r | r in others)
    ensures AfterAll(entries, some) == AfterAll(entries, others)
  {
    AfterAllIsJudge(entries, some);
    AfterAllIsJudge(entries, others);
  }

  /** What survives: exactly the entries whose edit was not submitted, each with its own edit id
      and body, and with its create tag replaced if that create was submitted. */
  lemma {:induction false} JudgeAllMembers(entries: seq<Entry>, facts: Facts, survivor: Entry)
    ensures survivor in JudgeAll(entries, facts) <==>
            exists i :: 0 <= i < |entries| && Judge(entries[i], facts) == [survivor]
  {
    if entries != [] {
      JudgeAllMembers(entries[1..], facts, survivor);
      var tail := entries[1..];
      if survivor in JudgeAll(tail, facts) {
        var i :| 0 <= i < |tail| && Judge(tail[i], facts) == [survivor];
        assert entries[i + 1] == tail[i];
      }
      if i :| 0 <= i < |entries| && Judge(entries[i], facts) == [survivor] {
        if i > 0 { assert tail[i - 1] == entries[i]; }
      }
    }
  }

  /** A create of an app, a chain or an ingress that was sent is an update from then on; every other
      operation keeps its tag. */
  ghost predicate RetaggedAs(was: OpKind, sent: bool, now: OpKind) {
    && (sent && was == CreateApp ==> now == UpsertApp)
    && (sent && was == CreateChain ==> now == UpsertChain)
    && (sent && was == CreateIngress ==> now == UpsertIngress)
    && (!sent || was !in {CreateApp, CreateChain, CreateIngress} ==> now == was)
  }

  /** What an entry that was not sent is read as. */
  ghost predicate Survives(e: Entry, facts: Facts, s: Entry) {
    && s.key == e.key && s.editId == e.editId && s.op.body == e.op.body && s.op.target == e.op.target
    && RetaggedAs(e.op.kind, (e.key, e.op.kind) in facts.sentAs, s.op.kind)
  }

  /** No submitted edit is ever read again, nor a create whose object exists; any other edit of
      the same key survives, and nothing else is read. */
  lemma ReceiptIsFinal(entries: seq<Entry>, facts: Facts)
    ensures forall e | e in JudgeAll(entries, facts) :: (e.key, e.editId) !in facts.edits
    ensures forall e | e in JudgeAll(entries, facts) && e.op.kind in {CreateApp, CreateChain, CreateIngress} ::
              (e.key, e.op.kind) !in facts.sentAs
    ensures forall e | e in entries && (e.key, e.editId) !in facts.edits ::
              exists s :: s in JudgeAll(entries, facts) && Survives(e, facts, s)
    ensures forall s | s in JudgeAll(entries, facts) :: exists e :: e in entries && Survives(e, facts, s)
  {
    forall s | s in JudgeAll(entries, facts)
      ensures (s.key, s.editId) !in facts.edits && exists e :: e in entries && Survives(e, facts, s)
      ensures s.op.kind in {CreateApp, CreateChain, CreateIngress} ==> (s.key, s.op.kind) !in facts.sentAs
    {
      var e := JudgedSurvivor(entries, facts, s);
    }
    forall e | e in entries && (e.key, e.editId) !in facts.edits
      ensures exists s :: s in JudgeAll(entries, facts) && Survives(e, facts, s)
    {
      var s := UnsentSurvives(entries, facts, e);
    }
  }

  lemma JudgedSurvivor(entries: seq<Entry>, facts: Facts, s: Entry) returns (e: Entry)
    requires s in JudgeAll(entries, facts)
    ensures e in entries && Survives(e, facts, s) && (s.key, s.editId) !in facts.edits
    ensures s.op.kind in {CreateApp, CreateChain, CreateIngress} ==> (s.key, s.op.kind) !in facts.sentAs
  {
    JudgeAllMembers(entries, facts, s);
    var i :| 0 <= i < |entries| && Judge(entries[i], facts) == [s];
    e := entries[i];
  }

  lemma UnsentSurvives(entries: seq<Entry>, facts: Facts, e: Entry) returns (s: Entry)
    requires e in entries && (e.key, e.editId) !in facts.edits
    ensures s in JudgeAll(entries, facts) && Survives(e, facts, s)
  {
    s := Judge(e, facts)[0];
    var i :| 0 <= i < |entries| && entries[i] == e;
    assert Judge(entries[i], facts) == [s];
    JudgeAllMembers(entries, facts, s);
  }

  /** Edits as pairs of key and edit id. */
  ghost function Edits(entries: seq<Entry>): set<(Key, string)> {
    set e | e in entries :: (e.key, e.editId)
  }

  lemma SettledEdits(entries: seq<Entry>, facts: Facts)
    ensures Edits(JudgeAll(entries, facts)) == Edits(entries) - facts.edits
  {
    var settled := JudgeAll(entries, facts);
    forall x | x in Edits(settled) ensures x in Edits(entries) - facts.edits {
      var s :| s in settled && x == (s.key, s.editId);
      var e := JudgedSurvivor(entries, facts, s);
    }
    forall x | x in Edits(entries) - facts.edits ensures x in Edits(settled) {
      var e :| e in entries && x == (e.key, e.editId);
      var s := UnsentSurvives(entries, facts, e);
    }
  }

  lemma {:induction false} SettledKeysUnique(entries: seq<Entry>, facts: Facts)
    requires UniqueKeys(entries)
    ensures UniqueKeys(JudgeAll(entries, facts))
  {
    if entries != [] {
      SettledKeysUnique(entries[1..], facts);
      forall s | s in JudgeAll(entries[1..], facts) ensures s.key != entries[0].key {
        JudgeAllMembers(entries[1..], facts, s);
      }
    }
  }

  /** The receipt that records a batch. */
  function ReceiptOf(batch: seq<Entry>): Receipt {
    seq(|batch|, i requires 0 <= i < |batch| => Submitted(batch[i].key, batch[i].editId, batch[i].op.kind))
  }

  lemma {:induction false} ReceiptFacts(batch: seq<Entry>)
    requires UniqueKeys(batch)
    ensures FactsOf(ReceiptOf(batch)).edits == Edits(batch)
  {
    var receipt := ReceiptOf(batch);
    var sent := Sent(receipt);
    SentIsKeyed(receipt);
    forall e | e in batch ensures e.key in sent && sent[e.key].editId == e.editId {
      var i :| 0 <= i < |batch| && batch[i] == e;
      assert receipt[i].key == e.key;
      var s := sent[e.key];
      var j :| 0 <= j < |receipt| && receipt[j] == s;
      assert batch[j].key == batch[i].key;
    }
    forall k | k in sent ensures (k, sent[k].editId) in Edits(batch) {
      var j :| 0 <= j < |receipt| && receipt[j] == sent[k];
      assert batch[j] in batch;
    }
  }
}
