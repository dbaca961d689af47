/** The live frame of one node (frontend/src/realtime-order.ts, frontend/src/node-realtime.tsx): which
    incoming frames are accepted, and what a partial frame leaves of the previous one. */
module RealtimeFrames {
  import opened Wrappers

  /** A field of a decoded frame, as far as merging looks into it. `Undef` is what a missing field
      reads as; `Other` stands for everything that is neither a number nor a plain object. */
  datatype Value = Undef | Number(n: int) | Other(text: string) | Object(fields: map<string, Value>)

  /** `other` holds the fields merging treats alike: diagnostics and interface rates. */
  datatype Sample = Sample(
    sequence: Option<int>, sampledAt: int, diagnosticsUnchanged: bool, muxUnchanged: bool,
    mux: Value, userTraffic: Value, other: map<string, Value>)

  datatype Frame = Frame(receivedAt: int, sample: Sample)

  const SAMPLED_AT := "sampled_at_unix_ms"

  // ----- the code's functions

  predicate Older(incoming: Frame, previous: Option<Frame>) {
    if previous.None? then false
    else if incoming.receivedAt != previous.value.receivedAt then incoming.receivedAt < previous.value.receivedAt
    else
      && incoming.sample.sequence.Some? && previous.value.sample.sequence.Some?
      && incoming.sample.sequence.value < previous.value.sample.sequence.value
  }

  function ConfirmMux(mux: Value, at: int): Value {
    match mux
    case Object(fields) => Object(fields[SAMPLED_AT := Number(at)])
    case _ => mux
  }

  function Merge(previous: Option<Frame>, event: Frame): Frame {
    if previous.None? then event
    else
      var before, now := previous.value.sample, event.sample;
      if now.diagnosticsUnchanged then
        // the spread of the previous sample under the new one; the last two fields are always new
        event.(sample := now.(
          sequence := if now.sequence.Some? then now.sequence else before.sequence,
          mux := if now.mux != Undef then now.mux else before.mux,
          other := before.other + now.other))
      else if now.muxUnchanged then
        event.(sample := now.(mux := ConfirmMux(before.mux, now.sampledAt)))
      else event
  }

  /** `accept` and the variable it updates. */
  class Receiver {
    var newest: Option<Frame>
    var stopped: bool

    constructor ()
      ensures newest == None && !stopped
    {
      newest, stopped := None, false;
    }

    method Accept(event: Frame)
      modifies `newest
      ensures newest == if stopped then old(newest) else Kept(old(newest), event)
    {
      if stopped || Older(event, newest) { return; }
      newest := Some(Merge(newest, event));
    }
  }

  // ----- any delivery

  function Kept(newest: Option<Frame>, event: Frame): Option<Frame> {
    if Older(event, newest) then newest else Some(Merge(newest, event))
  }

  /** What is kept after a delivery of frames. */
  function Newest(frames: seq<Frame>): Option<Frame> {
    if frames == [] then None else Kept(Newest(frames[..|frames| - 1]), frames[|frames| - 1])
  }

  /** The frames of a delivery that were accepted. */
  function Accepted(frames: seq<Frame>): seq<Frame> {
    if frames == [] then []
    else
      var front, last := frames[..|frames| - 1], frames[|frames| - 1];
      if Older(last, Newest(front)) then Accepted(front) else Accepted(front) + [last]
  }

  function MergeAll(frames: seq<Frame>): Option<Frame> {
    if frames == [] then None else Some(Merge(MergeAll(frames[..|frames| - 1]), frames[|frames| - 1]))
  }

  /** A dropped frame leaves no trace: what is kept is the accepted frames merged one on another. */
  lemma {:induction false} KeptIsAcceptedMerged(frames: seq<Frame>)
    ensures Newest(frames) == MergeAll(Accepted(frames))
    ensures Accepted(frames) == [] <==> frames == []
    ensures forall f | f in Accepted(frames) :: f in frames
  {
    if frames != [] {
      var front, last := frames[..|frames| - 1], frames[|frames| - 1];
      KeptIsAcceptedMerged(front);
      assert (Accepted(front) + [last])[..|Accepted(front)|] == Accepted(front);
      assert frames == front + [last];
    }
  }

  // ----- which frame is kept

  /** Receipt time first, then the sequence. */
  predicate NotLater(x: Frame, y: Frame)
    requires x.sample.sequence.Some? && y.sample.sequence.Some?
  {
    x.receivedAt < y.receivedAt || (x.receivedAt == y.receivedAt && x.sample.sequence.value <= y.sample.sequence.value)
  }

  ghost predicate Sequenced(frames: seq<Frame>) { forall f | f in frames :: f.sample.sequence.Some? }

  /** When every frame carries a sequence, the kept frame has the latest receipt time and sequence of
      all delivered, whatever the order of delivery. */
  lemma {:induction false} KeepsTheLatest(frames: seq<Frame>)
    requires frames != [] && Sequenced(frames)
    ensures Newest(frames).Some? && Newest(frames).value.sample.sequence.Some?
    ensures forall f | f in frames :: NotLater(f, Newest(frames).value)
    ensures exists f :: f in frames && f.receivedAt == Newest(frames).value.receivedAt
                        && f.sample.sequence == Newest(frames).value.sample.sequence
  {
    var front, last := frames[..|frames| - 1], frames[|frames| - 1];
    assert frames == front + [last];
    assert last in frames && forall f | f in front :: f in frames;
    if front != [] { KeepsTheLatest(front); }
  }

  lemma DeliveryOrderIsIrrelevant(x: seq<Frame>, y: seq<Frame>)
    requires x != [] && y != [] && Sequenced(x) && forall f :: f in x <==> f in y
    ensures Newest(x).Some? && Newest(y).Some?
    ensures Newest(x).value.receivedAt == Newest(y).value.receivedAt
    ensures Newest(x).value.sample.sequence == Newest(y).value.sample.sequence
  {
    KeepsTheLatest(x);
    KeepsTheLatest(y);
    var f :| f in x && f.receivedAt == Newest(x).value.receivedAt && f.sample.sequence == Newest(x).value.sample.sequence;
    var g :| g in y && g.receivedAt == Newest(y).value.receivedAt && g.sample.sequence == Newest(y).value.sample.sequence;
    assert NotLater(f, Newest(y).value) && NotLater(g, Newest(x).value);
  }

  lemma KeptIsNoEarlier(newest: Option<Frame>, event: Frame)
    ensures Kept(newest, event).Some? && event.receivedAt <= Kept(newest, event).value.receivedAt
    ensures newest.Some? ==> newest.value.receivedAt <= Kept(newest, event).value.receivedAt
  {
  }

  /** With or without sequences the receipt time never goes back. */
  lemma {:induction false} ReceiptIsLatest(frames: seq<Frame>, i: nat)
    requires i < |frames|
    ensures Newest(frames).Some? && frames[i].receivedAt <= Newest(frames).value.receivedAt
  {
    var front, last := frames[..|frames| - 1], frames[|frames| - 1];
    KeptIsNoEarlier(Newest(front), last);
    if i < |front| { ReceiptIsLatest(front, i); }
  }

  /** A frame without a sequence lets an earlier one of the same millisecond replace a later one. */
  lemma UnsequencedFrameForgets() returns (late: Frame, blank: Frame, early: Frame)
    ensures late.receivedAt == blank.receivedAt == early.receivedAt
    ensures blank.sample.sequence.None? && Older(early, Some(late))
    ensures Newest([late, blank, early]) == Some(early)
  {
    var sample := Sample(Some(2), 0, false, false, Undef, Undef, map[]);
    late := Frame(0, sample);
    blank := Frame(0, sample.(sequence := None));
    early := Frame(0, sample.(sequence := Some(1)));
    assert [late, blank, early][..2] == [late, blank] && [late, blank][..1] == [late] && [late][..0] == [];
    assert Newest([late]) == Some(late);
    assert Newest([late, blank]) == Some(blank);
  }

  /** A frame without a sequence that changes no diagnostics passes on the sequence of an earlier
      millisecond, and with it a frame received later but numbered from one again is dropped. */
  lemma UnsequencedFrameInherits() returns (early: Frame, blank: Frame, restarted: Frame)
    ensures early.receivedAt < blank.receivedAt == restarted.receivedAt
    ensures blank.sample.sequence.None? && restarted.sample.sequence == Some(1)
    ensures !Older(restarted, Some(early)) && !Older(restarted, Some(blank))
    ensures Newest([early, blank, restarted]).Some? && Newest([early, blank, restarted]) == Newest([early, blank])
    ensures Older(restarted, Newest([early, blank]))
  {
    var sample := Sample(Some(100), 0, false, false, Undef, Undef, map[]);
    early := Frame(0, sample);
    blank := Frame(1, sample.(sequence := None, diagnosticsUnchanged := true));
    restarted := Frame(1, sample.(sequence := Some(1)));
    assert [early, blank, restarted][..2] == [early, blank] && [early, blank][..1] == [early] && [early][..0] == [];
    assert Newest([early]) == Some(early);
  }

  // ----- exactly when a frame is judged wrongly

  /** Some frame accepted so far is later by the rule: in receipt time, or within one millisecond in
      sequence. Only such a frame should make the incoming one be dropped. */
  ghost predicate Overtaken(accepted: seq<Frame>, event: Frame) {
    exists a | a in accepted :: Older(event, Some(a))
  }

  /** The last accepted frame to carry a sequence is of an earlier millisecond, has the greater
      sequence, and every frame since changes no diagnostics. */
  ghost predicate InheritsOldSequence(accepted: seq<Frame>, event: Frame) {
    && accepted != [] && event.receivedAt == accepted[|accepted| - 1].receivedAt && event.sample.sequence.Some?
    && exists i :: 0 <= i < |accepted| && PassedOn(accepted, i)
         && accepted[i].receivedAt < event.receivedAt && Above(accepted[i], event)
  }

  ghost predicate PassedOn(accepted: seq<Frame>, i: nat)
    requires i < |accepted|
  {
    forall j | i < j < |accepted| :: accepted[j].sample.diagnosticsUnchanged && accepted[j].sample.sequence.None?
  }

  predicate Above(frame: Frame, event: Frame) {
    && frame.sample.sequence.Some? && event.sample.sequence.Some?
    && event.sample.sequence.value < frame.sample.sequence.value
  }

  /** A complete frame without a sequence came after a greater sequence of the same millisecond, and
      none greater came after it. */
  ghost predicate ForgetsSequence(accepted: seq<Frame>, event: Frame) {
    && accepted != [] && event.receivedAt == accepted[|accepted| - 1].receivedAt
    && exists c :: 0 <= c < |accepted| && Forgets(accepted, c, event)
  }

  ghost predicate Forgets(accepted: seq<Frame>, c: nat, event: Frame)
    requires c < |accepted|
  {
    && !accepted[c].sample.diagnosticsUnchanged && accepted[c].sample.sequence.None?
    && (exists j :: 0 <= j < c && accepted[j].receivedAt == event.receivedAt && Above(accepted[j], event))
    && (forall k | c < k < |accepted| :: !Above(accepted[k], event))
  }

  /** Each frame was not older than what was kept of the ones before it. */
  ghost predicate EachAccepted(accepted: seq<Frame>) {
    forall k | 0 <= k < |accepted| :: AcceptedAt(accepted, k)
  }

  ghost predicate AcceptedAt(accepted: seq<Frame>, k: nat)
    requires k < |accepted|
  {
    !Older(accepted[k], MergeAll(accepted[..k]))
  }

  lemma {:induction false} AcceptedInTurn(frames: seq<Frame>)
    ensures EachAccepted(Accepted(frames))
  {
    if frames != [] {
      var front := frames[..|frames| - 1];
      AcceptedInTurn(front);
      KeptIsAcceptedMerged(front);
      var was, now := Accepted(front), Accepted(frames);
      forall k | 0 <= k < |now| ensures AcceptedAt(now, k) {
        assert now[..k] == was[..k];
        assert k < |was| ==> AcceptedAt(was, k);
        assert was[..|was|] == was;
      }
    }
  }

  lemma {:induction false} TimesNeverGoBack(accepted: seq<Frame>, i: nat, j: nat)
    requires EachAccepted(accepted) && i <= j < |accepted|
    ensures accepted[i].receivedAt <= accepted[j].receivedAt
  {
    if i < j {
      TimesNeverGoBack(accepted, i, j - 1);
      assert AcceptedAt(accepted, j);
      assert accepted[..j][..j - 1] == accepted[..j - 1];
    }
  }

  lemma FrontIsAccepted(accepted: seq<Frame>)
    requires EachAccepted(accepted) && accepted != []
    ensures EachAccepted(accepted[..|accepted| - 1])
  {
    var front := accepted[..|accepted| - 1];
    forall k | 0 <= k < |front| ensures AcceptedAt(front, k) {
      assert AcceptedAt(accepted, k);
      assert front[..k] == accepted[..k];
    }
  }

  /** Where the kept sequence came from: the last frame that carries one or is complete. */
  lemma {:induction false} SequenceSource(accepted: seq<Frame>) returns (i: nat)
    requires accepted != []
    ensures i < |accepted| && PassedOn(accepted, i)
    ensures MergeAll(accepted).value.sample.sequence == accepted[i].sample.sequence
    ensures i == 0 || accepted[i].sample.sequence.Some? || !accepted[i].sample.diagnosticsUnchanged
  {
    var front, last := accepted[..|accepted| - 1], accepted[|accepted| - 1];
    i := |front|;
    if front != [] && last.sample.diagnosticsUnchanged && last.sample.sequence.None? {
      i := SequenceSource(front);
      assert forall j | 0 <= j < |front| :: accepted[j] == front[j];
    }
  }

  /** The frames before the millisecond of the last one never matter when it is their turn. */
  lemma OvertakenInSameInstant(accepted: seq<Frame>, event: Frame)
    requires EachAccepted(accepted) && accepted != []
    ensures event.receivedAt < accepted[|accepted| - 1].receivedAt ==> Overtaken(accepted, event)
    ensures event.receivedAt > accepted[|accepted| - 1].receivedAt ==> !Overtaken(accepted, event)
    ensures event.receivedAt == accepted[|accepted| - 1].receivedAt ==>
              (Overtaken(accepted, event) <==>
               exists j :: 0 <= j < |accepted| && accepted[j].receivedAt == event.receivedAt && Above(accepted[j], event))
  {
    var n := |accepted| - 1;
    forall j | 0 <= j < |accepted| ensures accepted[j].receivedAt <= accepted[n].receivedAt {
      TimesNeverGoBack(accepted, j, n);
    }
    assert accepted[n] in accepted;
    forall j | 0 <= j < |accepted| && accepted[j].receivedAt == event.receivedAt && Above(accepted[j], event)
      ensures Overtaken(accepted, event) {
      assert accepted[j] in accepted && Older(event, Some(accepted[j]));
    }
  }

  /** The frame is dropped though nothing accepted is later exactly when an old sequence was inherited. */
  lemma DropsWronglyIff(frames: seq<Frame>, event: Frame)
    ensures Older(event, Newest(frames)) && !Overtaken(Accepted(frames), event)
       <==> InheritsOldSequence(Accepted(frames), event)
  {
    KeptIsAcceptedMerged(frames);
    AcceptedInTurn(frames);
    var accepted := Accepted(frames);
    if accepted != [] {
      OvertakenInSameInstant(accepted, event);
      var i := SequenceSource(accepted);
      BlockedBySource(accepted, i, event);
      if event.receivedAt == accepted[|accepted| - 1].receivedAt { OldSequenceBlocks(accepted, i, event); }
    }
  }

  lemma OneSource(accepted: seq<Frame>, i: nat, k: nat)
    requires i < |accepted| && PassedOn(accepted, i)
    requires i == 0 || accepted[i].sample.sequence.Some? || !accepted[i].sample.diagnosticsUnchanged
    requires k < |accepted| && PassedOn(accepted, k) && accepted[k].sample.sequence.Some?
    ensures k == i
  {
  }

  /** Only the last millisecond and the sequence passed on decide. */
  lemma BlockedBySource(accepted: seq<Frame>, i: nat, event: Frame)
    requires i < |accepted| && MergeAll(accepted).Some?
    requires MergeAll(accepted).value.sample.sequence == accepted[i].sample.sequence
    ensures var at := accepted[|accepted| - 1].receivedAt;
            Older(event, MergeAll(accepted)) <==>
              event.receivedAt < at || (event.receivedAt == at && Above(accepted[i], event))
  {
    assert MergeAll(accepted).value.receivedAt == accepted[|accepted| - 1].receivedAt;
  }

  lemma OldSequenceBlocks(accepted: seq<Frame>, i: nat, event: Frame)
    requires EachAccepted(accepted) && i < |accepted| && PassedOn(accepted, i)
    requires event.receivedAt == accepted[|accepted| - 1].receivedAt
    requires i == 0 || accepted[i].sample.sequence.Some? || !accepted[i].sample.diagnosticsUnchanged
    ensures InheritsOldSequence(accepted, event) <==> Above(accepted[i], event) && accepted[i].receivedAt < event.receivedAt
    ensures InheritsOldSequence(accepted, event) ==> !Overtaken(accepted, event)
    ensures Above(accepted[i], event) ==> accepted[i].receivedAt < event.receivedAt || Overtaken(accepted, event)
  {
    TimesNeverGoBack(accepted, i, |accepted| - 1);
    OvertakenInSameInstant(accepted, event);
    forall j | 0 <= j <= i ensures accepted[j].receivedAt <= accepted[i].receivedAt { TimesNeverGoBack(accepted, j, i); }
    forall k | 0 <= k < |accepted| && PassedOn(accepted, k) && accepted[k].sample.sequence.Some? ensures k == i {
      OneSource(accepted, i, k);
    }
  }

  /** The frame is kept though an accepted one is later exactly when its sequence was forgotten. */
  lemma KeepsWronglyIff(frames: seq<Frame>, event: Frame)
    ensures !Older(event, Newest(frames)) && Overtaken(Accepted(frames), event)
       <==> ForgetsSequence(Accepted(frames), event)
  {
    KeptIsAcceptedMerged(frames);
    AcceptedInTurn(frames);
    var accepted := Accepted(frames);
    if accepted != [] {
      OvertakenInSameInstant(accepted, event);
      if event.receivedAt == accepted[|accepted| - 1].receivedAt {
        if Overtaken(accepted, event) && !Older(event, Newest(frames)) {
          var j :| 0 <= j < |accepted| && accepted[j].receivedAt == event.receivedAt && Above(accepted[j], event);
          var c := WhereForgotten(accepted, j, event);
        }
        ForgottenDoesNotBlock(accepted, event);
      }
    }
  }

  lemma ForgottenDoesNotBlock(accepted: seq<Frame>, event: Frame)
    requires EachAccepted(accepted) && accepted != []
    ensures ForgetsSequence(accepted, event) ==>
              !Older(event, MergeAll(accepted)) && Overtaken(accepted, event)
  {
    OvertakenInSameInstant(accepted, event);
    if c: nat :| c < |accepted| && Forgets(accepted, c, event) {
      var i := SequenceSource(accepted);
      BlockedBySource(accepted, i, event);
    }
  }

  /** Since a greater sequence was accepted in this millisecond, something must have forgotten it. */
  lemma {:induction false} WhereForgotten(accepted: seq<Frame>, j: nat, event: Frame) returns (c: nat)
    requires EachAccepted(accepted) && j < |accepted|
    requires event.receivedAt == accepted[|accepted| - 1].receivedAt == accepted[j].receivedAt
    requires Above(accepted[j], event) && !Older(event, MergeAll(accepted))
    ensures c < |accepted| && Forgets(accepted, c, event)
  {
    var n := |accepted| - 1;
    LastIsNotAbove(accepted, event);
    if !accepted[n].sample.diagnosticsUnchanged && accepted[n].sample.sequence.None? {
      c := n;
      assert accepted[j].receivedAt == event.receivedAt && Above(accepted[j], event);
    } else {
      FrontIsAccepted(accepted);
      TimesNeverGoBack(accepted, j, n - 1);
      TimesNeverGoBack(accepted, n - 1, n);
      FrontDoesNotBlock(accepted, event);
      c := WhereForgotten(accepted[..n], j, event);
      ForgetsLonger(accepted, c, event);
    }
  }

  lemma LastIsNotAbove(accepted: seq<Frame>, event: Frame)
    requires accepted != [] && event.receivedAt == accepted[|accepted| - 1].receivedAt
    requires !Older(event, MergeAll(accepted))
    ensures !Above(accepted[|accepted| - 1], event)
  {
  }

  lemma FrontDoesNotBlock(accepted: seq<Frame>, event: Frame)
    requires EachAccepted(accepted) && |accepted| > 1
    requires event.receivedAt == accepted[|accepted| - 1].receivedAt == accepted[|accepted| - 2].receivedAt
    requires var last := accepted[|accepted| - 1].sample; last.diagnosticsUnchanged || last.sequence.Some?
    requires !Older(event, MergeAll(accepted))
    ensures !Older(event, MergeAll(accepted[..|accepted| - 1]))
  {
    var front, last := accepted[..|accepted| - 1], accepted[|accepted| - 1];
    assert AcceptedAt(accepted, |front|);
    assert MergeAll(front).value.receivedAt == front[|front| - 1].receivedAt;
  }

  lemma ForgetsLonger(accepted: seq<Frame>, c: nat, event: Frame)
    requires c + 1 < |accepted| && Forgets(accepted[..|accepted| - 1], c, event)
    requires !Above(accepted[|accepted| - 1], event)
    ensures Forgets(accepted, c, event)
  {
    var front := accepted[..|accepted| - 1];
    assert forall k | 0 <= k < |front| :: accepted[k] == front[k];
    var i :| 0 <= i < c && front[i].receivedAt == event.receivedAt && Above(front[i], event);
    assert accepted[i].receivedAt == event.receivedAt && Above(accepted[i], event);
  }

  /** In every other case the code decides as the rule says. */
  lemma JudgedRightlyIff(frames: seq<Frame>, event: Frame)
    ensures (Older(event, Newest(frames)) <==> Overtaken(Accepted(frames), event))
       <==> !InheritsOldSequence(Accepted(frames), event) && !ForgetsSequence(Accepted(frames), event)
  {
    DropsWronglyIff(frames, event);
    KeepsWronglyIff(frames, event);
  }

  // ----- what the kept frame shows

  function Get(fields: map<string, Value>, key: string): Option<Value> {
    if key in fields then Some(fields[key]) else None
  }

  /** Everything from the frame `base` on only adds to it, and it adds to nothing. */
  ghost predicate IsBase(frames: seq<Frame>, base: nat) {
    && base < |frames| && (base == 0 || !frames[base].sample.diagnosticsUnchanged)
    && forall j | base < j < |frames| :: frames[j].sample.diagnosticsUnchanged
  }

  function Field(frame: Frame, field: string): Option<Value> { Get(frame.sample.other, field) }

  /** A diagnostic shows what the last accepted frame to carry it said, looking back no further than
      the last complete frame; when none of these carries it, it is cleared. */
  ghost predicate IsLastWord(frames: seq<Frame>, base: nat, field: string, shown: Option<Value>) {
    if shown.None? then forall j | base <= j < |frames| :: Field(frames[j], field).None?
    else exists i :: base <= i < |frames| && Field(frames[i], field) == shown
             && forall j | i < j < |frames| :: Field(frames[j], field).None?
  }

  lemma {:induction false} DiagnosticIsLastWord(frames: seq<Frame>, field: string) returns (base: nat)
    requires frames != []
    ensures IsBase(frames, base)
    ensures IsLastWord(frames, base, field, Field(MergeAll(frames).value, field))
  {
    var front, last := frames[..|frames| - 1], frames[|frames| - 1];
    if front == [] || !last.sample.diagnosticsUnchanged {
      base := |front|;
      assert Field(MergeAll(frames).value, field) == Field(frames[base], field);
    } else {
      base := DiagnosticIsLastWord(front, field);
      MergedField(MergeAll(front), last, field);
      LastWordStep(front, last, base, field, Field(MergeAll(front).value, field));
      assert frames == front + [last];
    }
  }

  lemma MergedField(previous: Option<Frame>, event: Frame, field: string)
    requires previous.Some? && event.sample.diagnosticsUnchanged
    ensures Field(Merge(previous, event), field) ==
            if Field(event, field).Some? then Field(event, field) else Field(previous.value, field)
  {
  }

  lemma LastWordStep(front: seq<Frame>, last: Frame, base: nat, field: string, before: Option<Value>)
    requires last.sample.diagnosticsUnchanged && IsBase(front, base) && IsLastWord(front, base, field, before)
    ensures IsBase(front + [last], base)
    ensures IsLastWord(front + [last], base, field, if Field(last, field).Some? then Field(last, field) else before)
  {
    var frames := front + [last];
    assert forall j | 0 <= j < |front| :: frames[j] == front[j];
    assert frames[|front|] == last;
    if Field(last, field).None? && before.Some? {
      var i :| base <= i < |front| && Field(front[i], field) == before
               && forall j | i < j < |front| :: Field(front[j], field).None?;
      assert Field(frames[i], field) == before;
    }
  }

  /** User rates, the sampling time and the markers are those of the newest accepted frame, never of
      an earlier one. */
  lemma RatesAreNewest(frames: seq<Frame>)
    requires frames != []
    ensures Accepted(frames) != [] && Newest(frames).Some?
    ensures var shown, last := Newest(frames).value, Accepted(frames)[|Accepted(frames)| - 1];
            && shown.sample.userTraffic == last.sample.userTraffic && shown.sample.sampledAt == last.sample.sampledAt
            && shown.sample.muxUnchanged == last.sample.muxUnchanged && shown.receivedAt == last.receivedAt
  {
    KeptIsAcceptedMerged(frames);
  }

  // ----- the Mux report

  predicate Confirms(frame: Frame) { !frame.sample.diagnosticsUnchanged && frame.sample.muxUnchanged }

  /** The frame has nothing of its own to say about Mux. */
  predicate Silent(frame: Frame) { frame.sample.diagnosticsUnchanged && frame.sample.mux == Undef }

  /** The report without the time it was last confirmed. */
  function Content(mux: Value): Value {
    match mux
    case Object(fields) => Object(fields - {SAMPLED_AT})
    case _ => mux
  }

  /** The Mux report shown is the one the frame `source` carried; every later accepted frame passed it
      on or confirmed it. Its time is the sampling time of the last frame that confirmed it, and its own
      when none did; nothing but the time ever changes. */
  ghost predicate IsMuxOf(frames: seq<Frame>, source: nat, confirmed: Option<nat>, shown: Value) {
    && source < |frames|
    && (source == 0 || (!Confirms(frames[source]) && !Silent(frames[source])))
    && (forall j | source < j < |frames| :: Confirms(frames[j]) || Silent(frames[j]))
    && Content(shown) == Content(frames[source].sample.mux)
    && match confirmed
       case None => shown == frames[source].sample.mux && forall j | source < j < |frames| :: !Confirms(frames[j])
       case Some(c) =>
         && source < c < |frames| && Confirms(frames[c])
         && (forall j | c < j < |frames| :: !Confirms(frames[j]))
         && (shown.Object? ==> Get(shown.fields, SAMPLED_AT) == Some(Number(frames[c].sample.sampledAt)))
  }

  lemma {:induction false} MuxIsLastReport(frames: seq<Frame>) returns (source: nat, confirmed: Option<nat>)
    requires frames != []
    ensures IsMuxOf(frames, source, confirmed, MergeAll(frames).value.sample.mux)
  {
    var front, last := frames[..|frames| - 1], frames[|frames| - 1];
    var n := |front|;
    source, confirmed := n, None;
    if front != [] && (Confirms(last) || Silent(last)) {
      source, confirmed := MuxIsLastReport(front);
      MuxStep(frames, source, confirmed);
      if Confirms(last) { confirmed := Some(n); }
    }
  }

  lemma MuxStep(frames: seq<Frame>, source: nat, confirmed: Option<nat>)
    requires |frames| > 1 && (Confirms(frames[|frames| - 1]) || Silent(frames[|frames| - 1]))
    requires var front := frames[..|frames| - 1]; IsMuxOf(front, source, confirmed, MergeAll(front).value.sample.mux)
    ensures var n := |frames| - 1;
            IsMuxOf(frames, source, if Confirms(frames[n]) then Some(n) else confirmed, MergeAll(frames).value.sample.mux)
  {
    var front, last := frames[..|frames| - 1], frames[|frames| - 1];
    assert forall j | 0 <= j < |front| :: frames[j] == front[j];
    var before := MergeAll(front).value.sample.mux;
    if Confirms(last) {
      assert MergeAll(frames).value.sample.mux == ConfirmMux(before, last.sample.sampledAt);
      ConfirmingKeepsContent(before, last.sample.sampledAt);
    } else {
      assert MergeAll(frames).value.sample.mux == before;
    }
  }

  lemma ConfirmingKeepsContent(mux: Value, at: int)
    ensures Content(ConfirmMux(mux, at)) == Content(mux)
    ensures ConfirmMux(mux, at).Object? ==> Get(ConfirmMux(mux, at).fields, SAMPLED_AT) == Some(Number(at))
  {
    if mux.Object? { assert mux.fields[SAMPLED_AT := Number(at)] - {SAMPLED_AT} == mux.fields - {SAMPLED_AT}; }
  }
}
