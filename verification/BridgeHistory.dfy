/** Where replies come from: what a turn collected and how it settled, against the frames its
    own prompt produced. */
module BridgeHistory {
  import opened Text
  import opened BridgeSpec
  import opened BridgeLane
  import opened BridgeSafety

  /** The non-empty text a frame carries. */
  function TextOf(f: Frame): seq<string> {
    if (f.TextFrame? || f.ResultFrame?) && f.content != "" then [f.content] else []
  }

  /** The non-empty texts of `frames`, in order. */
  function TextsOf(frames: seq<Frame>): seq<string> {
    if frames == [] then [] else TextsOf(frames[..|frames| - 1]) + TextOf(frames[|frames| - 1])
  }

  lemma TextsOfSnoc(frames: seq<Frame>, f: Frame)
    ensures TextsOf(frames + [f]) == TextsOf(frames) + TextOf(f)
  {
    assert (frames + [f])[..|frames|] == frames;
  }

  predicate Suffix(s: seq<string>, t: seq<string>) {
    |s| <= |t| && forall i | 0 <= i < |s| :: s[i] == t[|t| - |s| + i]
  }

  lemma SuffixAppend(s: seq<string>, t: seq<string>, more: seq<string>)
    requires Suffix(s, t)
    ensures Suffix(s + more, t + more)
  {
  }

  predicate Ended(frames: seq<Frame>) {
    frames != [] && Terminal(frames[|frames| - 1])
  }

  /** `reply` is all of `texts`, in order, with an empty line between any two of them, and
      without the white space around the whole. */
  ghost predicate Amounts(reply: string, texts: seq<string>) {
    Core(reply, Concat(Spaced("\n\n", texts)))
  }

  lemma ReplyAmounts(texts: seq<string>)
    ensures Amounts(ReplyOf(texts), texts)
  {
    JoinIsSpaced("\n\n", texts);
    StripIsCore(Join("\n\n", texts));
  }

  /** `text` is what an error frame reports: its error, else its message, and never nothing. */
  predicate Reports(text: string, f: Frame) {
    && f.ErrorFrame? && text != ""
    && (f.error != "" ==> text == f.error)
    && (f.error == "" && f.message != "" ==> text == f.message)
  }

  /** A turn settles once, at that moment; a settled one is left exactly as it is. */
  lemma SettlesOnce(t: TurnRec, o: Outcome, now: real)
    ensures Done(t) ==> Settle(t, o, now) == t && Finish(t, now) == t
    ensures !Done(t) && t.finishedAt.None? ==>
              && Settle(t, o, now) == t.(outcome := Some(o), finishedAt := Some(now))
              && Finish(t, now).finishedAt == Some(now) && Finish(t, now).outcome.Some?
              && Finish(t, now).outcome.value.Reply? && Amounts(Finish(t, now).outcome.value.text, t.texts)
  {
    ReplyAmounts(t.texts);
  }

  /** How a turn stands to the frames `own` of its own prompt. */
  predicate Provenance(t: TurnRec, own: seq<Frame>) {
    match t.outcome
    case None => Suffix(t.texts, TextsOf(own))
    case Some(Reply(text)) =>
      && own != [] && own[|own| - 1].ResultFrame?
      && text == ReplyOf(t.texts) && Suffix(t.texts, TextsOf(own))
    case Some(Failed(AgentError(text))) =>
      own != [] && own[|own| - 1].ErrorFrame? && text == ErrorText(own[|own| - 1])
    case Some(Failed(_)) => true
  }

  lemma CreditProvenance(t: TurnRec, own: seq<Frame>, f: Frame, now: real)
    requires t.outcome.None? && Provenance(t, own)
    ensures Provenance(Credit(t, f, now), own + [f])
  {
    TextsOfSnoc(own, f);
    SuffixAppend(t.texts, TextsOf(own), TextOf(f));
    assert !f.ErrorFrame? ==> Credit(t, f, now).texts == t.texts + TextOf(f);
  }

  // ------------------------------------------------- what the line still expects

  predicate Increasing(line: seq<TurnId>) {
    forall i, j | 0 <= i < j < |line| :: line[i] < line[j]
  }

  /** No prompt is in the line twice, and none of the line has produced its terminal frame. */
  predicate Expecting(line: seq<TurnId>, heard: seq<seq<Frame>>) {
    && Increasing(line)
    && forall i | 0 <= i < |line| :: line[i] < |heard| && !Ended(heard[line[i]])
  }

  lemma ExpectingWithout(line: seq<TurnId>, heard: seq<seq<Frame>>, i: nat)
    requires Expecting(line, heard) && i < |line|
    ensures Expecting(Without(line, i), heard)
  {
  }

  lemma ExpectingStart(line: seq<TurnId>, heard: seq<seq<Frame>>)
    requires Expecting(line, heard)
    ensures Expecting(line + [|heard|], heard + [[]])
  {
  }

  lemma ExpectingFrame(line: seq<TurnId>, heard: seq<seq<Frame>>, f: Frame)
    requires Expecting(line, heard) && line != []
    ensures Expecting(if Terminal(f) then line[1..] else line, heard[line[0] := heard[line[0]] + [f]])
  {
    forall i | 1 <= i < |line| ensures line[i] != line[0] {}
  }

  lemma SendExpecting(l: Lane)
    requires l.sending.Some? && Expecting(Line(l), l.heard)
    ensures Expecting(Line(SendOver(l)), l.heard)
  {
    if !l.wired {
      ExpectingWithout(Line(l), l.heard, |l.queue|);
      assert Line(SendOver(l)) == Without(Line(l), |l.queue|);
    }
  }

  lemma StepExpecting(l: Lane, act: Act, now: real)
    requires Inv(l, now) && Enabled(l, act) && Expecting(Line(l), l.heard)
    ensures Expecting(Line(Next(l, act, now)), Next(l, act, now).heard)
  {
    var line := Line(l);
    match act
    case Start(message) => ExpectingStart(line, l.heard);
    case SendReturns => SendExpecting(l);
    case SendRaises => SendExpecting(l);
    case FrameArrives(f) => FrameExpecting(l, f, now);
    case PromptLost(i) =>
      PromptLostShape(l, i);
      ExpectingWithout(line, l.heard, i);
    case _ => QuietLine(l, act, now);
  }

  lemma FrameExpecting(l: Lane, f: Frame, now: real)
    requires Shape(l) && l.queue != [] && Expecting(Line(l), l.heard)
    ensures Expecting(Line(Heard(l, f, now)), Heard(l, f, now).heard)
  {
    HeardLine(l, f, now);
    ExpectingFrame(Line(l), l.heard, f);
    assert Heard(l, f, now).heard == l.heard[Line(l)[0] := l.heard[Line(l)[0]] + [f]];
  }

  /** The other steps neither send nor receive. */
  lemma QuietLine(l: Lane, act: Act, now: real)
    requires Shape(l) && Enabled(l, act)
    requires !act.Start? && !act.SendReturns? && !act.SendRaises? && !act.FrameArrives? && !act.PromptLost?
    ensures Line(Next(l, act, now)) == Line(l) && Next(l, act, now).heard == l.heard
  {
  }

  // ------------------------------------------------------- settled stays settled

  /** Turns are only added, and the outcome of a settled one never changes. */
  predicate Lasting(recs: seq<TurnRec>, recs': seq<TurnRec>) {
    && |recs| <= |recs'|
    && forall id | 0 <= id < |recs| && Done(recs[id]) ::
         && recs'[id].outcome == recs[id].outcome && recs'[id].message == recs[id].message
         && recs'[id].texts == recs[id].texts
  }

  lemma StepLasting(l: Lane, act: Act, now: real)
    requires Shape(l) && Enabled(l, act)
    ensures Lasting(l.slot.recs, Next(l, act, now).slot.recs)
  {
  }

  /** The answer of a call about a settled turn is that turn's outcome. */
  predicate Truthful(told: (TurnId, CallResult), recs: seq<TurnRec>) {
    told.1.Pending? ||
    (DoneAt(recs, told.0) && (told.1 == Settled(recs[told.0], false) || told.1 == Settled(recs[told.0], true)))
  }

  predicate AllTruthful(told: seq<(TurnId, CallResult)>, recs: seq<TurnRec>) {
    forall i | 0 <= i < |told| :: Truthful(told[i], recs)
  }

  lemma TruthLasts(told: seq<(TurnId, CallResult)>, recs: seq<TurnRec>, recs': seq<TurnRec>)
    requires AllTruthful(told, recs) && Lasting(recs, recs')
    ensures AllTruthful(told, recs')
  {
    forall i | 0 <= i < |told| ensures Truthful(told[i], recs') {
      assert Truthful(told[i], recs);
    }
  }

  lemma StepTruthful(l: Lane, act: Act, now: real)
    requires Shape(l) && Enabled(l, act) && AllTruthful(l.told, l.slot.recs)
    ensures AllTruthful(Next(l, act, now).told, Next(l, act, now).slot.recs)
  {
    var l' := Next(l, act, now);
    StepLasting(l, act, now);
    TruthLasts(l.told, l.slot.recs, l'.slot.recs);
    assert
      || l'.told == l.told
      || (l'.told[..|l.told|] == l.told && |l'.told| == |l.told| + 1 && Truthful(l'.told[|l.told|], l'.slot.recs));
  }

  // ------------------------------------------------------------ counting waiters

  predicate Counted(recs: seq<TurnRec>, waiting: seq<nat>) {
    |recs| == |waiting| && forall id | 0 <= id < |recs| :: recs[id].waiters == waiting[id]
  }

  lemma CallsCounted(l: Lane, act: Act, now: real)
    requires Shape(l) && Enabled(l, act) && Counted(l.slot.recs, l.waiting)
    requires act.Arrive? || act.SendReturns? || act.WaitEnds? || act.WaitCancelled?
    ensures Counted(Next(l, act, now).slot.recs, Next(l, act, now).waiting)
  {
  }

  lemma EventsCounted(l: Lane, act: Act, now: real)
    requires Shape(l) && Enabled(l, act) && Counted(l.slot.recs, l.waiting)
    requires act.FrameArrives? || act.Deadline? || act.Disconnect? || act.Start?
    ensures Counted(Next(l, act, now).slot.recs, Next(l, act, now).waiting)
  {
  }

  lemma StepCounted(l: Lane, act: Act, now: real)
    requires Shape(l) && Enabled(l, act) && Counted(l.slot.recs, l.waiting)
    ensures Counted(Next(l, act, now).slot.recs, Next(l, act, now).waiting)
  {
    if act.Arrive? || act.SendReturns? || act.WaitEnds? || act.WaitCancelled? {
      CallsCounted(l, act, now);
    } else if act.FrameArrives? || act.Deadline? || act.Disconnect? || act.Start? {
      EventsCounted(l, act, now);
    }
  }

  // ------------------------------------------------------------------- provenance

  /** Every turn answers its own prompt; while stamps are stored the live turn has no text. */
  predicate Sourced(recs: seq<TurnRec>, heard: seq<seq<Frame>>) {
    |recs| == |heard| && forall id | 0 <= id < |recs| :: Provenance(recs[id], heard[id])
  }

  predicate Unheard(b: Slot)
    requires WellFormed(b)
  {
    Live(b) && b.stamps != [] ==> b.recs[b.held.value].texts == []
  }

  lemma FrameUnheard(l: Lane, f: Frame, now: real)
    requires Inv(l, now) && l.queue != [] && Unheard(l.slot)
    ensures WellFormed(OnOutbound(l.slot, f, now)) && Unheard(OnOutbound(l.slot, f, now))
  {
    FrameOutcome(l, f, now);
  }

  /** Turns keep text and outcome, or are given up locally, or are new. */
  predicate Untouched(recs: seq<TurnRec>, recs': seq<TurnRec>) {
    && |recs'| == |recs|
    && forall id | 0 <= id < |recs| ::
         || (recs'[id].outcome == recs[id].outcome && recs'[id].texts == recs[id].texts)
         || recs'[id].outcome in {Some(Failed(HardTimeout)), Some(Failed(ConnectionLost))}
  }

  lemma SourcedFrame(recs: seq<TurnRec>, recs': seq<TurnRec>, heard: seq<seq<Frame>>)
    requires Sourced(recs, heard) && Untouched(recs, recs')
    ensures Sourced(recs', heard)
  {
    forall id | 0 <= id < |recs| ensures Provenance(recs'[id], heard[id]) {
      assert Provenance(recs[id], heard[id]);
    }
  }

  lemma SourcedAfter(recs: seq<TurnRec>, heard: seq<seq<Frame>>, from: TurnId, f: Frame, recs': seq<TurnRec>)
    requires Sourced(recs, heard) && from < |recs| == |recs'|
    requires forall id | 0 <= id < |recs| && id != from :: recs'[id] == recs[id]
    requires Provenance(recs'[from], heard[from] + [f])
    ensures Sourced(recs', heard[from := heard[from] + [f]])
  {
    forall id | 0 <= id < |recs| ensures Provenance(recs'[id], heard[from := heard[from] + [f]][id]) {
      assert Provenance(recs[id], heard[id]);
    }
  }

  /** A frame that is swallowed comes from a turn that has settled, or that has no text yet. */
  lemma SwallowedProvenance(t: TurnRec, own: seq<Frame>, f: Frame)
    requires Provenance(t, own) && !Ended(own) && (!Done(t) ==> t.texts == [])
    ensures Provenance(t, own + [f])
  {
  }

  lemma FrameSourced(l: Lane, f: Frame, now: real)
    requires Inv(l, now) && l.queue != [] && Sourced(l.slot.recs, l.heard) && Unheard(l.slot)
    requires Expecting(Line(l), l.heard)
    ensures Sourced(Heard(l, f, now).slot.recs, Heard(l, f, now).heard)
  {
    var from := l.queue[0];
    FrameOutcome(l, f, now);
    assert Line(l)[0] == from;
    assert Provenance(l.slot.recs[from], l.heard[from]);
    if l.slot.stamps == [] {
      CreditProvenance(l.slot.recs[from], l.heard[from], f, now);
    } else {
      SwallowedProvenance(l.slot.recs[from], l.heard[from], f);
    }
    SourcedAfter(l.slot.recs, l.heard, from, f, OnOutbound(l.slot, f, now).recs);
  }

  // ------------------------------------------------------------------- every step

  ghost predicate Hist(l: Lane) {
    && WellFormed(l.slot)
    && Expecting(Line(l), l.heard)
    && Sourced(l.slot.recs, l.heard) && Unheard(l.slot)
    && AllTruthful(l.told, l.slot.recs)
    && Counted(l.slot.recs, l.waiting)
  }

  predicate Quiet(act: Act) {
    !act.FrameArrives? && !act.Start?
  }

  lemma GiveUpsUntouched(l: Lane, act: Act, now: real)
    requires Shape(l) && Enabled(l, act) && (act.Deadline? || act.Disconnect?)
    ensures Untouched(l.slot.recs, Next(l, act, now).slot.recs) && Next(l, act, now).heard == l.heard
  {
  }

  lemma QuietUntouched(l: Lane, act: Act, now: real)
    requires Shape(l) && Enabled(l, act) && Quiet(act)
    ensures Untouched(l.slot.recs, Next(l, act, now).slot.recs) && Next(l, act, now).heard == l.heard
  {
    if act.Deadline? || act.Disconnect? {
      GiveUpsUntouched(l, act, now);
    }
  }

  lemma QuietUnheard(l: Lane, act: Act, now: real)
    requires Shape(l) && Enabled(l, act) && Quiet(act) && Unheard(l.slot)
    ensures WellFormed(Next(l, act, now).slot) && Unheard(Next(l, act, now).slot)
  {
  }

  lemma StartSourced(l: Lane, message: string)
    requires Shape(l) && l.sending.None? && l.slot.held.None? && Sourced(l.slot.recs, l.heard)
    ensures Sourced(Started(l, message).slot.recs, Started(l, message).heard)
    ensures WellFormed(Started(l, message).slot) && Unheard(Started(l, message).slot)
  {
    forall id | 0 <= id < |l.slot.recs| ensures Provenance(l.slot.recs[id], l.heard[id]) {}
  }

  lemma StepHist(l: Lane, act: Act, now: real)
    requires Inv(l, now) && Hist(l) && Enabled(l, act)
    ensures Hist(Next(l, act, now))
  {
    StepExpecting(l, act, now);
    StepTruthful(l, act, now);
    StepCounted(l, act, now);
    if act.FrameArrives? {
      FrameSourced(l, act.f, now);
      FrameUnheard(l, act.f, now);
    } else if act.Start? {
      StartSourced(l, act.message);
    } else {
      QuietUntouched(l, act, now);
      QuietUnheard(l, act, now);
      SourcedFrame(l.slot.recs, Next(l, act, now).slot.recs, l.heard);
    }
  }
}
