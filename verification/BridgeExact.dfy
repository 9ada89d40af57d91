/** Without loss and without expiry the bridge is a plain request/response service: stamps
    count the given-up prompts exactly, and every reply is the whole answer to its prompt. */
module BridgeExact {
  import opened Text
  import opened BridgeSpec
  import opened BridgeLane
  import opened BridgeSafety
  import opened BridgeHistory

  /** Nothing is lost and nothing expires: a prompt that is sent arrives, unless the send
      raises while its turn is still live; and no stamp outlives its TTL. */
  predicate Faithful(l: Lane, act: Act, now: real) {
    match act
    case SendReturns => l.wired
    case SendRaises => !l.wired && l.sending.Some? && !DoneAt(l.slot.recs, l.sending.value)
    case PromptLost(_) => false
    case SweepAbandoned => Fresh(l.slot.stamps, now) == l.slot.stamps
    case _ => true
  }

  /** Exactly the given-up prompts have a stamp, and the live turn's own prompt is in the line. */
  predicate Counting(line: seq<TurnId>, recs: seq<TurnRec>, held: Option<TurnId>, stamps: seq<real>) {
    && |stamps| == |Owed(recs, line)|
    && (held.Some? && !DoneAt(recs, held.value) ==> line != [] && line[|line| - 1] == held.value)
  }

  ghost predicate CountInv(l: Lane) {
    Counting(Line(l), l.slot.recs, l.slot.held, l.slot.stamps)
  }

  lemma CountingFrame(line: seq<TurnId>, recs: seq<TurnRec>, held: Option<TurnId>, st: seq<real>,
                      recs': seq<TurnRec>, held': Option<TurnId>)
    requires Counting(line, recs, held, st) && SameTurns(recs, recs', line)
    requires held'.None? || (held' == held && DoneAt(recs', held.value) == DoneAt(recs, held.value))
    ensures Counting(line, recs', held', st)
  {
  }

  lemma CountingStart(line: seq<TurnId>, recs: seq<TurnRec>, st: seq<real>, t: TurnRec)
    requires Counting(line, recs, None, st) && LineInv(line, recs, None) && !Done(t)
    ensures Counting(line + [|recs|], recs + [t], Some(|recs|), st)
  {
    assert Owed(recs + [t], line + [|recs|]) == line;
  }

  lemma CountingSwallow(line: seq<TurnId>, recs: seq<TurnRec>, held: Option<TurnId>, st: seq<real>)
    requires Counting(line, recs, held, st) && line != [] && st != []
    ensures Counting(line[1..], recs, held, st[1..])
  {
    assert Owed(recs, line[1..]) == Owed(recs, line)[1..];
  }

  lemma ArriveCounts(l: Lane, now: real)
    requires Inv(l, now) && CountInv(l) && l.sending.None?
    ensures CountInv(Arrived(l))
  {
    ArriveChanges(l);
    CountingFrame(Line(l), l.slot.recs, l.slot.held, l.slot.stamps, Arrived(l).slot.recs, Arrived(l).slot.held);
  }

  lemma StartCounts(l: Lane, message: string, now: real)
    requires Inv(l, now) && CountInv(l) && l.sending.None? && l.slot.held.None?
    ensures CountInv(Started(l, message))
  {
    CountingStart(Line(l), l.slot.recs, l.slot.stamps, NewTurn(message));
    assert Line(Started(l, message)) == Line(l) + [|l.slot.recs|];
  }

  lemma SentCounts(l: Lane)
    requires Shape(l) && CountInv(l) && l.sending.Some? && l.wired
    ensures CountInv(Sent(l))
  {
    var l' := Sent(l);
    assert Line(l') == Line(l);
    CountingFrame(Line(l), l.slot.recs, l.slot.held, l.slot.stamps, l'.slot.recs, l'.slot.held);
  }

  /** The send of a live turn raises: nothing was owed for it. */
  lemma UnsentCounts(l: Lane, now: real)
    requires Inv(l, now) && CountInv(l) && l.sending.Some? && !l.wired && !DoneAt(l.slot.recs, l.sending.value)
    ensures CountInv(Unsent(l))
  {
    assert l.queue == Line(l)[..|l.queue|] == Owed(l.slot.recs, Line(l));
    assert forall i | 0 <= i < |l.queue| :: l.queue[i] == Line(l)[i] && DoneAt(l.slot.recs, Line(l)[i]);
    assert Owed(l.slot.recs, l.queue) == l.queue;
  }

  lemma SwallowCounts(l: Lane, f: Frame, now: real)
    requires Inv(l, now) && CountInv(l) && l.queue != [] && l.slot.stamps != []
    ensures CountInv(Heard(l, f, now))
  {
    FrameOutcome(l, f, now);
    HeardLine(l, f, now);
    if Terminal(f) {
      CountingSwallow(Line(l), l.slot.recs, l.slot.held, l.slot.stamps);
    }
  }

  lemma CreditCounts(l: Lane, f: Frame, now: real)
    requires Inv(l, now) && CountInv(l) && l.queue != [] && l.slot.stamps == []
    ensures CountInv(Heard(l, f, now))
  {
    FrameOutcome(l, f, now);
    HeardLine(l, f, now);
    var l' := Heard(l, f, now);
    if Terminal(f) {
      assert Line(l') == [];
    } else {
      CountingFrame(Line(l), l.slot.recs, l.slot.held, [], l'.slot.recs, l'.slot.held);
    }
  }

  lemma FrameCounts(l: Lane, f: Frame, now: real)
    requires Inv(l, now) && CountInv(l) && l.queue != []
    ensures CountInv(Heard(l, f, now))
  {
    if l.slot.stamps != [] {
      SwallowCounts(l, f, now);
    } else {
      CreditCounts(l, f, now);
    }
  }

  lemma GiveUpCounts(l: Lane, id: TurnId, cause: Cause, now: real)
    requires Inv(l, now) && CountInv(l) && id < |l.slot.recs| && (Done(l.slot.recs[id]) || l.slot.held == Some(id))
    ensures CountInv(l.(slot := GiveUp(l.slot, id, cause, now)))
  {
    var line := Line(l);
    if !Done(l.slot.recs[id]) {
      var recs' := GiveUp(l.slot, id, cause, now).recs;
      assert Owed(recs', line) == line && Owed(l.slot.recs, line) == line[..|line| - 1];
    }
  }

  lemma DeliveredCounts(l: Lane)
    requires CountInv(l) && l.sending.Some? && !l.wired
    ensures CountInv(Delivered(l))
  {
    assert Line(Delivered(l)) == Line(l);
  }

  lemma WaitEndsCounts(l: Lane, id: TurnId)
    requires Shape(l) && CountInv(l) && id < |l.waiting| && l.waiting[id] > 0
    ensures CountInv(Left(l, id))
  {
    LeaveChanges(l, id);
    CountingFrame(Line(l), l.slot.recs, l.slot.held, l.slot.stamps, Left(l, id).slot.recs, Left(l, id).slot.held);
  }

  lemma WaitCancelledCounts(l: Lane, id: TurnId)
    requires Shape(l) && CountInv(l) && id < |l.waiting| && l.waiting[id] > 0
    ensures CountInv(Forsaken(l, id))
  {
    ForsakenChanges(l, id);
    CountingFrame(Line(l), l.slot.recs, l.slot.held, l.slot.stamps, Forsaken(l, id).slot.recs, l.slot.held);
  }

  lemma SweepParkedCounts(l: Lane, ttl: real, now: real)
    requires Shape(l) && CountInv(l)
    ensures CountInv(l.(slot := ExpireParked(l.slot, now, ttl)))
  {
    CountingFrame(Line(l), l.slot.recs, l.slot.held, l.slot.stamps, l.slot.recs, ExpireParked(l.slot, now, ttl).held);
  }

  lemma StepCounts(l: Lane, act: Act, now: real)
    requires Inv(l, now) && CountInv(l) && Enabled(l, act) && Faithful(l, act, now)
    ensures CountInv(Next(l, act, now))
  {
    match act
    case Arrive => ArriveCounts(l, now);
    case Start(message) => StartCounts(l, message, now);
    case SendDelivers => DeliveredCounts(l);
    case SendReturns => SentCounts(l);
    case SendRaises => UnsentCounts(l, now);
    case FrameArrives(f) => FrameCounts(l, f, now);
    case WaitEnds(id) => WaitEndsCounts(l, id);
    case WaitCancelled(id) => WaitCancelledCounts(l, id);
    case Deadline(id) => GiveUpCounts(l, id, HardTimeout, now);
    case Disconnect =>
      if l.slot.held.Some? {
        GiveUpCounts(l, l.slot.held.value, ConnectionLost, now);
      }
    case SweepParked(ttl) => SweepParkedCounts(l, ttl, now);
    case SweepAbandoned =>
  }

  // ------------------------------------------------------------------ whole replies

  /** An unsettled turn has collected every text its prompt produced, and no terminal frame
      went by; a reply is made of every text its prompt produced. */
  predicate Whole(t: TurnRec, own: seq<Frame>) {
    && (t.outcome.None? ==> t.texts == TextsOf(own) && !Ended(own))
    && (t.outcome.Some? && t.outcome.value.Reply? ==> t.texts == TextsOf(own))
  }

  predicate AllWhole(recs: seq<TurnRec>, heard: seq<seq<Frame>>) {
    |recs| == |heard| && forall id | 0 <= id < |recs| :: Whole(recs[id], heard[id])
  }

  lemma CreditWhole(t: TurnRec, own: seq<Frame>, f: Frame, now: real)
    requires t.outcome.None? && Whole(t, own)
    ensures Whole(Credit(t, f, now), own + [f])
  {
    TextsOfSnoc(own, f);
    assert !f.ErrorFrame? ==> Credit(t, f, now).texts == t.texts + TextOf(f);
  }

  lemma FrameWhole(l: Lane, f: Frame, now: real)
    requires Inv(l, now) && CountInv(l) && l.queue != []
    requires Expecting(Line(l), l.heard) && Sourced(l.slot.recs, l.heard) && AllWhole(l.slot.recs, l.heard)
    ensures AllWhole(Heard(l, f, now).slot.recs, Heard(l, f, now).heard)
  {
    var l', from := Heard(l, f, now), l.queue[0];
    FrameOutcome(l, f, now);
    assert Line(l)[0] == from;
    assert Whole(l.slot.recs[from], l.heard[from]) && Provenance(l.slot.recs[from], l.heard[from]);
    if l.slot.stamps == [] {
      CreditWhole(l.slot.recs[from], l.heard[from], f, now);
    } else {
      assert DoneAt(l.slot.recs, from);
    }
    forall id | 0 <= id < |l.slot.recs| ensures Whole(l'.slot.recs[id], l'.heard[id]) {
      assert Whole(l.slot.recs[id], l.heard[id]);
    }
  }

  lemma WholeFrame(recs: seq<TurnRec>, recs': seq<TurnRec>, heard: seq<seq<Frame>>)
    requires AllWhole(recs, heard) && Untouched(recs, recs')
    ensures AllWhole(recs', heard)
  {
    forall id | 0 <= id < |recs| ensures Whole(recs'[id], heard[id]) {
      assert Whole(recs[id], heard[id]);
    }
  }

  lemma StartWhole(recs: seq<TurnRec>, heard: seq<seq<Frame>>, message: string)
    requires AllWhole(recs, heard)
    ensures AllWhole(recs + [NewTurn(message)], heard + [[]])
  {
    forall id | 0 <= id < |recs| ensures Whole(recs[id], heard[id]) {}
  }

  ghost predicate Exact(l: Lane) {
    CountInv(l) && AllWhole(l.slot.recs, l.heard)
  }

  lemma StepExact(l: Lane, act: Act, now: real)
    requires Inv(l, now) && Hist(l) && Exact(l) && Enabled(l, act) && Faithful(l, act, now)
    ensures Exact(Next(l, act, now))
  {
    StepCounts(l, act, now);
    if act.FrameArrives? {
      FrameWhole(l, act.f, now);
    } else if act.Start? {
      StartWhole(l.slot.recs, l.heard, act.message);
    } else {
      QuietUntouched(l, act, now);
      WholeFrame(l.slot.recs, Next(l, act, now).slot.recs, l.heard);
    }
  }

  lemma FaithfulKeeps(l: Lane, act: Act, now: real)
    requires Inv(l, now) && Enabled(l, act) && Faithful(l, act, now)
    ensures Inv(Next(l, act, now), now)
  {
    if act.SweepAbandoned? {
      assert Next(l, act, now) == l;
    } else {
      StepKeeps(l, act, now);
    }
  }
}
