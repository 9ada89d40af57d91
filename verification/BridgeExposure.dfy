/** When exactly a dropped turn or an expired stamp lets an answer reach the wrong turn: some
    continuation in which the environment keeps all its promises ends in a lane whose next
    frame changes a turn that is not the frame's own. */
module BridgeExposure {
  import opened BridgeSpec
  import opened BridgeCover
  import opened BridgeLane
  import opened BridgeSafety

  /** Some frame of the oldest outstanding prompt would change another prompt's turn. */
  ghost predicate Misdirects(l: Lane, now: real) {
    Shape(l) && l.queue != [] && exists f, id: nat | id < |l.slot.recs| :: Hits(l, f, id, now)
  }

  ghost predicate Hits(l: Lane, f: Frame, id: TurnId, now: real)
    requires Shape(l) && l.queue != [] && id < |l.slot.recs|
  {
    var recs := OnOutbound(l.slot, f, now).recs;
    id != l.queue[0] && |recs| == |l.slot.recs| && recs[id] != l.slot.recs[id]
  }

  /** `acts` can happen from `l` on, with every promise kept, and then a frame goes astray. */
  ghost predicate Leads(l: Lane, acts: seq<(Act, real)>, now: real)
    decreases |acts|
  {
    if acts == [] then Misdirects(l, now)
    else
      var (act, at) := acts[0];
      && now <= at && Shape(l) && Enabled(l, act) && Assumed(l, act, at)
      && Leads(Next(l, act, at), acts[1..], at)
  }

  ghost predicate Exposed(l: Lane, now: real) {
    exists acts :: Leads(l, acts, now)
  }

  // ------------------------------------------------------------ what the invariant gives

  lemma {:induction false} NeverLeads(l: Lane, acts: seq<(Act, real)>, now: real)
    requires Inv(l, now)
    ensures !Leads(l, acts, now)
    decreases |acts|
  {
    if acts == [] {
      forall f, id: nat | l.queue != [] && id < |l.slot.recs| ensures !Hits(l, f, id, now) {
        NoMisdelivery(l, f, now);
      }
    } else {
      var (act, at) := acts[0];
      if now <= at && Enabled(l, act) && Assumed(l, act, at) {
        KeyLater(Line(l), l.slot.recs, l.slot.held, l.slot.stamps, now, at);
        StepKeeps(l, act, at);
        NeverLeads(Next(l, act, at), acts[1..], at);
      }
    }
  }

  lemma NotExposed(l: Lane, now: real)
    requires Inv(l, now)
    ensures !Exposed(l, now)
  {
    forall acts ensures !Leads(l, acts, now) {
      NeverLeads(l, acts, now);
    }
  }

  // ------------------------------------------------------------------- ways to go astray

  lemma Back(l: Lane, act: Act, at: real, now: real)
    requires now <= at && Shape(l) && Enabled(l, act) && Assumed(l, act, at) && Exposed(Next(l, act, at), at)
    ensures Exposed(l, now)
  {
    var acts :| Leads(Next(l, act, at), acts, at);
    assert ([(act, at)] + acts)[1..] == acts;
    assert Leads(l, [(act, at)] + acts, now);
  }

  /** No stamp is stored, and the live turn is not the one whose prompt is oldest. */
  lemma LiveTurnHit(l: Lane, now: real)
    requires Shape(l) && l.slot.stamps == [] && l.queue != [] && Live(l.slot) && l.slot.held.value != l.queue[0]
    ensures Exposed(l, now)
  {
    var id, f := l.slot.held.value, TextFrame("x");
    assert Credit(l.slot.recs[id], f, now).texts == l.slot.recs[id].texts + ["x"];
    assert OnOutbound(l.slot, f, now).recs[id].texts != l.slot.recs[id].texts;
    assert Hits(l, f, id, now);
    assert Leads(l, [], now);
  }

  lemma FreeKeyHit(l: Lane, now: real)
    requires Shape(l) && l.sending.None? && l.slot.stamps == [] && l.queue != [] && l.slot.held.None?
    ensures Exposed(l, now)
  {
    assert Shape(Started(l, ""));
    LiveTurnHit(Started(l, ""), now);
    Back(l, Start(""), now, now);
  }

  /** A key without a stamp, with a prompt outstanding that is not its live turn's own. */
  lemma NextTurnHit(l: Lane, now: real)
    requires Shape(l) && l.sending.None? && l.slot.stamps == [] && l.queue != []
    requires Live(l.slot) ==> l.slot.held.value != l.queue[0]
    ensures Exposed(l, now)
  {
    if Live(l.slot) {
      LiveTurnHit(l, now);
    } else if l.slot.held.None? {
      FreeKeyHit(l, now);
    } else {
      ArriveChanges(l);
      FreeKeyHit(Arrived(l), now);
      Back(l, Arrive, now, now);
    }
  }

  lemma {:induction false} AllExpire(stamps: seq<real>, now: real)
    requires forall i | 0 <= i < |stamps| :: now - stamps[i] > ABANDONED_TTL
    ensures Fresh(stamps, now) == []
  {
    if stamps != [] {
      AllExpire(stamps[1..], now);
    }
  }

  /** A prompt without a turn: it is left alone in the line, the stamps expire, and the next
      turn of the key hears it. */
  lemma {:induction false} OrphanHits(l: Lane, now: real)
    requires Shape(l) && l.sending.None? && l.slot.held.None? && l.queue != []
    requires !DoneAt(l.slot.recs, l.queue[|l.queue| - 1])
    requires forall i | 0 <= i < |l.slot.stamps| :: l.slot.stamps[i] <= now
    ensures Exposed(l, now)
    decreases |l.queue|
  {
    if |l.queue| == 1 {
      var later := now + ABANDONED_TTL + 1.0;
      AllExpire(l.slot.stamps, later);
      NextTurnHit(Next(l, SweepAbandoned, later), later);
      Back(l, SweepAbandoned, later, now);
    } else {
      PromptLostShape(l, 0);
      OrphanHits(l.(queue := Without(l.queue, 0)), now);
      Back(l, PromptLost(0), now, now);
    }
  }

  /** Fewer stamps than prompts owed: once the stamps are used up a given-up prompt is left,
      and no stamp for it. */
  lemma {:induction false} UncoveredHits(l: Lane, now: real)
    requires Shape(l) && l.sending.None? && LineInv(l.queue, l.slot.recs, l.slot.held)
    requires |l.slot.stamps| < |Owed(l.slot.recs, l.queue)|
    ensures Exposed(l, now)
    decreases |l.slot.stamps|
  {
    if l.slot.stamps == [] {
      assert DoneAt(l.slot.recs, l.queue[0]);
      NextTurnHit(l, now);
    } else {
      var f := ResultFrame("");
      var l' := Heard(l, f, now);
      assert Shape(l') && l'.queue == l.queue[1..] && l'.slot == l.slot.(stamps := l.slot.stamps[1..]);
      assert Owed(l.slot.recs, l.queue[1..]) == Owed(l.slot.recs, l.queue)[1..];
      UncoveredHits(l', now);
      Back(l, FrameArrives(f), now, now);
    }
  }

  lemma SendEnds(l: Lane, now: real)
    requires Shape(l) && l.sending.Some? && l.wired && LineInv(Line(l), l.slot.recs, l.slot.held)
    requires |l.slot.stamps| < |Owed(l.slot.recs, Line(l))|
    ensures Exposed(l, now)
  {
    var l' := Sent(l);
    SentChanges(l);
    assert Line(l') == l'.queue == l.queue == Line(l);
    assert |Owed(l'.slot.recs, l.queue)| == |Owed(l.slot.recs, l.queue)|;
    UncoveredHits(l', now);
    Back(l, SendReturns, now, now);
  }

  /** The same while a prompt is being sent: let the send finish first. */
  lemma TooFewStamps(l: Lane, now: real)
    requires Shape(l) && LineInv(Line(l), l.slot.recs, l.slot.held)
    requires |l.slot.stamps| < |Owed(l.slot.recs, Line(l))|
    ensures Exposed(l, now)
  {
    if l.sending.None? {
      UncoveredHits(l, now);
    } else if l.wired {
      SendEnds(l, now);
    } else {
      assert Line(Delivered(l)) == Line(l);
      SendEnds(Delivered(l), now);
      Back(l, SendDelivers, now, now);
    }
  }

  // ------------------------------------------------------------------------- theorems

  /** A send that raises although its prompt was delivered: no frame can ever go astray iff the
      turn was given up before, or its prompt is not outstanding any more. */
  lemma RaiseMisdeliversExactly(l: Lane, now: real)
    requires Inv(l, now) && l.sending.Some? && l.wired
    ensures !Exposed(Unsent(l), now) <==> DoneAt(l.slot.recs, l.sending.value) || l.sending.value !in l.queue
  {
    var id, l' := l.sending.value, Unsent(l);
    RaiseIsSafe(l, now);
    if DoneAt(l.slot.recs, id) || id !in l.queue {
      NotExposed(l', now);
    } else {
      var i :| 0 <= i < |l.queue| && l.queue[i] == id;
      assert Line(l)[i] == id;
      OrphanHits(l', now);
    }
  }

  /** A sweep of stamps: no frame can ever go astray iff no prompt is owed, or the stamp that
      stands for the oldest one owed is still within the TTL. */
  lemma ExpiryMisdeliversExactly(l: Lane, now: real)
    requires Inv(l, now)
    ensures var owed, l' := Owed(l.slot.recs, Line(l)), l.(slot := ExpireAbandoned(l.slot, now));
      && |owed| <= |l.slot.stamps|
      && (!Exposed(l', now) <==> owed == [] || now - l.slot.stamps[|l.slot.stamps| - |owed|] <= ABANDONED_TTL)
  {
    var owed, l' := Owed(l.slot.recs, Line(l)), l.(slot := ExpireAbandoned(l.slot, now));
    ExpiryIsSafe(l, now);
    if owed == [] || now - l.slot.stamps[|l.slot.stamps| - |owed|] <= ABANDONED_TTL {
      NotExposed(l', now);
    } else {
      FreshIsSuffix(l.slot.stamps, now);
      assert Line(l') == Line(l);
      TooFewStamps(l', now);
    }
  }
}
