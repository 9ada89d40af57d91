/** Every step keeps the invariant; so no frame is ever credited to another prompt's turn. */
module BridgeSafety {
  import opened Text
  import opened BridgeSpec
  import opened BridgeCover
  import opened BridgeLane

  /** A call that arrives moves a counter, or takes a settled turn away. */
  lemma ArriveChanges(l: Lane)
    requires Shape(l) && l.sending.None?
    ensures Shape(Arrived(l)) && Line(Arrived(l)) == Line(l) && Arrived(l).slot.stamps == l.slot.stamps
    ensures SameTurns(l.slot.recs, Arrived(l).slot.recs, Line(l))
    ensures Arrived(l).slot.held == l.slot.held || (l.slot.held.Some? && DoneAt(l.slot.recs, l.slot.held.value))
  {
  }

  lemma ArriveKeeps(l: Lane, now: real)
    requires Inv(l, now) && l.sending.None?
    ensures Inv(Arrived(l), now)
  {
    ArriveChanges(l);
    KeyFrame(Line(l), l.slot.recs, l.slot.held, l.slot.stamps, now, Arrived(l).slot.recs, Arrived(l).slot.held);
  }

  lemma StartKeeps(l: Lane, message: string, now: real)
    requires Inv(l, now) && l.sending.None? && l.slot.held.None?
    ensures Inv(Started(l, message), now)
  {
    KeyStart(Line(l), l.slot.recs, l.slot.stamps, now, NewTurn(message));
  }

  lemma DeliveredKeeps(l: Lane, now: real)
    requires Inv(l, now) && l.sending.Some? && !l.wired
    ensures Inv(Delivered(l), now)
  {
    assert Line(Delivered(l)) == Line(l);
  }

  /** The send is over: a prompt that was never delivered leaves the end of the line. */
  lemma SendOverKeeps(l: Lane, now: real)
    requires Inv(l, now) && l.sending.Some?
    ensures KeyInv(Line(SendOver(l)), l.slot.recs, l.slot.held, l.slot.stamps, now)
    ensures Line(SendOver(l)) == if l.wired then Line(l) else Line(l)[..|l.queue|]
  {
    if !l.wired {
      KeyRemove(Line(l), l.slot.recs, l.slot.held, l.slot.stamps, now, |l.queue|);
      assert Line(SendOver(l)) == Without(Line(l), |l.queue|);
    }
  }

  /** The call whose send returned waits on its turn; nothing else about the turns changes. */
  lemma SentChanges(l: Lane)
    requires Shape(l) && l.sending.Some?
    ensures var l' := Sent(l);
      && Shape(l') && Line(l') == Line(SendOver(l))
      && SameTurns(l.slot.recs, l'.slot.recs, Line(l')) && l'.slot.held == l.slot.held
      && l'.slot.stamps == l.slot.stamps
  {
    assert Shape(Sent(l));
  }

  lemma SentKeeps(l: Lane, now: real)
    requires Inv(l, now) && l.sending.Some?
    ensures Inv(Sent(l), now)
  {
    var l' := Sent(l);
    SentChanges(l);
    SendOverKeeps(l, now);
    KeyFrame(Line(l'), l.slot.recs, l.slot.held, l.slot.stamps, now, l'.slot.recs, l.slot.held);
  }

  /** A send that raises drops its turn. If the prompt was delivered all the same, that is safe
      exactly when the turn was given up before, or the prompt is not outstanding any more. */
  lemma RaiseIsSafe(l: Lane, now: real)
    requires Inv(l, now) && l.sending.Some? && l.wired
    ensures Inv(Unsent(l), now) <==> DoneAt(l.slot.recs, l.sending.value) || l.sending.value !in l.queue
  {
    var l', id := Unsent(l), l.sending.value;
    assert Shape(l');
    assert Line(l') == Line(l) == l.queue;
    if DoneAt(l.slot.recs, id) || id !in l.queue {
      assert l.queue != [] ==> l.queue[|l.queue| - 1] in l.queue;
      KeyFrame(Line(l), l.slot.recs, l.slot.held, l.slot.stamps, now, l.slot.recs, l'.slot.held);
    } else {
      var i :| 0 <= i < |l.queue| && l.queue[i] == id;
      assert i == |l.queue| - 1 && l.slot.held == Some(id);
    }
  }

  lemma UnsentKeeps(l: Lane, now: real)
    requires Inv(l, now) && l.sending.Some? && !l.wired
    ensures Inv(Unsent(l), now)
  {
    var l' := Unsent(l);
    assert Shape(l');
    SendOverKeeps(l, now);
    KeyFrame(Line(l'), l.slot.recs, l.slot.held, l.slot.stamps, now, l.slot.recs, l'.slot.held);
  }

  /** What a frame from the oldest outstanding prompt does: it is swallowed, or it is credited
      to the live turn, whose own prompt it then comes from. */
  lemma FrameOutcome(l: Lane, f: Frame, now: real)
    requires Inv(l, now) && l.queue != []
    ensures var id, b := l.queue[0], OnOutbound(l.slot, f, now);
      if l.slot.stamps != [] then
        b == l.slot.(stamps := if Terminal(f) then l.slot.stamps[1..] else l.slot.stamps)
      else
        && Line(l) == l.queue == [id] && l.slot.held == Some(id) && !Done(l.slot.recs[id])
        && b == Put(l.slot, id, Credit(l.slot.recs[id], f, now))
  {
    if l.slot.stamps == [] {
      KeyHead(Line(l), l.slot.recs, l.slot.held, now);
    }
  }

  /** A terminal frame takes its prompt off the front of the line. */
  lemma HeardLine(l: Lane, f: Frame, now: real)
    requires Shape(l) && l.queue != []
    ensures Shape(Heard(l, f, now)) && Line(Heard(l, f, now)) == if Terminal(f) then Line(l)[1..] else Line(l)
  {
  }

  lemma SwallowKeeps(l: Lane, f: Frame, now: real)
    requires Inv(l, now) && l.queue != [] && l.slot.stamps != []
    ensures Inv(Heard(l, f, now), now)
  {
    var l' := Heard(l, f, now);
    assert Shape(l');
    if Terminal(f) {
      KeySwallow(Line(l), l.slot.recs, l.slot.held, l.slot.stamps, now);
      assert Line(l') == Line(l)[1..];
    }
  }

  lemma CreditKeeps(l: Lane, f: Frame, now: real)
    requires Inv(l, now) && l.queue != [] && l.slot.stamps == []
    ensures Inv(Heard(l, f, now), now)
  {
    FrameOutcome(l, f, now);
    var l' := Heard(l, f, now);
    assert Shape(l');
    if Terminal(f) {
      assert Line(l') == [] && Times(l'.slot.recs, []) == [];
    } else {
      KeyFrame(Line(l), l.slot.recs, l.slot.held, [], now, l'.slot.recs, l'.slot.held);
    }
  }

  /** A call that leaves moves a counter, and drops the turn only when that has settled. */
  lemma LeaveChanges(l: Lane, id: TurnId)
    requires Shape(l) && id < |l.waiting| && l.waiting[id] > 0
    ensures Shape(Left(l, id)) && Line(Left(l, id)) == Line(l) && Left(l, id).slot.stamps == l.slot.stamps
    ensures SameTurns(l.slot.recs, Left(l, id).slot.recs, Line(l))
    ensures Left(l, id).slot.held == l.slot.held || (l.slot.held == Some(id) && DoneAt(l.slot.recs, id))
  {
  }

  lemma WaitEndsKeeps(l: Lane, id: TurnId, now: real)
    requires Inv(l, now) && id < |l.waiting| && l.waiting[id] > 0
    ensures Inv(Left(l, id), now)
  {
    LeaveChanges(l, id);
    KeyFrame(Line(l), l.slot.recs, l.slot.held, l.slot.stamps, now, Left(l, id).slot.recs, Left(l, id).slot.held);
  }

  lemma ForsakenChanges(l: Lane, id: TurnId)
    requires Shape(l) && id < |l.waiting| && l.waiting[id] > 0
    ensures var l' := Forsaken(l, id);
      && Shape(l') && Line(l') == Line(l) && l'.slot.stamps == l.slot.stamps && l'.slot.held == l.slot.held
      && SameTurns(l.slot.recs, l'.slot.recs, Line(l))
  {
  }

  lemma WaitCancelledKeeps(l: Lane, id: TurnId, now: real)
    requires Inv(l, now) && id < |l.waiting| && l.waiting[id] > 0
    ensures Inv(Forsaken(l, id), now)
  {
    ForsakenChanges(l, id);
    KeyFrame(Line(l), l.slot.recs, l.slot.held, l.slot.stamps, now, Forsaken(l, id).slot.recs, l.slot.held);
  }

  lemma GiveUpKeeps(l: Lane, id: TurnId, cause: Cause, now: real)
    requires Inv(l, now) && id < |l.slot.recs| && (Done(l.slot.recs[id]) || l.slot.held == Some(id))
    ensures Inv(l.(slot := GiveUp(l.slot, id, cause, now)), now)
  {
    if !Done(l.slot.recs[id]) {
      KeyAbandon(Line(l), l.slot.recs, id, l.slot.stamps, now, GiveUp(l.slot, id, cause, now).recs);
    }
  }

  lemma PromptLostShape(l: Lane, i: nat)
    requires Shape(l) && i < |l.queue|
    ensures Shape(l.(queue := Without(l.queue, i)))
    ensures Line(l.(queue := Without(l.queue, i))) == Without(Line(l), i)
  {
  }

  lemma PromptLostKeeps(l: Lane, i: nat, now: real)
    requires Inv(l, now) && i < |l.queue|
    ensures Inv(l.(queue := Without(l.queue, i)), now)
  {
    PromptLostShape(l, i);
    KeyRemove(Line(l), l.slot.recs, l.slot.held, l.slot.stamps, now, i);
  }

  lemma SweepParkedKeeps(l: Lane, ttl: real, now: real)
    requires Inv(l, now)
    ensures Inv(l.(slot := ExpireParked(l.slot, now, ttl)), now)
  {
    KeyFrame(Line(l), l.slot.recs, l.slot.held, l.slot.stamps, now, l.slot.recs, ExpireParked(l.slot, now, ttl).held);
  }

  /** Expiring stamps is safe exactly when no prompt is owed, or the stamp that stands for the
      oldest one owed is not expired yet. */
  lemma ExpiryIsSafe(l: Lane, now: real)
    requires Inv(l, now)
    ensures var owed := Owed(l.slot.recs, Line(l));
      && |owed| <= |l.slot.stamps|
      && (Inv(l.(slot := ExpireAbandoned(l.slot, now)), now)
          <==> owed == [] || now - l.slot.stamps[|l.slot.stamps| - |owed|] <= ABANDONED_TTL)
  {
    CoverFresh(Times(l.slot.recs, Owed(l.slot.recs, Line(l))), l.slot.stamps, now);
  }

  // ----------------------------------------------------------------- all steps

  /** Every given-up prompt that could still produce frames was given up within the TTL. */
  predicate Timely(l: Lane, now: real) {
    forall i | 0 <= i < |Line(l)| && DoneAt(l.slot.recs, Line(l)[i]) ::
      now - When(l.slot.recs, Line(l)[i]) <= ABANDONED_TTL
  }

  /** What the environment promises: a send that raises did not deliver its prompt, unless the
      turn was given up or the prompt has ended by then; and stamps are expired only while
      every given-up prompt is within the TTL. */
  predicate Assumed(l: Lane, act: Act, now: real) {
    && (act.SendRaises? && l.wired ==>
          l.sending.Some? && (DoneAt(l.slot.recs, l.sending.value) || l.sending.value !in l.queue))
    && (act.SweepAbandoned? ==> Timely(l, now))
  }

  lemma StepKeeps(l: Lane, act: Act, now: real)
    requires Inv(l, now) && Enabled(l, act) && Assumed(l, act, now)
    ensures Inv(Next(l, act, now), now)
  {
    match act
    case Arrive => ArriveKeeps(l, now);
    case Start(message) => StartKeeps(l, message, now);
    case SendDelivers => DeliveredKeeps(l, now);
    case SendReturns => SentKeeps(l, now);
    case SendRaises =>
      if l.wired {
        RaiseIsSafe(l, now);
      } else {
        UnsentKeeps(l, now);
      }
    case FrameArrives(f) =>
      if l.slot.stamps != [] {
        SwallowKeeps(l, f, now);
      } else {
        CreditKeeps(l, f, now);
      }
    case WaitEnds(id) => WaitEndsKeeps(l, id, now);
    case WaitCancelled(id) => WaitCancelledKeeps(l, id, now);
    case Deadline(id) => GiveUpKeeps(l, id, HardTimeout, now);
    case Disconnect =>
      if l.slot.held.Some? {
        GiveUpKeeps(l, l.slot.held.value, ConnectionLost, now);
      }
    case PromptLost(i) => PromptLostKeeps(l, i, now);
    case SweepParked(ttl) => SweepParkedKeeps(l, ttl, now);
    case SweepAbandoned => KeyExpire(Line(l), l.slot.recs, l.slot.held, l.slot.stamps, now);
  }

  /** A frame changes at most the turn of the prompt it comes from, and that only while it is
      the key's live turn. */
  lemma NoMisdelivery(l: Lane, f: Frame, now: real)
    requires Inv(l, now) && l.queue != []
    ensures forall id | 0 <= id < |l.slot.recs| && OnOutbound(l.slot, f, now).recs[id] != l.slot.recs[id] ::
              id == l.queue[0] && l.slot.held == Some(id) && !Done(l.slot.recs[id])
  {
    FrameOutcome(l, f, now);
  }
}
