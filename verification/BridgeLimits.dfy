/** Where the environment's promises are needed: short runs in which breaking one hands a
    caller the answer to somebody else's prompt. And what sweeps and late waiters leave alone. */
module BridgeLimits {
  import opened Text
  import opened BridgeSpec
  import opened BridgeLane
  import opened BridgeHistory

  /** `act` can happen in `l` at `now` and leads to `l'`. */
  ghost predicate Takes(l: Lane, act: Act, now: real, l': Lane) {
    Shape(l) && Enabled(l, act) && l' == Next(l, act, now)
  }

  /** The second prompt of the key was just sent; the first one is outstanding with no
      stamp stored for it. */
  function Uncovered(first: TurnRec, second: TurnRec, told: seq<(TurnId, CallResult)>): Lane {
    Lane(Slot([first, second], Some(1), []), [0, 1], None, false, [[], []], [0, 1], told)
  }

  /** In that state the end of the first prompt settles the second turn, whose own prompt has
      not produced a single frame. */
  lemma UncoveredMisdelivers(first: TurnRec, second: TurnRec, told: seq<(TurnId, CallResult)>, text: string, now: real)
      returns (l': Lane)
    requires second.outcome.None? && second.finishedAt.None? && (Done(first) <==> first.finishedAt.Some?) && text != ""
    ensures Takes(Uncovered(first, second, told), FrameArrives(ResultFrame(text)), now, l')
    ensures var settled := Settle(second.(texts := second.texts + [text]), Reply(ReplyOf(second.texts + [text])), now);
      l' == Lane(Slot([first, settled], Some(1), []), [1], None, false, [[ResultFrame(text)], []], [0, 1], told)
  {
    l' := Next(Uncovered(first, second, told), FrameArrives(ResultFrame(text)), now);
    assert [0, 1][1..] == [1];
    var heard: seq<seq<Frame>> := [[], []];
    assert heard[0] + [ResultFrame(text)] == [ResultFrame(text)];
    assert heard[0 := [ResultFrame(text)]] == [[ResultFrame(text)], []];
  }

  /** And the caller of the second prompt is told the first prompt's answer. */
  lemma StrayAnswer(first: TurnRec, b: string, told: seq<(TurnId, CallResult)>, text: string, now: real)
      returns (l1: Lane, l2: Lane)
    requires (Done(first) <==> first.finishedAt.Some?) && text != ""
    ensures Takes(Uncovered(first, NewTurn(b).(waiters := 1), told), FrameArrives(ResultFrame(text)), now, l1)
    ensures Takes(l1, WaitEnds(1), now, l2)
    ensures l2.told == told + [(1, Answered(ReplyOf([text]), false, ""))]
    ensures l2.heard == [[ResultFrame(text)], []]
  {
    l1 := UncoveredMisdelivers(first, NewTurn(b).(waiters := 1), told, text, now);
    assert [] + [text] == [text];
    l2 := Left(l1, 1);
  }

  /** The second prompt is started and sent while the first is outstanding, its turn dropped. */
  lemma SecondPrompt(first: TurnRec, b: string, st: seq<real>, told: seq<(TurnId, CallResult)>, now: real)
      returns (l1: Lane, l2: Lane, l3: Lane)
    requires Done(first) <==> first.finishedAt.Some?
    ensures Takes(Lane(Slot([first], None, st), [0], None, false, [[]], [0], told), Start(b), now, l1)
    ensures Takes(l1, SendDelivers, now, l2) && Takes(l2, SendReturns, now, l3)
    ensures l3 == Uncovered(first, NewTurn(b).(waiters := 1), told).(slot := l3.slot)
    ensures l3.slot == Slot([first, NewTurn(b).(waiters := 1)], Some(1), st)
  {
    var tb := NewTurn(b);
    l1 := Lane(Slot([first, tb], Some(1), st), [0], Some(1), false, [[], []], [0, 0], told);
    l2 := Lane(Slot([first, tb], Some(1), st), [0, 1], Some(1), true, [[], []], [0, 0], told);
    l3 := Lane(Slot([first, tb.(waiters := 1)], Some(1), st), [0, 1], None, false, [[], []], [0, 1], told);
    assert Delivered(l1) == l2;
    assert Sent(l2) == l3;
  }

  /** The first prompt of a key: its turn is registered, and the gateway has it. */
  function Begun(t: TurnRec, queue: seq<TurnId>, wired: bool): Lane {
    Lane(Slot([t], Some(0), []), queue, Some(0), wired, [[]], [0], [])
  }

  lemma FirstPrompt(a: string, now: real)
    ensures Takes(EMPTY, Start(a), now, Begun(NewTurn(a), [], false))
    ensures Takes(Begun(NewTurn(a), [], false), SendDelivers, now, Begun(NewTurn(a), [0], true))
  {
    assert Started(EMPTY, a) == Begun(NewTurn(a), [], false);
    assert Delivered(Begun(NewTurn(a), [], false)) == Begun(NewTurn(a), [0], true);
  }

  /** A call cancelled while its prompt is already on the wire drops its turn without a stamp:
      the next caller of the key is told the answer to the dropped prompt. */
  lemma CancelledSendMisdelivers(a: string, b: string, text: string)
      returns (l1: Lane, l2: Lane, l3: Lane, l4: Lane, l5: Lane, l6: Lane, l7: Lane, l8: Lane)
    requires text != ""
    ensures Takes(EMPTY, Start(a), 0.0, l1) && Takes(l1, SendDelivers, 0.0, l2) && Takes(l2, SendRaises, 0.0, l3)
    ensures Takes(l3, Start(b), 1.0, l4) && Takes(l4, SendDelivers, 1.0, l5) && Takes(l5, SendReturns, 1.0, l6)
    ensures Takes(l6, FrameArrives(ResultFrame(text)), 2.0, l7) && Takes(l7, WaitEnds(1), 2.0, l8)
    ensures l8.told == [(1, Answered(ReplyOf([text]), false, ""))] && l8.heard == [[ResultFrame(text)], []]
  {
    FirstPrompt(a, 0.0);
    l1, l2 := Begun(NewTurn(a), [], false), Begun(NewTurn(a), [0], true);
    l3 := DroppedPrompt(NewTurn(a));
    l4, l5, l6 := SecondPrompt(NewTurn(a), b, [], [], 1.0);
    l7, l8 := StrayAnswer(NewTurn(a), b, [], text, 2.0);
    assert [] + [(1, Answered(ReplyOf([text]), false, ""))] == l8.told;
  }

  lemma DroppedPrompt(t: TurnRec) returns (l2: Lane)
    requires t.outcome.None? && t.finishedAt.None?
    ensures Takes(Begun(t, [0], true), SendRaises, 0.0, l2)
    ensures l2 == Lane(Slot([t], None, []), [0], None, false, [[]], [0], [])
  {
    l2 := Lane(Slot([t], None, []), [0], None, false, [[]], [0], []);
  }

  /** A given-up prompt that outlives the TTL of its stamp answers the next caller of the key. */
  lemma LongTurnMisdelivers(a: string, b: string, text: string)
      returns (l1: Lane, l2: Lane, l3: Lane, l4: Lane, l5: Lane, l6: Lane,
               l7: Lane, l8: Lane, l9: Lane, l10: Lane, l11: Lane)
    requires text != ""
    ensures Takes(EMPTY, Start(a), 0.0, l1) && Takes(l1, SendDelivers, 0.0, l2) && Takes(l2, SendReturns, 0.0, l3)
    ensures Takes(l3, Deadline(0), 300.0, l4) && Takes(l4, WaitEnds(0), 300.0, l5)
    ensures Takes(l5, SweepAbandoned, 1201.0, l6)
    ensures Takes(l6, Start(b), 1202.0, l7) && Takes(l7, SendDelivers, 1202.0, l8) && Takes(l8, SendReturns, 1202.0, l9)
    ensures Takes(l9, FrameArrives(ResultFrame(text)), 1203.0, l10) && Takes(l10, WaitEnds(1), 1203.0, l11)
    ensures l11.told == l5.told + [(1, Answered(ReplyOf([text]), false, ""))] && l11.heard == [[ResultFrame(text)], []]
  {
    FirstPrompt(a, 0.0);
    l1, l2 := Begun(NewTurn(a), [], false), Begun(NewTurn(a), [0], true);
    l3, l4, l5 := GivenUpPrompt(NewTurn(a));
    l6 := StampExpires(l5);
    l7, l8, l9 := SecondPrompt(Settle(NewTurn(a), Failed(HardTimeout), 300.0), b, [], l5.told, 1202.0);
    l10, l11 := StrayAnswer(Settle(NewTurn(a), Failed(HardTimeout), 300.0), b, l5.told, text, 1203.0);
  }

  lemma StampExpires(l4: Lane) returns (l5: Lane)
    requires Shape(l4) && l4.slot.stamps == [300.0]
    ensures Takes(l4, SweepAbandoned, 1201.0, l5) && l5 == l4.(slot := l4.slot.(stamps := []))
  {
    assert [300.0][1..] == [];
    assert Fresh([300.0], 1201.0) == [];
    l5 := l4.(slot := l4.slot.(stamps := []));
  }

  lemma GivenUpPrompt(t: TurnRec) returns (l2: Lane, l3: Lane, l4: Lane)
    requires t.outcome.None? && t.finishedAt.None? && t.waiters == 0
    ensures Takes(Begun(t, [0], true), SendReturns, 0.0, l2)
    ensures Takes(l2, Deadline(0), 300.0, l3) && Takes(l3, WaitEnds(0), 300.0, l4)
    ensures l4 == Lane(Slot([Settle(t, Failed(HardTimeout), 300.0)], None, [300.0]), [0], None, false, [[]], [0],
                       [(0, Raised(HardTimeout, false, ""))])
  {
    var given := Settle(t, Failed(HardTimeout), 300.0);
    l2 := Lane(Slot([t.(waiters := 1)], Some(0), []), [0], None, false, [[]], [1], []);
    l3 := Lane(Slot([given.(waiters := 1)], Some(0), [300.0]), [0], None, false, [[]], [1], []);
    l4 := Lane(Slot([given], None, [300.0]), [0], None, false, [[]], [0], [(0, Raised(HardTimeout, false, ""))]);
    assert Sent(Begun(t, [0], true)) == l2;
    assert HardDeadline(l2.slot, 0, 300.0) == l3.slot;
    assert Left(l3, 0) == l4;
  }

  /** The sweep of parked turns drops neither a live turn nor one a call is waiting on, and a
      call that leaves an old turn never drops a newer one. */
  lemma SweepsSpareTheOthers(l: Lane, ttl: real, id: TurnId, now: real)
    requires Inv(l, now) && Hist(l)
    ensures l.slot.held.Some? && (Live(l.slot) || l.waiting[l.slot.held.value] > 0)
            ==> ExpireParked(l.slot, now, ttl) == l.slot
    ensures id < |l.waiting| && l.waiting[id] > 0 && l.slot.held != Some(id) ==> Left(l, id).slot.held == l.slot.held
  {
    assert Counted(l.slot.recs, l.waiting);
  }
}
