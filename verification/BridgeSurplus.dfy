/** Stamps nobody pays back: which steps leave one behind, which use one up on the wrong
    answer, and how many of them a sweep leaves. */
module BridgeSurplus {
  import opened Text
  import opened BridgeSpec
  import opened BridgeLane
  import opened BridgeSafety

  /** How many stamps there are beyond the prompts owed. */
  function Surplus(l: Lane): int {
    |l.slot.stamps| - |Owed(l.slot.recs, Line(l))|
  }

  /** The live turn's own prompt is the last of the line. */
  predicate Outstanding(l: Lane, id: TurnId) {
    Line(l) != [] && Line(l)[|Line(l)| - 1] == id
  }

  /** A given-up prompt that is lost, one that never left, and a turn given up after its prompt
      was lost leave a stamp behind; a live turn's own terminal frame that is swallowed uses one
      up; a sweep drops the expired ones. Nothing else changes the surplus. */
  function Change(l: Lane, act: Act, now: real): int
    requires Shape(l) && Enabled(l, act)
  {
    match act
    case SendReturns => if !l.wired && DoneAt(l.slot.recs, l.sending.value) then 1 else 0
    case SendRaises => if !l.wired && DoneAt(l.slot.recs, l.sending.value) then 1 else 0
    case FrameArrives(f) =>
      if l.slot.stamps != [] && Terminal(f) && !DoneAt(l.slot.recs, l.queue[0]) then -1 else 0
    case Deadline(id) => if !Done(l.slot.recs[id]) && !Outstanding(l, id) then 1 else 0
    case Disconnect => if Live(l.slot) && !Outstanding(l, l.slot.held.value) then 1 else 0
    case PromptLost(i) => if DoneAt(l.slot.recs, l.queue[i]) then 1 else 0
    case SweepAbandoned => |Fresh(l.slot.stamps, now)| - |l.slot.stamps|
    case _ => 0
  }

  lemma OwedFrame(recs: seq<TurnRec>, recs': seq<TurnRec>, line: seq<TurnId>)
    requires SameTurns(recs, recs', line)
    ensures Owed(recs', line) == Owed(recs, line)
  {
  }

  /** Taking one prompt out of the line: one less is owed iff its turn was given up. */
  lemma OwedWithout(line: seq<TurnId>, recs: seq<TurnRec>, held: Option<TurnId>, i: nat)
    requires LineInv(line, recs, held) && i < |line|
    ensures |Owed(recs, Without(line, i))| == |Owed(recs, line)| - if DoneAt(recs, line[i]) then 1 else 0
  {
    var fewer := Without(line, i);
    if fewer != [] {
      assert fewer[|fewer| - 1] == if i == |line| - 1 then line[|line| - 2] else line[|line| - 1];
    }
  }

  lemma SendOverSurplus(l: Lane, now: real)
    requires Inv(l, now) && l.sending.Some?
    ensures |Owed(l.slot.recs, Line(SendOver(l)))|
         == |Owed(l.slot.recs, Line(l))| - if !l.wired && DoneAt(l.slot.recs, l.sending.value) then 1 else 0
  {
    if !l.wired {
      OwedWithout(Line(l), l.slot.recs, l.slot.held, |l.queue|);
      assert Line(SendOver(l)) == Without(Line(l), |l.queue|);
    }
  }

  lemma SentSurplus(l: Lane, now: real)
    requires Inv(l, now) && l.sending.Some?
    ensures Surplus(Sent(l)) == Surplus(l) + Change(l, SendReturns, now)
  {
    SentChanges(l);
    SendOverSurplus(l, now);
    OwedFrame(l.slot.recs, Sent(l).slot.recs, Line(Sent(l)));
  }

  lemma UnsentSurplus(l: Lane, now: real)
    requires Inv(l, now) && l.sending.Some?
    ensures Surplus(Unsent(l)) == Surplus(l) + Change(l, SendRaises, now)
  {
    SendOverSurplus(l, now);
    assert Line(Unsent(l)) == Line(SendOver(l));
  }

  lemma StartSurplus(l: Lane, message: string, now: real)
    requires Inv(l, now) && l.sending.None? && l.slot.held.None?
    ensures Surplus(Started(l, message)) == Surplus(l)
  {
    var l' := Started(l, message);
    assert Line(l') == Line(l) + [|l.slot.recs|];
    assert Owed(l'.slot.recs, Line(l')) == Line(l) == Owed(l.slot.recs, Line(l));
  }

  lemma SwallowSurplus(l: Lane, f: Frame, now: real)
    requires Inv(l, now) && l.queue != [] && l.slot.stamps != []
    ensures Surplus(Heard(l, f, now)) == Surplus(l) + Change(l, FrameArrives(f), now)
  {
    FrameOutcome(l, f, now);
    HeardLine(l, f, now);
    if Terminal(f) {
      OwedWithout(Line(l), l.slot.recs, l.slot.held, 0);
      assert Line(l)[1..] == Without(Line(l), 0);
    }
  }

  lemma CreditSurplus(l: Lane, f: Frame, now: real)
    requires Inv(l, now) && l.queue != [] && l.slot.stamps == []
    ensures Surplus(Heard(l, f, now)) == Surplus(l)
  {
    FrameOutcome(l, f, now);
    HeardLine(l, f, now);
    if Terminal(f) {
      assert Line(Heard(l, f, now)) == [];
    } else {
      OwedFrame(l.slot.recs, Heard(l, f, now).slot.recs, Line(l));
    }
  }

  /** A turn that settles now: its prompt is owed from now on, if it is in the line at all. */
  lemma OwedGiveUp(line: seq<TurnId>, recs: seq<TurnRec>, id: TurnId, recs': seq<TurnRec>)
    requires LineInv(line, recs, Some(id)) && !DoneAt(recs, id) && DoneAt(recs', id)
    requires forall i | 0 <= i < |line| && line[i] != id :: DoneAt(recs', line[i]) == DoneAt(recs, line[i])
    ensures |Owed(recs', line)| == |Owed(recs, line)| + if line != [] && line[|line| - 1] == id then 1 else 0
  {
  }

  lemma GiveUpSurplus(l: Lane, id: TurnId, cause: Cause, now: real)
    requires Inv(l, now) && id < |l.slot.recs| && !Done(l.slot.recs[id]) && l.slot.held == Some(id)
    ensures Surplus(l.(slot := GiveUp(l.slot, id, cause, now))) == Surplus(l) + if Outstanding(l, id) then 0 else 1
  {
    OwedGiveUp(Line(l), l.slot.recs, id, GiveUp(l.slot, id, cause, now).recs);
  }

  lemma PromptLostSurplus(l: Lane, i: nat, now: real)
    requires Inv(l, now) && i < |l.queue|
    ensures Surplus(l.(queue := Without(l.queue, i))) == Surplus(l) + Change(l, PromptLost(i), now)
  {
    PromptLostShape(l, i);
    OwedWithout(Line(l), l.slot.recs, l.slot.held, i);
  }

  /** How every step changes the surplus, which is never negative. */
  lemma StepSurplus(l: Lane, act: Act, now: real)
    requires Inv(l, now) && Enabled(l, act)
    ensures Surplus(l) >= 0 && Surplus(Next(l, act, now)) == Surplus(l) + Change(l, act, now)
  {
    var recs, line := l.slot.recs, Line(l);
    match act
    case Arrive =>
      ArriveChanges(l);
      OwedFrame(recs, Arrived(l).slot.recs, line);
    case Start(message) => StartSurplus(l, message, now);
    case SendDelivers => assert Line(Delivered(l)) == line;
    case SendReturns => SentSurplus(l, now);
    case SendRaises => UnsentSurplus(l, now);
    case FrameArrives(f) =>
      if l.slot.stamps != [] {
        SwallowSurplus(l, f, now);
      } else {
        CreditSurplus(l, f, now);
      }
    case WaitEnds(id) =>
      LeaveChanges(l, id);
      OwedFrame(recs, Left(l, id).slot.recs, line);
    case WaitCancelled(id) =>
      ForsakenChanges(l, id);
      OwedFrame(recs, Forsaken(l, id).slot.recs, line);
    case Deadline(id) =>
      if !Done(recs[id]) {
        GiveUpSurplus(l, id, HardTimeout, now);
      }
    case Disconnect =>
      if Live(l.slot) {
        GiveUpSurplus(l, l.slot.held.value, ConnectionLost, now);
      }
    case PromptLost(i) => PromptLostSurplus(l, i, now);
    case SweepParked(_) =>
    case SweepAbandoned =>
  }

  // ------------------------------------------------------------------------- sweeping

  /** How many of `stamps` are later than `t`. */
  function Newer(stamps: seq<real>, t: real): nat {
    if stamps == [] then 0 else (if stamps[0] > t then 1 else 0) + Newer(stamps[1..], t)
  }

  lemma {:induction false} NewerSnoc(stamps: seq<real>, s: real, t: real)
    ensures Newer(stamps + [s], t) <= Newer(stamps, t) + 1
  {
    if stamps == [] {
      assert [] + [s] == [s] && [s][1..] == [];
    } else {
      NewerSnoc(stamps[1..], s, t);
      assert (stamps + [s])[1..] == stamps[1..] + [s];
    }
  }

  lemma {:induction false} NewerFresh(stamps: seq<real>, now: real, t: real)
    ensures Newer(Fresh(stamps, now), t) <= Newer(stamps, t)
    ensures now > t + ABANDONED_TTL ==> |Fresh(stamps, now)| <= Newer(stamps, t)
  {
    if stamps != [] {
      NewerFresh(stamps[1..], now, t);
      var rest := Fresh(stamps[1..], now);
      if now - stamps[0] <= ABANDONED_TTL {
        assert Fresh(stamps, now) == [stamps[0]] + rest;
        assert ([stamps[0]] + rest)[1..] == rest;
      } else {
        assert Fresh(stamps, now) == [] + rest == rest;
      }
    }
  }

  /** A step that gives up a live turn. */
  predicate GivesUp(l: Lane, act: Act)
    requires Shape(l) && Enabled(l, act)
  {
    (act.Deadline? && !Done(l.slot.recs[act.id])) || (act.Disconnect? && Live(l.slot))
  }

  /** Only giving up stores a stamp. */
  lemma StepNewer(l: Lane, act: Act, now: real, t: real)
    requires Shape(l) && Enabled(l, act)
    ensures Newer(Next(l, act, now).slot.stamps, t) <= Newer(l.slot.stamps, t) + if GivesUp(l, act) then 1 else 0
  {
    NewerSnoc(l.slot.stamps, now, t);
    NewerFresh(l.slot.stamps, now, t);
  }

  /** `acts` can happen from `l` on, with every promise kept. */
  ghost predicate Path(l: Lane, acts: seq<(Act, real)>, now: real)
    decreases |acts|
  {
    acts == [] ||
    var (act, at) := acts[0];
    now <= at && Shape(l) && Enabled(l, act) && Assumed(l, act, at) && Path(Next(l, act, at), acts[1..], at)
  }

  ghost function End(l: Lane, acts: seq<(Act, real)>, now: real): Lane
    requires Path(l, acts, now)
    decreases |acts|
  {
    if acts == [] then l else End(Next(l, acts[0].0, acts[0].1), acts[1..], acts[0].1)
  }

  ghost function GiveUps(l: Lane, acts: seq<(Act, real)>, now: real): nat
    requires Path(l, acts, now)
    decreases |acts|
  {
    if acts == [] then 0
    else (if GivesUp(l, acts[0].0) then 1 else 0) + GiveUps(Next(l, acts[0].0, acts[0].1), acts[1..], acts[0].1)
  }

  function Latest(acts: seq<(Act, real)>, now: real): real {
    if acts == [] then now else acts[|acts| - 1].1
  }

  lemma PathStep(l: Lane, act: Act, now: real, at: real, t: real)
    requires Inv(l, now) && now <= at && Enabled(l, act) && Assumed(l, act, at)
    ensures Inv(Next(l, act, at), at)
    ensures Newer(Next(l, act, at).slot.stamps, t) <= Newer(l.slot.stamps, t) + if GivesUp(l, act) then 1 else 0
  {
    KeyLater(Line(l), l.slot.recs, l.slot.held, l.slot.stamps, now, at);
    StepKeeps(l, act, at);
    StepNewer(l, act, at, t);
  }

  /** The first act of a path, and what the rest of it starts from. */
  lemma FirstAct(l: Lane, acts: seq<(Act, real)>, now: real, t: real) returns (l': Lane, at: real, gaveUp: nat)
    requires Inv(l, now) && Path(l, acts, now) && acts != []
    ensures at == acts[0].1 && Inv(l', at) && Newer(l'.slot.stamps, t) <= Newer(l.slot.stamps, t) + gaveUp
    ensures Path(l', acts[1..], at) && End(l, acts, now) == End(l', acts[1..], at)
    ensures GiveUps(l, acts, now) == gaveUp + GiveUps(l', acts[1..], at)
  {
    var act := acts[0].0;
    at := acts[0].1;
    gaveUp := if GivesUp(l, act) then 1 else 0;
    PathStep(l, act, now, at, t);
    l' := Next(l, act, at);
  }

  lemma {:induction false} PathNewer(l: Lane, acts: seq<(Act, real)>, now: real, t: real)
    requires Inv(l, now) && Path(l, acts, now)
    ensures Inv(End(l, acts, now), Latest(acts, now))
    ensures Newer(End(l, acts, now).slot.stamps, t) <= Newer(l.slot.stamps, t) + GiveUps(l, acts, now)
    decreases |acts|
  {
    if acts != [] {
      var l', at, gaveUp := FirstAct(l, acts, now, t);
      PathNewer(l', acts[1..], at, t);
      assert Latest(acts, now) == Latest(acts[1..], at);
    }
  }

  lemma {:induction false} NoneNewer(stamps: seq<real>, t: real)
    requires forall i | 0 <= i < |stamps| :: stamps[i] <= t
    ensures Newer(stamps, t) == 0
  {
    if stamps != [] {
      NoneNewer(stamps[1..], t);
    }
  }

  /** Whatever stamps a key has, a sweep more than the TTL later leaves at most one for each turn
      given up in between. Only if none was given up does that mean that no stamp is left: a
      prompt whose answer is swallowed is given up itself, so a key in use need not recover
      (`BridgeStarvation.NeverHeals`; `BridgeDebt.HealsExactly` says when it does). */
  lemma SweepBoundsStamps(l: Lane, acts: seq<(Act, real)>, now: real, at: real)
    requires Inv(l, now) && Path(l, acts, now) && Latest(acts, now) <= at && now + ABANDONED_TTL < at
    requires Timely(End(l, acts, now), at)
    ensures var swept := End(l, acts, now).(slot := ExpireAbandoned(End(l, acts, now).slot, at));
      && Inv(swept, at) && |swept.slot.stamps| <= GiveUps(l, acts, now)
      && (GiveUps(l, acts, now) == 0 ==> swept.slot.stamps == [] && Owed(swept.slot.recs, Line(swept)) == [])
  {
    var end := End(l, acts, now);
    NoneNewer(l.slot.stamps, now);
    PathNewer(l, acts, now, now);
    NewerFresh(end.slot.stamps, at, now);
    KeyLater(Line(end), end.slot.recs, end.slot.held, end.slot.stamps, Latest(acts, now), at);
    StepKeeps(end, SweepAbandoned, at);
  }
}
