/** When exactly a prompt's own answer is swallowed: a count of the stamps that no prompt pays
    back, which neither given-up turns nor swallowed answers bring down. */
module BridgeDebt {
  import opened Text
  import opened BridgeSpec
  import opened BridgeLane
  import opened BridgeSafety
  import opened BridgeSurplus

  predicate Alive(l: Lane) {
    l.slot.held.Some? && !DoneAt(l.slot.recs, l.slot.held.value)
  }

  /** Every prompt in the line will end and either use up a stamp or settle the live turn. The
      debt is how many stamps, or live turns, get none. */
  function Debt(l: Lane): int {
    |l.slot.stamps| + (if Alive(l) then 1 else 0) - |Line(l)|
  }

  /** Seen from the prompts owed: it is the surplus of stamps, and one more if the live turn's
      own prompt is gone. Only its deadline or a disconnect can settle such a turn, and either
      stores a stamp. */
  lemma DebtIsSurplus(l: Lane, now: real)
    requires Inv(l, now)
    ensures 0 <= Surplus(l)
    ensures Debt(l) == Surplus(l) + if Alive(l) && !Outstanding(l, l.slot.held.value) then 1 else 0
  {
    StepSurplus(l, Disconnect, now);
  }

  /** `lost`: prompts that never end upstream although a live turn or a stamp waits for them.
      `expired`: stamps dropped by a sweep.
      `dismissed`: live turns dropped by a send that raised after it had delivered the prompt. */
  datatype Tally = Tally(lost: nat, expired: nat, dismissed: nat) {
    function Balance(): int {
      lost - expired - dismissed
    }

    function Plus(other: Tally): (sum: Tally)
      ensures sum.Balance() == Balance() + other.Balance()
    {
      Tally(lost + other.lost, expired + other.expired, dismissed + other.dismissed)
    }
  }

  const NONE := Tally(0, 0, 0)

  /** How many stamps a sweep drops. */
  function Outdated(stamps: seq<real>, now: real): nat {
    if stamps == [] then 0
    else (if now - stamps[0] <= ABANDONED_TTL then 0 else 1) + Outdated(stamps[1..], now)
  }

  function Step(l: Lane, act: Act, now: real): Tally
    requires Shape(l) && Enabled(l, act)
  {
    match act
    case PromptLost(_) => Tally(1, 0, 0)
    case SendReturns => if l.wired then NONE else Tally(1, 0, 0)
    case SendRaises =>
      var settled := DoneAt(l.slot.recs, l.sending.value);
      if !l.wired && settled then Tally(1, 0, 0)
      else if l.wired && !settled && l.slot.held == l.sending then Tally(0, 0, 1)
      else NONE
    case SweepAbandoned => Tally(0, Outdated(l.slot.stamps, now), 0)
    case _ => NONE
  }

  // ------------------------------------------------------------- how each step counts

  lemma {:induction false} OutdatedGo(stamps: seq<real>, now: real)
    ensures |Fresh(stamps, now)| == |stamps| - Outdated(stamps, now)
  {
    if stamps != [] {
      OutdatedGo(stamps[1..], now);
    }
  }

  lemma SendReturnsDebt(l: Lane, now: real)
    requires Shape(l) && l.sending.Some?
    ensures Debt(Sent(l)) == Debt(l) + if l.wired then 0 else 1
  {
    var l' := Sent(l);
    assert l'.slot.held.Some? ==> Alive(l') == Alive(l);
  }

  lemma SendingIsHeld(l: Lane, now: real)
    requires Inv(l, now) && l.sending.Some? && !l.wired && !DoneAt(l.slot.recs, l.sending.value)
    ensures l.slot.held == l.sending
  {
    assert Line(l)[|l.queue|] == l.sending.value;
  }

  lemma SendRaisesDebt(l: Lane, now: real)
    requires Shape(l) && l.sending.Some?
    requires !l.wired && !DoneAt(l.slot.recs, l.sending.value) ==> l.slot.held == l.sending
    ensures Debt(Unsent(l)) == Debt(l) + Step(l, SendRaises, now).Balance()
  {
    assert l.slot.held != l.sending ==> Alive(Unsent(l)) == Alive(l);
    assert |Line(Unsent(l))| == |Line(l)| - if l.wired then 0 else 1;
  }

  lemma FrameDebt(l: Lane, f: Frame, now: real)
    requires Inv(l, now) && l.queue != []
    ensures Debt(Heard(l, f, now)) == Debt(l)
  {
    FrameOutcome(l, f, now);
    HeardLine(l, f, now);
  }

  lemma GiveUpDebt(l: Lane, id: TurnId, cause: Cause, now: real)
    requires Shape(l) && id < |l.slot.recs| && (Done(l.slot.recs[id]) || l.slot.held == Some(id))
    ensures Debt(l.(slot := GiveUp(l.slot, id, cause, now))) == Debt(l)
  {
  }

  lemma PromptLostDebt(l: Lane, i: nat)
    requires i < |l.queue|
    ensures Debt(l.(queue := Without(l.queue, i))) == Debt(l) + 1
  {
  }

  lemma SweepParkedDebt(l: Lane, ttl: real, now: real)
    requires Shape(l)
    ensures Debt(l.(slot := ExpireParked(l.slot, now, ttl))) == Debt(l)
  {
  }

  lemma SweepAbandonedDebt(l: Lane, now: real)
    requires Shape(l)
    ensures Debt(l.(slot := ExpireAbandoned(l.slot, now))) == Debt(l) - Outdated(l.slot.stamps, now)
  {
    var st, kept := l.slot.stamps, Fresh(l.slot.stamps, now);
    OutdatedGo(st, now);
    assert Alive(l.(slot := l.slot.(stamps := kept))) == Alive(l);
  }

  lemma StartDebt(l: Lane, message: string)
    requires Shape(l) && l.sending.None? && l.slot.held.None?
    ensures Debt(Started(l, message)) == Debt(l)
  {
  }

  lemma ArriveDebt(l: Lane)
    requires Shape(l) && l.sending.None?
    ensures Debt(Arrived(l)) == Debt(l)
  {
    ArriveChanges(l);
    assert Alive(Arrived(l)) == Alive(l);
  }

  lemma WaitEndsDebt(l: Lane, id: TurnId)
    requires Shape(l) && id < |l.waiting| && l.waiting[id] > 0
    ensures Debt(Left(l, id)) == Debt(l)
  {
    LeaveChanges(l, id);
    assert Alive(Left(l, id)) == Alive(l);
  }

  lemma WaitCancelledDebt(l: Lane, id: TurnId)
    requires Shape(l) && id < |l.waiting| && l.waiting[id] > 0
    ensures Debt(Forsaken(l, id)) == Debt(l)
  {
    ForsakenChanges(l, id);
  }

  /** A lost prompt adds one to the debt, an expired stamp and a dismissed turn take one off, and
      nothing else moves it: giving up a turn does not, and neither does a swallowed answer,
      because the turn that misses it is going to store the next stamp. */
  lemma StepDebt(l: Lane, act: Act, now: real)
    requires Inv(l, now) && Enabled(l, act)
    ensures Debt(Next(l, act, now)) == Debt(l) + Step(l, act, now).Balance()
  {
    match act
    case Arrive => ArriveDebt(l);
    case WaitEnds(id) => WaitEndsDebt(l, id);
    case WaitCancelled(id) => WaitCancelledDebt(l, id);
    case SendReturns => SendReturnsDebt(l, now);
    case SendRaises =>
      if !l.wired && !DoneAt(l.slot.recs, l.sending.value) {
        SendingIsHeld(l, now);
      }
      SendRaisesDebt(l, now);
    case FrameArrives(f) => FrameDebt(l, f, now);
    case Deadline(id) => GiveUpDebt(l, id, HardTimeout, now);
    case Disconnect =>
      if l.slot.held.Some? {
        GiveUpDebt(l, l.slot.held.value, ConnectionLost, now);
      }
    case Start(message) => StartDebt(l, message);
    case SendDelivers => assert Debt(Delivered(l)) == Debt(l);
    case PromptLost(i) => PromptLostDebt(l, i);
    case SweepParked(ttl) => SweepParkedDebt(l, ttl, now);
    case SweepAbandoned => SweepAbandonedDebt(l, now);
  }

  // ------------------------------------------------------------------------ whole paths

  /** The next frame comes from the live turn's own prompt. */
  predicate OwnFrameNext(l: Lane) {
    Alive(l) && l.queue != [] && l.queue[0] == l.slot.held.value
  }

  /** A prompt's own frame is swallowed exactly while there is a debt. */
  lemma SwallowedExactly(l: Lane, f: Frame, now: real)
    requires Inv(l, now) && OwnFrameNext(l)
    ensures Swallow(l.slot, f).1 <==> Debt(l) > 0
  {
    var id := l.queue[0];
    assert Line(l)[0] == id;
    assert !DoneAt(l.slot.recs, id);
    assert |Line(l)| == 1 && Owed(l.slot.recs, Line(l)) == [];
  }

  /** What happened along a path. */
  ghost function Along(l: Lane, acts: seq<(Act, real)>, now: real): Tally
    requires Path(l, acts, now)
    decreases |acts|
  {
    if acts == [] then NONE
    else
      var (act, at) := acts[0];
      Step(l, act, at).Plus(Along(Next(l, act, at), acts[1..], at))
  }

  lemma FirstDebt(l: Lane, acts: seq<(Act, real)>, now: real) returns (l': Lane, at: real, step: int)
    requires Inv(l, now) && Path(l, acts, now) && acts != []
    ensures at == acts[0].1 && Inv(l', at) && Debt(l') == Debt(l) + step
    ensures Path(l', acts[1..], at) && End(l, acts, now) == End(l', acts[1..], at)
    ensures Along(l, acts, now).Balance() == step + Along(l', acts[1..], at).Balance()
  {
    var act := acts[0].0;
    at := acts[0].1;
    step := Step(l, act, at).Balance();
    PathStep(l, act, now, at, at);
    KeyLater(Line(l), l.slot.recs, l.slot.held, l.slot.stamps, now, at);
    StepDebt(l, act, at);
    l' := Next(l, act, at);
  }

  /** The debt moves by what happened, whatever came in between. */
  lemma {:induction false} PathDebt(l: Lane, acts: seq<(Act, real)>, now: real)
    requires Inv(l, now) && Path(l, acts, now)
    ensures Debt(End(l, acts, now)) == Debt(l) + Along(l, acts, now).Balance()
    decreases |acts|
  {
    if acts != [] {
      var l', at, step := FirstDebt(l, acts, now);
      PathDebt(l', acts[1..], at);
    }
  }

  /** From any lane on, however many turns are started, answered and given up: a prompt's own
      frame is swallowed iff the debt so far and the prompts lost on the way outnumber the
      stamps that expired and the turns that were dismissed. So one stamp left behind swallows
      prompt after prompt until one stamp expires. */
  lemma HealsExactly(l: Lane, acts: seq<(Act, real)>, now: real, f: Frame)
    requires Inv(l, now) && Path(l, acts, now) && OwnFrameNext(End(l, acts, now))
    ensures var along, swallowed := Along(l, acts, now), Swallow(End(l, acts, now).slot, f).1;
      && (swallowed <==> Debt(l) + along.lost > along.expired + along.dismissed)
      && (Debt(l) == 1 && along.lost == along.dismissed == 0 ==> (swallowed <==> along.expired == 0))
  {
    PathDebt(l, acts, now);
    PathNewer(l, acts, now, now);
    DebtIsSurplus(End(l, acts, now), Latest(acts, now));
    SwallowedExactly(End(l, acts, now), f, Latest(acts, now));
  }

  /** In any run of a fresh key: exactly when more prompts were lost than stamps expired and
      turns were dismissed. */
  lemma LossesSwallow(acts: seq<(Act, real)>, f: Frame)
    requires Path(EMPTY, acts, 0.0) && OwnFrameNext(End(EMPTY, acts, 0.0))
    ensures var along := Along(EMPTY, acts, 0.0);
      Swallow(End(EMPTY, acts, 0.0).slot, f).1 <==> along.lost > along.expired + along.dismissed
  {
    assert Times([], []) == [];
    HealsExactly(EMPTY, acts, 0.0, f);
  }
}
