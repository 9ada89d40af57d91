/** One lost prompt, and every later prompt of the key is answered in vain: as long as the next
    one follows within the TTL, its answer is swallowed by the stamp of the one before, and it
    leaves a stamp of its own when it times out. */
module BridgeStarvation {
  import opened Text
  import opened BridgeSpec
  import opened BridgeLane
  import opened BridgeSafety
  import opened BridgeSurplus

  /** The default deadline of a turn; callers may be configured to wait for as long. */
  const HARD_TIMEOUT: real := 300.0

  const TIMED_OUT := Raised(HardTimeout, false, "")

  // ------------------------------------------------------------------------- paths

  /** `act` can happen in `l` at `at`, with every promise kept, and leads to `l'`. */
  ghost predicate Takes(l: Lane, act: (Act, real), l': Lane) {
    Shape(l) && Enabled(l, act.0) && Assumed(l, act.0, act.1) && l' == Next(l, act.0, act.1)
  }

  ghost predicate Chain(lanes: seq<Lane>, acts: seq<(Act, real)>, now: real) {
    && |lanes| == |acts| + 1
    && (forall i | 0 <= i < |acts| :: Takes(lanes[i], acts[i], lanes[i + 1]))
    && (forall i | 0 <= i < |acts| :: now <= acts[i].1)
    && (forall i, j | 0 <= i < j < |acts| :: acts[i].1 <= acts[j].1)
  }

  /** `acts` is a path from `l` to `l'`, which it reaches at `at`. */
  ghost predicate Reaches(l: Lane, acts: seq<(Act, real)>, now: real, l': Lane, at: real) {
    Path(l, acts, now) && l' == End(l, acts, now) && at == Latest(acts, now)
  }

  lemma Cons(l: Lane, act: (Act, real), l1: Lane, rest: seq<(Act, real)>, now: real, l': Lane, at: real)
    requires now <= act.1 && Takes(l, act, l1) && Reaches(l1, rest, act.1, l', at)
    ensures Reaches(l, [act] + rest, now, l', at)
  {
    var acts := [act] + rest;
    assert acts[0] == act && acts[1..] == rest;
    assert rest != [] ==> acts[|acts| - 1] == rest[|rest| - 1];
  }

  lemma {:induction false} ChainReaches(lanes: seq<Lane>, acts: seq<(Act, real)>, now: real)
    requires Chain(lanes, acts, now)
    ensures Reaches(lanes[0], acts, now, lanes[|acts|], Latest(acts, now))
    decreases |acts|
  {
    if acts != [] {
      var lanes', rest := lanes[1..], acts[1..];
      forall i | 0 <= i < |rest|
        ensures Takes(lanes'[i], rest[i], lanes'[i + 1])
      {
        assert Takes(lanes[i + 1], acts[i + 1], lanes[i + 2]);
      }
      ChainReaches(lanes', rest, acts[0].1);
      assert acts == [acts[0]] + rest;
      assert Latest(acts, now) == Latest(rest, acts[0].1);
      Cons(lanes[0], acts[0], lanes[1], rest, now, lanes[|acts|], Latest(acts, now));
    }
  }

  lemma First(l: Lane, acts: seq<(Act, real)>, now: real, l': Lane, at: real) returns (act: (Act, real), l1: Lane)
    requires Reaches(l, acts, now, l', at) && acts != []
    ensures acts == [act] + acts[1..] && now <= act.1 && Takes(l, act, l1) && Reaches(l1, acts[1..], act.1, l', at)
  {
    act := acts[0];
    l1 := Next(l, act.0, act.1);
  }

  lemma {:induction false} Append(l: Lane, acts: seq<(Act, real)>, now: real, l1: Lane, at1: real,
                                  rest: seq<(Act, real)>, l2: Lane, at2: real)
    requires Reaches(l, acts, now, l1, at1) && Reaches(l1, rest, at1, l2, at2)
    ensures Reaches(l, acts + rest, now, l2, at2)
    decreases |acts|
  {
    if acts == [] {
      assert acts + rest == rest;
    } else {
      var act, l' := First(l, acts, now, l1, at1);
      Append(l', acts[1..], act.1, l1, at1, rest, l2, at2);
      assert acts + rest == [act] + (acts[1..] + rest);
      Cons(l, act, l', acts[1..] + rest, now, l2, at2);
    }
  }

  // ------------------------------------------------------------------------- one turn

  /** Nothing is going on, and no prompt is outstanding. */
  ghost predicate Quiet(l: Lane) {
    Shape(l) && l.slot.held.None? && l.queue == [] && l.sending.None?
  }

  /** The lane while its newest turn `t` is the key's. */
  function Stage(l: Lane, t: TurnRec, stamps: seq<real>, queue: seq<TurnId>, frames: seq<Frame>, waiting: nat): Lane {
    l.(slot := Slot(l.slot.recs + [t], Some(|l.slot.recs|), stamps), queue := queue,
       heard := l.heard + [frames], waiting := l.waiting + [waiting])
  }

  function TimedOut(message: string, at: real): TurnRec {
    Settle(NewTurn(message), Failed(HardTimeout), at)
  }

  /** The lane after that turn timed out at `at`, and its only caller was told. */
  function Parted(l: Lane, message: string, at: real, stamps: seq<real>, queue: seq<TurnId>, frames: seq<Frame>): Lane {
    l.(slot := Slot(l.slot.recs + [TimedOut(message, at)], None, stamps), queue := queue,
       heard := l.heard + [frames], waiting := l.waiting + [0], told := l.told + [(|l.slot.recs|, TIMED_OUT)])
  }

  lemma Starting(l: Lane, message: string, at: real)
    requires Quiet(l)
    ensures Takes(l, (Start(message), at),
                  Stage(l, NewTurn(message), l.slot.stamps, [], [], 0).(sending := Some(|l.slot.recs|)))
  {
  }

  lemma Delivering(l: Lane, t: TurnRec, at: real)
    requires Quiet(l) && (Done(t) <==> t.finishedAt.Some?)
    ensures var id := |l.slot.recs|;
      Takes(Stage(l, t, l.slot.stamps, [], [], 0).(sending := Some(id)), (SendDelivers, at),
            Stage(l, t, l.slot.stamps, [id], [], 0).(sending := Some(id), wired := true))
  {
    var id := |l.slot.recs|;
    var wired := Stage(l, t, l.slot.stamps, [id], [], 0).(sending := Some(id), wired := true);
    assert Delivered(Stage(l, t, l.slot.stamps, [], [], 0).(sending := Some(id))) == wired;
  }

  lemma Returning(l: Lane, t: TurnRec, at: real)
    requires Quiet(l) && (Done(t) <==> t.finishedAt.Some?) && t.waiters == 0
    ensures var id := |l.slot.recs|;
      Takes(Stage(l, t, l.slot.stamps, [id], [], 0).(sending := Some(id), wired := true), (SendReturns, at),
            Stage(l, t.(waiters := 1), l.slot.stamps, [id], [], 1))
  {
    var id := |l.slot.recs|;
    var wired := Stage(l, t, l.slot.stamps, [id], [], 0).(sending := Some(id), wired := true);
    assert wired.slot.recs[id := t.(waiters := 1)] == l.slot.recs + [t.(waiters := 1)];
    assert wired.waiting[id := 1] == l.waiting + [1];
  }

  /** A stamp is stored: the whole answer is swallowed, and uses the stamp up. */
  lemma Swallowing(l: Lane, t: TurnRec, stamp: real, f: Frame, at: real)
    requires Quiet(l) && (Done(t) <==> t.finishedAt.Some?) && Terminal(f)
    ensures Takes(Stage(l, t, [stamp], [|l.slot.recs|], [], 1), (FrameArrives(f), at), Stage(l, t, [], [], [f], 1))
  {
    var id, before := |l.slot.recs|, Stage(l, t, [stamp], [|l.slot.recs|], [], 1);
    assert before.slot.stamps[1..] == [] && before.queue[1..] == [];
    assert before.heard[id] + [f] == [f];
    assert before.heard[id := [f]] == l.heard + [[f]];
  }

  lemma TimingOut(l: Lane, message: string, stamps: seq<real>, queue: seq<TurnId>, frames: seq<Frame>, at: real)
    requires Quiet(l) && (queue == [] || queue == [|l.slot.recs|])
    ensures Takes(Stage(l, NewTurn(message).(waiters := 1), stamps, queue, frames, 1), (Deadline(|l.slot.recs|), at),
                  Stage(l, TimedOut(message, at).(waiters := 1), stamps + [at], queue, frames, 1))
  {
    var id, t := |l.slot.recs|, NewTurn(message).(waiters := 1);
    assert (l.slot.recs + [t])[id := TimedOut(message, at).(waiters := 1)]
           == l.slot.recs + [TimedOut(message, at).(waiters := 1)];
  }

  lemma Leaving(l: Lane, message: string, end: real, stamps: seq<real>, queue: seq<TurnId>,
                frames: seq<Frame>, at: real)
    requires Quiet(l) && (queue == [] || queue == [|l.slot.recs|])
    ensures Takes(Stage(l, TimedOut(message, end).(waiters := 1), stamps, queue, frames, 1),
                  (WaitEnds(|l.slot.recs|), at),
                  Parted(l, message, end, stamps, queue, frames))
  {
    var id, t := |l.slot.recs|, TimedOut(message, end).(waiters := 1);
    assert (l.slot.recs + [t])[id := TimedOut(message, end)] == l.slot.recs + [TimedOut(message, end)];
    assert (l.waiting + [1])[id := 0] == l.waiting + [0];
  }

  lemma Sweeping(l: Lane, at: real)
    requires Shape(l) && Fresh(l.slot.stamps, at) == l.slot.stamps && Timely(l, at)
    ensures Takes(l, (SweepAbandoned, at), l)
  {
  }

  // ------------------------------------------------------------------------- one prompt

  /** A prompt sent `gap` after the last stamp was stored, and answered in full `delay` later. */
  datatype Prompt = Prompt(message: string, answer: string, gap: real, delay: real)

  /** It follows within the TTL of the stamp, and is answered before its deadline. */
  predicate InTime(p: Prompt) {
    0.0 <= p.gap <= ABANDONED_TTL && 0.0 <= p.delay < HARD_TIMEOUT
  }

  ghost predicate Idle(l: Lane, t: real) {
    Quiet(l) && l.slot.stamps == [t]
  }

  function Sending(message: string, at: real): seq<(Act, real)> {
    [(SweepAbandoned, at), (Start(message), at), (SendDelivers, at), (SendReturns, at)]
  }

  function Answering(id: TurnId, answer: string, at: real, end: real): seq<(Act, real)> {
    [(FrameArrives(ResultFrame(answer)), at), (SweepAbandoned, at), (Deadline(id), end), (WaitEnds(id), end)]
  }

  /** The stamps are kept by the sweep, and the prompt goes out as usual. */
  lemma SendingRuns(l: Lane, t: real, message: string, at: real)
    requires Quiet(l) && t <= at && Fresh(l.slot.stamps, at) == l.slot.stamps
    ensures Reaches(l, Sending(message, at), t,
                    Stage(l, NewTurn(message).(waiters := 1), l.slot.stamps, [|l.slot.recs|], [], 1), at)
  {
    var id, turn, st := |l.slot.recs|, NewTurn(message), l.slot.stamps;
    Sweeping(l, at);
    Starting(l, message, at);
    Delivering(l, turn, at);
    Returning(l, turn, at);
    ChainReaches([l, l, Stage(l, turn, st, [], [], 0).(sending := Some(id)),
                  Stage(l, turn, st, [id], [], 0).(sending := Some(id), wired := true),
                  Stage(l, turn.(waiters := 1), st, [id], [], 1)], Sending(message, at), t);
  }

  /** The whole answer is swallowed; the turn times out, and a new stamp is stored. */
  lemma AnsweringRuns(l: Lane, t: real, p: Prompt, at: real, end: real, now: real)
    requires Idle(l, t) && now <= at <= end
    ensures Reaches(Stage(l, NewTurn(p.message).(waiters := 1), [t], [|l.slot.recs|], [], 1),
                    Answering(|l.slot.recs|, p.answer, at, end), now,
                    Parted(l, p.message, end, [end], [], [ResultFrame(p.answer)]), end)
  {
    var id, turn, f := |l.slot.recs|, NewTurn(p.message).(waiters := 1), ResultFrame(p.answer);
    var heard := Stage(l, turn, [], [], [f], 1);
    Swallowing(l, turn, t, f, at);
    Sweeping(heard, at);
    TimingOut(l, p.message, [], [], [f], end);
    assert [] + [end] == [end];
    Leaving(l, p.message, end, [end], [], [f], end);
    ChainReaches([Stage(l, turn, [t], [id], [], 1), heard, heard,
                  Stage(l, TimedOut(p.message, end).(waiters := 1), [end], [], [f], 1),
                  Parted(l, p.message, end, [end], [], [f])], Answering(id, p.answer, at, end), now);
  }

  function Round(id: TurnId, p: Prompt, t: real): seq<(Act, real)> {
    Sending(p.message, t + p.gap) + Answering(id, p.answer, t + p.gap + p.delay, t + p.gap + HARD_TIMEOUT)
  }

  /** The gateway answers the prompt in full, its caller is told of a timeout, and the key is
      where it was before, with a new stamp. */
  lemma RoundRuns(l: Lane, t: real, p: Prompt) returns (l': Lane, end: real)
    requires Idle(l, t) && InTime(p)
    ensures Reaches(l, Round(|l.slot.recs|, p, t), t, l', end) && Idle(l', end) && end == t + p.gap + HARD_TIMEOUT
    ensures |l'.slot.recs| == |l.slot.recs| + 1 && l'.heard == l.heard + [[ResultFrame(p.answer)]]
    ensures l'.told == l.told + [(|l.slot.recs|, TIMED_OUT)]
  {
    var id, at := |l.slot.recs|, t + p.gap;
    end := at + HARD_TIMEOUT;
    l' := Parted(l, p.message, end, [end], [], [ResultFrame(p.answer)]);
    assert Fresh([t], at) == [t];
    SendingRuns(l, t, p.message, at);
    AnsweringRuns(l, t, p, at + p.delay, end, at);
    Append(l, Sending(p.message, at), t, Stage(l, NewTurn(p.message).(waiters := 1), [t], [id], [], 1), at,
           Answering(id, p.answer, at + p.delay, end), l', end);
  }

  // ------------------------------------------------------------------------- every prompt

  function Rounds(id: TurnId, prompts: seq<Prompt>, t: real): seq<(Act, real)>
    decreases |prompts|
  {
    if prompts == [] then []
    else Round(id, prompts[0], t) + Rounds(id + 1, prompts[1..], t + prompts[0].gap + HARD_TIMEOUT)
  }

  function Answers(prompts: seq<Prompt>): (r: seq<seq<Frame>>)
    ensures |r| == |prompts|
    ensures forall i | 0 <= i < |r| :: r[i] == [ResultFrame(prompts[i].answer)]
  {
    seq(|prompts|, i requires 0 <= i < |prompts| => [ResultFrame(prompts[i].answer)])
  }

  function Timeouts(id: TurnId, n: nat): (r: seq<(TurnId, CallResult)>)
    ensures |r| == n
    ensures forall i | 0 <= i < n :: r[i] == (id + i, TIMED_OUT)
  {
    seq(n, i requires 0 <= i < n => (id + i, TIMED_OUT))
  }

  lemma AnswersFirst(heard: seq<seq<Frame>>, prompts: seq<Prompt>)
    requires prompts != []
    ensures heard + [[ResultFrame(prompts[0].answer)]] + Answers(prompts[1..]) == heard + Answers(prompts)
  {
    var first: seq<Frame> := [ResultFrame(prompts[0].answer)];
    assert [first] + Answers(prompts[1..]) == Answers(prompts);
    assert heard + [first] + Answers(prompts[1..]) == heard + ([first] + Answers(prompts[1..]));
  }

  lemma TimeoutsFirst(told: seq<(TurnId, CallResult)>, id: TurnId, n: nat)
    requires n > 0
    ensures told + [(id, TIMED_OUT)] + Timeouts(id + 1, n - 1) == told + Timeouts(id, n)
  {
    assert [(id, TIMED_OUT)] + Timeouts(id + 1, n - 1) == Timeouts(id, n);
  }

  /** However many prompts follow, each answered in full: every caller is told of a timeout. */
  lemma {:induction false} RoundsRun(l: Lane, t: real, prompts: seq<Prompt>) returns (l': Lane, end: real)
    requires Idle(l, t) && forall i | 0 <= i < |prompts| :: InTime(prompts[i])
    ensures Reaches(l, Rounds(|l.slot.recs|, prompts, t), t, l', end) && Idle(l', end)
    ensures l'.heard == l.heard + Answers(prompts) && l'.told == l.told + Timeouts(|l.slot.recs|, |prompts|)
    decreases |prompts|
  {
    var id := |l.slot.recs|;
    if prompts == [] {
      l', end := l, t;
    } else {
      var l1, at := RoundRuns(l, t, prompts[0]);
      l', end := RoundsRun(l1, at, prompts[1..]);
      Append(l, Round(id, prompts[0], t), t, l1, at, Rounds(id + 1, prompts[1..], at), l', end);
      AnswersFirst(l.heard, prompts);
      TimeoutsFirst(l.told, id, |prompts|);
    }
  }

  // ------------------------------------------------------------------------- from the start

  function Losing(id: TurnId, at: real): seq<(Act, real)> {
    [(Deadline(id), at), (WaitEnds(id), at), (PromptLost(0), at)]
  }

  /** One prompt is sent, and given up; its terminal frame is lost. */
  function Opening(message: string): seq<(Act, real)> {
    Sending(message, 0.0) + Losing(0, HARD_TIMEOUT)
  }

  lemma LosingRuns(l: Lane, message: string, at: real, now: real)
    requires Quiet(l) && now <= at
    ensures Reaches(Stage(l, NewTurn(message).(waiters := 1), [], [|l.slot.recs|], [], 1),
                    Losing(|l.slot.recs|, at), now,
                    Parted(l, message, at, [at], [], []), at)
  {
    var id, turn := |l.slot.recs|, NewTurn(message).(waiters := 1);
    TimingOut(l, message, [], [id], [], at);
    assert [] + [at] == [at];
    Leaving(l, message, at, [at], [id], [], at);
    PromptGone(l, message, at);
    ChainReaches([Stage(l, turn, [], [id], [], 1), Stage(l, TimedOut(message, at).(waiters := 1), [at], [id], [], 1),
                  Parted(l, message, at, [at], [id], []), Parted(l, message, at, [at], [], [])], Losing(id, at), now);
  }

  lemma PromptGone(l: Lane, message: string, at: real)
    requires Quiet(l)
    ensures Takes(Parted(l, message, at, [at], [|l.slot.recs|], []), (PromptLost(0), at),
                  Parted(l, message, at, [at], [], []))
  {
    assert Without([|l.slot.recs|], 0) == [];
  }

  lemma OpeningRuns(message: string)
    ensures Reaches(EMPTY, Opening(message), 0.0,
                    Parted(EMPTY, message, HARD_TIMEOUT, [HARD_TIMEOUT], [], []), HARD_TIMEOUT)
  {
    SendingRuns(EMPTY, 0.0, message, 0.0);
    LosingRuns(EMPTY, message, HARD_TIMEOUT, 0.0);
    Append(EMPTY, Sending(message, 0.0), 0.0, Stage(EMPTY, NewTurn(message).(waiters := 1), [], [0], [], 1), 0.0,
           Losing(0, HARD_TIMEOUT), Parted(EMPTY, message, HARD_TIMEOUT, [HARD_TIMEOUT], [], []), HARD_TIMEOUT);
  }

  /** A run of a fresh key, in which only the first prompt is never answered: the callers of all
      the prompts after it are told of a timeout, although each was answered in full. */
  lemma NeverHeals(message: string, prompts: seq<Prompt>) returns (l: Lane, end: real)
    requires forall i | 0 <= i < |prompts| :: InTime(prompts[i])
    ensures Reaches(EMPTY, Opening(message) + Rounds(1, prompts, HARD_TIMEOUT), 0.0, l, end)
    ensures l.heard == [[]] + Answers(prompts) && l.told == Timeouts(0, |prompts| + 1)
  {
    var first := Parted(EMPTY, message, HARD_TIMEOUT, [HARD_TIMEOUT], [], []);
    OpeningRuns(message);
    l, end := RoundsRun(first, HARD_TIMEOUT, prompts);
    Append(EMPTY, Opening(message), 0.0, first, HARD_TIMEOUT, Rounds(1, prompts, HARD_TIMEOUT), l, end);
    TimeoutsFirst([], 0, |prompts| + 1);
    assert [] + Timeouts(0, |prompts| + 1) == Timeouts(0, |prompts| + 1);
  }
}
