/** What a call is told, and about which prompt: an outcome that nobody collected stays parked
    until its TTL has passed, and the next call is told it, marked as that of an earlier prompt;
    a call that waited is told the outcome of the turn it waited on. */
module BridgeParked {
  import opened Text
  import opened BridgeSpec
  import opened BridgeLane
  import opened BridgeSafety
  import opened BridgeRuns

  // ------------------------------------------------------------------------ one call

  /** `told` reports how turn `t` settled: as stale and labelled with its message, or plainly. */
  predicate Conveys(told: CallResult, t: TurnRec, stale: bool) {
    match t.outcome
    case None => false
    case Some(Reply(text)) => told == Answered(text, stale, if stale then t.message else "")
    case Some(Failed(cause)) => told == Raised(cause, stale, if stale then t.message else "")
  }

  /** An arriving call is told the outcome of a settled turn, as that of an earlier prompt, and the
      key is free. If there is none, or it still runs, the call is told nothing yet. */
  lemma ArrivalTells(l: Lane)
    requires Shape(l) && l.sending.None?
    ensures var l', held := Arrived(l), l.slot.held;
      if held.Some? && Done(l.slot.recs[held.value]) then
        && |l'.told| == |l.told| + 1 && l'.told[..|l.told|] == l.told && l'.told[|l.told|].0 == held.value
        && Conveys(l'.told[|l.told|].1, l.slot.recs[held.value], true)
        && l'.slot.held.None? && l'.slot.recs == l.slot.recs
      else
        l'.told == l.told && l'.slot.held == held
  {
  }

  /** A call that stops waiting is told the outcome of the turn it waited on, plainly, and the
      turn is off the key; or that it is still running, and then nothing is dropped. */
  lemma LeavingTells(l: Lane, id: TurnId)
    requires Shape(l) && id < |l.waiting| && l.waiting[id] > 0
    ensures var l', t := Left(l, id), l.slot.recs[id];
      && |l'.told| == |l.told| + 1 && l'.told[..|l.told|] == l.told && l'.told[|l.told|].0 == id
      && (if Done(t) then Conveys(l'.told[|l.told|].1, t, false) && l'.slot.held != Some(id)
          else l'.told[|l.told|].1 == Pending && l'.slot.held == l.slot.held)
  {
  }

  /** What a step leaves parked: a settled turn stays with its key unless a call collects it,
      one that waited on it is told, the send that is still under way raises, or it is swept
      when nobody waits on it and more than the TTL has passed since it settled. */
  predicate Parks(l: Lane, act: Act, now: real, id: TurnId)
    requires id < |l.slot.recs| && l.slot.recs[id].finishedAt.Some?
  {
    match act
    case Arrive => false
    case WaitEnds(other) => other != id
    case SendRaises => l.sending != Some(id)
    case SweepParked(ttl) => l.slot.recs[id].waiters != 0 || now <= l.slot.recs[id].finishedAt.value + ttl
    case _ => true
  }

  lemma StaysParked(l: Lane, act: Act, now: real, id: TurnId)
    requires Shape(l) && Enabled(l, act) && l.slot.held == Some(id) && Done(l.slot.recs[id])
    ensures var l' := Next(l, act, now);
      && (l'.slot.held == Some(id) <==> Parks(l, act, now, id))
      && |l.slot.recs| <= |l'.slot.recs|
      && l'.slot.recs[id].(waiters := 0) == l.slot.recs[id].(waiters := 0)
  {
  }

  /** What settles a turn, and how: a result or an error frame, its deadline, or a disconnect. */
  lemma SettlesFor(l: Lane, act: Act, now: real, id: TurnId)
    requires Shape(l) && Enabled(l, act) && id < |l.slot.recs| && !Done(l.slot.recs[id])
    ensures var t := Next(l, act, now).slot.recs[id];
      && (Done(t) ==>
            && t.finishedAt == Some(now)
            && match t.outcome.value
               case Reply(_) => act.FrameArrives? && act.f.ResultFrame?
               case Failed(AgentError(_)) => act.FrameArrives? && act.f.ErrorFrame?
               case Failed(HardTimeout) => act == Deadline(id)
               case Failed(ConnectionLost) => act == Disconnect)
      && (act == Deadline(id) || (act == Disconnect && l.slot.held == Some(id)) ==> Done(t))
  {
  }

  // ------------------------------------------------------------------------ whole runs

  /** `prompts[id]`: the message turn `id` was started with. `found[i]`: whether the call that was
      told `told[i]` had just arrived, rather than waited. */
  datatype Log = Log(prompts: seq<string>, found: seq<bool>)

  function Logged(log: Log, l: Lane, act: Act, now: real): Log
    requires Shape(l) && Enabled(l, act)
  {
    Log(if act.Start? then log.prompts + [act.message] else log.prompts,
        if |Next(l, act, now).told| > |l.told| then log.found + [act.Arrive?] else log.found)
  }

  /** A turn remembers the beginning of its prompt, without the white space around that. */
  ghost predicate Echoes(echo: string, prompt: string) {
    exists core :: Core(core, prompt) && echo <= core && (echo == core || |echo| == 120)
                   && |echo| <= 120
  }

  predicate Tells(told: (TurnId, CallResult), recs: seq<TurnRec>, found: bool) {
    if told.1.Pending? then !found else told.0 < |recs| && Conveys(told.1, recs[told.0], found)
  }

  ghost predicate LogInv(log: Log, l: Lane) {
    && |log.prompts| == |l.slot.recs| && |log.found| == |l.told|
    && (forall id | 0 <= id < |log.prompts| :: Echoes(l.slot.recs[id].message, log.prompts[id]))
    && (forall i | 0 <= i < |l.told| :: Tells(l.told[i], l.slot.recs, log.found[i]))
  }

  /** Turns are only added, and a settled turn stays as it settled. */
  predicate Grown(recs: seq<TurnRec>, recs': seq<TurnRec>, act: Act) {
    && |recs'| == |recs| + (if act.Start? then 1 else 0)
    && (forall id | 0 <= id < |recs| ::
          recs'[id].message == recs[id].message && (Done(recs[id]) ==> recs'[id].outcome == recs[id].outcome))
    && (act.Start? ==> recs'[|recs|] == NewTurn(act.message))
  }

  lemma CallsGrow(l: Lane, act: Act, now: real)
    requires Shape(l) && Enabled(l, act) && (act.Arrive? || act.SendReturns? || act.WaitEnds? || act.WaitCancelled?)
    ensures Grown(l.slot.recs, Next(l, act, now).slot.recs, act)
  {
  }

  lemma EventsGrow(l: Lane, act: Act, now: real)
    requires Shape(l) && Enabled(l, act) && (act.Start? || act.FrameArrives? || act.Deadline? || act.Disconnect?)
    ensures Grown(l.slot.recs, Next(l, act, now).slot.recs, act)
  {
  }

  lemma StepGrows(l: Lane, act: Act, now: real)
    requires Shape(l) && Enabled(l, act)
    ensures Grown(l.slot.recs, Next(l, act, now).slot.recs, act)
  {
    match act
    case Arrive | SendReturns | WaitEnds(_) | WaitCancelled(_) => CallsGrow(l, act, now);
    case Start(_) | FrameArrives(_) | Deadline(_) | Disconnect => EventsGrow(l, act, now);
    case _ =>
  }

  lemma StepTells(l: Lane, act: Act, now: real)
    requires Shape(l) && Enabled(l, act)
    ensures var l' := Next(l, act, now);
      || l'.told == l.told
      || (|l'.told| == |l.told| + 1 && l'.told[..|l.told|] == l.told
          && Tells(l'.told[|l.told|], l.slot.recs, act.Arrive?))
  {
    match act
    case Arrive => ArrivalTells(l);
    case WaitEnds(id) => LeavingTells(l, id);
    case _ =>
  }

  lemma NewEcho(message: string)
    ensures Echoes(NewTurn(message).message, message)
  {
    StripIsCore(message);
    assert NewTurn(message).message <= Strip(message);
  }

  lemma TellsLasts(told: (TurnId, CallResult), recs: seq<TurnRec>, recs': seq<TurnRec>, act: Act, found: bool)
    requires Tells(told, recs, found) && Grown(recs, recs', act)
    ensures Tells(told, recs', found)
  {
  }

  lemma StepLogs(log: Log, l: Lane, act: Act, now: real)
    requires Shape(l) && Enabled(l, act) && LogInv(log, l)
    ensures LogInv(Logged(log, l, act, now), Next(l, act, now))
  {
    StepGrows(l, act, now);
    StepTells(l, act, now);
    var l', log' := Next(l, act, now), Logged(log, l, act, now);
    PromptsKeep(log.prompts, l.slot.recs, l'.slot.recs, act);
    ToldKeeps(l.told, log.found, l.slot.recs, l'.told, log'.found, l'.slot.recs, act);
  }

  lemma PromptsKeep(prompts: seq<string>, recs: seq<TurnRec>, recs': seq<TurnRec>, act: Act)
    requires |prompts| == |recs| && (forall id | 0 <= id < |prompts| :: Echoes(recs[id].message, prompts[id]))
    requires Grown(recs, recs', act)
    ensures var prompts' := if act.Start? then prompts + [act.message] else prompts;
      |prompts'| == |recs'| && forall id | 0 <= id < |prompts'| :: Echoes(recs'[id].message, prompts'[id])
  {
    var prompts' := if act.Start? then prompts + [act.message] else prompts;
    if act.Start? {
      NewEcho(act.message);
    }
    forall id | 0 <= id < |prompts'| ensures Echoes(recs'[id].message, prompts'[id]) {
      if id < |prompts| {
        assert Echoes(recs[id].message, prompts[id]) && recs'[id].message == recs[id].message;
      }
    }
  }

  lemma ToldKeeps(told: seq<(TurnId, CallResult)>, found: seq<bool>, recs: seq<TurnRec>,
                  told': seq<(TurnId, CallResult)>, found': seq<bool>, recs': seq<TurnRec>, act: Act)
    requires |found| == |told| && (forall i | 0 <= i < |told| :: Tells(told[i], recs, found[i]))
             && Grown(recs, recs', act)
    requires || (told' == told && found' == found)
             || (|told'| == |told| + 1 && told'[..|told|] == told && found' == found + [act.Arrive?]
                 && Tells(told'[|told|], recs, act.Arrive?))
    ensures |found'| == |told'| && forall i | 0 <= i < |told'| :: Tells(told'[i], recs', found'[i])
  {
    forall i | 0 <= i < |told'| ensures Tells(told'[i], recs', found'[i]) {
      assert i < |told| ==> told'[..|told|][i] == told[i];
      TellsLasts(told'[i], recs, recs', act, found'[i]);
    }
  }

  /** What was logged about one key in a run, whatever its events promise. */
  ghost function LogOf(s: System, run: seq<Event>, promise: (Lane, Act, real) -> bool, k: Key, log: Log): Log
    requires Run(s, run, promise)
    decreases |run|
  {
    if run == [] then log
    else
      var l, e := LaneOf(s, k), run[0];
      LogOf(Step(s, e), run[1..], promise, k, if PartOf(e, k).Some? then Logged(log, l, e.act, e.at) else log)
  }

  lemma {:induction false} RunLogs(s: System, run: seq<Event>, promise: (Lane, Act, real) -> bool, k: Key, log: Log)
    requires Run(s, run, promise) && LogInv(log, LaneOf(s, k))
    ensures LogInv(LogOf(s, run, promise, k, log), LaneOf(End(s, run, promise), k))
    decreases |run|
  {
    if run != [] {
      var l, e := LaneOf(s, k), run[0];
      if PartOf(e, k).Some? {
        StepLogs(log, l, e.act, e.at);
      }
      RunLogs(Step(s, e), run[1..], promise, k, if PartOf(e, k).Some? then Logged(log, l, e.act, e.at) else log);
    }
  }

  predicate Stale(r: CallResult) {
    !r.Pending? && r.stale
  }

  /** In every run: what a call is told is stale iff the call found it on arrival. It conveys how
      one turn settled, and a stale one is labelled with the beginning of that turn's prompt. */
  lemma StaleExactlyOnArrival(run: seq<Event>, promise: (Lane, Act, real) -> bool, k: Key, i: nat)
    requires Run(INIT, run, promise) && i < |LaneOf(End(INIT, run, promise), k).told|
    ensures var log, l := LogOf(INIT, run, promise, k, Log([], [])), LaneOf(End(INIT, run, promise), k);
      && |log.found| == |l.told| && |log.prompts| == |l.slot.recs|
      && var (id, told) := l.told[i];
         && (Stale(told) <==> log.found[i])
         && (!told.Pending? ==> id < |l.slot.recs| && Conveys(told, l.slot.recs[id], Stale(told)))
         && (Stale(told) ==> Echoes(told.answers, log.prompts[id]))
  {
    RunLogs(INIT, run, promise, k, Log([], []));
    var log, l := LogOf(INIT, run, promise, k, Log([], [])), LaneOf(End(INIT, run, promise), k);
    assert Tells(l.told[i], l.slot.recs, log.found[i]);
  }

  // ------------------------------------------------------------------- until it is collected

  /** No event of the run takes the parked turn `id` off key `k`. */
  ghost predicate LeftParked(s: System, run: seq<Event>, k: Key, id: TurnId)
    requires Run(s, run, Assumed)
    decreases |run|
  {
    run == [] ||
    ((PartOf(run[0], k).Some? ==>
        var l := LaneOf(s, k);
        id < |l.slot.recs| && l.slot.recs[id].finishedAt.Some? && Parks(l, run[0].act, run[0].at, id))
     && LeftParked(Step(s, run[0]), run[1..], k, id))
  }

  lemma {:induction false} RunParks(s: System, run: seq<Event>, k: Key, id: TurnId)
    requires Safe(s) && Run(s, run, Assumed) && LeftParked(s, run, k, id)
    requires LaneOf(s, k).slot.held == Some(id) && DoneAt(LaneOf(s, k).slot.recs, id)
    ensures var t, l := LaneOf(s, k).slot.recs[id], LaneOf(End(s, run, Assumed), k);
      l.slot.held == Some(id) && id < |l.slot.recs| && l.slot.recs[id].(waiters := 0) == t.(waiters := 0)
    decreases |run|
  {
    if run != [] {
      var l, e := LaneOf(s, k), run[0];
      EventSafe(s, e);
      assert Inv(l, s.now);
      if PartOf(e, k).Some? {
        StaysParked(l, e.act, e.at, id);
      }
      RunParks(Step(s, e), run[1..], k, id);
    }
  }

  /** A settled turn that nobody was told about stays with its key, through sends, frames,
      disconnects and deadlines, and through every sweep until more than the TTL has passed; and
      the call that arrives then is told its outcome, as that of the earlier prompt. */
  lemma ParkedIsCollected(s: System, run: seq<Event>, k: Key, id: TurnId)
    requires Safe(s) && Run(s, run, Assumed) && LeftParked(s, run, k, id)
    requires LaneOf(s, k).slot.held == Some(id) && DoneAt(LaneOf(s, k).slot.recs, id)
    requires LaneOf(End(s, run, Assumed), k).sending.None?
    ensures var t, l := LaneOf(s, k).slot.recs[id], LaneOf(End(s, run, Assumed), k);
      && Shape(l) && l.slot.held == Some(id)
      && |Arrived(l).told| == |l.told| + 1 && Arrived(l).told[|l.told|].0 == id
      && Conveys(Arrived(l).told[|l.told|].1, t, true)
  {
    RunParks(s, run, k, id);
    RunSafe(s, run);
    var end := End(s, run, Assumed);
    assert Inv(LaneOf(end, k), end.now);
    ArrivalTells(LaneOf(end, k));
  }
}
