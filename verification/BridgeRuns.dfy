/** Whole runs of the bridge over all its keys. */
module BridgeRuns {
  import opened Text
  import opened BridgeSpec
  import opened BridgeLane
  import opened BridgeSafety
  import opened BridgeHistory
  import opened BridgeExact
  import opened BridgeService

  /** Keys without a lane have never been used. */
  datatype System = System(lanes: map<Key, Lane>, now: real)

  /** An event on one key, or one that reaches every key: a disconnect or a sweep. A call that
      arrives first sweeps the parked turns of every key. */
  datatype Event = On(at: real, k: Key, act: Act) | Everywhere(at: real, act: Act)

  const INIT := System(map[], 0.0)

  function LaneOf(s: System, k: Key): Lane {
    if k in s.lanes then s.lanes[k] else EMPTY
  }

  /** The part `e` has for key `k`, if any. */
  function PartOf(e: Event, k: Key): Option<Act> {
    if e.Everywhere? || e.k == k then Some(e.act) else None
  }

  predicate Broadcast(act: Act) {
    act.Disconnect? || act.SweepParked? || act.SweepAbandoned?
  }

  ghost predicate Legal(s: System, e: Event) {
    && s.now <= e.at
    && (e.Everywhere? <==> Broadcast(e.act))
    && forall k :: PartOf(e, k).Some? ==> Shape(LaneOf(s, k)) && Enabled(LaneOf(s, k), e.act)
  }

  ghost function NextLane(s: System, e: Event, k: Key): Lane
    requires Legal(s, e)
  {
    if PartOf(e, k).Some? then Next(LaneOf(s, k), e.act, e.at) else LaneOf(s, k)
  }

  ghost function Step(s: System, e: Event): (s': System)
    requires Legal(s, e)
    ensures s'.now == e.at && forall k :: LaneOf(s', k) == NextLane(s, e, k)
  {
    if e.On? then System(s.lanes[e.k := NextLane(s, e, e.k)], e.at)
    else System(map k | k in s.lanes :: NextLane(s, e, k), e.at)
  }

  /** `run` can happen from `s`, and every event in it meets `promise`. */
  ghost predicate Run(s: System, run: seq<Event>, promise: (Lane, Act, real) -> bool)
    decreases |run|
  {
    run == [] ||
    (Legal(s, run[0])
     && (forall k :: PartOf(run[0], k).Some? ==> promise(LaneOf(s, k), run[0].act, run[0].at))
     && Run(Step(s, run[0]), run[1..], promise))
  }

  ghost function End(s: System, run: seq<Event>, promise: (Lane, Act, real) -> bool): System
    requires Run(s, run, promise)
    decreases |run|
  {
    if run == [] then s else End(Step(s, run[0]), run[1..], promise)
  }

  ghost predicate Safe(s: System) {
    forall k :: Inv(LaneOf(s, k), s.now) && Hist(LaneOf(s, k))
  }

  lemma LaneLater(l: Lane, now: real, now': real)
    requires Inv(l, now) && now <= now'
    ensures Inv(l, now')
  {
    KeyLater(Line(l), l.slot.recs, l.slot.held, l.slot.stamps, now, now');
  }

  lemma InitSafe()
    ensures Safe(INIT) && Exact(EMPTY)
  {
    assert Line(EMPTY) == [] && Owed([], []) == [] && Times([], []) == [];
  }

  lemma EventSafe(s: System, e: Event)
    requires Safe(s) && Legal(s, e)
    requires forall k :: PartOf(e, k).Some? ==> Assumed(LaneOf(s, k), e.act, e.at)
    ensures Safe(Step(s, e))
  {
    forall k ensures Inv(LaneOf(Step(s, e), k), e.at) && Hist(LaneOf(Step(s, e), k)) {
      assert Inv(LaneOf(s, k), s.now) && Hist(LaneOf(s, k));
      LaneLater(LaneOf(s, k), s.now, e.at);
      if PartOf(e, k).Some? {
        StepKeeps(LaneOf(s, k), e.act, e.at);
        StepHist(LaneOf(s, k), e.act, e.at);
      }
    }
  }

  /** Every run in which the gateway answers in FIFO order keeps every key safe: with frames and
      prompts lost, deadlines firing before or after the send, and new turns on the same key. */
  lemma {:induction false} RunSafe(s: System, run: seq<Event>)
    requires Safe(s) && Run(s, run, Assumed)
    ensures Safe(End(s, run, Assumed))
    decreases |run|
  {
    if run != [] {
      EventSafe(s, run[0]);
      RunSafe(Step(s, run[0]), run[1..]);
    }
  }

  /** `reply` is a suffix of the texts of `own`, put together, and `own` ended normally. */
  ghost predicate OwnReply(reply: string, own: seq<Frame>) {
    && own != [] && own[|own| - 1].ResultFrame?
    && exists texts :: Suffix(texts, TextsOf(own)) && Amounts(reply, texts)
  }

  /** In every run, a call is told the settled outcome of one turn. A reply is made of texts of
      that turn's own prompt only, an agent error is that prompt's own error, and an outcome
      the call found parked is labelled with the prompt it answers. */
  lemma CallsHearTheirOwnPrompt(run: seq<Event>, k: Key, i: nat)
    requires Run(INIT, run, Assumed)
    requires i < |LaneOf(End(INIT, run, Assumed), k).told|
    ensures var l := LaneOf(End(INIT, run, Assumed), k);
      var (id, told) := l.told[i];
      && (told.Answered? ==> id < |l.heard| && OwnReply(told.reply, l.heard[id]))
      && (told.Raised? && told.cause.AgentError? ==>
            id < |l.heard| && l.heard[id] != [] && Reports(told.cause.text, l.heard[id][|l.heard[id]| - 1]))
      && (!told.Pending? ==> id < |l.slot.recs| && told.answers == if told.stale then l.slot.recs[id].message else "")
  {
    InitSafe();
    RunSafe(INIT, run);
    var s := End(INIT, run, Assumed);
    var l := LaneOf(s, k);
    assert Inv(l, s.now) && Hist(l);
    var (id, told) := l.told[i];
    assert Truthful(l.told[i], l.slot.recs);
    if !told.Pending? {
      assert Provenance(l.slot.recs[id], l.heard[id]);
      if told.Answered? {
        ReplyAmounts(l.slot.recs[id].texts);
        assert Suffix(l.slot.recs[id].texts, TextsOf(l.heard[id]));
      }
    }
  }

  /** Two calls told about the same turn are told the same outcome. */
  lemma CallsAgree(run: seq<Event>, k: Key, i: nat, j: nat)
    requires Run(INIT, run, Assumed)
    requires var told := LaneOf(End(INIT, run, Assumed), k).told;
      i < |told| && j < |told| && told[i].0 == told[j].0 && !told[i].1.Pending? && !told[j].1.Pending?
    ensures var told := LaneOf(End(INIT, run, Assumed), k).told;
      match told[i].1
      case Answered(reply, _, _) => told[j].1.Answered? && told[j].1.reply == reply
      case Raised(cause, _, _) => told[j].1.Raised? && told[j].1.cause == cause
  {
    InitSafe();
    RunSafe(INIT, run);
    var s := End(INIT, run, Assumed);
    assert Inv(LaneOf(s, k), s.now) && Hist(LaneOf(s, k));
    var l := LaneOf(s, k);
    assert Truthful(l.told[i], l.slot.recs) && Truthful(l.told[j], l.slot.recs);
  }

  /** In every run, a frame that arrives next changes at most the turn of its own prompt. */
  lemma RunNoMisdelivery(run: seq<Event>, k: Key, f: Frame, now: real)
    requires Run(INIT, run, Assumed)
    requires LaneOf(End(INIT, run, Assumed), k).queue != [] && End(INIT, run, Assumed).now <= now
    ensures var l := LaneOf(End(INIT, run, Assumed), k);
      WellFormed(l.slot) &&
      forall id | 0 <= id < |l.slot.recs| && OnOutbound(l.slot, f, now).recs[id] != l.slot.recs[id] ::
        id == l.queue[0] && l.slot.held == Some(id) && !Done(l.slot.recs[id])
  {
    InitSafe();
    RunSafe(INIT, run);
    var s := End(INIT, run, Assumed);
    assert Inv(LaneOf(s, k), s.now);
    LaneLater(LaneOf(s, k), s.now, now);
    NoMisdelivery(LaneOf(s, k), f, now);
  }

  // ---------------------------------------------------- runs without loss or expiry

  ghost predicate Flawless(s: System) {
    Safe(s) && forall k :: Exact(LaneOf(s, k))
  }

  lemma EventFlawless(s: System, e: Event)
    requires Flawless(s) && Legal(s, e)
    requires forall k :: PartOf(e, k).Some? ==> Faithful(LaneOf(s, k), e.act, e.at)
    ensures Flawless(Step(s, e))
  {
    forall k
      ensures Inv(LaneOf(Step(s, e), k), e.at) && Hist(LaneOf(Step(s, e), k)) && Exact(LaneOf(Step(s, e), k))
    {
      var l := LaneOf(s, k);
      assert Inv(l, s.now) && Hist(l) && Exact(l);
      LaneLater(l, s.now, e.at);
      if PartOf(e, k).Some? {
        FaithfulKeeps(l, e.act, e.at);
        StepHist(l, e.act, e.at);
        StepExact(l, e.act, e.at);
      }
    }
  }

  lemma {:induction false} RunFlawless(s: System, run: seq<Event>)
    requires Flawless(s) && Run(s, run, Faithful)
    ensures Flawless(End(s, run, Faithful))
    decreases |run|
  {
    if run != [] {
      EventFlawless(s, run[0]);
      RunFlawless(Step(s, run[0]), run[1..]);
    }
  }

  /** In every run without loss and expiry: stamps count the given-up prompts still owed; every
      settled reply is all non-empty texts of its own prompt, in order, with an empty line between
      them and no white space around the whole; and the next
      event, on any key, is a step of the request/response service. */
  lemma FlawlessRunRefinesService(run: seq<Event>, k: Key, act: Act, at: real)
    requires Run(INIT, run, Faithful) && End(INIT, run, Faithful).now <= at
    requires Shape(LaneOf(End(INIT, run, Faithful), k)) && Enabled(LaneOf(End(INIT, run, Faithful), k), act)
    requires Faithful(LaneOf(End(INIT, run, Faithful), k), act, at)
    ensures var l := LaneOf(End(INIT, run, Faithful), k);
      && |l.slot.stamps| == |Owed(l.slot.recs, Line(l))|
      && |l.heard| == |l.slot.recs|
      && (forall id | 0 <= id < |l.slot.recs| && Done(l.slot.recs[id]) && l.slot.recs[id].outcome.value.Reply? ::
            Amounts(l.slot.recs[id].outcome.value.text, TextsOf(l.heard[id])))
      && ServiceStep(Service(l), Service(Next(l, act, at)), Next(l, act, at).heard)
      && Prompt(Service(Next(l, act, at)), Next(l, act, at).heard)
  {
    InitSafe();
    RunFlawless(INIT, run);
    var s := End(INIT, run, Faithful);
    var l := LaneOf(s, k);
    assert Inv(l, s.now) && Hist(l) && Exact(l);
    LaneLater(l, s.now, at);
    Refines(l, act, at);
    forall id | 0 <= id < |l.slot.recs| && Done(l.slot.recs[id]) && l.slot.recs[id].outcome.value.Reply?
      ensures Amounts(l.slot.recs[id].outcome.value.text, TextsOf(l.heard[id]))
    {
      ReplyAmounts(TextsOf(l.heard[id]));
      assert Provenance(l.slot.recs[id], l.heard[id]) && Whole(l.slot.recs[id], l.heard[id]);
    }
  }
}
