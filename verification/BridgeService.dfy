/** The service the bridge refines while nothing is lost and nothing expires. */
module BridgeService {
  import opened BridgeSpec
  import opened BridgeLane
  import opened BridgeSafety
  import opened BridgeHistory
  import opened BridgeExact

  /** One prompt, as a caller sees it. */
  datatype Request = Open | Fulfilled(reply: string) | Refused(error: string) | GivenUp

  function RequestOf(t: TurnRec): Request {
    match t.outcome
    case None => Open
    case Some(Reply(text)) => Fulfilled(text)
    case Some(Failed(AgentError(text))) => Refused(text)
    case Some(Failed(_)) => GivenUp
  }

  function Service(l: Lane): (s: seq<Request>)
    ensures |s| == |l.slot.recs| && forall i | 0 <= i < |s| :: s[i] == RequestOf(l.slot.recs[i])
  {
    seq(|l.slot.recs|, i requires 0 <= i < |l.slot.recs| => RequestOf(l.slot.recs[i]))
  }

  /** How an open request may end, given everything its prompt has produced. */
  ghost predicate Ends(r: Request, own: seq<Frame>) {
    match r
    case Open => false
    case Fulfilled(reply) => own != [] && own[|own| - 1].ResultFrame? && Amounts(reply, TextsOf(own))
    case Refused(error) => own != [] && Reports(error, own[|own| - 1])
    case GivenUp => !Ended(own)
  }

  /** A step of the service: requests are opened at the end; an open one may end, for good. */
  ghost predicate ServiceStep(s: seq<Request>, s': seq<Request>, own: seq<seq<Frame>>) {
    && |s| <= |s'| == |own|
    && (forall i | |s| <= i < |s'| :: s'[i].Open?)
    && (forall i | 0 <= i < |s| :: s'[i] == s[i] || (s[i].Open? && Ends(s'[i], own[i])))
  }

  /** The service never leaves a request open once its terminal frame has arrived. */
  predicate Prompt(s: seq<Request>, own: seq<seq<Frame>>) {
    |s| == |own| && forall i | 0 <= i < |s| :: s[i].Open? ==> !Ended(own[i])
  }

  lemma NewOutcome(l: Lane, l': Lane, act: Act, now: real, id: TurnId)
    requires Inv(l, now) && Enabled(l, act) && l' == Next(l, act, now)
    requires id < |l.slot.recs| && id < |l'.slot.recs| && id < |l'.heard|
    requires !Done(l.slot.recs[id]) && RequestOf(l'.slot.recs[id]).GivenUp?
    ensures l'.heard[id] == l.heard[id]
  {
    if act.FrameArrives? {
      FrameOutcome(l, act.f, now);
    }
  }

  /** What a step can have done to one request, knowing its state before and after. */
  lemma RequestEnds(t: TurnRec, own: seq<Frame>, t': TurnRec, own': seq<Frame>)
    requires Whole(t, own) && Whole(t', own') && Provenance(t', own')
    requires Done(t) ==> t'.outcome == t.outcome
    requires !Done(t) && RequestOf(t').GivenUp? ==> own' == own
    ensures RequestOf(t').Open? ==> !Ended(own')
    ensures RequestOf(t') == RequestOf(t) || (RequestOf(t).Open? && Ends(RequestOf(t'), own'))
  {
    ReplyAmounts(TextsOf(own'));
  }

  lemma StepOpens(l: Lane, act: Act, now: real)
    requires Shape(l) && Enabled(l, act)
    ensures forall id | |l.slot.recs| <= id < |Next(l, act, now).slot.recs| :: !Done(Next(l, act, now).slot.recs[id])
  {
  }

  lemma RefinesAt(l: Lane, act: Act, now: real, id: TurnId)
    requires Inv(l, now) && Hist(l) && Exact(l) && Enabled(l, act) && id < |l.slot.recs|
    requires Hist(Next(l, act, now)) && Exact(Next(l, act, now))
    ensures id < |Next(l, act, now).slot.recs| == |Next(l, act, now).heard|
    ensures var r, next := RequestOf(l.slot.recs[id]), Next(l, act, now);
      var r', own' := RequestOf(next.slot.recs[id]), next.heard[id];
      (r'.Open? ==> !Ended(own')) && (r' == r || (r.Open? && Ends(r', own')))
  {
    StepLasting(l, act, now);
    var t', own' := Next(l, act, now).slot.recs[id], Next(l, act, now).heard[id];
    assert Whole(l.slot.recs[id], l.heard[id]) && Whole(t', own') && Provenance(t', own');
    if !Done(l.slot.recs[id]) && RequestOf(t').GivenUp? {
      NewOutcome(l, Next(l, act, now), act, now, id);
    }
    RequestEnds(l.slot.recs[id], l.heard[id], t', own');
  }

  /** While nothing is lost and nothing expires, every step of the bridge is a step of the
      service: each request ends at most once, with exactly what its own prompt produced, and
      at the latest when its terminal frame arrives. */
  lemma Refines(l: Lane, act: Act, now: real)
    requires Inv(l, now) && Hist(l) && Exact(l) && Enabled(l, act) && Faithful(l, act, now)
    ensures var l' := Next(l, act, now);
      ServiceStep(Service(l), Service(l'), l'.heard) && Prompt(Service(l'), l'.heard)
  {
    StepHist(l, act, now);
    StepExact(l, act, now);
    ServiceOf(l, Next(l, act, now), act, now);
  }

  lemma OldRequests(l: Lane, l': Lane, act: Act, now: real)
    requires Inv(l, now) && Hist(l) && Exact(l) && Enabled(l, act) && l' == Next(l, act, now) && Hist(l') && Exact(l')
    ensures |l.slot.recs| <= |l'.slot.recs| == |l'.heard|
    ensures forall id | 0 <= id < |l.slot.recs| ::
              && (Service(l')[id].Open? ==> !Ended(l'.heard[id]))
              && (Service(l')[id] == Service(l)[id] || (Service(l)[id].Open? && Ends(Service(l')[id], l'.heard[id])))
  {
    StepLasting(l, act, now);
    forall id | 0 <= id < |l.slot.recs|
      ensures id < |l'.slot.recs| == |l'.heard|
      ensures Service(l')[id].Open? ==> !Ended(l'.heard[id])
      ensures Service(l')[id] == Service(l)[id] || (Service(l)[id].Open? && Ends(Service(l')[id], l'.heard[id]))
    {
      RefinesAt(l, act, now, id);
    }
  }

  lemma NewRequests(l: Lane, l': Lane, act: Act, now: real)
    requires Shape(l) && Enabled(l, act) && l' == Next(l, act, now) && Exact(l')
    ensures |l'.slot.recs| == |l'.heard|
    ensures forall id | |l.slot.recs| <= id < |l'.slot.recs| :: Service(l')[id].Open? && !Ended(l'.heard[id])
  {
    StepOpens(l, act, now);
    forall id | |l.slot.recs| <= id < |l'.slot.recs| ensures Service(l')[id].Open? && !Ended(l'.heard[id]) {
      assert Whole(l'.slot.recs[id], l'.heard[id]);
    }
  }

  lemma ServiceOf(l: Lane, l': Lane, act: Act, now: real)
    requires Inv(l, now) && Hist(l) && Exact(l) && Enabled(l, act) && l' == Next(l, act, now) && Hist(l') && Exact(l')
    ensures ServiceStep(Service(l), Service(l'), l'.heard) && Prompt(Service(l'), l'.heard)
  {
    OldRequests(l, l', act, now);
    NewRequests(l, l', act, now);
    Together(Service(l), Service(l'), l'.heard);
  }

  lemma Together(s: seq<Request>, s': seq<Request>, own: seq<seq<Frame>>)
    requires |s| <= |s'| == |own|
    requires forall i | 0 <= i < |s| ::
               (s'[i].Open? ==> !Ended(own[i])) && (s'[i] == s[i] || (s[i].Open? && Ends(s'[i], own[i])))
    requires forall i | |s| <= i < |s'| :: s'[i].Open? && !Ended(own[i])
    ensures ServiceStep(s, s', own) && Prompt(s', own)
  {
  }
}
