/** What each atomic segment of the gateway bridge does to the state it keeps for one key.

    `GatewayBridge.dfy` proves the imperative code against these functions;
    `BridgeLane.dfy` and `BridgeRuns.dfy` prove what they guarantee over whole runs. */
module BridgeSpec {
  import opened Text

  /** `(agent_name, room_id)` */
  datatype Key = Key(agent: string, room: string)

  /** The turns of one key are numbered in the order in which they were created. */
  type TurnId = nat

  datatype Frame =
    | TextFrame(content: string)
    | ResultFrame(content: string)
    | ErrorFrame(error: string, message: string)
    | TypingFrame
    | StepFrame

  predicate Terminal(f: Frame) {
    f.ResultFrame? || f.ErrorFrame?
  }

  function ErrorText(f: Frame): string
    requires f.ErrorFrame?
  {
    if f.error != "" then f.error
    else if f.message != "" then f.message
    else "the agent reported an error"
  }

  datatype Cause = AgentError(text: string) | HardTimeout | ConnectionLost

  /** The two ways a turn's future can be settled. */
  datatype Outcome = Reply(text: string) | Failed(cause: Cause)

  datatype TurnRec = TurnRec(
    message: string,
    texts: seq<string>,
    outcome: Option<Outcome>,
    finishedAt: Option<real>,
    waiters: int)

  /** What the bridge knows about one key: the turn registered for it, and a stamp for every
      abandonment not yet paid back. `recs` holds every turn the key ever had, because a late
      waiter may still hold an old one. */
  datatype Slot = Slot(recs: seq<TurnRec>, held: Option<TurnId>, stamps: seq<real>)

  const ABANDONED_TTL: real := 900.0
  const MAX_PROMPT_ECHO: nat := 120

  predicate Done(t: TurnRec) {
    t.outcome.Some?
  }

  predicate WellFormed(b: Slot) {
    b.held.Some? ==> b.held.value < |b.recs|
  }

  /** A turn is settled iff it knows when it was. */
  predicate Timed(recs: seq<TurnRec>) {
    forall id | 0 <= id < |recs| :: Done(recs[id]) <==> recs[id].finishedAt.Some?
  }

  /** The key holds a turn that has not settled. */
  predicate Live(b: Slot)
    requires WellFormed(b)
  {
    b.held.Some? && !Done(b.recs[b.held.value])
  }

  // ---------------------------------------------------------------- one turn

  function NewTurn(message: string): TurnRec {
    var m := Strip(message);
    TurnRec(if |m| <= MAX_PROMPT_ECHO then m else m[..MAX_PROMPT_ECHO], [], None, None, 0)
  }

  function AddText(t: TurnRec, content: string): TurnRec {
    if content == "" then t else t.(texts := t.texts + [content])
  }

  function Settle(t: TurnRec, o: Outcome, now: real): TurnRec {
    if Done(t) then t
    else t.(outcome := Some(o), finishedAt := if t.finishedAt.None? then Some(now) else t.finishedAt)
  }

  function ReplyOf(texts: seq<string>): string {
    Strip(Join("\n\n", texts))
  }

  function Finish(t: TurnRec, now: real): TurnRec {
    Settle(t, Reply(ReplyOf(t.texts)), now)
  }

  // ----------------------------------------------------------------- the slot

  function Put(b: Slot, id: TurnId, t: TurnRec): Slot
    requires id < |b.recs|
  {
    b.(recs := b.recs[id := t])
  }

  function StartTurn(b: Slot, message: string): Slot {
    b.(recs := b.recs + [NewTurn(message)], held := Some(|b.recs|))
  }

  /** Forget `id`, unless a newer turn holds the key by now. */
  function Drop(b: Slot, id: TurnId): Slot {
    if b.held == Some(id) then b.(held := None) else b
  }

  predicate Uncollected(t: TurnRec, now: real, ttl: real) {
    t.finishedAt.Some? && t.waiters == 0 && now - t.finishedAt.value > ttl
  }

  function ExpireParked(b: Slot, now: real, ttl: real): Slot
    requires WellFormed(b)
  {
    if b.held.Some? && Uncollected(b.recs[b.held.value], now, ttl) then b.(held := None) else b
  }

  function Fresh(st: seq<real>, now: real): seq<real> {
    if st == [] then []
    else (if now - st[0] <= ABANDONED_TTL then [st[0]] else []) + Fresh(st[1..], now)
  }

  function ExpireAbandoned(b: Slot, now: real): Slot {
    b.(stamps := Fresh(b.stamps, now))
  }

  // -------------------------------------------------------------------- calls

  /** What one call tells its caller; `answers` labels a parked outcome with its own prompt. */
  datatype CallResult =
    | Pending
    | Answered(reply: string, stale: bool, answers: string)
    | Raised(cause: Cause, stale: bool, answers: string)

  function Settled(t: TurnRec, stale: bool): CallResult
    requires Done(t)
  {
    var answers := if stale then t.message else "";
    match t.outcome.value
    case Reply(text) => Answered(text, stale, answers)
    case Failed(cause) => Raised(cause, stale, answers)
  }

  datatype Entry = Collected(id: TurnId, result: CallResult) | Attached(id: TurnId) | Vacant

  function Wait(b: Slot, id: TurnId): Slot
    requires id < |b.recs|
  {
    Put(b, id, b.recs[id].(waiters := b.recs[id].waiters + 1))
  }

  /** The start of a call, under the key's lock and after parked turns were expired: collect
      a parked outcome, attach to a running turn, or find the key free. */
  function Enter(b: Slot): (Slot, Entry)
    requires WellFormed(b)
  {
    if b.held.None? then (b, Vacant)
    else
      var id := b.held.value;
      if Done(b.recs[id]) then (Drop(b, id), Collected(id, Settled(b.recs[id], true)))
      else (Wait(b, id), Attached(id))
  }

  /** One call less waits on `id`. If it was cancelled, that is all that happens. */
  function Forsake(b: Slot, id: TurnId): Slot
    requires id < |b.recs|
  {
    Put(b, id, b.recs[id].(waiters := b.recs[id].waiters - 1))
  }

  /** The end of a call that waited on `id`, whether the turn settled or the wait timed out. */
  function Leave(b: Slot, id: TurnId): (Slot, CallResult)
    requires id < |b.recs|
  {
    var c := Forsake(b, id);
    if Done(b.recs[id]) then (Drop(c, id), Settled(b.recs[id], false)) else (c, Pending)
  }

  // ------------------------------------------------------------------- events

  /** A live turn fails here and now; a stamp says that its prompt still has to end upstream. */
  function GiveUp(b: Slot, id: TurnId, cause: Cause, now: real): Slot
    requires id < |b.recs|
  {
    if Done(b.recs[id]) then b
    else Put(b, id, Settle(b.recs[id], Failed(cause), now)).(stamps := b.stamps + [now])
  }

  function HardDeadline(b: Slot, id: TurnId, now: real): Slot
    requires id < |b.recs|
  {
    GiveUp(b, id, HardTimeout, now)
  }

  function OnDisconnect(b: Slot, now: real): Slot
    requires WellFormed(b)
  {
    if b.held.Some? then GiveUp(b, b.held.value, ConnectionLost, now) else b
  }

  /** A frame is swallowed iff some stamp is stored; a terminal frame uses up the oldest. */
  function Swallow(b: Slot, f: Frame): (Slot, bool) {
    if b.stamps == [] then (b, false)
    else (if Terminal(f) then b.(stamps := b.stamps[1..]) else b, true)
  }

  /** What a frame does to the turn it is credited to. */
  function Credit(t: TurnRec, f: Frame, now: real): TurnRec {
    match f
    case TextFrame(content) => AddText(t, content)
    case ResultFrame(content) => Finish(AddText(t, content), now)
    case ErrorFrame(_, _) => Settle(t, Failed(AgentError(ErrorText(f))), now)
    case _ => t
  }

  function OnOutbound(b: Slot, f: Frame, now: real): Slot
    requires WellFormed(b)
  {
    var (c, swallowed) := Swallow(b, f);
    if swallowed || !Live(c) then c
    else Put(c, c.held.value, Credit(c.recs[c.held.value], f, now))
  }
}
