/** One key of the bridge together with the calls on it and the gateway session behind it. The
    gateway answers the key's prompts in FIFO order with one terminal frame each. */
module BridgeLane {
  import opened Text
  import opened BridgeSpec
  import opened BridgeCover

  /** `queue`: prompts the gateway still owes a terminal frame for, oldest first.
      `sending`: the turn whose prompt is being sent under the key's lock.
      `wired`: that prompt has reached the gateway, though the send has not returned yet.
      `heard[id]`: the frames of turn `id`'s own prompt that have reached the bridge.
      `waiting[id]`: how many calls are waiting on turn `id`.
      `told`: what calls have returned, and about which turn. */
  datatype Lane = Lane(
    slot: Slot,
    queue: seq<TurnId>,
    sending: Option<TurnId>,
    wired: bool,
    heard: seq<seq<Frame>>,
    waiting: seq<nat>,
    told: seq<(TurnId, CallResult)>)

  const EMPTY := Lane(Slot([], None, []), [], None, false, [], [], [])

  datatype Act =
    | Arrive                          // a call takes the key's lock
    | Start(message: string)          // it found no turn, and the bridge is connected
    | SendDelivers                    // the gateway has the prompt, and may answer at once
    | SendReturns                     // the send completes; a dead socket loses it silently
    | SendRaises                      // the send raises, or its caller is cancelled
    | FrameArrives(f: Frame)          // the next frame of the oldest outstanding prompt
    | WaitEnds(id: TurnId)            // a waiting call wakes, settled or not
    | WaitCancelled(id: TurnId)       // a waiting call is cancelled, settled or not
    | Deadline(id: TurnId)            // the watchdog of a turn fires
    | Disconnect
    | PromptLost(i: nat)              // an outstanding prompt's remaining frames never come
    | SweepParked(ttl: real)
    | SweepAbandoned

  ghost predicate Shape(l: Lane) {
    && WellFormed(l.slot) && Timed(l.slot.recs)
    && |l.heard| == |l.waiting| == |l.slot.recs|
    && (if l.sending.Some? then l.sending.value < |l.slot.recs| else !l.wired)
    && (forall i | 0 <= i < |l.queue| :: l.queue[i] < |l.slot.recs|)
  }

  /** What can happen next. The lock is held while a prompt is being sent, and the watchdog of
      an unsettled turn runs only while the turn is registered. */
  predicate Enabled(l: Lane, act: Act) {
    match act
    case Arrive => l.sending.None?
    case Start(_) => l.sending.None? && l.slot.held.None?
    case SendDelivers => l.sending.Some? && !l.wired
    case SendReturns => l.sending.Some?
    case SendRaises => l.sending.Some?
    case FrameArrives(_) => l.queue != []
    case WaitEnds(id) => id < |l.waiting| && l.waiting[id] > 0
    case WaitCancelled(id) => id < |l.waiting| && l.waiting[id] > 0
    case Deadline(id) => id < |l.slot.recs| && (Done(l.slot.recs[id]) || l.slot.held == Some(id))
    case PromptLost(i) => i < |l.queue|
    case _ => true
  }

  /** The prompt being sent is outstanding from now on. */
  function Delivered(l: Lane): Lane
    requires l.sending.Some?
  {
    l.(queue := l.queue + [l.sending.value], wired := true)
  }

  /** The send under the lock is over; a prompt that was not delivered never will be. */
  function SendOver(l: Lane): Lane {
    l.(sending := None, wired := false)
  }

  function Arrived(l: Lane): Lane
    requires WellFormed(l.slot) && |l.waiting| == |l.slot.recs|
  {
    var (b, entry) := Enter(l.slot);
    l.(slot := b,
       waiting := if entry.Attached? then l.waiting[entry.id := l.waiting[entry.id] + 1] else l.waiting,
       told := if entry.Collected? then l.told + [(entry.id, entry.result)] else l.told)
  }

  function Started(l: Lane, message: string): Lane {
    l.(slot := StartTurn(l.slot, message), sending := Some(|l.slot.recs|), wired := false,
       heard := l.heard + [[]], waiting := l.waiting + [0])
  }

  function Sent(l: Lane): Lane
    requires l.sending.Some? && l.sending.value < |l.slot.recs| == |l.waiting|
  {
    SendOver(l).(slot := Wait(l.slot, l.sending.value),
                 waiting := l.waiting[l.sending.value := l.waiting[l.sending.value] + 1])
  }

  function Unsent(l: Lane): Lane
    requires l.sending.Some?
  {
    SendOver(l).(slot := Drop(l.slot, l.sending.value))
  }

  function Heard(l: Lane, f: Frame, now: real): Lane
    requires WellFormed(l.slot) && l.queue != [] && l.queue[0] < |l.heard|
  {
    l.(slot := OnOutbound(l.slot, f, now),
       queue := if Terminal(f) then l.queue[1..] else l.queue,
       heard := l.heard[l.queue[0] := l.heard[l.queue[0]] + [f]])
  }

  function Left(l: Lane, id: TurnId): Lane
    requires id < |l.slot.recs| == |l.waiting| && l.waiting[id] > 0
  {
    var (b, result) := Leave(l.slot, id);
    l.(slot := b, waiting := l.waiting[id := l.waiting[id] - 1], told := l.told + [(id, result)])
  }

  function Forsaken(l: Lane, id: TurnId): Lane
    requires id < |l.slot.recs| == |l.waiting| && l.waiting[id] > 0
  {
    l.(slot := Forsake(l.slot, id), waiting := l.waiting[id := l.waiting[id] - 1])
  }

  function Next(l: Lane, act: Act, now: real): Lane
    requires Shape(l) && Enabled(l, act)
  {
    match act
    case Arrive => Arrived(l)
    case Start(message) => Started(l, message)
    case SendDelivers => Delivered(l)
    case SendReturns => Sent(l)
    case SendRaises => Unsent(l)
    case FrameArrives(f) => Heard(l, f, now)
    case WaitEnds(id) => Left(l, id)
    case WaitCancelled(id) => Forsaken(l, id)
    case Deadline(id) => l.(slot := HardDeadline(l.slot, id, now))
    case Disconnect => l.(slot := OnDisconnect(l.slot, now))
    case PromptLost(i) => l.(queue := Without(l.queue, i))
    case SweepParked(ttl) => l.(slot := ExpireParked(l.slot, now, ttl))
    case SweepAbandoned => l.(slot := ExpireAbandoned(l.slot, now))
  }

  // ------------------------------------------------------------ the invariant

  predicate DoneAt(recs: seq<TurnRec>, id: TurnId) {
    id < |recs| && Done(recs[id])
  }

  function When(recs: seq<TurnRec>, id: TurnId): real {
    if id < |recs| && recs[id].finishedAt.Some? then recs[id].finishedAt.value else 0.0
  }

  /** When each of `ids` was given up. */
  function Times(recs: seq<TurnRec>, ids: seq<TurnId>): (ts: seq<real>)
    ensures |ts| == |ids|
    ensures forall i | 0 <= i < |ids| :: ts[i] == When(recs, ids[i])
  {
    seq(|ids|, i requires 0 <= i < |ids| => When(recs, ids[i]))
  }

  /** Prompts outstanding upstream, then the one that is on its way there. */
  function Line(l: Lane): seq<TurnId> {
    if l.sending.Some? && !l.wired then l.queue + [l.sending.value] else l.queue
  }

  /** `line` without the live turn's own prompt, which can only be its last. */
  function Owed(recs: seq<TurnRec>, line: seq<TurnId>): seq<TurnId> {
    if line != [] && !DoneAt(recs, line[|line| - 1]) then line[..|line| - 1] else line
  }

  /** Only the last prompt of the line can belong to a live turn: the one the key holds. */
  predicate LineInv(line: seq<TurnId>, recs: seq<TurnRec>, held: Option<TurnId>) {
    && (forall i | 0 <= i < |line| - 1 :: DoneAt(recs, line[i]))
    && (line != [] && !DoneAt(recs, line[|line| - 1]) ==> held == Some(line[|line| - 1]))
  }

  predicate KeyInv(line: seq<TurnId>, recs: seq<TurnRec>, held: Option<TurnId>, stamps: seq<real>, now: real) {
    LineInv(line, recs, held) && CoverInv(Times(recs, Owed(recs, line)), stamps, now)
  }

  ghost predicate Inv(l: Lane, now: real) {
    Shape(l) && KeyInv(Line(l), l.slot.recs, l.slot.held, l.slot.stamps, now)
  }

  /** The same turns, as far as the invariant goes. */
  predicate SameTurns(recs: seq<TurnRec>, recs': seq<TurnRec>, line: seq<TurnId>) {
    forall i | 0 <= i < |line| ::
      DoneAt(recs, line[i]) == DoneAt(recs', line[i]) && When(recs, line[i]) == When(recs', line[i])
  }

  lemma KeyFrame(line: seq<TurnId>, recs: seq<TurnRec>, held: Option<TurnId>, st: seq<real>, now: real,
                 recs': seq<TurnRec>, held': Option<TurnId>)
    requires KeyInv(line, recs, held, st, now) && SameTurns(recs, recs', line)
    requires line != [] && !DoneAt(recs, line[|line| - 1]) ==> held' == held
    ensures KeyInv(line, recs', held', st, now)
  {
    assert Owed(recs', line) == Owed(recs, line);
    assert Times(recs', Owed(recs, line)) == Times(recs, Owed(recs, line));
  }

  lemma KeyLater(line: seq<TurnId>, recs: seq<TurnRec>, held: Option<TurnId>, st: seq<real>, now: real, now': real)
    requires KeyInv(line, recs, held, st, now) && now <= now'
    ensures KeyInv(line, recs, held, st, now')
  {
  }

  /** A new turn is registered while the key holds none. */
  lemma KeyStart(line: seq<TurnId>, recs: seq<TurnRec>, st: seq<real>, now: real, t: TurnRec)
    requires KeyInv(line, recs, None, st, now) && !Done(t)
    ensures KeyInv(line + [|recs|], recs + [t], Some(|recs|), st, now)
  {
    var line', recs' := line + [|recs|], recs + [t];
    assert forall i | 0 <= i < |line| :: DoneAt(recs, line[i]) && line'[i] == line[i];
    assert Owed(recs', line') == line == Owed(recs, line);
    assert Times(recs', line) == Times(recs, line);
  }

  function Without<T>(s: seq<T>, i: nat): (r: seq<T>)
    requires i < |s|
    ensures |r| == |s| - 1 && forall j | 0 <= j < |r| :: r[j] == if j < i then s[j] else s[j + 1]
  {
    s[..i] + s[i + 1..]
  }

  /** A prompt leaves the line: it was lost, or it ended while it was the live turn's own. */
  lemma KeyRemove(line: seq<TurnId>, recs: seq<TurnRec>, held: Option<TurnId>, st: seq<real>, now: real, i: nat)
    requires KeyInv(line, recs, held, st, now) && i < |line|
    ensures KeyInv(Without(line, i), recs, held, st, now)
  {
    var fewer, owed := Without(line, i), Owed(recs, line);
    assert LineInv(fewer, recs, held);
    if i < |owed| {
      CoverRemove(Times(recs, owed), st, now, i);
      assert Owed(recs, fewer) == Without(owed, i);
      assert Times(recs, Without(owed, i)) == Times(recs, owed)[..i] + Times(recs, owed)[i + 1..];
    } else {
      assert fewer == owed == Owed(recs, fewer);
    }
  }

  /** The oldest outstanding prompt ends and uses up the oldest stamp. */
  lemma KeySwallow(line: seq<TurnId>, recs: seq<TurnRec>, held: Option<TurnId>, st: seq<real>, now: real)
    requires KeyInv(line, recs, held, st, now) && line != [] && st != []
    ensures KeyInv(line[1..], recs, held, st[1..], now)
  {
    var owed := Owed(recs, line);
    CoverPop(Times(recs, owed), st, now);
    if owed == [] {
      assert line[1..] == [] && Times(recs, []) == [];
    } else {
      assert Owed(recs, line[1..]) == owed[1..];
      assert Times(recs, owed[1..]) == Times(recs, owed)[1..];
    }
  }

  /** The turn held by the key is given up: it settles now, and a stamp is stored now. */
  lemma KeyAbandon(line: seq<TurnId>, recs: seq<TurnRec>, id: TurnId, st: seq<real>, now: real, recs': seq<TurnRec>)
    requires KeyInv(line, recs, Some(id), st, now)
    requires !DoneAt(recs, id) && DoneAt(recs', id) && When(recs', id) == now
    requires forall i | 0 <= i < |line| && line[i] != id ::
               DoneAt(recs, line[i]) == DoneAt(recs', line[i]) && When(recs, line[i]) == When(recs', line[i])
    ensures KeyInv(line, recs', Some(id), st + [now], now)
  {
    var owed := Owed(recs, line);
    CoverStamp(Times(recs, owed), st, now);
    assert Times(recs', owed) == Times(recs, owed) by {
      assert forall i | 0 <= i < |owed| :: owed[i] == line[i] != id;
    }
    if line != [] && line[|line| - 1] == id {
      assert line == owed + [id];
      assert Times(recs', line) == Times(recs', owed) + [now];
    } else {
      assert Owed(recs', line) == owed;
    }
  }

  lemma KeyExpire(line: seq<TurnId>, recs: seq<TurnRec>, held: Option<TurnId>, st: seq<real>, now: real)
    requires KeyInv(line, recs, held, st, now)
    requires forall i | 0 <= i < |line| && DoneAt(recs, line[i]) :: now - When(recs, line[i]) <= ABANDONED_TTL
    ensures KeyInv(line, recs, held, Fresh(st, now), now)
  {
    var owed := Owed(recs, line);
    assert forall i | 0 <= i < |owed| :: owed[i] == line[i] && DoneAt(recs, line[i]);
    CoverFresh(Times(recs, owed), st, now);
  }

  /** With no stamp stored, a frame can only come from the live turn's own prompt. */
  lemma KeyHead(line: seq<TurnId>, recs: seq<TurnRec>, held: Option<TurnId>, now: real)
    requires KeyInv(line, recs, held, [], now) && line != []
    ensures line == [line[0]] && held == Some(line[0]) && !DoneAt(recs, line[0])
  {
    assert |Owed(recs, line)| == 0;
  }
}
