/** The bridge itself: turns updated in place, two dictionaries, and the handlers that move
    them. Every method is proved to act on each key exactly as `BridgeSpec` says. */
module GatewayBridge {
  import opened Text
  import Spec = BridgeSpec
  import opened BridgeSpec

  /** One prompt and what has come of it. Calls come and go while it runs. */
  class Turn {
    const key: Key
    ghost const id: TurnId
    const message: string
    var texts: seq<string>
    var outcome: Option<Outcome>
    var finishedAt: Option<real>
    var waiters: int

    ghost function View(): TurnRec
      reads this
    {
      TurnRec(message, texts, outcome, finishedAt, waiters)
    }

    constructor (key: Key, ghost id: TurnId, message: string)
      ensures this.key == key && this.id == id && View() == NewTurn(message)
    {
      this.key := key;
      this.id := id;
      var m := Strip(message);
      this.message := if |m| <= MAX_PROMPT_ECHO then m else m[..MAX_PROMPT_ECHO];
      texts, outcome, finishedAt, waiters := [], None, None, 0;
    }

    method AddText(content: string)
      modifies this
      ensures View() == Spec.AddText(old(View()), content)
    {
      if content != "" {
        texts := texts + [content];
      }
    }

    method Finish(now: real)
      modifies this
      ensures View() == Spec.Finish(old(View()), now)
    {
      if outcome.None? {
        outcome := Some(Reply(Strip(Join("\n\n", texts))));
        MarkSettled(now);
      }
    }

    method Fail(cause: Cause, now: real)
      modifies this`outcome, this`finishedAt
      ensures View() == Settle(old(View()), Failed(cause), now)
    {
      if outcome.None? {
        outcome := Some(Failed(cause));
        MarkSettled(now);
      }
    }

    method MarkSettled(now: real)
      modifies this`finishedAt
      ensures finishedAt == if old(finishedAt).None? then Some(now) else old(finishedAt)
    {
      if finishedAt.None? {
        finishedAt := Some(now);
      }
    }

    method Settled(stale: bool) returns (r: CallResult)
      requires outcome.Some?
      ensures r == Spec.Settled(View(), stale)
    {
      var answers := if stale then message else "";
      match outcome.value {
        case Reply(text) => r := Answered(text, stale, answers);
        case Failed(cause) => r := Raised(cause, stale, answers);
      }
    }
  }

  /** What a call finds when it takes the lock of its key. */
  datatype Found = Parked(result: CallResult) | Running(turn: Turn) | Nothing

  const UNUSED := Slot([], None, [])

  class Bridge {
    const parkedTtl: real
    var turns: map<Key, Turn>
    var abandoned: map<Key, seq<real>>

    /** The abstract state, key by key; the turns ever created, and each by key and number. */
    ghost var slots: map<Key, Slot>
    ghost var all: set<Turn>
    ghost var numbered: map<(Key, TurnId), Turn>

    ghost function SlotOf(k: Key): Slot
      reads this
    {
      if k in slots then slots[k] else UNUSED
    }

    /** `t` is a turn of this bridge and looks the way its slot says. */
    ghost predicate Recorded(t: Turn)
      reads this, t
    {
      && t.key in slots && t.id < |slots[t.key].recs| && slots[t.key].recs[t.id] == t.View()
      && (t.key, t.id) in numbered && numbered[(t.key, t.id)] == t
    }

    /** The dictionaries hold for `k` what its slot says. */
    ghost predicate Stored(k: Key)
      reads this
    {
      var slot := SlotOf(k);
      && WellFormed(slot)
      && (if k in turns then k in slots && turns[k] in all && turns[k].key == k && slot.held == Some(turns[k].id)
          else slot.held == None)
      && (if k in abandoned then k in slots && abandoned[k] != [] && slot.stamps == abandoned[k] else slot.stamps == [])
    }

    ghost predicate Valid()
      reads this, all
    {
      (forall t | t in all :: Recorded(t)) && (forall k :: Stored(k))
    }

    constructor (parkedTtl: real)
      ensures Valid() && this.parkedTtl == parkedTtl && all == {} && slots == map[]
    {
      this.parkedTtl := parkedTtl;
      turns, abandoned, slots, all, numbered := map[], map[], map[], {}, map[];
    }

    // -------------------------------------------------------- turn bookkeeping

    method StartTurn(k: Key, message: string) returns (t: Turn)
      requires Valid() && k !in turns
      modifies this
      ensures Valid() && fresh(t) && all == old(all) + {t} && t.key == k && t.id == |old(SlotOf(k)).recs|
      ensures slots == old(slots)[k := Spec.StartTurn(old(SlotOf(k)), message)]
    {
      t := new Turn(k, |SlotOf(k).recs|, message);
      Register(t, message);
    }

    method Register(t: Turn, message: string)
      requires Valid() && t.key !in turns && t !in all
      requires t.id == |SlotOf(t.key).recs| && t.View() == NewTurn(message)
      modifies this
      ensures Valid() && all == old(all) + {t}
              && slots == old(slots)[t.key := Spec.StartTurn(old(SlotOf(t.key)), message)]
    {
      turns := turns[t.key := t];
      slots := slots[t.key := Spec.StartTurn(SlotOf(t.key), message)];
      all, numbered := all + {t}, numbered[(t.key, t.id) := t];
      forall other ensures Stored(other) { assert old(Stored(other)); }
      forall u | u in all ensures Recorded(u) { assert u != t ==> old(Recorded(u)); }
    }

    method Drop(t: Turn)
      requires Valid() && t in all
      modifies this`turns, this`slots
      ensures Valid()
      ensures slots == old(slots)[t.key := Spec.Drop(old(SlotOf(t.key)), t.id)]
      ensures turns == if t.key in old(turns) && old(turns)[t.key] == t then old(turns) - {t.key} else old(turns)
    {
      slots := slots[t.key := Spec.Drop(SlotOf(t.key), t.id)];
      if t.key in turns && turns[t.key] == t {
        turns := turns - {t.key};
      }
      forall other ensures Stored(other) { assert old(Stored(other)); }
    }

    method Abandon(k: Key, now: real)
      requires Valid() && k in slots
      modifies this`abandoned, this`slots
      ensures Valid()
      ensures slots == old(slots)[k := old(slots[k]).(stamps := old(slots[k]).stamps + [now])]
    {
      slots := slots[k := slots[k].(stamps := slots[k].stamps + [now])];
      abandoned := abandoned[k := (if k in abandoned then abandoned[k] else []) + [now]];
      forall other ensures Stored(other) { assert old(Stored(other)); }
    }

    /** Discard the frame if the key still has stamps; a terminal frame uses one up. */
    method SwallowAbandoned(k: Key, f: Frame) returns (swallowed: bool)
      requires Valid()
      modifies this`abandoned, this`slots
      ensures Valid()
      ensures swallowed == Swallow(old(SlotOf(k)), f).1
      ensures slots == if old(SlotOf(k)).stamps == [] then old(slots) else old(slots)[k := Swallow(old(SlotOf(k)), f).0]
    {
      assert Stored(k);
      if k !in abandoned {
        return false;
      }
      if Terminal(f) {
        var rest := abandoned[k][1..];
        slots := slots[k := slots[k].(stamps := rest)];
        if rest == [] {
          abandoned := abandoned - {k};
        } else {
          abandoned := abandoned[k := rest];
        }
        forall other ensures Stored(other) { assert old(Stored(other)); }
      }
      return true;
    }

    /** `t` was just written to: bring the abstract state up to date. */
    ghost method Record(t: Turn)
      requires t in all && forall u | u in all && u != t :: Recorded(u)
      requires t.key in slots && t.id < |slots[t.key].recs|
      requires (t.key, t.id) in numbered && numbered[(t.key, t.id)] == t
      requires forall k :: Stored(k)
      modifies this`slots
      ensures Valid()
      ensures slots == old(slots)[t.key := Put(old(slots[t.key]), t.id, t.View())]
    {
      slots := slots[t.key := Put(slots[t.key], t.id, t.View())];
      forall k ensures Stored(k) { assert old(Stored(k)); }
    }

    // ------------------------------------------------------------------ calls

    /** The start of a call, under the lock of `k`: parked turns of every key expire first. */
    method Enter(k: Key, now: real) returns (found: Found)
      requires Valid()
      modifies this, all
      ensures Valid() && all == old(all) && forall key :: WellFormed(old(SlotOf(key)))
      ensures forall other | other != k :: SlotOf(other) == Spec.ExpireParked(old(SlotOf(other)), now, parkedTtl)
      ensures var before := Spec.ExpireParked(old(SlotOf(k)), now, parkedTtl);
        && SlotOf(k) == Spec.Enter(before).0
        && match Spec.Enter(before).1
           case Collected(_, result) => found == Parked(result)
           case Attached(id) => found.Running? && found.turn in all && found.turn.key == k && found.turn.id == id
           case Vacant => found == Nothing && k !in turns
    {
      var _ := ExpireParked(now);
      assert Stored(k);
      if k !in turns {
        return Nothing;
      }
      var t := turns[k];
      assert Recorded(t);
      if t.outcome.Some? {
        Drop(t);
        var result := t.Settled(true);
        return Parked(result);
      }
      Attach(t);
      return Running(t);
    }

    /** A call starts to wait on `t`: the one it found, or its own after the send. */
    method Attach(t: Turn)
      requires Valid() && t in all
      modifies t`waiters, this`slots
      ensures Valid()
      ensures t.key in old(slots) && t.id < |old(slots[t.key]).recs|
      ensures slots == old(slots)[t.key := Wait(old(slots[t.key]), t.id)]
    {
      assert Recorded(t);
      t.waiters := t.waiters + 1;
      Record(t);
    }

    /** A call that waits on `t` is cancelled: a settled turn stays parked for the next call. */
    method Forsake(t: Turn)
      requires Valid() && t in all
      modifies t`waiters, this`slots
      ensures Valid()
      ensures t.key in old(slots) && t.id < |old(slots[t.key]).recs|
      ensures slots == old(slots)[t.key := Spec.Forsake(old(slots[t.key]), t.id)]
    {
      assert Recorded(t);
      t.waiters := t.waiters - 1;
      Record(t);
    }

    /** The wait on `t` is over, because the turn settled or because the call gave up waiting. */
    method Leave(t: Turn) returns (r: CallResult)
      requires Valid() && t in all
      modifies t`waiters, this`turns, this`slots
      ensures Valid()
      ensures t.id < |old(SlotOf(t.key)).recs|
      ensures (SlotOf(t.key), r) == Spec.Leave(old(SlotOf(t.key)), t.id)
      ensures forall other | other != t.key :: SlotOf(other) == old(SlotOf(other))
    {
      assert Recorded(t);
      Forsake(t);
      assert Recorded(t);
      if t.outcome.None? {
        return Pending;
      }
      Drop(t);
      r := t.Settled(false);
    }

    // ----------------------------------------------------------------- events

    /** Fail `t`, and store a stamp for the prompt that is left behind. */
    method GiveUp(t: Turn, cause: Cause, now: real)
      requires Valid() && t in all && t.outcome.None?
      modifies t`outcome, t`finishedAt, this`abandoned, this`slots
      ensures Valid()
      ensures t.key in old(slots) && t.id < |old(slots[t.key]).recs|
      ensures slots == old(slots)[t.key := Spec.GiveUp(old(slots[t.key]), t.id, cause, now)]
    {
      assert Recorded(t);
      t.Fail(cause, now);
      Record(t);
      Abandon(t.key, now);
    }

    /** The watchdog of `t`. */
    method HardDeadline(t: Turn, now: real)
      requires Valid() && t in all
      modifies t`outcome, t`finishedAt, this`abandoned, this`slots
      ensures Valid()
      ensures t.id < |old(SlotOf(t.key)).recs|
      ensures SlotOf(t.key) == Spec.HardDeadline(old(SlotOf(t.key)), t.id, now)
      ensures forall other | other != t.key :: SlotOf(other) == old(SlotOf(other))
    {
      assert Recorded(t);
      if t.outcome.Some? {
        return;
      }
      GiveUp(t, HardTimeout, now);
    }

    method OnOutbound(k: Key, f: Frame, now: real)
      requires Valid()
      modifies this`abandoned, this`slots, all
      ensures Valid() && WellFormed(old(SlotOf(k)))
      ensures SlotOf(k) == Spec.OnOutbound(old(SlotOf(k)), f, now)
      ensures forall other | other != k :: SlotOf(other) == old(SlotOf(other))
    {
      assert Stored(k);
      var swallowed := SwallowAbandoned(k, f);
      if swallowed {
        return;
      }
      assert k in turns ==> Recorded(turns[k]);
      if f.StepFrame? || k !in turns || turns[k].outcome.Some? {
        return;
      }
      Receive(turns[k], f, now);
    }

    /** A frame for the live turn of its key. */
    method Receive(t: Turn, f: Frame, now: real)
      requires Valid() && t in all && t.outcome.None? && !f.StepFrame?
      modifies t, this`slots
      ensures Valid() && t.key in old(slots) && t.id < |old(slots[t.key]).recs|
      ensures slots == old(slots)[t.key := Put(old(slots[t.key]), t.id, Credit(old(slots[t.key]).recs[t.id], f, now))]
    {
      assert Recorded(t);
      match f {
        case TypingFrame =>
        case TextFrame(content) => t.AddText(content);
        case ResultFrame(content) =>
          if content != "" {
            t.AddText(content);
          }
          t.Finish(now);
        case ErrorFrame(_, _) => t.Fail(AgentError(ErrorText(f)), now);
      }
      Record(t);
    }

    /** Give up every turn that has not settled; parked outcomes survive. */
    method OnDisconnect(now: real)
      requires Valid()
      modifies this`abandoned, this`slots, all
      ensures Valid() && forall k :: WellFormed(old(SlotOf(k)))
      ensures forall k :: SlotOf(k) == Spec.OnDisconnect(old(SlotOf(k)), now)
    {
      var pending := set k | k in turns && turns[k].outcome.None?;
      ghost var lost := pending;
      forall k ensures WellFormed(SlotOf(k)) { assert Stored(k); }
      while pending != {}
        invariant Valid() && pending <= lost <= turns.Keys
        invariant forall k | k in pending :: turns[k].outcome.None?
        invariant forall k ::
                  SlotOf(k) == if k in lost - pending then Spec.OnDisconnect(old(SlotOf(k)), now) else old(SlotOf(k))
      {
        var k :| k in pending;
        assert Stored(k) && Recorded(turns[k]);
        forall other | other in pending && other != k ensures turns[other] != turns[k] { assert Stored(other); }
        GiveUp(turns[k], ConnectionLost, now);
        pending := pending - {k};
      }
      forall k | k !in lost ensures SlotOf(k) == Spec.OnDisconnect(old(SlotOf(k)), now) {
        assert old(Stored(k));
        assert k in turns ==> old(Recorded(turns[k]));
      }
    }

    // ----------------------------------------------------------------- sweeps

    /** Drop parked turns nobody collected in time and nobody waits on. */
    method ExpireParked(now: real) returns (dropped: nat)
      requires Valid()
      modifies this`turns, this`slots
      ensures Valid()
      ensures forall k :: WellFormed(old(SlotOf(k))) && SlotOf(k) == Spec.ExpireParked(old(SlotOf(k)), now, parkedTtl)
      ensures dropped == |old(turns)| - |turns|
    {
      dropped := 0;
      var todo := turns.Keys;
      forall k ensures WellFormed(SlotOf(k)) { assert Stored(k); }
      forall k | k !in todo ensures SlotOf(k) == Spec.ExpireParked(SlotOf(k), now, parkedTtl) { assert Stored(k); }
      while todo != {}
        invariant Valid() && todo <= turns.Keys && dropped == |old(turns)| - |turns|
        invariant forall k ::
                  SlotOf(k) == if k in todo then old(SlotOf(k)) else Spec.ExpireParked(old(SlotOf(k)), now, parkedTtl)
      {
        var k :| k in todo;
        var expired := ExpireIfUncollected(k, now);
        dropped := if expired then dropped + 1 else dropped;
        todo := todo - {k};
      }
    }

    /** Drop the turn of one key if nobody collected it in time and nobody waits on it. */
    method ExpireIfUncollected(k: Key, now: real) returns (expired: bool)
      requires Valid() && k in turns
      modifies this`turns, this`slots
      ensures Valid() && WellFormed(old(SlotOf(k))) && SlotOf(k) == Spec.ExpireParked(old(SlotOf(k)), now, parkedTtl)
      ensures forall other | other != k :: SlotOf(other) == old(SlotOf(other))
      ensures turns == if expired then old(turns) - {k} else old(turns)
      ensures |turns| == |old(turns)| - if expired then 1 else 0
    {
      var t := turns[k];
      assert Stored(k) && Recorded(t);
      expired := t.finishedAt.Some? && t.waiters == 0 && now - t.finishedAt.value > parkedTtl;
      if expired {
        assert |turns - {k}| == |turns| - 1 by {
          assert (turns - {k}).Keys == turns.Keys - {k} && |turns.Keys| == |turns|;
          assert |(turns - {k}).Keys| == |turns - {k}|;
        }
        Drop(t);
      }
    }

    /** Forget the stamps that have outlived their TTL. */
    method ExpireAbandoned(now: real)
      requires Valid()
      modifies this`abandoned, this`slots
      ensures Valid()
      ensures forall k :: SlotOf(k) == Spec.ExpireAbandoned(old(SlotOf(k)), now)
    {
      var todo := abandoned.Keys;
      forall k | k !in todo ensures SlotOf(k) == Spec.ExpireAbandoned(SlotOf(k), now) { assert Stored(k); }
      while todo != {}
        invariant Valid() && todo <= abandoned.Keys
        invariant forall k ::
                  SlotOf(k) == if k in todo then old(SlotOf(k)) else Spec.ExpireAbandoned(old(SlotOf(k)), now)
      {
        var k :| k in todo;
        assert Stored(k);
        var kept := FreshOnes(abandoned[k], now);
        SetStamps(k, kept);
        todo := todo - {k};
      }
    }

    method SetStamps(k: Key, kept: seq<real>)
      requires Valid() && k in abandoned && k in slots
      modifies this`abandoned, this`slots
      ensures Valid() && abandoned.Keys >= old(abandoned.Keys) - {k}
      ensures slots == old(slots)[k := old(slots[k]).(stamps := kept)]
    {
      slots := slots[k := slots[k].(stamps := kept)];
      if kept != [] {
        abandoned := abandoned[k := kept];
      } else {
        abandoned := abandoned - {k};
      }
      forall other ensures Stored(other) { assert old(Stored(other)); }
    }
  }

  method FreshOnes(stamps: seq<real>, now: real) returns (kept: seq<real>)
    ensures kept == Fresh(stamps, now)
  {
    kept := [];
    for i := 0 to |stamps|
      invariant kept + Fresh(stamps[i..], now) == Fresh(stamps, now)
    {
      if now - stamps[i] <= ABANDONED_TTL {
        kept := kept + [stamps[i]];
      }
      assert stamps[i..][1..] == stamps[i + 1..];
    }
  }
}
