/** Several tool calls wait on one response queue. Some put what is not theirs straight back;
    some hold it and put it back when they are done. No response is lost, doubled or misdirected. */
module ResponseQueues {
  import opened Text

  datatype Response = Response(requestId: string, subscriptionId: string, detail: string)

  /** A waiter that rotates the queue, one that holds and restores, or one that has finished. */
  datatype Waiter =
    | Rotating(requestId: string)
    | Holding(subscriptionId: string, unmatched: seq<Response>)
    | Done

  datatype System = System(queue: seq<Response>, waiters: seq<Waiter>)

  datatype Step =
    | Put(response: Response)
    | Join(waiter: Waiter)
    /** The waiter's `get` returns. */
    | Get(who: nat)
    /** The waiter times out or is cancelled. */
    | Leave(who: nat)

  predicate Wants(w: Waiter, r: Response) {
    (w.Rotating? && r.requestId == w.requestId) || (w.Holding? && r.subscriptionId == w.subscriptionId)
  }

  /** What a waiter has taken off the queue and not given back. */
  function Held(w: Waiter): seq<Response> {
    if w.Holding? then w.unmatched else []
  }

  predicate Enabled(s: System, step: Step) {
    match step
    case Put(_) => true
    case Join(w) => !w.Done? && Held(w) == []
    case Get(who) => who < |s.waiters| && !s.waiters[who].Done? && s.queue != []
    case Leave(who) => who < |s.waiters| && !s.waiters[who].Done?
  }

  /** A `get`: the response if it is wanted, and the new system. */
  function Taken(s: System, who: nat): (System, Option<Response>)
    requires Enabled(s, Get(who))
  {
    var r, rest, w := s.queue[0], s.queue[1..], s.waiters[who];
    if Wants(w, r) then (System(rest + Held(w), s.waiters[who := Done]), Some(r))
    else if w.Rotating? then (System(rest + [r], s.waiters), None)
    else (System(rest, s.waiters[who := w.(unmatched := w.unmatched + [r])]), None)
  }

  // -------------------------------------------------------------------- conservation

  /** Everything ever put, everything delivered and to whom, and how each waiter began. */
  datatype History = History(s: System, put: seq<Response>, delivered: seq<(nat, Response)>, kinds: seq<Waiter>)

  const BEGIN := History(System([], []), [], [], [])

  function Next(h: History, step: Step): History
    requires Enabled(h.s, step)
  {
    match step
    case Put(r) => h.(s := h.s.(queue := h.s.queue + [r]), put := h.put + [r])
    case Join(w) => h.(s := h.s.(waiters := h.s.waiters + [w]), kinds := h.kinds + [w])
    case Get(who) =>
      var (s, found) := Taken(h.s, who);
      h.(s := s, delivered := if found.Some? then h.delivered + [(who, found.value)] else h.delivered)
    case Leave(who) =>
      h.(s := System(h.s.queue + Held(h.s.waiters[who]), h.s.waiters[who := Done]))
  }

  /** How often `r` occurs in `s`. */
  function Count(s: seq<Response>, r: Response): nat {
    if s == [] then 0 else Count(s[..|s| - 1], r) + if s[|s| - 1] == r then 1 else 0
  }

  function CountHeld(ws: seq<Waiter>, r: Response): nat {
    if ws == [] then 0 else CountHeld(ws[..|ws| - 1], r) + Count(Held(ws[|ws| - 1]), r)
  }

  function CountDelivered(d: seq<(nat, Response)>, r: Response): nat {
    if d == [] then 0 else CountDelivered(d[..|d| - 1], r) + if d[|d| - 1].1 == r then 1 else 0
  }

  predicate Conserved(h: History, r: Response) {
    Count(h.put, r) == Count(h.s.queue, r) + CountHeld(h.s.waiters, r) + CountDelivered(h.delivered, r)
  }

  lemma {:induction false} CountConcat(a: seq<Response>, b: seq<Response>, r: Response)
    ensures Count(a + b, r) == Count(a, r) + Count(b, r)
  {
    if b == [] {
      assert a + b == a;
    } else {
      assert (a + b)[..|a + b| - 1] == a + b[..|b| - 1];
      CountConcat(a, b[..|b| - 1], r);
    }
  }

  lemma CountOne(x: Response, r: Response)
    ensures Count([x], r) == if x == r then 1 else 0
  {
    assert [x][..0] == [];
  }

  lemma CountHead(s: seq<Response>, r: Response)
    requires s != []
    ensures Count(s, r) == (if s[0] == r then 1 else 0) + Count(s[1..], r)
  {
    assert s == [s[0]] + s[1..];
    CountConcat([s[0]], s[1..], r);
    CountOne(s[0], r);
  }

  lemma {:induction false} HeldUpdate(ws: seq<Waiter>, i: nat, w: Waiter, r: Response)
    requires i < |ws|
    ensures CountHeld(ws[i := w], r) == CountHeld(ws, r) - Count(Held(ws[i]), r) + Count(Held(w), r)
  {
    var last := |ws| - 1;
    var ws' := ws[i := w];
    assert CountHeld(ws', r) == CountHeld(ws'[..last], r) + Count(Held(ws'[last]), r);
    assert CountHeld(ws, r) == CountHeld(ws[..last], r) + Count(Held(ws[last]), r);
    if i == last {
      assert ws'[..last] == ws[..last];
    } else {
      HeldUpdate(ws[..last], i, w, r);
      assert ws'[..last] == ws[..last][i := w] && ws'[last] == ws[last];
    }
  }

  /** A `get` moves one response off the queue: to the waiter, to the end, or into its hold. */
  lemma GetConserves(s: System, who: nat, r: Response)
    requires Enabled(s, Get(who))
    ensures var (t, found) := Taken(s, who);
      Count(s.queue, r) + CountHeld(s.waiters, r)
      == Count(t.queue, r) + CountHeld(t.waiters, r) + if found == Some(r) then 1 else 0
  {
    var x, rest, w := s.queue[0], s.queue[1..], s.waiters[who];
    CountHead(s.queue, r);
    CountOne(x, r);
    CountConcat(rest, [x], r);
    if Wants(w, x) {
      HeldUpdate(s.waiters, who, Done, r);
      CountConcat(rest, Held(w), r);
    } else if w.Holding? {
      HeldUpdate(s.waiters, who, w.(unmatched := w.unmatched + [x]), r);
      CountConcat(w.unmatched, [x], r);
    }
  }

  lemma StepConserves(h: History, step: Step, r: Response)
    requires Conserved(h, r) && Enabled(h.s, step)
    ensures Conserved(Next(h, step), r)
  {
    match step
    case Put(x) =>
      CountConcat(h.s.queue, [x], r);
      CountConcat(h.put, [x], r);
    case Join(w) =>
      assert (h.s.waiters + [w])[..|h.s.waiters|] == h.s.waiters;
    case Get(who) =>
      GetConserves(h.s, who, r);
      var found := Taken(h.s, who).1;
      if found.Some? {
        assert (h.delivered + [(who, found.value)])[..|h.delivered|] == h.delivered;
      }
    case Leave(who) =>
      CountConcat(h.s.queue, Held(h.s.waiters[who]), r);
      HeldUpdate(h.s.waiters, who, Done, r);
  }

  // --------------------------------------------------------------- who gets what

  predicate SameKind(v: Waiter, w: Waiter) {
    || (v.Rotating? && v == w)
    || (v.Holding? && w.Holding? && v.subscriptionId == w.subscriptionId)
  }

  /** Waiters keep looking for what they came for; a response went to a waiter that wanted it
      and was finished by it. */
  predicate Fair(h: History) {
    && |h.kinds| == |h.s.waiters|
    && (forall i | 0 <= i < |h.s.waiters| :: h.s.waiters[i].Done? || SameKind(h.kinds[i], h.s.waiters[i]))
    && (forall i | 0 <= i < |h.delivered| ::
          && h.delivered[i].0 < |h.s.waiters| && h.s.waiters[h.delivered[i].0].Done?
          && Wants(h.kinds[h.delivered[i].0], h.delivered[i].1))
    && (forall i, j | 0 <= i < j < |h.delivered| :: h.delivered[i].0 != h.delivered[j].0)
  }

  lemma GetFair(h: History, who: nat)
    requires Fair(h) && Enabled(h.s, Get(who))
    ensures Fair(Next(h, Get(who)))
  {
    assert SameKind(h.kinds[who], h.s.waiters[who]);
    var (t, found) := Taken(h.s, who);
    if found.Some? {
      var next := Next(h, Get(who));
      forall i | 0 <= i < |next.delivered|
        ensures var d := next.delivered[i];
          d.0 < |t.waiters| && t.waiters[d.0].Done? && Wants(h.kinds[d.0], d.1) && (i < |h.delivered| ==> d.0 != who)
      {
      }
    }
  }

  lemma LeaveFair(h: History, who: nat)
    requires Fair(h) && Enabled(h.s, Leave(who))
    ensures Fair(Next(h, Leave(who)))
  {
  }

  lemma StepFair(h: History, step: Step)
    requires Fair(h) && Enabled(h.s, step)
    ensures Fair(Next(h, step))
  {
    match step
    case Get(who) => GetFair(h, who);
    case Leave(who) => LeaveFair(h, who);
    case Put(_) =>
    case Join(_) =>
  }

  ghost predicate Run(h: History, steps: seq<Step>)
    decreases |steps|
  {
    steps == [] || (Enabled(h.s, steps[0]) && Run(Next(h, steps[0]), steps[1..]))
  }

  ghost function End(h: History, steps: seq<Step>): History
    requires Run(h, steps)
    decreases |steps|
  {
    if steps == [] then h else End(Next(h, steps[0]), steps[1..])
  }

  lemma {:induction false} RunKeeps(h: History, steps: seq<Step>)
    requires Fair(h) && (forall r :: Conserved(h, r)) && Run(h, steps)
    ensures Fair(End(h, steps)) && forall r :: Conserved(End(h, steps), r)
    decreases |steps|
  {
    if steps != [] {
      StepFair(h, steps[0]);
      forall r ensures Conserved(Next(h, steps[0]), r) {
        StepConserves(h, steps[0], r);
      }
      RunKeeps(Next(h, steps[0]), steps[1..]);
    }
  }

  /** What a waiter that began as `w` came for. */
  predicate AskedFor(w: Waiter, r: Response) {
    match w
    case Rotating(requestId) => r.requestId == requestId
    case Holding(subscriptionId, _) => r.subscriptionId == subscriptionId
    case Done => false
  }

  /** Under every interleaving: each response was put as often as it is queued, held and
      delivered; each delivered one went to a waiter that asked for it; and no waiter got two. */
  lemma NothingLostOrMisdirected(steps: seq<Step>)
    requires Run(BEGIN, steps)
    ensures var h := End(BEGIN, steps);
      && (forall r ::
            Count(h.put, r) == Count(h.s.queue, r) + CountHeld(h.s.waiters, r) + CountDelivered(h.delivered, r))
      && (forall i | 0 <= i < |h.delivered| ::
            h.delivered[i].0 < |h.kinds| && AskedFor(h.kinds[h.delivered[i].0], h.delivered[i].1))
      && (forall i, j | 0 <= i < j < |h.delivered| :: h.delivered[i].0 != h.delivered[j].0)
  {
    RunKeeps(BEGIN, steps);
    forall r ensures Count(End(BEGIN, steps).put, r) == Count(End(BEGIN, steps).s.queue, r)
                       + CountHeld(End(BEGIN, steps).s.waiters, r) + CountDelivered(End(BEGIN, steps).delivered, r)
    {
      assert Conserved(End(BEGIN, steps), r);
    }
  }

  // -------------------------------------------------------------- one waiter, alone

  /** Up to `n` gets of one waiter while nothing else happens, until it has what it came for. */
  function Gets(s: System, who: nat, n: nat): (System, Option<Response>)
    decreases n
  {
    if n == 0 || !Enabled(s, Get(who)) then (s, None)
    else
      var (t, found) := Taken(s, who);
      if found.Some? then (t, found) else Gets(t, who, n - 1)
  }

  /** A waiter that rotates finds the first match at position `m` with its `m + 1`-st get; what
      was before it has moved to the end. */
  lemma {:induction false} RotationFinds(s: System, who: nat, requestId: string, m: nat)
    requires who < |s.waiters| && s.waiters[who] == Rotating(requestId) && m < |s.queue|
    requires s.queue[m].requestId == requestId && forall i | 0 <= i < m :: s.queue[i].requestId != requestId
    ensures Gets(s, who, m + 1)
         == (System(s.queue[m + 1..] + s.queue[..m], s.waiters[who := Done]), Some(s.queue[m]))
    decreases m
  {
    if m == 0 {
      assert s.queue[1..] + [] == s.queue[1..] + s.queue[..0];
    } else {
      var t := System(s.queue[1..] + [s.queue[0]], s.waiters);
      assert Taken(s, who) == (t, None);
      RotationFinds(t, who, requestId, m - 1);
      assert t.queue[m..] + t.queue[..m - 1] == s.queue[m + 1..] + s.queue[..m];
    }
  }

  /** So does one that holds; and what it held goes back to the end, in order. */
  lemma {:induction false} HoldingFinds(s: System, who: nat, subscriptionId: string, held: seq<Response>, m: nat)
    requires who < |s.waiters| && s.waiters[who] == Holding(subscriptionId, held) && m < |s.queue|
    requires s.queue[m].subscriptionId == subscriptionId
    requires forall i | 0 <= i < m :: s.queue[i].subscriptionId != subscriptionId
    ensures Gets(s, who, m + 1)
         == (System(s.queue[m + 1..] + (held + s.queue[..m]), s.waiters[who := Done]), Some(s.queue[m]))
    decreases m
  {
    if m == 0 {
      assert held + s.queue[..0] == held;
    } else {
      var more := held + [s.queue[0]];
      var t := System(s.queue[1..], s.waiters[who := Holding(subscriptionId, more)]);
      assert Taken(s, who) == (t, None);
      HoldingFinds(t, who, subscriptionId, more, m - 1);
      assert more + t.queue[..m - 1] == held + s.queue[..m];
      assert t.waiters[who := Done] == s.waiters[who := Done];
    }
  }

  class ResponseQueue {
    var items: seq<Response>

    constructor ()
      ensures items == []
    {
      items := [];
    }

    method Put(r: Response)
      modifies this
      ensures items == old(items) + [r]
    {
      items := items + [r];
    }

    /** `get` on a queue that is not empty. */
    method Get() returns (r: Response)
      requires items != []
      modifies this
      ensures old(items) == [r] + items
    {
      r := items[0];
      items := items[1..];
    }

    /** A lone waiter finds the first match after as many rotations as its index, and has moved
        what was before it to the end. */
    method WaitForMatchingResponse(requestId: string, ghost index: nat) returns (r: Response, rotations: nat)
      requires index < |items| && items[index].requestId == requestId
      requires forall i | 0 <= i < index :: items[i].requestId != requestId
      modifies this
      ensures r == old(items)[index] && rotations == index
      ensures items == old(items)[index + 1..] + old(items)[..index]
    {
      rotations := 0;
      while true
        invariant rotations <= index < |old(items)|
        invariant items == old(items)[rotations..] + old(items)[..rotations]
        decreases index - rotations
      {
        ghost var before := items;
        r := Get();
        assert r == before[0] == old(items)[rotations] && items == before[1..];
        assert before[1..] == old(items)[rotations + 1..] + old(items)[..rotations];
        if r.requestId == requestId {
          return;
        }
        Put(r);
        rotations := rotations + 1;
      }
    }

    /** A lone waiter that holds what is not its own; `gets` of its reads return before the
        deadline. What it held is put back, in order, whether or not it finds a match. */
    method WaitForSubscriptionValidation(subscriptionId: string, gets: nat)
        returns (r: Option<Response>, ghost read: nat)
      modifies this
      ensures read <= |old(items)| && read <= gets
      ensures forall i | 0 <= i < read :: old(items)[i].subscriptionId != subscriptionId
      ensures r.None? ==> read == gets || read == |old(items)|
      ensures r.None? ==> items == old(items)[read..] + old(items)[..read]
      ensures r.Some? ==> read < |old(items)| && r.value == old(items)[read] && r.value.subscriptionId == subscriptionId
      ensures r.Some? ==> items == old(items)[read + 1..] + old(items)[..read]
    {
      var unmatched: seq<Response> := [];
      var left := gets;
      r, read := None, 0;
      while left > 0 && items != [] && r.None?
        invariant read <= |old(items)| && read + left <= gets && unmatched == old(items)[..read]
        invariant forall i | 0 <= i < read :: old(items)[i].subscriptionId != subscriptionId
        invariant r.None? ==> items == old(items)[read..] && read + left == gets
        invariant r.Some? ==>
          read < |old(items)| && r.value == old(items)[read] && r.value.subscriptionId == subscriptionId
        invariant r.Some? ==> items == old(items)[read + 1..]
        decreases |items|
      {
        var result := Get();
        left := left - 1;
        if result.subscriptionId == subscriptionId {
          r := Some(result);
        } else {
          unmatched := unmatched + [result];
          read := read + 1;
        }
      }
      PutBack(unmatched);
    }

    method PutBack(unmatched: seq<Response>)
      modifies this
      ensures items == old(items) + unmatched
    {
      for i := 0 to |unmatched|
        invariant items == old(items) + unmatched[..i]
      {
        Put(unmatched[i]);
      }
    }
  }
}
