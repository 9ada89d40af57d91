/** Messages of a room are buffered until its timer, restarted by every message, has run out. */
module MergeSpec {
  import opened Text

  datatype Msg = Msg(sender: string, body: string, images: seq<string>)

  /** `buffers` and `tasks` by room, as the adapter keeps them; `sleeping`: the flush tasks the
      event loop still has to wake, with their rooms. */
  datatype Merger = Merger(
    buffers: map<string, seq<Msg>>,
    tasks: map<string, nat>,
    sleeping: map<nat, string>)

  const START := Merger(map[], map[], map[])

  function Get<V>(m: map<string, seq<V>>, room: string): seq<V> {
    if room in m then m[room] else []
  }

  /** A message: append it, cancel the room's timer if it has one, start the new timer `task`. */
  function Arrive(s: Merger, room: string, msg: Msg, task: nat): Merger {
    Merger(s.buffers[room := Get(s.buffers, room) + [msg]],
           s.tasks[room := task],
           (if room in s.tasks then s.sleeping - {s.tasks[room]} else s.sleeping)[task := room])
  }

  /** A timer that was not cancelled runs out: its task takes what the room has buffered. */
  function Fire(s: Merger, task: nat): (Merger, seq<Msg>)
    requires task in s.sleeping
  {
    var room := s.sleeping[task];
    (Merger(s.buffers - {room}, s.tasks - {room}, s.sleeping - {task}), Get(s.buffers, room))
  }

  // -------------------------------------------------------------------------- histories

  datatype Step = Message(room: string, msg: Msg, task: nat) | Timeout(task: nat)

  /** By room: everything that has arrived, and every batch that was flushed. */
  datatype History = History(s: Merger, arrived: map<string, seq<Msg>>, flushed: map<string, seq<seq<Msg>>>,
                             started: set<nat>)

  const BEGIN := History(START, map[], map[], {})

  /** Tasks are new objects, and only a task that still sleeps wakes up. */
  predicate Proper(h: History, step: Step) {
    match step
    case Message(_, _, task) => task !in h.started
    case Timeout(task) => task in h.s.sleeping
  }

  function Next(h: History, step: Step): History
    requires Proper(h, step)
  {
    match step
    case Message(room, msg, task) =>
      History(Arrive(h.s, room, msg, task), h.arrived[room := Get(h.arrived, room) + [msg]], h.flushed,
              h.started + {task})
    case Timeout(task) =>
      var (s, batch) := Fire(h.s, task);
      var room := h.s.sleeping[task];
      if batch == [] then h.(s := s) else h.(s := s, flushed := h.flushed[room := Get(h.flushed, room) + [batch]])
  }

  /** Rooms with something buffered, rooms with a timer, and sleeping timers are the same. */
  predicate Timers(s: Merger) {
    && s.buffers.Keys == s.tasks.Keys
    && (forall room | room in s.buffers :: s.buffers[room] != [])
    && (forall room | room in s.tasks :: s.tasks[room] in s.sleeping && s.sleeping[s.tasks[room]] == room)
    && (forall t | t in s.sleeping :: s.sleeping[t] in s.tasks && s.tasks[s.sleeping[t]] == t)
  }

  lemma ArriveTimers(s: Merger, room: string, msg: Msg, task: nat)
    requires Timers(s) && task !in s.sleeping
    ensures Timers(Arrive(s, room, msg, task))
  {
    var s' := Arrive(s, room, msg, task);
    assert s'.buffers.Keys == s.buffers.Keys + {room} && s'.tasks.Keys == s.tasks.Keys + {room};
  }

  lemma FireTimers(s: Merger, task: nat)
    requires Timers(s) && task in s.sleeping
    ensures Timers(Fire(s, task).0) && Fire(s, task).1 != []
  {
  }

  ghost predicate Kept(h: History, room: string) {
    && Concat(Get(h.flushed, room)) + Get(h.s.buffers, room) == Get(h.arrived, room)
    && forall batch | batch in Get(h.flushed, room) :: batch != []
  }

  ghost predicate Inv(h: History) {
    && Timers(h.s)
    && (forall t | t in h.s.sleeping :: t in h.started)
    && (forall room :: Kept(h, room))
  }

  lemma MessageKept(h: History, room: string, msg: Msg, task: nat, r: string)
    requires Kept(h, r) && task !in h.started
    ensures Kept(Next(h, Message(room, msg, task)), r)
  {
    var flushed := Concat(Get(h.flushed, room));
    assert flushed + (Get(h.s.buffers, room) + [msg]) == (flushed + Get(h.s.buffers, room)) + [msg];
  }

  lemma MessageKeeps(h: History, room: string, msg: Msg, task: nat)
    requires Inv(h) && task !in h.started
    ensures Inv(Next(h, Message(room, msg, task)))
  {
    ArriveTimers(h.s, room, msg, task);
    forall r ensures Kept(Next(h, Message(room, msg, task)), r) {
      MessageKept(h, room, msg, task, r);
    }
  }

  lemma TimeoutKeeps(h: History, task: nat)
    requires Inv(h) && task in h.s.sleeping
    ensures Inv(Next(h, Timeout(task)))
  {
    var room, next := h.s.sleeping[task], Next(h, Timeout(task));
    FireTimers(h.s, task);
    forall r ensures Kept(next, r) {
      assert Kept(h, r);
      if r == room {
        ConcatSnoc(Get(h.flushed, room), h.s.buffers[room]);
        assert Concat(Get(next.flushed, room)) + [] == Concat(Get(next.flushed, room));
      }
    }
  }

  // ------------------------------------------------------------------------------- runs

  ghost predicate Run(h: History, steps: seq<Step>)
    decreases |steps|
  {
    steps == [] || (Proper(h, steps[0]) && Run(Next(h, steps[0]), steps[1..]))
  }

  ghost function End(h: History, steps: seq<Step>): History
    requires Run(h, steps)
    decreases |steps|
  {
    if steps == [] then h else End(Next(h, steps[0]), steps[1..])
  }

  lemma {:induction false} RunKeeps(h: History, steps: seq<Step>)
    requires Inv(h) && Run(h, steps)
    ensures Inv(End(h, steps))
    decreases |steps|
  {
    if steps != [] {
      match steps[0] {
        case Message(room, msg, task) => MessageKeeps(h, room, msg, task);
        case Timeout(task) => TimeoutKeeps(h, task);
      }
      RunKeeps(Next(h, steps[0]), steps[1..]);
    }
  }

  /** Under every interleaving of messages and timers, for every room: the batches flushed and
      then what is buffered are the messages in the order they arrived, each exactly once; no
      batch is empty; and while anything is buffered exactly one timer of the room sleeps. */
  lemma NothingIsLost(steps: seq<Step>, room: string)
    requires Run(BEGIN, steps)
    ensures var h := End(BEGIN, steps);
      && Concat(Get(h.flushed, room)) + Get(h.s.buffers, room) == Get(h.arrived, room)
      && (forall batch | batch in Get(h.flushed, room) :: batch != [])
      && (Get(h.s.buffers, room) != [] <==> exists t :: t in h.s.sleeping && h.s.sleeping[t] == room)
      && (forall t, u | t in h.s.sleeping && u in h.s.sleeping && h.s.sleeping[t] == h.s.sleeping[u] :: t == u)
  {
    RunKeeps(BEGIN, steps);
    var h := End(BEGIN, steps);
    assert Kept(h, room);
    if Get(h.s.buffers, room) != [] {
      assert h.s.tasks[room] in h.s.sleeping;
    }
  }

  /** Once every timer has run out, the batches are everything that arrived. */
  lemma EverythingIsFlushed(steps: seq<Step>, room: string)
    requires Run(BEGIN, steps) && End(BEGIN, steps).s.sleeping == map[]
    ensures Concat(Get(End(BEGIN, steps).flushed, room)) == Get(End(BEGIN, steps).arrived, room)
  {
    NothingIsLost(steps, room);
    var h := End(BEGIN, steps);
    assert Concat(Get(h.flushed, room)) + [] == Concat(Get(h.flushed, room));
  }
}
