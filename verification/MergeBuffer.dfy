/** The Matrix adapter's merge buffer, and the split of a flushed batch into messages. */
module MergeBuffer {
  import opened Text
  import opened MergeSpec

  /** Consecutive messages of one sender, merged. */
  datatype Run = Run(sender: string, parts: seq<string>, images: seq<string>)

  datatype Inbound = Inbound(agent: string, content: string, room: string, sender: string, verified: bool,
                             images: seq<string>)

  function Bodies(batch: seq<Msg>): seq<string> {
    if batch == [] then [] else (if batch[0].body != "" then [batch[0].body] else []) + Bodies(batch[1..])
  }

  function Images(batch: seq<Msg>): seq<string> {
    if batch == [] then [] else batch[0].images + Images(batch[1..])
  }

  lemma {:induction false} BodiesConcat(a: seq<Msg>, b: seq<Msg>)
    ensures Bodies(a + b) == Bodies(a) + Bodies(b) && Images(a + b) == Images(a) + Images(b)
  {
    if a == [] {
      assert a + b == b;
    } else {
      assert (a + b)[1..] == a[1..] + b;
      BodiesConcat(a[1..], b);
    }
  }

  lemma BodiesSnoc(a: seq<Msg>, m: Msg)
    ensures Bodies(a + [m]) == (if m.body != "" then Bodies(a) + [m.body] else Bodies(a))
    ensures Images(a + [m]) == Images(a) + m.images
  {
    BodiesConcat(a, [m]);
    assert [m][1..] == [];
    assert Bodies([m]) == (if m.body != "" then [m.body] else []) + [] && Images([m]) == m.images + [];
  }

  predicate OneSender(segment: seq<Msg>, sender: string) {
    segment != [] && forall m | m in segment :: m.sender == sender
  }

  function Merged(segment: seq<Msg>, sender: string): Run {
    Run(sender, Bodies(segment), Images(segment))
  }

  /** `runs` merge the segments of `batch`, each of one sender and as long as can be. */
  ghost predicate Splits(batch: seq<Msg>, segments: seq<seq<Msg>>, runs: seq<Run>) {
    && Concat(segments) == batch && |segments| == |runs|
    && (forall i | 0 <= i < |runs| ::
          OneSender(segments[i], runs[i].sender) && runs[i] == Merged(segments[i], runs[i].sender))
    && (forall i | 0 < i < |runs| :: runs[i - 1].sender != runs[i].sender)
  }

  /** `runs` are the maximal runs of one sender in `batch`. */
  ghost predicate Grouped(batch: seq<Msg>, runs: seq<Run>) {
    exists segments :: Splits(batch, segments, runs)
  }

  function Grown(run: Run, m: Msg): Run {
    Run(run.sender, if m.body != "" then run.parts + [m.body] else run.parts, run.images + m.images)
  }

  /** One more message, of the same sender as the last run. */
  lemma Lengthen(batch: seq<Msg>, segments: seq<seq<Msg>>, runs: seq<Run>, m: Msg)
    requires Splits(batch, segments, runs) && runs != [] && runs[|runs| - 1].sender == m.sender
    ensures var n := |runs| - 1;
      Splits(batch + [m], segments[n := segments[n] + [m]], runs[n := Grown(runs[n], m)])
  {
    var n := |runs| - 1;
    LongerSegment(segments, n, m);
    LongerRun(segments[n], runs[n], m);
    var longer, more := segments[n := segments[n] + [m]], runs[n := Grown(runs[n], m)];
    forall i | 0 <= i < |more|
      ensures OneSender(longer[i], more[i].sender) && more[i] == Merged(longer[i], more[i].sender)
    {
      if i < n {
        assert longer[i] == segments[i] && more[i] == runs[i];
      }
    }
  }

  lemma LongerRun(segment: seq<Msg>, run: Run, m: Msg)
    requires OneSender(segment, run.sender) && run == Merged(segment, run.sender) && m.sender == run.sender
    ensures OneSender(segment + [m], run.sender) && Grown(run, m) == Merged(segment + [m], run.sender)
  {
    BodiesSnoc(segment, m);
  }

  lemma LongerSegment(segments: seq<seq<Msg>>, n: nat, m: Msg)
    requires n == |segments| - 1
    ensures Concat(segments[n := segments[n] + [m]]) == Concat(segments) + [m]
  {
    ConcatSnoc(segments[..n], segments[n]);
    ConcatSnoc(segments[..n], segments[n] + [m]);
    assert segments == segments[..n] + [segments[n]];
    assert segments[n := segments[n] + [m]] == segments[..n] + [segments[n] + [m]];
    assert Concat(segments[..n]) + segments[n] + [m] == Concat(segments[..n]) + (segments[n] + [m]);
  }

  /** One more message, of another sender. */
  lemma Extend(batch: seq<Msg>, segments: seq<seq<Msg>>, runs: seq<Run>, m: Msg)
    requires Splits(batch, segments, runs) && (runs == [] || runs[|runs| - 1].sender != m.sender)
    ensures Splits(batch + [m], segments + [[m]], runs + [Grown(Run(m.sender, [], []), m)])
  {
    OneMessage(m);
    ConcatSnoc(segments, [m]);
    var longer, more := segments + [[m]], runs + [Grown(Run(m.sender, [], []), m)];
    forall i | 0 <= i < |more|
      ensures OneSender(longer[i], more[i].sender) && more[i] == Merged(longer[i], more[i].sender)
    {
      if i < |runs| {
        assert longer[i] == segments[i] && more[i] == runs[i];
      }
    }
  }

  lemma OneMessage(m: Msg)
    ensures OneSender([m], m.sender) && Grown(Run(m.sender, [], []), m) == Merged([m], m.sender)
  {
    BodiesSnoc([], m);
    assert [] + [m] == [m];
  }

  /** The runs after one more message. */
  function Added(runs: seq<Run>, m: Msg): seq<Run> {
    if runs == [] || runs[|runs| - 1].sender != m.sender then runs + [Grown(Run(m.sender, [], []), m)]
    else runs[|runs| - 1 := Grown(runs[|runs| - 1], m)]
  }

  function RunsOf(batch: seq<Msg>): seq<Run> {
    if batch == [] then [] else Added(RunsOf(batch[..|batch| - 1]), batch[|batch| - 1])
  }

  lemma {:induction false} RunsAreMaximal(batch: seq<Msg>) returns (segments: seq<seq<Msg>>)
    ensures Splits(batch, segments, RunsOf(batch))
  {
    segments := [];
    if batch != [] {
      var before, m := batch[..|batch| - 1], batch[|batch| - 1];
      var runs := RunsOf(before);
      segments := RunsAreMaximal(before);
      assert batch == before + [m];
      if runs == [] || runs[|runs| - 1].sender != m.sender {
        Extend(before, segments, runs, m);
        segments := segments + [[m]];
      } else {
        Lengthen(before, segments, runs, m);
        segments := segments[|runs| - 1 := segments[|runs| - 1] + [m]];
      }
    }
  }

  /** Group a batch into consecutive runs of one sender, leaving out empty bodies. */
  method GroupRuns(batch: seq<Msg>) returns (runs: seq<Run>)
    ensures Grouped(batch, runs)
  {
    runs := [];
    for i := 0 to |batch|
      invariant runs == RunsOf(batch[..i])
    {
      var m := batch[i];
      assert batch[..i + 1][..i] == batch[..i];
      if runs == [] || runs[|runs| - 1].sender != m.sender {
        runs := runs + [Run(m.sender, [], [])];
      }
      var last := runs[|runs| - 1];
      var parts := if m.body != "" then last.parts + [m.body] else last.parts;
      runs := runs[|runs| - 1 := Run(last.sender, parts, last.images + m.images)];
    }
    assert batch[..|batch|] == batch;
    var _ := RunsAreMaximal(batch);
  }

  /** The bodies of `batch`, message by message; an empty one counts for nothing. */
  function BodyPieces(batch: seq<Msg>): (pieces: seq<seq<string>>)
    ensures |pieces| == |batch|
    ensures forall i | 0 <= i < |batch| :: pieces[i] == if batch[i].body != "" then [batch[i].body] else []
  {
    seq(|batch|, i requires 0 <= i < |batch| => if batch[i].body != "" then [batch[i].body] else [])
  }

  function ImagePieces(batch: seq<Msg>): (pieces: seq<seq<string>>)
    ensures |pieces| == |batch| && forall i | 0 <= i < |batch| :: pieces[i] == batch[i].images
  {
    seq(|batch|, i requires 0 <= i < |batch| => batch[i].images)
  }

  function PartPieces(runs: seq<Run>): (pieces: seq<seq<string>>)
    ensures |pieces| == |runs| && forall i | 0 <= i < |runs| :: pieces[i] == runs[i].parts
  {
    seq(|runs|, i requires 0 <= i < |runs| => runs[i].parts)
  }

  function RunImages(runs: seq<Run>): (pieces: seq<seq<string>>)
    ensures |pieces| == |runs| && forall i | 0 <= i < |runs| :: pieces[i] == runs[i].images
  {
    seq(|runs|, i requires 0 <= i < |runs| => runs[i].images)
  }

  lemma {:induction false} PiecesOfBatch(batch: seq<Msg>)
    ensures Bodies(batch) == Concat(BodyPieces(batch)) && Images(batch) == Concat(ImagePieces(batch))
  {
    if batch != [] {
      PiecesOfBatch(batch[1..]);
      assert BodyPieces(batch)[1..] == BodyPieces(batch[1..]);
      assert ImagePieces(batch)[1..] == ImagePieces(batch[1..]);
    }
  }

  /** The bodies and images of the runs are those of the batch, in order; and each run has those
      of its own segment. */
  lemma RunsReassemble(batch: seq<Msg>, segments: seq<seq<Msg>>, runs: seq<Run>)
    requires Splits(batch, segments, runs)
    ensures Concat(PartPieces(runs)) == Concat(BodyPieces(batch))
    ensures Concat(RunImages(runs)) == Concat(ImagePieces(batch))
    ensures forall i | 0 <= i < |runs| ::
              && runs[i].parts == Concat(BodyPieces(segments[i])) && runs[i].images == Concat(ImagePieces(segments[i]))
  {
    PiecesOfBatch(batch);
    RunsConcat(batch, segments, runs);
    forall i | 0 <= i < |runs|
      ensures runs[i].parts == Concat(BodyPieces(segments[i])) && runs[i].images == Concat(ImagePieces(segments[i]))
    {
      PiecesOfBatch(segments[i]);
    }
  }

  lemma {:induction false} RunsConcat(batch: seq<Msg>, segments: seq<seq<Msg>>, runs: seq<Run>)
    requires Splits(batch, segments, runs)
    ensures Concat(PartPieces(runs)) == Bodies(batch) && Concat(RunImages(runs)) == Images(batch)
    decreases |runs|
  {
    if runs != [] {
      var rest := Concat(segments[1..]);
      RunsConcat(rest, segments[1..], runs[1..]);
      BodiesConcat(segments[0], rest);
      assert batch == segments[0] + rest && runs[0] == Merged(segments[0], runs[0].sender);
      assert PartPieces(runs)[1..] == PartPieces(runs[1..]) && RunImages(runs)[1..] == RunImages(runs[1..]);
    }
  }

  /** There is only one way to split a batch into runs. */
  lemma {:induction false} RunsAreUnique(batch: seq<Msg>, s: seq<seq<Msg>>, r: seq<Run>, t: seq<seq<Msg>>, q: seq<Run>)
    requires Splits(batch, s, r) && Splits(batch, t, q)
    ensures s == t && r == q
    decreases |r|
  {
    if s == [] || t == [] {
      assert s == t == [];
    } else {
      assert batch == s[0] + Concat(s[1..]) == t[0] + Concat(t[1..]);
      FirstIsMaximal(batch, s, r);
      FirstIsMaximal(batch, t, q);
      assert |s[0]| == |t[0]|;
      assert s[0] == batch[..|s[0]|] == t[0];
      assert Concat(s[1..]) == batch[|s[0]|..] == Concat(t[1..]);
      RunsAreUnique(batch[|s[0]|..], s[1..], r[1..], t[1..], q[1..]);
      assert s == [s[0]] + s[1..] && t == [t[0]] + t[1..] && r == [r[0]] + r[1..] && q == [q[0]] + q[1..];
    }
  }

  /** The first run takes all messages up to the first of another sender. */
  lemma FirstIsMaximal(batch: seq<Msg>, s: seq<seq<Msg>>, r: seq<Run>)
    requires Splits(batch, s, r) && s != []
    ensures 0 < |s[0]| <= |batch| && s[0] == batch[..|s[0]|] && r[0].sender == batch[0].sender
    ensures forall i | 0 <= i < |s[0]| :: batch[i].sender == batch[0].sender
    ensures |s[0]| < |batch| ==> batch[|s[0]|].sender != batch[0].sender
  {
    assert batch == s[0] + Concat(s[1..]);
    assert forall i | 0 <= i < |s[0]| :: batch[i] == s[0][i] && s[0][i] in s[0];
    if |s[0]| < |batch| {
      assert s[1..][0] == s[1] && s[1][0] in s[1];
      assert Concat(s[1..])[0] == s[1][0];
      assert r[1 - 1].sender != r[1].sender;
    }
  }

  // ----------------------------------------------------------------------- the adapter

  class Adapter {
    const trusted: set<string>

    /** The agent of each room that is configured. */
    var rooms: map<string, string>
    var buffers: map<string, seq<Msg>>
    var tasks: map<string, nat>

    /** The event loop: the flush tasks that sleep, the agent each task was created for, and how
        many tasks there ever were. */
    var sleeping: map<nat, string>
    var agents: map<nat, string>
    var created: nat

    ghost predicate Valid()
      reads this
    {
      Timers(View()) && forall t | t in sleeping :: t < created && t in agents
    }

    ghost function View(): Merger
      reads this
    {
      Merger(buffers, tasks, sleeping)
    }

    constructor (rooms: map<string, string>, trusted: set<string>)
      ensures Valid() && View() == START && this.rooms == rooms && this.trusted == trusted
    {
      this.rooms, this.trusted := rooms, trusted;
      buffers, tasks, sleeping, agents, created := map[], map[], map[], map[], 0;
    }

    /** A text, an image or a transcribed voice message. */
    method OnRoomMessage(room: string, msg: Msg)
      requires Valid()
      modifies this
      ensures Valid() && rooms == old(rooms)
      ensures room !in rooms ==> View() == old(View()) && created == old(created) && agents == old(agents)
      ensures room in rooms ==>
                && View() == Arrive(old(View()), room, msg, old(created)) && created == old(created) + 1
                && agents == old(agents)[old(created) := rooms[room]]
    {
      if room !in rooms {
        return;
      }
      ArriveTimers(View(), room, msg, created);
      var buf := if room in buffers then buffers[room] else [];
      buffers := buffers[room := buf + [msg]];
      RestartTimer(room, rooms[room]);
    }

    method RestartTimer(room: string, agent: string)
      modifies this`tasks, this`sleeping, this`agents, this`created
      ensures created == old(created) + 1 && tasks == old(tasks)[room := old(created)]
      ensures var others := if room in old(tasks) then old(sleeping) - {old(tasks)[room]} else old(sleeping);
        sleeping == others[old(created) := room]
      ensures agents == old(agents)[old(created) := agent]
    {
      if room in tasks {
        Cancel(tasks[room]);
      }
      var task := CreateTask(room, agent);
      tasks := tasks[room := task];
    }

    method Cancel(task: nat)
      modifies this`sleeping
      ensures sleeping == old(sleeping) - {task}
    {
      sleeping := sleeping - {task};
    }

    method CreateTask(room: string, agent: string) returns (task: nat)
      modifies this`sleeping, this`agents, this`created
      ensures task == old(created) && created == task + 1
      ensures sleeping == old(sleeping)[task := room] && agents == old(agents)[task := agent]
    {
      task := created;
      created := created + 1;
      sleeping, agents := sleeping[task := room], agents[task := agent];
    }

    /** A flush task wakes up; `sent` is what it hands to the gateway, in order. */
    method FlushMergeBuffer(task: nat) returns (sent: seq<Inbound>, ghost runs: seq<Run>)
      requires Valid() && task in sleeping
      modifies this`buffers, this`tasks, this`sleeping
      ensures Valid() && View() == Fire(old(View()), task).0
      ensures Grouped(Fire(old(View()), task).1, runs) && |sent| == |runs| > 0
      ensures forall i | 0 <= i < |sent| ::
        sent[i] == Inbound(agents[task], Join("\n", runs[i].parts), old(sleeping)[task], runs[i].sender,
                           runs[i].sender in trusted, runs[i].images)
    {
      FireTimers(View(), task);
      var room := sleeping[task];
      sleeping := sleeping - {task};
      var batch := if room in buffers then buffers[room] else [];
      buffers, tasks := buffers - {room}, tasks - {room};
      var grouped := GroupRuns(batch);
      runs := grouped;
      sent := Messages(grouped, room, agents[task]);
    }

    /** The messages for the gateway, one for each run. */
    method Messages(runs: seq<Run>, room: string, agent: string) returns (sent: seq<Inbound>)
      ensures |sent| == |runs|
      ensures forall i | 0 <= i < |sent| ::
        sent[i] == Inbound(agent, Join("\n", runs[i].parts), room, runs[i].sender,
                           runs[i].sender in trusted, runs[i].images)
    {
      sent := [];
      for i := 0 to |runs|
        invariant |sent| == i
        invariant forall j | 0 <= j < i ::
          sent[j] == Inbound(agent, Join("\n", runs[j].parts), room, runs[j].sender,
                             runs[j].sender in trusted, runs[j].images)
      {
        var run := runs[i];
        sent := sent + [Inbound(agent, Join("\n", run.parts), room, run.sender, run.sender in trusted, run.images)];
      }
    }
  }
}
