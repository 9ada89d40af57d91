/** The events a prompt emits. The gateway waits for a terminal event, `result` or
    `interrupted`, and should see exactly one. */
module PromptEvents {
  import opened Text

  datatype Block =
    | TextBlock(text: string)
    | ToolUseBlock(id: string, name: string)
    | ToolResultBlock(id: string, content: string, isError: bool)
    | OtherBlock

  /** What the SDK's response stream yields; `Raise` is an event the SDK cannot parse. */
  datatype Item = Assistant(blocks: seq<Block>) | User(blocks: seq<Block>) | ResultMessage | Unhandled | Raise

  datatype Event =
    | TextEvent(text: string)
    | ToolUse(id: string, name: string)
    | ToolResult(id: string, content: string, isError: bool)
    | ErrorEvent
    | Result(turns: nat, isError: bool)
    | Interrupted

  /** One query: whether it is accepted, and the stream it is answered with. */
  datatype Query = Query(accepted: bool, items: seq<Item>)

  datatype Outcome = Outcome(events: seq<Event>, completed: bool, turns: nat)

  // ------------------------------------------------------------- what is to be emitted

  function FromAssistant(blocks: seq<Block>): seq<Event> {
    if blocks == [] then []
    else FromAssistant(blocks[..|blocks| - 1]) + match blocks[|blocks| - 1]
      case TextBlock(text) => [TextEvent(text)]
      case ToolUseBlock(id, name) => [ToolUse(id, name)]
      case _ => []
  }

  function FromUser(blocks: seq<Block>): seq<Event> {
    if blocks == [] then []
    else FromUser(blocks[..|blocks| - 1]) + match blocks[|blocks| - 1]
      case ToolResultBlock(id, content, isError) => [ToolResult(id, content, isError)]
      case _ => []
  }

  function Turns(items: seq<Item>): nat {
    if items == [] then 0 else Turns(items[..|items| - 1]) + if items[|items| - 1].Assistant? then 1 else 0
  }

  predicate HasResult(items: seq<Item>) {
    exists i | 0 <= i < |items| :: items[i].ResultMessage?
  }

  /** The events of one item that arrives after `turns` turns. */
  function EventsOf(item: Item, turns: nat, suppress: bool): seq<Event> {
    match item
    case Assistant(blocks) => FromAssistant(blocks)
    case User(blocks) => FromUser(blocks)
    case ResultMessage => if turns == 0 && suppress then [] else [Result(turns, false)]
    case Unhandled => []
    case Raise => []
  }

  function Emitted(items: seq<Item>, suppress: bool): seq<Event> {
    if items == [] then []
    else
      var before := items[..|items| - 1];
      Emitted(before, suppress) + EventsOf(items[|items| - 1], Turns(before), suppress)
  }

  /** `interrupt`: how many items have been received when the interrupt is first noticed. */
  function Ran(q: Query, interrupt: Option<nat>, suppress: bool): Outcome {
    if !q.accepted then Outcome([ErrorEvent, Result(0, true)], true, 0)
    else if Stopped(q, interrupt) then
      Outcome(Emitted(q.items[..interrupt.value], suppress), false, Turns(q.items[..interrupt.value]))
    else
      Outcome(Emitted(q.items, suppress)
              + (if HasResult(q.items) then [] else [ErrorEvent, Result(Turns(q.items), true)]),
              true, Turns(q.items))
  }

  predicate Stopped(q: Query, interrupt: Option<nat>) {
    q.accepted && interrupt.Some? && interrupt.value <= |q.items|
  }

  function RanInterruptible(q: Query, followUp: Query, interrupt: Option<nat>): Outcome {
    var first := Ran(q, interrupt, true);
    if !first.completed then first.(events := first.events + [Interrupted])
    else if first.turns == 0 then first.(events := first.events + Ran(followUp, None, false).events)
    else first
  }

  // -------------------------------------------------------------------- the two loops

  method EmitAssistant(blocks: seq<Block>) returns (events: seq<Event>)
    ensures events == FromAssistant(blocks)
  {
    events := [];
    for i := 0 to |blocks|
      invariant events == FromAssistant(blocks[..i])
    {
      assert blocks[..i + 1][..i] == blocks[..i];
      match blocks[i] {
        case TextBlock(text) => events := events + [TextEvent(text)];
        case ToolUseBlock(id, name) => events := events + [ToolUse(id, name)];
        case _ =>
      }
    }
    assert blocks[..|blocks|] == blocks;
  }

  method EmitUser(blocks: seq<Block>) returns (events: seq<Event>)
    ensures events == FromUser(blocks)
  {
    events := [];
    for i := 0 to |blocks|
      invariant events == FromUser(blocks[..i])
    {
      assert blocks[..i + 1][..i] == blocks[..i];
      if blocks[i].ToolResultBlock? {
        events := events + [ToolResult(blocks[i].id, blocks[i].content, blocks[i].isError)];
      }
    }
    assert blocks[..|blocks|] == blocks;
  }

  method EmitItem(item: Item, turns: nat, suppress: bool) returns (events: seq<Event>)
    ensures events == EventsOf(item, turns, suppress)
  {
    events := [];
    match item {
      case Assistant(blocks) => events := EmitAssistant(blocks);
      case User(blocks) => events := EmitUser(blocks);
      case ResultMessage =>
        if turns != 0 || !suppress {
          events := [Result(turns, false)];
        }
      case Unhandled =>
      case Raise =>
    }
  }

  lemma OneMoreItem(seen: seq<Item>, item: Item, suppress: bool)
    ensures Emitted(seen + [item], suppress) == Emitted(seen, suppress) + EventsOf(item, Turns(seen), suppress)
    ensures Turns(seen + [item]) == Turns(seen) + if item.Assistant? then 1 else 0
    ensures HasResult(seen + [item]) <==> HasResult(seen) || item.ResultMessage?
  {
    assert (seen + [item])[..|seen|] == seen;
    assert (seen + [item])[|seen|] == item;
  }

  /** How many items are received before the stream ends or the interrupt is noticed. */
  function Received(items: seq<Item>, interrupt: Option<nat>): (n: nat)
    ensures n <= |items|
  {
    if interrupt.Some? && interrupt.value <= |items| then interrupt.value else |items|
  }

  method ReceiveItems(items: seq<Item>, interrupt: Option<nat>, suppress: bool)
      returns (events: seq<Event>, turns: nat, gotResult: bool, stopped: bool)
    ensures stopped <==> interrupt.Some? && interrupt.value <= |items|
    ensures var received := items[..Received(items, interrupt)];
      events == Emitted(received, suppress) && turns == Turns(received) && (gotResult <==> HasResult(received))
  {
    events, turns, gotResult := [], 0, false;
    var received := 0;
    ghost var seen: seq<Item> := [];
    while true
      invariant received <= Received(items, interrupt) && seen == items[..received]
      invariant events == Emitted(seen, suppress) && turns == Turns(seen) && (gotResult <==> HasResult(seen))
      decreases |items| - received
    {
      if interrupt.Some? && interrupt.value <= received {
        return events, turns, gotResult, true;
      }
      if received == |items| {
        return events, turns, gotResult, false;
      }
      var item := items[received];
      OneMoreItem(seen, item, suppress);
      var emitted := EmitItem(item, turns, suppress);
      events, received := events + emitted, received + 1;
      gotResult := gotResult || item.ResultMessage?;
      turns := if item.Assistant? then turns + 1 else turns;
      seen := seen + [item];
    }
  }

  method RunPrompt(q: Query, interrupt: Option<nat>, suppress: bool)
      returns (events: seq<Event>, completed: bool, turns: nat)
    ensures Outcome(events, completed, turns) == Ran(q, interrupt, suppress)
  {
    if !q.accepted {
      return [ErrorEvent, Result(0, true)], true, 0;
    }
    var gotResult, stopped;
    events, turns, gotResult, stopped := ReceiveItems(q.items, interrupt, suppress);
    if stopped {
      return events, false, turns;
    }
    assert q.items[..|q.items|] == q.items;
    completed := true;
    if gotResult {
      assert events + [] == events;
    } else {
      events := events + [ErrorEvent, Result(turns, true)];
    }
  }

  method RunPromptInterruptible(q: Query, followUp: Query, interrupt: Option<nat>)
      returns (events: seq<Event>, completed: bool)
    ensures events == RanInterruptible(q, followUp, interrupt).events
    ensures completed == RanInterruptible(q, followUp, interrupt).completed
  {
    var turns: nat;
    events, completed, turns := RunPrompt(q, interrupt, true);
    if !completed {
      return events + [Interrupted], false;
    }
    if turns == 0 {
      var more, _, _ := RunPrompt(followUp, None, false);
      events := events + more;
    }
  }

  // ------------------------------------------------------- what a stream shows, and in which order

  /** One thing a stream can show: a block the assistant sent, a block sent back to it, or the
      end of a query after so many turns. */
  datatype Atom = Said(block: Block) | Returned(block: Block) | Ended(turns: nat)

  predicate Shows(atom: Atom, suppress: bool) {
    match atom
    case Said(block) => block.TextBlock? || block.ToolUseBlock?
    case Returned(block) => block.ToolResultBlock?
    case Ended(turns) => turns > 0 || !suppress
  }

  /** The event that shows it. */
  predicate ShownBy(atom: Atom, event: Event) {
    match atom
    case Said(TextBlock(text)) => event == TextEvent(text)
    case Said(ToolUseBlock(id, name)) => event == ToolUse(id, name)
    case Returned(ToolResultBlock(id, content, isError)) => event == ToolResult(id, content, isError)
    case Ended(turns) => event == Result(turns, false)
    case _ => false
  }

  /** The atoms of one item that comes after `turns` turns. */
  function AtomsOf(item: Item, turns: nat): (atoms: seq<Atom>)
    ensures item.Assistant? ==>
              |atoms| == |item.blocks| && forall i | 0 <= i < |atoms| :: atoms[i] == Said(item.blocks[i])
    ensures item.User? ==>
              |atoms| == |item.blocks| && forall i | 0 <= i < |atoms| :: atoms[i] == Returned(item.blocks[i])
    ensures item.ResultMessage? ==> atoms == [Ended(turns)]
    ensures item.Unhandled? || item.Raise? ==> atoms == []
  {
    match item
    case Assistant(blocks) => seq(|blocks|, i requires 0 <= i < |blocks| => Said(blocks[i]))
    case User(blocks) => seq(|blocks|, i requires 0 <= i < |blocks| => Returned(blocks[i]))
    case ResultMessage => [Ended(turns)]
    case _ => []
  }

  /** The atoms of a stream, item by item. */
  function Atoms(items: seq<Item>): seq<Atom> {
    Concat(seq(|items|, i requires 0 <= i < |items| => AtomsOf(items[i], Turns(items[..i]))))
  }

  /** The positions of the atoms that are shown, in order. */
  ghost predicate Positions(atoms: seq<Atom>, suppress: bool, at: seq<nat>) {
    && (forall i, j | 0 <= i < j < |at| :: at[i] < at[j])
    && (forall i | 0 <= i < |at| :: at[i] < |atoms| && Shows(atoms[at[i]], suppress))
    && (forall p | 0 <= p < |atoms| && Shows(atoms[p], suppress) :: p in at)
  }

  /** `events` show `atoms`: one event for each atom that is to be shown, in the same order. */
  ghost predicate Matches(events: seq<Event>, atoms: seq<Atom>, suppress: bool, at: seq<nat>) {
    Positions(atoms, suppress, at) && |at| == |events| && forall i | 0 <= i < |at| :: ShownBy(atoms[at[i]], events[i])
  }

  lemma NothingMatches(suppress: bool)
    ensures Matches([], [], suppress, [])
  {
  }

  lemma PositionsSnoc(atoms: seq<Atom>, suppress: bool, at: seq<nat>, atom: Atom)
    requires Positions(atoms, suppress, at)
    ensures Positions(atoms + [atom], suppress, if Shows(atom, suppress) then at + [|atoms|] else at)
  {
    var more, at' := atoms + [atom], if Shows(atom, suppress) then at + [|atoms|] else at;
    forall i | 0 <= i < |at'| ensures at'[i] < |more| && Shows(more[at'[i]], suppress) {
      assert i < |at| ==> more[at[i]] == atoms[at[i]];
    }
    forall p | 0 <= p < |more| && Shows(more[p], suppress) ensures p in at' {
      if p == |atoms| {
        assert at'[|at|] == p;
      } else {
        assert more[p] == atoms[p] && p in at;
      }
    }
  }

  /** One more atom, and the event that shows it, if any. */
  lemma MatchSnoc(events: seq<Event>, atoms: seq<Atom>, suppress: bool, at: seq<nat>, atom: Atom, more: seq<Event>)
      returns (at': seq<nat>)
    requires Matches(events, atoms, suppress, at)
    requires if Shows(atom, suppress) then |more| == 1 && ShownBy(atom, more[0]) else more == []
    ensures Matches(events + more, atoms + [atom], suppress, at')
  {
    PositionsSnoc(atoms, suppress, at, atom);
    at' := if Shows(atom, suppress) then at + [|atoms|] else at;
    forall i | 0 <= i < |at'| ensures ShownBy((atoms + [atom])[at'[i]], (events + more)[i]) {
      if i < |at| {
        assert (atoms + [atom])[at[i]] == atoms[at[i]] && (events + more)[i] == events[i];
      }
    }
  }

  lemma {:induction false} AssistantMatches(events: seq<Event>, atoms: seq<Atom>, suppress: bool, at: seq<nat>,
                                            blocks: seq<Block>) returns (at': seq<nat>)
    requires Matches(events, atoms, suppress, at)
    ensures Matches(events + FromAssistant(blocks), atoms + AtomsOf(Assistant(blocks), 0), suppress, at')
  {
    if blocks == [] {
      at' := at;
      assert events + [] == events && atoms + AtomsOf(Assistant(blocks), 0) == atoms;
    } else {
      var before, last := blocks[..|blocks| - 1], blocks[|blocks| - 1];
      var at1 := AssistantMatches(events, atoms, suppress, at, before);
      var said := atoms + AtomsOf(Assistant(before), 0);
      var more := match last case TextBlock(text) => [TextEvent(text)]
                             case ToolUseBlock(id, name) => [ToolUse(id, name)] case _ => [];
      at' := MatchSnoc(events + FromAssistant(before), said, suppress, at1, Said(last), more);
      assert events + FromAssistant(before) + more == events + FromAssistant(blocks);
      assert said + [Said(last)] == atoms + AtomsOf(Assistant(blocks), 0);
    }
  }

  lemma {:induction false} UserMatches(events: seq<Event>, atoms: seq<Atom>, suppress: bool, at: seq<nat>,
                                       blocks: seq<Block>) returns (at': seq<nat>)
    requires Matches(events, atoms, suppress, at)
    ensures Matches(events + FromUser(blocks), atoms + AtomsOf(User(blocks), 0), suppress, at')
  {
    if blocks == [] {
      at' := at;
      assert events + [] == events && atoms + AtomsOf(User(blocks), 0) == atoms;
    } else {
      var before, last := blocks[..|blocks| - 1], blocks[|blocks| - 1];
      var at1 := UserMatches(events, atoms, suppress, at, before);
      var said := atoms + AtomsOf(User(before), 0);
      var more :=
          match last case ToolResultBlock(id, content, isError) => [ToolResult(id, content, isError)] case _ => [];
      at' := MatchSnoc(events + FromUser(before), said, suppress, at1, Returned(last), more);
      assert events + FromUser(before) + more == events + FromUser(blocks);
      assert said + [Returned(last)] == atoms + AtomsOf(User(blocks), 0);
    }
  }

  lemma AtomsSnoc(items: seq<Item>)
    requires items != []
    ensures var before := items[..|items| - 1];
      Atoms(items) == Atoms(before) + AtomsOf(items[|items| - 1], Turns(before))
  {
    var before := items[..|items| - 1];
    var pieces := seq(|before|, i requires 0 <= i < |before| => AtomsOf(before[i], Turns(before[..i])));
    var last := AtomsOf(items[|items| - 1], Turns(before));
    assert forall i | 0 <= i < |before| :: before[..i] == items[..i];
    assert seq(|items|, i requires 0 <= i < |items| => AtomsOf(items[i], Turns(items[..i]))) == pieces + [last];
    ConcatSnoc(pieces, last);
  }

  lemma {:induction false} EmittedMatches(items: seq<Item>, suppress: bool) returns (at: seq<nat>)
    ensures Matches(Emitted(items, suppress), Atoms(items), suppress, at)
  {
    if items == [] {
      at := [];
      NothingMatches(suppress);
    } else {
      var before, item := items[..|items| - 1], items[|items| - 1];
      var at1 := EmittedMatches(before, suppress);
      AtomsSnoc(items);
      at := ItemMatches(Emitted(before, suppress), Atoms(before), suppress, at1, item, Turns(before));
    }
  }

  lemma ItemMatches(events: seq<Event>, atoms: seq<Atom>, suppress: bool, at: seq<nat>, item: Item, turns: nat)
      returns (at': seq<nat>)
    requires Matches(events, atoms, suppress, at)
    ensures Matches(events + EventsOf(item, turns, suppress), atoms + AtomsOf(item, turns), suppress, at')
  {
    match item
    case Assistant(blocks) =>
      at' := AssistantMatches(events, atoms, suppress, at, blocks);
      assert AtomsOf(item, turns) == AtomsOf(item, 0);
    case User(blocks) =>
      at' := UserMatches(events, atoms, suppress, at, blocks);
      assert AtomsOf(item, turns) == AtomsOf(item, 0);
    case ResultMessage =>
      at' := MatchSnoc(events, atoms, suppress, at, Ended(turns), EventsOf(item, turns, suppress));
    case _ =>
      at' := at;
      assert events + [] == events && atoms + AtomsOf(item, turns) == atoms;
  }

  /** The positions of the assistant's items. */
  function Spoken(items: seq<Item>): set<nat> {
    set i | 0 <= i < |items| && items[i].Assistant?
  }

  /** A turn is an item of the assistant. */
  lemma {:induction false} TurnsAreSpoken(items: seq<Item>)
    ensures Turns(items) == |Spoken(items)|
  {
    if items != [] {
      var last := |items| - 1;
      var before := items[..last];
      TurnsAreSpoken(before);
      assert Spoken(items) == Spoken(before) + if items[last].Assistant? then {last} else {};
    }
  }

  /** What one query reports: for a refused one an error and an erroneous result; for any other,
      in order, one event for each thing to be shown of the items received, and after them, if
      the stream ended without any result, an error and an erroneous result. */
  lemma QueryReports(q: Query, interrupt: Option<nat>, suppress: bool) returns (at: seq<nat>)
    ensures var ran := Ran(q, interrupt, suppress);
      var received := if Stopped(q, interrupt) then q.items[..interrupt.value] else q.items;
      if !q.accepted then ran == Outcome([ErrorEvent, Result(0, true)], true, 0)
      else
        && |at| <= |ran.events| && Matches(ran.events[..|at|], Atoms(received), suppress, at)
        && ran.completed == !Stopped(q, interrupt) && ran.turns == |Spoken(received)|
        && ran.events[|at|..]
           == if Stopped(q, interrupt) || HasResult(received) then [] else [ErrorEvent, Result(ran.turns, true)]
  {
    at := [];
    if q.accepted {
      var received := if Stopped(q, interrupt) then q.items[..interrupt.value] else q.items;
      at := EmittedMatches(received, suppress);
      TurnsAreSpoken(received);
      var shown := Emitted(received, suppress);
      var ended := Stopped(q, interrupt) || HasResult(received);
      var tail := if ended then [] else [ErrorEvent, Result(Turns(received), true)];
      assert Ran(q, interrupt, suppress).events == shown + tail;
      assert (shown + tail)[..|at|] == shown && (shown + tail)[|at|..] == tail;
    }
  }

  /** What a prompt reports: its first query, with results before the first turn suppressed; then
      that it was interrupted, or, if it had no turn, the whole of the follow-up query. */
  lemma PromptReports(q: Query, followUp: Query, interrupt: Option<nat>)
    ensures var first, all := Ran(q, interrupt, true), RanInterruptible(q, followUp, interrupt);
      && all.completed == !Stopped(q, interrupt)
      && all.events == first.events + (if Stopped(q, interrupt) then [Interrupted]
                                       else if first.turns == 0 then Ran(followUp, None, false).events else [])
  {
  }

  // --------------------------------------------------------------------- terminal events

  function Terminals(events: seq<Event>): nat {
    if events == [] then 0
    else
      var last := events[|events| - 1];
      Terminals(events[..|events| - 1]) + if last.Result? || last.Interrupted? then 1 else 0
  }

  lemma {:induction false} TerminalsConcat(a: seq<Event>, b: seq<Event>)
    ensures Terminals(a + b) == Terminals(a) + Terminals(b)
  {
    if b == [] {
      assert a + b == a;
    } else {
      assert (a + b)[..|a + b| - 1] == a + b[..|b| - 1];
      TerminalsConcat(a, b[..|b| - 1]);
    }
  }

  lemma TerminalsOne(e: Event)
    ensures Terminals([e]) == if e.Result? || e.Interrupted? then 1 else 0
  {
    assert [e][..0] == [];
  }

  lemma {:induction false} AssistantQuiet(blocks: seq<Block>)
    ensures Terminals(FromAssistant(blocks)) == 0
  {
    if blocks != [] {
      var last := |blocks| - 1;
      AssistantQuiet(blocks[..last]);
      var before := FromAssistant(blocks[..last]);
      match blocks[last] {
        case TextBlock(text) =>
          TerminalsConcat(before, [TextEvent(text)]);
          TerminalsOne(TextEvent(text));
        case ToolUseBlock(id, name) =>
          TerminalsConcat(before, [ToolUse(id, name)]);
          TerminalsOne(ToolUse(id, name));
        case _ =>
          TerminalsConcat(before, []);
      }
    }
  }

  lemma {:induction false} UserQuiet(blocks: seq<Block>)
    ensures Terminals(FromUser(blocks)) == 0
  {
    if blocks != [] {
      var last := |blocks| - 1;
      UserQuiet(blocks[..last]);
      var before := FromUser(blocks[..last]);
      match blocks[last] {
        case ToolResultBlock(id, content, isError) =>
          TerminalsConcat(before, [ToolResult(id, content, isError)]);
          TerminalsOne(ToolResult(id, content, isError));
        case _ =>
          TerminalsConcat(before, []);
      }
    }
  }

  /** How many results of a stream are not suppressed. */
  function Shown(items: seq<Item>, suppress: bool): nat {
    if items == [] then 0
    else
      var before := items[..|items| - 1];
      Shown(before, suppress) + if items[|items| - 1].ResultMessage? && (Turns(before) > 0 || !suppress) then 1 else 0
  }

  lemma {:induction false} EmittedTerminals(items: seq<Item>, suppress: bool)
    ensures Terminals(Emitted(items, suppress)) == Shown(items, suppress)
  {
    if items != [] {
      var last := |items| - 1;
      var before, item := items[..last], items[last];
      EmittedTerminals(before, suppress);
      var more := EventsOf(item, Turns(before), suppress);
      TerminalsConcat(Emitted(before, suppress), more);
      match item {
        case Assistant(blocks) => AssistantQuiet(blocks);
        case User(blocks) => UserQuiet(blocks);
        case ResultMessage => TerminalsOne(Result(Turns(before), false));
        case _ =>
      }
    }
  }

  /** A stream with at most one result, which is the last thing delivered. */
  predicate ResultLast(items: seq<Item>) {
    forall i | 0 <= i < |items| - 1 :: !items[i].ResultMessage?
  }

  lemma {:induction false} NoneShown(items: seq<Item>, suppress: bool)
    requires !HasResult(items)
    ensures Shown(items, suppress) == 0
  {
    if items != [] {
      var before := items[..|items| - 1];
      assert !items[|items| - 1].ResultMessage?;
      assert forall i | 0 <= i < |before| :: before[i] == items[i];
      NoneShown(before, suppress);
    }
  }

  /** The only result is shown unless it is suppressed for want of a turn. */
  lemma LastShown(items: seq<Item>, suppress: bool)
    requires ResultLast(items)
    ensures Shown(items, suppress) == if HasResult(items) && (Turns(items) > 0 || !suppress) then 1 else 0
  {
    if items != [] {
      var before := items[..|items| - 1];
      NoneShown(before, suppress);
      if items[|items| - 1].ResultMessage? {
        assert Turns(items) == Turns(before);
      }
    }
  }

  lemma ErrorTerminals(turns: nat)
    ensures Terminals([ErrorEvent, Result(turns, true)]) == 1
  {
    TerminalsConcat([ErrorEvent], [Result(turns, true)]);
    TerminalsOne(ErrorEvent);
    TerminalsOne(Result(turns, true));
    assert [ErrorEvent] + [Result(turns, true)] == [ErrorEvent, Result(turns, true)];
  }

  lemma RanTerminals(q: Query, interrupt: Option<nat>, suppress: bool)
    ensures Terminals(Ran(q, interrupt, suppress).events)
         == if !q.accepted then 1
            else if Stopped(q, interrupt) then Shown(q.items[..interrupt.value], suppress)
            else Shown(q.items, suppress) + if HasResult(q.items) then 0 else 1
  {
    if !q.accepted {
      ErrorTerminals(0);
    } else if Stopped(q, interrupt) {
      EmittedTerminals(q.items[..interrupt.value], suppress);
    } else {
      EmittedTerminals(q.items, suppress);
      ErrorTerminals(Turns(q.items));
      TerminalsConcat(Emitted(q.items, suppress),
                      if HasResult(q.items) then [] else [ErrorEvent, Result(Turns(q.items), true)]);
    }
  }

  /** A prompt that is not suppressed ends in exactly one result. */
  lemma FollowUpEndsOnce(q: Query)
    requires ResultLast(q.items)
    ensures Terminals(Ran(q, None, false).events) == 1
  {
    RanTerminals(q, None, false);
    LastShown(q.items, false);
    NoneShownIf(q.items, false);
  }

  lemma NoneShownIf(items: seq<Item>, suppress: bool)
    ensures !HasResult(items) ==> Shown(items, suppress) == 0
  {
    if !HasResult(items) {
      NoneShown(items, suppress);
    }
  }

  /** Why a prompt may end twice: its query was refused, its interrupt came after its result was
      reported, or its stream ended with neither a turn nor a result, so that both the error
      and the follow-up are reported. */
  predicate EndsTwice(q: Query, interrupt: Option<nat>) {
    || !q.accepted
    || (Stopped(q, interrupt) && interrupt.value == |q.items| && HasResult(q.items) && Turns(q.items) > 0)
    || (!Stopped(q, interrupt) && Turns(q.items) == 0 && !HasResult(q.items))
  }

  lemma StoppedTerminals(q: Query, interrupt: Option<nat>)
    requires ResultLast(q.items) && Stopped(q, interrupt)
    ensures Shown(q.items[..interrupt.value], true)
         == if interrupt.value == |q.items| && HasResult(q.items) && Turns(q.items) > 0 then 1 else 0
  {
    var read := q.items[..interrupt.value];
    if interrupt.value == |q.items| {
      assert read == q.items;
      LastShown(q.items, true);
    } else {
      NoneShown(read, true);
    }
  }

  /** For streams whose only result comes last: every prompt ends in one terminal event or two,
      whatever stream errors are skipped; and in two exactly when `EndsTwice`. */
  lemma PromptEnds(q: Query, followUp: Query, interrupt: Option<nat>)
    requires ResultLast(q.items) && ResultLast(followUp.items)
    ensures Terminals(RanInterruptible(q, followUp, interrupt).events) == if EndsTwice(q, interrupt) then 2 else 1
  {
    var first := Ran(q, interrupt, true);
    RanTerminals(q, interrupt, true);
    if Stopped(q, interrupt) {
      StoppedTerminals(q, interrupt);
      TerminalsConcat(first.events, [Interrupted]);
      TerminalsOne(Interrupted);
    } else {
      LastShown(q.items, true);
      FollowUpEndsOnce(followUp);
      TerminalsConcat(first.events, Ran(followUp, None, false).events);
    }
  }

  // ----------------------------------------------------- streams whose result is not last

  lemma SameBefore(items: seq<Item>, n: nat)
    requires n <= |items|
    ensures forall i | 0 <= i < n :: items[..n][i] == items[i] && items[..n][..i] == items[..i]
  {
  }

  lemma {:induction false} ShownIff(items: seq<Item>)
    ensures Shown(items, true) > 0 <==> exists i | 0 <= i < |items| :: items[i].ResultMessage? && Turns(items[..i]) > 0
  {
    if items != [] {
      var last := |items| - 1;
      var before := items[..last];
      ShownIff(before);
      SameBefore(items, last);
    }
  }

  /** Without that assumption a prompt can end without any terminal event: exactly when it ran
      to its end, had turns, and had all its results before the first of them. */
  lemma PromptNeverEnds(q: Query, followUp: Query, interrupt: Option<nat>)
    requires ResultLast(followUp.items)
    ensures Terminals(RanInterruptible(q, followUp, interrupt).events) == 0 <==>
            && q.accepted && !Stopped(q, interrupt) && Turns(q.items) > 0 && HasResult(q.items)
            && forall i | 0 <= i < |q.items| && q.items[i].ResultMessage? :: Turns(q.items[..i]) == 0
  {
    var first := Ran(q, interrupt, true);
    RanTerminals(q, interrupt, true);
    ShownIff(q.items);
    if Stopped(q, interrupt) {
      TerminalsConcat(first.events, [Interrupted]);
      TerminalsOne(Interrupted);
    } else if first.turns == 0 {
      FollowUpEndsOnce(followUp);
      TerminalsConcat(first.events, Ran(followUp, None, false).events);
    }
  }
}
