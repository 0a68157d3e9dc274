/**
 * The dispatcher for input that queued up during a mouse drag: ordinary bytes
 * are gathered, and motions may be merged, before the handlers see them.
 */
module Dispatch {
  import opened Common
  import opened Mouse

  /** A call of the byte handler or of the mouse handler. */
  datatype Delivery = Bytes(data: seq<byte>) | Pointer(event: Event)

  // ----- what may be delivered -----

  /** What the handlers would get if every piece were passed on at once. */
  function Immediate(pieces: seq<Piece>): seq<Delivery> {
    if pieces == [] then []
    else Immediate(pieces[..|pieces| - 1]) + Single(pieces[|pieces| - 1])
  }

  function Single(piece: Piece): seq<Delivery> {
    match piece
    case Report(_, e) => [Pointer(e)]
    case Flushed(bytes) => if bytes == [] then [] else [Bytes(bytes)]
    case _ => []
  }

  predicate IsMotion(d: Delivery) {
    d.Pointer? && d.event.action == Motion
  }

  /** Bytes join bytes, motions join motions. */
  predicate Joins(d: Delivery, next: Delivery) {
    (d.Bytes? && next.Bytes?) || (IsMotion(d) && IsMotion(next))
  }

  /** A merged motion starts where the first one did and is otherwise the last one. */
  function Joined(d: Delivery, next: Delivery): Delivery
    requires Joins(d, next)
  {
    match next
    case Bytes(data) => Bytes(d.data + data)
    case Pointer(e) => Pointer(e.(lastX := d.event.lastX, lastY := d.event.lastY))
  }

  predicate JoinsTo(d: Delivery, next: Delivery, result: Delivery) {
    Joins(d, next) && result == Joined(d, next)
  }

  /** `log` delivers `items` in order, each on its own or joined to the one before it. */
  ghost predicate Delivers(items: seq<Delivery>, log: seq<Delivery>)
    decreases |items|
  {
    if items == [] || log == [] then items == [] && log == []
    else
      var front, item := items[..|items| - 1], items[|items| - 1];
      var before, latest := log[..|log| - 1], log[|log| - 1];
      || (latest == item && Delivers(front, before))
      || exists d :: JoinsTo(d, item, latest) && Delivers(front, before + [d])
  }

  lemma DeliverAlone(items: seq<Delivery>, log: seq<Delivery>, item: Delivery)
    requires Delivers(items, log)
    ensures Delivers(items + [item], log + [item])
  {
    assert (items + [item])[..|items|] == items && (log + [item])[..|log|] == log;
  }

  lemma DeliverJoined(items: seq<Delivery>, log: seq<Delivery>, d: Delivery, item: Delivery)
    requires Delivers(items, log + [d]) && Joins(d, item)
    ensures Delivers(items + [item], log + [Joined(d, item)])
  {
    var all := log + [Joined(d, item)];
    assert (items + [item])[..|items|] == items && all[..|log|] == log;
    assert JoinsTo(d, item, all[|log|]);
  }

  // ----- what that means for the handlers -----

  type Position = Option<(int, int)>

  /** Where the pointer is after a log, starting from `last`. */
  function Place(last: Position, log: seq<Delivery>): Position {
    if log == [] then last
    else
      match log[|log| - 1]
      case Pointer(e) => Some((e.x, e.y))
      case Bytes(_) => Place(last, log[..|log| - 1])
  }

  predicate Continues(e: Event, at: Position) {
    at.Some? ==> (e.lastX, e.lastY) == at.value
  }

  /** Each event starts where the event before it ended. */
  ghost predicate Linked(last: Position, log: seq<Delivery>) {
    log != [] ==>
      var before, latest := log[..|log| - 1], log[|log| - 1];
      Linked(last, before) && (latest.Pointer? ==> Continues(latest.event, Place(last, before)))
  }

  datatype Item = Key(b: byte) | Click(event: Event)

  function Keys(data: seq<byte>, at: Position): seq<(Position, Item)> {
    seq(|data|, i requires 0 <= i < |data| => (at, Key(data[i])))
  }

  /** Everything but motions, with the pointer position at which it was delivered. */
  function Story(last: Position, log: seq<Delivery>): seq<(Position, Item)> {
    if log == [] then []
    else
      var before, latest := log[..|log| - 1], log[|log| - 1];
      var at := Place(last, before);
      Story(last, before) +
      match latest
      case Bytes(data) => Keys(data, at)
      case Pointer(e) => if e.action == Motion then [] else [(at, Click(e))]
  }

  /** Horizontal and vertical distance covered. */
  function Travel(log: seq<Delivery>): (int, int) {
    if log == [] then (0, 0)
    else
      var (x, y) := Travel(log[..|log| - 1]);
      match log[|log| - 1]
      case Bytes(_) => (x, y)
      case Pointer(e) => (x + e.x - e.lastX, y + e.y - e.lastY)
  }

  /** The handlers cannot tell `log` from `items`, except for motions passed over. */
  ghost predicate SameStory(last: Position, items: seq<Delivery>, log: seq<Delivery>) {
    && Place(last, log) == Place(last, items)
    && Story(last, log) == Story(last, items)
    && Travel(log) == Travel(items)
    && Linked(last, log)
  }

  lemma {:induction false} LogSnoc(last: Position, before: seq<Delivery>, latest: Delivery)
    ensures var log := before + [latest]; var at := Place(last, before);
      && Place(last, log) == (if latest.Pointer? then Some((latest.event.x, latest.event.y)) else at)
      && Story(last, log) == Story(last, before) +
         (match latest case Bytes(data) => Keys(data, at) case Pointer(e) => if e.action == Motion then [] else [(at, Click(e))])
      && Travel(log) == (match latest
                         case Bytes(_) => Travel(before)
                         case Pointer(e) => (Travel(before).0 + e.x - e.lastX, Travel(before).1 + e.y - e.lastY))
      && (Linked(last, log) <==> Linked(last, before) && (latest.Pointer? ==> Continues(latest.event, at)))
  {
    var log := before + [latest];
    assert log[..|log| - 1] == before;
  }

  lemma {:induction false} AloneSame(last: Position, items: seq<Delivery>, log: seq<Delivery>, item: Delivery)
    requires SameStory(last, items, log) && Linked(last, items + [item])
    ensures SameStory(last, items + [item], log + [item])
  {
    hide Place;
    hide Story;
    hide Travel;
    hide Linked;
    LogSnoc(last, items, item);
    LogSnoc(last, log, item);
  }

  lemma {:induction false} JoinedBytesSame(last: Position, items: seq<Delivery>, log: seq<Delivery>, d: Delivery, item: Delivery)
    requires SameStory(last, items, log + [d]) && d.Bytes? && item.Bytes?
    ensures SameStory(last, items + [item], log + [Joined(d, item)])
  {
    hide Place;
    hide Story;
    hide Travel;
    hide Linked;
    LogSnoc(last, items, item);
    LogSnoc(last, log, d);
    LogSnoc(last, log, Joined(d, item));
    var at := Place(last, log);
    assert Keys(d.data + item.data, at) == Keys(d.data, at) + Keys(item.data, at);
    assert Story(last, log) + (Keys(d.data, at) + Keys(item.data, at)) == (Story(last, log) + Keys(d.data, at)) + Keys(item.data, at);
  }

  lemma {:induction false} JoinedMotionSame(last: Position, items: seq<Delivery>, log: seq<Delivery>, d: Delivery, item: Delivery)
    requires SameStory(last, items, log + [d]) && Linked(last, items + [item]) && IsMotion(d) && IsMotion(item)
    ensures SameStory(last, items + [item], log + [Joined(d, item)])
  {
    hide Place;
    hide Story;
    hide Travel;
    hide Linked;
    LogSnoc(last, items, item);
    LogSnoc(last, log, d);
    LogSnoc(last, log, Joined(d, item));
  }

  /**
   * Whatever is joined, bytes and clicks arrive in order and with the
   * pointer at the same place, the total motion is the same, and each event
   * delivered starts where the one before ended.
   */
  lemma {:induction false} JoiningPreserves(last: Position, items: seq<Delivery>, log: seq<Delivery>)
    requires Delivers(items, log) && Linked(last, items)
    ensures SameStory(last, items, log)
    decreases |items|
  {
    hide SameStory;
    hide Place;
    hide Story;
    hide Travel;
    hide Linked;
    if items == [] {
      EmptySame(last);
    } else {
      var front, item := items[..|items| - 1], items[|items| - 1];
      var before, latest := log[..|log| - 1], log[|log| - 1];
      assert items == front + [item] && log == before + [latest];
      LogSnoc(last, front, item);
      if latest == item && Delivers(front, before) {
        JoiningPreserves(last, front, before);
        AloneSame(last, front, before, item);
      } else {
        var d :| JoinsTo(d, item, latest) && Delivers(front, before + [d]);
        JoiningPreserves(last, front, before + [d]);
        if d.Bytes? {
          JoinedBytesSame(last, front, before, d, item);
        } else {
          JoinedMotionSame(last, front, before, d, item);
        }
      }
    }
  }

  lemma EmptySame(last: Position)
    ensures SameStory(last, [], [])
  {
  }

  // ----- the parser's events are linked -----

  lemma {:induction false} RunSnoc(p: State, inputs: seq<Input>, input: Input)
    requires Valid(p)
    ensures var (end, pieces) := Run(p, inputs);
      && Valid(end)
      && Run(p, inputs + [input]) == (Take(end, input).0, pieces + [Take(end, input).1])
    decreases |inputs|
  {
    hide Take;
    hide Valid;
    if inputs == [] {
      var all := inputs + [input];
      TakeValid(p, input);
      assert all[0] == input && all[1..] == [];
      var (next, piece) := Take(p, input);
      assert Run(next, all[1..]) == (next, []);
      assert Run(p, inputs) == (p, []);
      assert [piece] + [] == [] + [piece];
    } else {
      TakeValid(p, inputs[0]);
      assert (inputs + [input])[1..] == inputs[1..] + [input];
      var (next, piece) := Take(p, inputs[0]);
      RunSnoc(next, inputs[1..], input);
      var (end, pieces) := Run(next, inputs[1..]);
      assert [piece] + (pieces + [Take(end, input).1]) == ([piece] + pieces) + [Take(end, input).1];
    }
  }

  /** What would be delivered at once over a whole input. */
  function Direct(p: State, inputs: seq<Input>): seq<Delivery>
    requires Valid(p)
  {
    Immediate(Run(p, inputs).1)
  }

  lemma {:induction false} DirectSnoc(p: State, inputs: seq<Input>, input: Input)
    requires Valid(p)
    ensures Valid(Run(p, inputs).0)
    ensures Direct(p, inputs + [input]) == Direct(p, inputs) + Single(Take(Run(p, inputs).0, input).1)
  {
    hide Run;
    hide Take;
    hide Valid;
    RunSnoc(p, inputs, input);
    var pieces := Run(p, inputs).1;
    var piece := Take(Run(p, inputs).0, input).1;
    assert (pieces + [piece])[..|pieces|] == pieces;
  }

  lemma {:induction false} AddLinked(last: Position, items: seq<Delivery>, p: State, input: Input)
    requires Valid(p) && Linked(last, items) && Place(last, items) == p.last
    ensures var (next, piece) := Take(p, input); var all := items + Single(piece);
      Linked(last, all) && Place(last, all) == next.last
  {
    hide Take;
    hide Valid;
    hide Place;
    hide Linked;
    TakeLast(p, input);
    var piece := Take(p, input).1;
    if Single(piece) == [] {
      assert items + [] == items;
    } else {
      LogSnoc(last, items, Single(piece)[0]);
    }
  }

  /** The reports the parser finds start where the previous one was. */
  lemma {:induction false} DirectLinked(p: State, inputs: seq<Input>)
    requires Valid(p)
    ensures Linked(p.last, Direct(p, inputs)) && Place(p.last, Direct(p, inputs)) == Run(p, inputs).0.last
    decreases |inputs|
  {
    hide Take;
    hide Valid;
    hide Place;
    hide Linked;
    hide Run;
    hide Direct;
    if inputs == [] {
      DirectNone(p);
      assert inputs == [];
    } else {
      var front, input := inputs[..|inputs| - 1], inputs[|inputs| - 1];
      DirectLinked(p, front);
      assert inputs == front + [input];
      RunSnoc(p, front, input);
      DirectSnoc(p, front, input);
      AddLinked(p.last, Direct(p, front), Run(p, front).0, input);
    }
  }

  lemma DirectNone(p: State)
    requires Valid(p)
    ensures Direct(p, []) == [] && Run(p, []).0 == p && Linked(p.last, []) && Place(p.last, []) == p.last
  {
  }

  /** Any grouped delivery of what the parser finds tells the same story as immediate delivery. */
  lemma {:induction false} DeliveryFaithful(p: State, inputs: seq<Input>, log: seq<Delivery>)
    requires Valid(p) && Delivers(Direct(p, inputs), log)
    ensures SameStory(p.last, Direct(p, inputs), log)
  {
    DirectLinked(p, inputs);
    JoiningPreserves(p.last, Direct(p, inputs), log);
  }

  // ----- the dispatcher -----

  function Inputs(chunks: seq<seq<byte>>): seq<Input> {
    if chunks == [] then []
    else Inputs(chunks[..|chunks| - 1]) + Typed(chunks[|chunks| - 1]) + [ReadEnd]
  }

  /** Byte handler calls do not follow each other directly. */
  ghost predicate BytesGathered(log: seq<Delivery>) {
    forall i :: 0 < i < |log| ==> !(log[i - 1].Bytes? && log[i].Bytes?)
  }

  function Held(motion: Option<Event>, bytes: seq<byte>): seq<Delivery> {
    if motion.Some? then [Pointer(motion.value)] else if bytes != [] then [Bytes(bytes)] else []
  }

  /** What was delivered and what is held back, against the input so far; never both a motion and bytes. */
  ghost predicate Holding(items: seq<Delivery>, log: seq<Delivery>, motion: Option<Event>, bytes: seq<byte>) {
    && (motion.Some? ==> bytes == [] && motion.value.action == Motion)
    && Delivers(items, log + Held(motion, bytes))
    && BytesGathered(log + Held(motion, bytes))
  }

  /** With nothing held back, the last delivery was not of bytes. */
  ghost predicate Settled(log: seq<Delivery>, motion: Option<Event>, bytes: seq<byte>) {
    motion == None && bytes == [] && log != [] ==> log[|log| - 1].Pointer?
  }

  lemma GatherSame(log: seq<Delivery>, d: Delivery, e: Delivery)
    requires BytesGathered(log + [d]) && d.Bytes? == e.Bytes?
    ensures BytesGathered(log + [e])
  {
    forall i | 0 < i < |log| + 1 ensures !((log + [e])[i - 1].Bytes? && (log + [e])[i].Bytes?) {
      assert (log + [d])[i - 1] == (log + [e])[i - 1];
      assert i < |log| ==> (log + [d])[i] == (log + [e])[i];
      assert i == |log| ==> (log + [d])[i] == d && (log + [e])[i] == e;
      assert !((log + [d])[i - 1].Bytes? && (log + [d])[i].Bytes?);
    }
  }

  lemma {:induction false} AddBytes(items: seq<Delivery>, log: seq<Delivery>, motion: Option<Event>, bytes: seq<byte>, more: seq<byte>)
    requires Holding(items, log, motion, bytes) && Settled(log, motion, bytes) && more != []
    ensures Holding(items + [Bytes(more)], log + Held(motion, []), None, bytes + more)
  {
    hide Delivers;
    var held := Held(motion, bytes);
    if bytes == [] {
      DeliverAlone(items, log + held, Bytes(more));
      assert [] + more == more;
      assert log + Held(motion, []) == log + held;
      if held == [] {
        assert log + [] == log;
      }
    } else {
      DeliverJoined(items, log, Bytes(bytes), Bytes(more));
      GatherSame(log, Bytes(bytes), Bytes(bytes + more));
      assert log + Held(motion, []) == log;
    }
  }

  lemma {:induction false} AddEvent(items: seq<Delivery>, log: seq<Delivery>, motion: Option<Event>, e: Event)
    requires Holding(items, log, motion, [])
    ensures Holding(items + [Pointer(e)], log + Held(motion, []) + [Pointer(e)], None, [])
  {
    hide Delivers;
    var shown := log + Held(motion, []);
    DeliverAlone(items, shown, Pointer(e));
    assert shown + [Pointer(e)] + [] == shown + [Pointer(e)];
  }

  lemma {:induction false} AddMotion(items: seq<Delivery>, log: seq<Delivery>, motion: Option<Event>, e: Event)
    requires Holding(items, log, motion, []) && e.action == Motion
    ensures motion == None ==> Holding(items + [Pointer(e)], log, Some(e), [])
    ensures motion.Some? ==>
      Holding(items + [Pointer(e)], log, Some(e.(lastX := motion.value.lastX, lastY := motion.value.lastY)), [])
  {
    hide Delivers;
    if motion == None {
      assert log + [] == log;
      DeliverAlone(items, log, Pointer(e));
    } else {
      DeliverJoined(items, log, Pointer(motion.value), Pointer(e));
      GatherSame(log, Pointer(motion.value), Joined(Pointer(motion.value), Pointer(e)));
    }
  }

  lemma {:induction false} HandOver(items: seq<Delivery>, log: seq<Delivery>, motion: Option<Event>, bytes: seq<byte>)
    requires Holding(items, log, motion, bytes)
    ensures Holding(items, log + Held(motion, bytes), None, [])
  {
    hide Delivers;
    assert log + Held(motion, bytes) + [] == log + Held(motion, bytes);
  }

  /** The pending bytes go to the handler, which may ask to exit. */
  method FlushBufferedBytes(bytes: seq<byte>) returns (delivered: seq<Delivery>, exit: bool)
    ensures delivered == Held(None, bytes)
    ensures exit ==> bytes != []
  {
    delivered, exit := [], false;
    if |bytes| > 0 {
      delivered := [Bytes(bytes)];
      exit := *;
    }
  }

  /**
   * An event goes out at once, after a motion held back, unless it is a
   * motion and the handler wants motions merged.
   */
  method DispatchMouse(ghost items: seq<Delivery>, log: seq<Delivery>, motion: Option<Event>, e: Event)
    returns (log': seq<Delivery>, motion': Option<Event>)
    requires Holding(items, log, motion, [])
    ensures Holding(items + [Pointer(e)], log', motion', []) && Settled(log', motion', [])
  {
    var merge: bool := *;
    if e.action != Motion || !merge {
      AddEvent(items, log, motion, e);
      log', motion' := log + Held(motion, []) + [Pointer(e)], None;
    } else {
      AddMotion(items, log, motion, e);
      log' := log;
      motion' := if motion == None then Some(e)
                 else Some(e.(lastX := motion.value.lastX, lastY := motion.value.lastY));
    }
  }

  /** The parser has read `read` from `start`; what that amounts to is delivered or held back. */
  ghost predicate InStep(p: State, start: State, read: seq<Input>, log: seq<Delivery>, motion: Option<Event>, bytes: seq<byte>) {
    && Valid(start) && p == Run(start, read).0
    && Holding(Direct(start, read), log, motion, bytes) && Settled(log, motion, bytes)
  }

  /** The handler asked to exit when bytes were handed to it because of the report that `input` completes. */
  ghost predicate ExitedBefore(start: State, read: seq<Input>, input: Input, log: seq<Delivery>)
    requires Valid(start)
  {
    && Delivers(Direct(start, read), log) && BytesGathered(log)
    && log != [] && log[|log| - 1].Bytes?
    && Take(Run(start, read).0, input).1.Report?
  }

  lemma {:induction false} InStepNext(p: State, start: State, read: seq<Input>, input: Input,
                                      log: seq<Delivery>, motion: Option<Event>, bytes: seq<byte>)
    requires InStep(p, start, read, log, motion, bytes)
    ensures Valid(p) && Run(start, read + [input]).0 == Take(p, input).0
    ensures Direct(start, read + [input]) == Direct(start, read) + Single(Take(p, input).1)
    ensures Single(Take(p, input).1) == [] ==> InStep(Take(p, input).0, start, read + [input], log, motion, bytes)
  {
    hide Take;
    hide Valid;
    hide Holding;
    RunSnoc(start, read, input);
    DirectSnoc(start, read, input);
    assert Direct(start, read) + [] == Direct(start, read);
  }

  method DispatchFlushed(ghost p: State, ghost start: State, ghost read: seq<Input>, ghost input: Input, log: seq<Delivery>,
                         motion: Option<Event>, bytes: seq<byte>, flushed: seq<byte>)
    returns (log': seq<Delivery>, motion': Option<Event>, bytes': seq<byte>)
    requires InStep(p, start, read, log, motion, bytes) && Valid(p)
    requires Single(Take(p, input).1) == if flushed == [] then [] else [Bytes(flushed)]
    ensures InStep(Take(p, input).0, start, read + [input], log', motion', bytes')
  {
    hide Take;
    hide Valid;
    hide Holding;
    InStepNext(p, start, read, input, log, motion, bytes);
    log', motion', bytes' := log, motion, bytes;
    if |flushed| > 0 {
      AddBytes(Direct(start, read), log, motion, bytes, flushed);
      log' := log + Held(motion, []);
      motion', bytes' := None, bytes + flushed;
    }
  }

  lemma FedSingle(p: State, b: byte)
    requires Valid(p)
    ensures Take(p, Byte(b)) == Step(p, b)
  {
  }

  method DispatchByte(parser: Parser, ghost start: State, ghost read: seq<Input>, log: seq<Delivery>,
                      motion: Option<Event>, bytes: seq<byte>, b: byte)
    returns (log': seq<Delivery>, motion': Option<Event>, bytes': seq<byte>, exit: bool)
    requires InStep(parser.View(), start, read, log, motion, bytes) && Valid(parser.View())
    modifies parser
    ensures Valid(parser.View())
    ensures !exit ==> InStep(parser.View(), start, read + [Byte(b)], log', motion', bytes')
    ensures exit ==> ExitedBefore(start, read, Byte(b), log')
  {
    hide Take;
    hide Step;
    hide Holding;
    ghost var p := parser.View();
    ghost var items := Direct(start, read);
    InStepNext(p, start, read, Byte(b), log, motion, bytes);
    FedSingle(p, b);
    exit := false;
    log', motion', bytes' := log, motion, bytes;
    var event, flushed := parser.Feed(b);
    if event.Some? {
      var delivered;
      delivered, exit := FlushBufferedBytes(bytes);
      BeforeEvent(items, log, motion, bytes);
      log', bytes' := log + delivered, [];
      if exit {
        ExitNow(items, log, motion, bytes);
        return;
      }
      log', motion' := DispatchMouse(items, log', motion, event.value);
    } else {
      log', motion', bytes' := DispatchFlushed(p, start, read, Byte(b), log, motion, bytes, flushed);
    }
  }

  /** Handing over the bytes leaves at most a motion held back. */
  lemma {:induction false} BeforeEvent(items: seq<Delivery>, log: seq<Delivery>, motion: Option<Event>, bytes: seq<byte>)
    requires Holding(items, log, motion, bytes)
    ensures Holding(items, log + Held(None, bytes), motion, [])
  {
    hide Delivers;
    if motion == None {
      HandOver(items, log, motion, bytes);
    } else {
      assert log + [] == log;
    }
  }

  lemma {:induction false} ExitNow(items: seq<Delivery>, log: seq<Delivery>, motion: Option<Event>, bytes: seq<byte>)
    requires Holding(items, log, motion, bytes) && bytes != []
    ensures var all := log + Held(None, bytes); Delivers(items, all) && BytesGathered(all) && all[|all| - 1].Bytes?
  {
  }

  /**
   * `read` is the input acted on. Without exit it is all of it, and nothing
   * is held back at the end. On exit, what was acted on is delivered, the last
   * call being the one that asked for it; only the report that prompted
   * that call is dropped besides the unread rest.
   */
  method DispatchQueuedMouseInputChunks(parser: Parser, chunks: seq<seq<byte>>)
    returns (log: seq<Delivery>, exit: bool, ghost read: seq<Input>)
    requires Valid(parser.View())
    modifies parser
    ensures Valid(parser.View())
    ensures read <= Inputs(chunks)
    ensures Delivers(Direct(old(parser.View()), read), log) && BytesGathered(log)
    ensures SameStory(old(parser.View()).last, Direct(old(parser.View()), read), log)
    ensures !exit ==> read == Inputs(chunks) && parser.View() == Run(old(parser.View()), read).0
    ensures exit ==> log != [] && log[|log| - 1].Bytes?
    ensures exit && read != Inputs(chunks) ==>
      |read| < |Inputs(chunks)| && ExitedBefore(old(parser.View()), read, Inputs(chunks)[|read|], log)
  {
    hide Holding;
    hide Take;
    hide Delivers;
    hide BytesGathered;
    hide Settled;
    hide Valid;
    hide ExitedBefore;
    hide SameStory;
    hide Run;
    hide Direct;
    ghost var start := parser.View();
    log, read, exit := [], [], false;
    var motion: Option<Event>, bytes: seq<byte> := None, [];
    InStepFirst(start);
    for k := 0 to |chunks|
      invariant Valid(parser.View()) && read == Inputs(chunks[..k])
      invariant InStep(parser.View(), start, read, log, motion, bytes)
    {
      var chunk := chunks[k];
      ghost var base := read;
      assert base + Typed(chunk)[..0] == base;
      for i := 0 to |chunk|
        invariant Valid(parser.View()) && read == base + Typed(chunk)[..i]
        invariant InStep(parser.View(), start, read, log, motion, bytes)
      {
        NextInput(chunks, k, i);
        log, motion, bytes, exit := DispatchByte(parser, start, read, log, motion, bytes, chunk[i]);
        if exit {
          ExitFacts(start, read, Byte(chunk[i]), log);
          DeliveryFaithful(start, read, log);
          return;
        }
        assert base + Typed(chunk)[..i + 1] == read + [Byte(chunk[i])];
        read := read + [Byte(chunk[i])];
      }
      ghost var p := parser.View();
      var flushed := parser.FlushPending();
      EndSingle(p);
      log, motion, bytes := DispatchFlushed(p, start, read, ReadEnd, log, motion, bytes, flushed);
      read := read + [ReadEnd];
      assert chunks[..k + 1][..k] == chunks[..k] && Typed(chunk)[..|chunk|] == Typed(chunk);
    }
    assert chunks[..|chunks|] == chunks;
    var delivered;
    delivered, exit := FlushBufferedBytes(bytes);
    LastDeliveries(Direct(start, read), log, motion, bytes);
    log := log + delivered;
    log := log + Held(motion, []);
    DeliveryFaithful(start, read, log);
  }

  lemma InStepFirst(start: State)
    requires Valid(start)
    ensures InStep(start, start, [], [], None, [])
  {
    var none: seq<Delivery> := [];
    assert none + [] == none;
  }

  lemma EndSingle(p: State)
    requires Valid(p)
    ensures Take(p, ReadEnd) == EndRead(p)
    ensures var piece := EndRead(p).1;
      Single(piece) == if piece.Flushed? && piece.bytes != [] then [Bytes(piece.bytes)] else []
  {
  }

  lemma ExitFacts(start: State, read: seq<Input>, input: Input, log: seq<Delivery>)
    requires Valid(start) && ExitedBefore(start, read, input, log)
    ensures Delivers(Direct(start, read), log) && BytesGathered(log) && log != [] && log[|log| - 1].Bytes?
  {
  }

  lemma {:induction false} LastDeliveries(items: seq<Delivery>, log: seq<Delivery>, motion: Option<Event>, bytes: seq<byte>)
    requires Holding(items, log, motion, bytes)
    ensures var all := log + Held(None, bytes) + Held(motion, []);
      && Delivers(items, all) && BytesGathered(all)
      && (bytes != [] ==> motion == None && all != [] && all[|all| - 1].Bytes?)
  {
    hide Delivers;
    var all := log + Held(None, bytes) + Held(motion, []);
    assert all == log + Held(motion, bytes);
  }

  lemma {:induction false} NextInput(chunks: seq<seq<byte>>, k: nat, i: nat)
    requires k < |chunks| && i < |chunks[k]|
    ensures Inputs(chunks[..k]) + Typed(chunks[k])[..i] + [Byte(chunks[k][i])] <= Inputs(chunks)
  {
    InputsPrefix(chunks, k + 1);
    assert chunks[..k + 1][..k] == chunks[..k];
    assert Typed(chunks[k])[..i] + [Byte(chunks[k][i])] <= Typed(chunks[k]);
  }

  lemma {:induction false} InputsPrefix(chunks: seq<seq<byte>>, k: nat)
    requires k <= |chunks|
    ensures Inputs(chunks[..k]) <= Inputs(chunks)
    decreases |chunks|
  {
    if k == |chunks| {
      assert chunks[..k] == chunks;
    } else {
      var n := |chunks| - 1;
      InputsPrefix(chunks[..n], k);
      assert chunks[..n][..k] == chunks[..k];
    }
  }
}
