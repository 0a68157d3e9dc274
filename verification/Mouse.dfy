/**
 * The parser that picks SGR mouse reports (ESC [ < Cb ; Cx ; Cy M or m) out
 * of terminal input. Bytes that turn out not to be a report are handed back.
 */
module Mouse {
  import opened Common

  const EscByte: byte := 27
  const Semicolon: byte := 59
  const MaxInt: int := 0x7fff_ffff_ffff_ffff

  datatype Button = Left | Middle | Right | NoButton | ScrollUp | ScrollDown | ScrollLeft | ScrollRight

  datatype Action = Press | Release | Motion

  datatype Event = Event(
    button: Button, action: Action,
    x: int, y: int, lastX: int, lastY: int,
    shift: bool, alt: bool, ctrl: bool
  )

  // ----- parameters -----

  /** The pieces between semicolons. */
  function Split(s: seq<byte>): (r: seq<seq<byte>>)
    ensures |r| > 0
  {
    if s == [] then [[]]
    else
      var rest := Split(s[1..]);
      if s[0] == Semicolon then [[]] + rest else [[s[0]] + rest[0]] + rest[1..]
  }

  function Join(parts: seq<seq<byte>>): seq<byte>
    requires |parts| > 0
  {
    if |parts| == 1 then parts[0] else parts[0] + [Semicolon] + Join(parts[1..])
  }

  /** Splitting undoes joining of parts that hold no semicolon. */
  lemma {:induction false} SplitJoin(parts: seq<seq<byte>>)
    requires |parts| > 0 && forall i :: 0 <= i < |parts| ==> Semicolon !in parts[i]
    ensures Split(Join(parts)) == parts
    decreases |parts|, |parts[0]|
  {
    var head := parts[0];
    if head == [] {
      if |parts| > 1 {
        SplitJoin(parts[1..]);
        assert Join(parts) == [Semicolon] + Join(parts[1..]);
        assert Join(parts)[1..] == Join(parts[1..]);
        assert parts == [[]] + parts[1..];
      } else {
        assert parts == [[]];
      }
    } else {
      var shorter := [head[1..]] + parts[1..];
      assert shorter[1..] == parts[1..];
      assert forall i :: 0 < i < |shorter| ==> shorter[i] == parts[i];
      SplitJoin(shorter);
      assert Join(parts) == [head[0]] + Join(shorter);
      assert Join(parts)[1..] == Join(shorter);
      assert [head[0]] + head[1..] == head;
      assert parts == [head] + parts[1..];
    }
  }

  /** One more byte starts a new part or extends the last one. */
  function Extend(parts: seq<seq<byte>>, b: byte): seq<seq<byte>>
    requires |parts| > 0
  {
    if b == Semicolon then parts + [[]] else parts[..|parts| - 1] + [parts[|parts| - 1] + [b]]
  }

  lemma {:induction false} SplitAppend(s: seq<byte>, b: byte)
    ensures Split(s + [b]) == Extend(Split(s), b)
  {
    if s == [] {
      assert s + [b] == [b] && [b][1..] == [];
      assert Split([b][1..]) == [[]];
      assert [b] + [] == [b];
    } else {
      assert (s + [b])[0] == s[0] && (s + [b])[1..] == s[1..] + [b];
      SplitAppend(s[1..], b);
      ExtendLater(s[0], Split(s[1..]), b);
    }
  }

  lemma ExtendLater(first: byte, rest: seq<seq<byte>>, b: byte)
    requires |rest| > 0
    ensures var grown := Extend(rest, b);
      && [[]] + grown == Extend([[]] + rest, b)
      && [[first] + grown[0]] + grown[1..] == Extend([[first] + rest[0]] + rest[1..], b)
  {
    ExtendAfter([], rest, b);
    var tail := rest[1..];
    if tail == [] {
      assert rest == [rest[0]];
      assert [first] + (rest[0] + [b]) == ([first] + rest[0]) + [b];
    } else {
      assert rest == [rest[0]] + tail;
      ExtendAfter(rest[0], tail, b);
      ExtendAfter([first] + rest[0], tail, b);
    }
  }

  /** With parts to come, the first one is not touched. */
  lemma ExtendAfter(head: seq<byte>, rest: seq<seq<byte>>, b: byte)
    requires |rest| > 0
    ensures Extend([head] + rest, b) == [head] + Extend(rest, b)
  {
    var n := |rest| - 1;
    assert ([head] + rest)[..n + 1] == [head] + rest[..n];
  }

  method SplitSemicolons(s: seq<byte>) returns (parts: seq<seq<byte>>)
    ensures parts == Split(s)
  {
    parts := [];
    var start := 0;
    for i := 0 to |s|
      invariant 0 <= start <= i
      invariant Split(s[..i]) == parts + [s[start..i]]
    {
      SplitAppend(s[..i], s[i]);
      assert s[..i] + [s[i]] == s[..i + 1];
      if s[i] == Semicolon {
        parts := parts + [s[start..i]];
        start := i + 1;
        assert s[start..i + 1] == [];
      } else {
        assert s[start..i] + [s[i]] == s[start..i + 1];
      }
    }
    parts := parts + [s[start..]];
    assert s[..|s|] == s && s[start..|s|] == s[start..];
  }

  predicate IsDigit(b: byte) {
    48 <= b <= 57
  }

  predicate AllDigits(s: seq<byte>) {
    forall i :: 0 <= i < |s| ==> IsDigit(s[i])
  }

  function DigitValue(b: byte): nat {
    if IsDigit(b) then b - 48 else 0
  }

  function Value(digits: seq<byte>): int {
    Number(seq(|digits|, i requires 0 <= i < |digits| => DigitValue(digits[i])))
  }

  /** strconv.Atoi: an optional sign, at least one digit, within 64 bits. */
  function Atoi(s: seq<byte>): Option<int> {
    var signed := s != [] && (s[0] == 43 || s[0] == 45);
    var digits := if signed then s[1..] else s;
    if digits == [] || !AllDigits(digits) then None
    else
      var v := if signed && s[0] == 45 then -Value(digits) else Value(digits);
      if -MaxInt - 1 <= v <= MaxInt then Some(v) else None
  }

  /** Bit k of a two's complement number, k given by its weight. */
  predicate Bit(x: int, weight: nat)
    requires weight > 0
  {
    x / weight % 2 == 1
  }

  /** The number with bits 2 to 5 cleared. */
  function ButtonBits(cb: int): int {
    cb / 64 * 64 + cb % 4
  }

  function ButtonOf(cb: int): Button {
    match ButtonBits(cb)
    case 0 => Left
    case 1 => Middle
    case 2 => Right
    case 3 => NoButton
    case 64 => ScrollUp
    case 65 => ScrollDown
    case 66 => ScrollLeft
    case 67 => ScrollRight
    case _ => NoButton
  }

  function EventOf(cb: int, cx: int, cy: int, isRelease: bool): Event {
    Event(ButtonOf(cb), if isRelease then Release else if Bit(cb, 32) then Motion else Press,
          cx - 1, cy - 1, 0, 0, Bit(cb, 4), Bit(cb, 8), Bit(cb, 16))
  }

  function ParseParams(params: seq<byte>, isRelease: bool): Option<Event> {
    var parts := Split(params);
    if |parts| != 3 then None
    else
      match (Atoi(parts[0]), Atoi(parts[1]), Atoi(parts[2]))
      case (Some(cb), Some(cx), Some(cy)) => Some(EventOf(cb, cx, cy, isRelease))
      case _ => None
  }

  // ----- the parser, as a function of its state -----

  datatype ParseState = Ground | Esc | Bracket | Lt | Csi | Params

  datatype State = State(state: ParseState, buf: seq<byte>, last: Option<(int, int)>)

  /** What one byte leads to; `raw` is the input a report was made of. */
  datatype Piece =
    | Nothing
    | Flushed(bytes: seq<byte>)
    | Report(raw: seq<byte>, event: Event)
    | Malformed(raw: seq<byte>)

  predicate IsFinal(b: byte) { 0x40 <= b <= 0x7e }
  predicate IsIntermediate(b: byte) { 0x20 <= b <= 0x2f }
  predicate IsParam(b: byte) { 0x30 <= b <= 0x3f }

  function Grow(p: State, state: ParseState, b: byte): (State, Piece) {
    (p.(state := state, buf := p.buf + [b]), Nothing)
  }

  /** Back to the ground state, returning the buffer and the extra byte, unless that is NUL. */
  function GiveBack(p: State, extra: byte): (State, Piece) {
    (p.(state := Ground, buf := []), Flushed(if extra == 0 then p.buf else p.buf + [extra]))
  }

  function GiveBackAll(p: State, b: byte): (State, Piece) {
    GiveBack(p.(buf := p.buf + [b]), 0)
  }

  function Located(e: Event, last: Option<(int, int)>): Event {
    match last
    case Some((x, y)) => e.(lastX := x, lastY := y)
    case None => e.(lastX := e.x, lastY := e.y)
  }

  function Finish(p: State, b: byte): (State, Piece)
    requires |p.buf| >= 3
  {
    var raw := p.buf + [b];
    match ParseParams(p.buf[3..], b == 109)
    case Some(e) => (State(Ground, [], Some((e.x, e.y))), Report(raw, Located(e, p.last)))
    case None => (State(Ground, [], p.last), Malformed(raw))
  }

  function Step(p: State, b: byte): (State, Piece)
    requires p.state == Params ==> |p.buf| >= 3
  {
    match p.state
    case Ground => if b == EscByte then (p.(state := Esc, buf := [b]), Nothing) else (p, Flushed([b]))
    case Esc => if b == 91 then Grow(p, Bracket, b) else GiveBack(p, b)
    case Bracket =>
      if b == 60 then Grow(p, Lt, b)
      else if IsFinal(b) then GiveBackAll(p, b)
      else if IsIntermediate(b) || IsParam(b) then Grow(p, Csi, b)
      else GiveBack(p, b)
    case Csi =>
      if |p.buf| + 1 > 64 then GiveBackAll(p, b)
      else if IsFinal(b) then GiveBackAll(p, b)
      else if IsIntermediate(b) || IsParam(b) then Grow(p, Csi, b)
      else GiveBackAll(p, b)
    case Lt => Grow(p, Params, b)
    case Params =>
      if b == 77 || b == 109 then Finish(p, b)
      else if IsDigit(b) || b == Semicolon then
        if |p.buf| + 1 > 32 then GiveBackAll(p, b) else Grow(p, Params, b)
      else GiveBack(p, b)
  }

  /** At the end of a read only a lone ESC is given up. */
  function EndRead(p: State): (State, Piece) {
    if p.state != Esc || p.buf == [] then (p, Nothing) else GiveBack(p, 0)
  }

  const Start: State := State(Ground, [], None)

  predicate Opens(s: seq<byte>) {
    |s| >= 3 && s[0] == EscByte && s[1] == 91 && s[2] == 60
  }

  predicate IsReportByte(b: byte) {
    IsDigit(b) || b == Semicolon
  }

  /** ESC [ < and then one byte of any kind followed by digits and semicolons. */
  predicate OpenReport(s: seq<byte>) {
    Opens(s) && |s| >= 4 && forall i :: 4 <= i < |s| ==> IsReportByte(s[i])
  }

  /** What the buffer holds in each state. */
  predicate Valid(p: State) {
    match p.state
    case Ground => p.buf == []
    case Esc => p.buf == [EscByte]
    case Bracket => p.buf == [EscByte, 91]
    case Lt => p.buf == [EscByte, 91, 60]
    case Csi => 3 <= |p.buf| <= 64 && p.buf[0] == EscByte && p.buf[1] == 91 && p.buf[2] != 60
    case Params => OpenReport(p.buf) && |p.buf| <= 32
  }

  lemma {:induction false} StepValid(p: State, b: byte)
    requires Valid(p)
    ensures Valid(Step(p, b).0)
  {
  }

  // ----- the parser, in place -----

  class Parser {
    var buf: seq<byte>
    var state: ParseState
    var lastX: int
    var lastY: int
    var hasLast: bool

    ghost function View(): State
      reads this
    {
      State(state, buf, if hasLast then Some((lastX, lastY)) else None)
    }

    constructor ()
      ensures View() == Start
    {
      buf, state, lastX, lastY, hasLast := [], Ground, 0, 0, false;
    }

    method Flush(extra: byte) returns (saved: seq<byte>)
      modifies this
      ensures View() == old(View()).(state := Ground, buf := [])
      ensures saved == if extra == 0 then old(buf) else old(buf) + [extra]
    {
      saved := buf;
      if extra != 0 {
        saved := saved + [extra];
      }
      state := Ground;
      buf := [];
    }

    /** An event, or bytes to treat as ordinary input, or neither. */
    method Feed(b: byte) returns (event: Option<Event>, flushed: seq<byte>)
      requires Valid(View())
      modifies this
      ensures Valid(View())
      ensures var (next, piece) := Step(old(View()), b);
        && View() == next
        && event == (if piece.Report? then Some(piece.event) else None)
        && flushed == (if piece.Flushed? then piece.bytes else [])
    {
      StepValid(View(), b);
      event, flushed := None, [];
      match state {
        case Ground =>
          if b == EscByte {
            state, buf := Esc, [b];
          } else {
            flushed := [b];
          }
        case Esc =>
          if b == 91 {
            state, buf := Bracket, buf + [b];
          } else {
            flushed := Flush(b);
          }
        case Bracket =>
          if b == 60 {
            state, buf := Lt, buf + [b];
          } else if IsFinal(b) {
            buf := buf + [b];
            flushed := Flush(0);
          } else if IsIntermediate(b) || IsParam(b) {
            state, buf := Csi, buf + [b];
          } else {
            flushed := Flush(b);
          }
        case Csi =>
          buf := buf + [b];
          if |buf| > 64 || IsFinal(b) || !(IsIntermediate(b) || IsParam(b)) {
            flushed := Flush(0);
          }
        case Lt =>
          state, buf := Params, buf + [b];
        case Params =>
          if b == 77 || b == 109 {
            var parsed := ParseParams(buf[3..], b == 109);
            state, buf := Ground, [];
            if parsed.Some? {
              var e := parsed.value;
              if hasLast {
                e := e.(lastX := lastX, lastY := lastY);
              } else {
                e := e.(lastX := e.x, lastY := e.y);
              }
              lastX, lastY, hasLast := e.x, e.y, true;
              event := Some(e);
            }
          } else if IsDigit(b) || b == Semicolon {
            buf := buf + [b];
            if |buf| > 32 {
              flushed := Flush(0);
            }
          } else {
            flushed := Flush(b);
          }
      }
    }

    method FlushPending() returns (flushed: seq<byte>)
      requires Valid(View())
      modifies this
      ensures Valid(View())
      ensures var (next, piece) := EndRead(old(View()));
        View() == next && flushed == (if piece.Flushed? then piece.bytes else [])
    {
      flushed := [];
      if state == Esc && buf != [] {
        flushed := Flush(0);
      }
    }
  }

  // ----- every byte is accounted for -----

  datatype Input = Byte(b: byte) | ReadEnd

  function Take(p: State, input: Input): (State, Piece)
    requires Valid(p)
  {
    match input
    case Byte(b) => Step(p, b)
    case ReadEnd => EndRead(p)
  }

  lemma {:induction false} TakeValid(p: State, input: Input)
    requires Valid(p)
    ensures Valid(Take(p, input).0)
  {
    if input.Byte? {
      StepValid(p, input.b);
    }
  }

  /** What the parser yields over a whole input, and the state it ends in. */
  function Run(p: State, inputs: seq<Input>): (r: (State, seq<Piece>))
    requires Valid(p)
    ensures Valid(r.0)
    decreases |inputs|
  {
    if inputs == [] then (p, [])
    else
      var (next, piece) := Take(p, inputs[0]);
      TakeValid(p, inputs[0]);
      var (end, pieces) := Run(next, inputs[1..]);
      (end, [piece] + pieces)
  }

  function Raw(piece: Piece): seq<byte> {
    match piece
    case Nothing => []
    case Flushed(bytes) => bytes
    case Report(raw, _) => raw
    case Malformed(raw) => raw
  }

  function Spelled(pieces: seq<Piece>): seq<byte> {
    if pieces == [] then [] else Raw(pieces[0]) + Spelled(pieces[1..])
  }

  function Bytes(inputs: seq<Input>): seq<byte> {
    if inputs == [] then []
    else (match inputs[0] case Byte(b) => [b] case ReadEnd => []) + Bytes(inputs[1..])
  }

  /** A NUL that interrupts an escape, a bracket or a report is swallowed. */
  predicate Loses(p: State, input: Input) {
    input == Byte(0) && p.state in {Esc, Bracket, Params}
  }

  function Kept(p: State, inputs: seq<Input>): seq<byte>
    requires Valid(p)
    decreases |inputs|
  {
    if inputs == [] then []
    else
      var next := Take(p, inputs[0]).0;
      TakeValid(p, inputs[0]);
      (match inputs[0] case Byte(b) => if Loses(p, inputs[0]) then [] else [b] case ReadEnd => []) + Kept(next, inputs[1..])
  }

  predicate LosesNothing(p: State, inputs: seq<Input>)
    requires Valid(p)
    decreases |inputs|
  {
    inputs != [] ==>
      var next := Take(p, inputs[0]).0;
      TakeValid(p, inputs[0]);
      !Loses(p, inputs[0]) && LosesNothing(next, inputs[1..])
  }

  lemma {:induction false} TakeSpells(p: State, input: Input)
    requires Valid(p)
    ensures var (next, piece) := Take(p, input);
      Raw(piece) + next.buf == p.buf + Kept(p, [input])
  {
    assert [input][1..] == [];
    match input
    case ReadEnd =>
    case Byte(b) =>
      assert p.buf + [] == p.buf;
      StepSpells(p, b);
  }

  lemma {:induction false} StepSpells(p: State, b: byte)
    requires Valid(p)
    ensures var (next, piece) := Step(p, b);
      Raw(piece) + next.buf == p.buf + (if Loses(p, Byte(b)) then [] else [b])
  {
    hide ParseParams;
  }

  /** The pieces and the buffered tail spell the input, less the swallowed NULs. */
  lemma {:induction false} RunSpells(p: State, inputs: seq<Input>)
    requires Valid(p)
    ensures var (end, pieces) := Run(p, inputs); Spelled(pieces) + end.buf == p.buf + Kept(p, inputs)
    decreases |inputs|
  {
    hide Take;
    hide Valid;
    if inputs == [] {
      assert Spelled([]) + p.buf == p.buf + [];
    } else {
      var (next, piece) := Take(p, inputs[0]);
      TakeValid(p, inputs[0]);
      var (end, pieces) := Run(next, inputs[1..]);
      RunSpells(next, inputs[1..]);
      TakeSpells(p, inputs[0]);
      FirstKept(p, inputs);
      SpelledFirst(piece, pieces);
      Regroup(Raw(piece), Spelled(pieces), next.buf, Kept(next, inputs[1..]), p.buf, Kept(p, [inputs[0]]), end.buf);
    }
  }

  lemma Regroup(x: seq<byte>, y: seq<byte>, n: seq<byte>, rest: seq<byte>, b: seq<byte>, k: seq<byte>, end: seq<byte>)
    requires x + n == b + k && y + end == n + rest
    ensures (x + y) + end == b + (k + rest)
  {
    assert (x + y) + end == x + (n + rest) == (x + n) + rest;
    assert (b + k) + rest == b + (k + rest);
  }

  lemma SpelledFirst(piece: Piece, pieces: seq<Piece>)
    ensures Spelled([piece] + pieces) == Raw(piece) + Spelled(pieces)
  {
    assert ([piece] + pieces)[1..] == pieces;
  }

  lemma FirstKept(p: State, inputs: seq<Input>)
    requires Valid(p) && inputs != []
    ensures Valid(Take(p, inputs[0]).0)
    ensures Kept(p, inputs) == Kept(p, [inputs[0]]) + Kept(Take(p, inputs[0]).0, inputs[1..])
  {
    TakeValid(p, inputs[0]);
    assert [inputs[0]][1..] == [];
  }

  lemma {:induction false} KeptAll(p: State, inputs: seq<Input>)
    requires Valid(p)
    ensures |Kept(p, inputs)| <= |Bytes(inputs)|
    ensures Kept(p, inputs) == Bytes(inputs) <==> LosesNothing(p, inputs)
    ensures !LosesNothing(p, inputs) ==> |Kept(p, inputs)| < |Bytes(inputs)|
    decreases |inputs|
  {
    if inputs != [] {
      TakeValid(p, inputs[0]);
      KeptAll(Take(p, inputs[0]).0, inputs[1..]);
    }
  }

  /**
   * Handed-back bytes, reports and malformed reports, and what is still
   * buffered, spell the input in order, exactly when no NUL arrives while an
   * escape, a bracket or a report is pending.
   */
  lemma {:induction false} EveryByteAccounted(inputs: seq<Input>)
    ensures var (end, pieces) := Run(Start, inputs);
      Spelled(pieces) + end.buf == Bytes(inputs) <==> LosesNothing(Start, inputs)
  {
    RunSpells(Start, inputs);
    KeptAll(Start, inputs);
    assert Start.buf + Kept(Start, inputs) == Kept(Start, inputs);
  }

  lemma {:induction false} NulFreeLosesNothing(p: State, inputs: seq<Input>)
    requires Valid(p) && Byte(0) !in inputs
    ensures LosesNothing(p, inputs)
    decreases |inputs|
  {
    if inputs != [] {
      TakeValid(p, inputs[0]);
      NulFreeLosesNothing(Take(p, inputs[0]).0, inputs[1..]);
    }
  }

  /** NUL-free input is always accounted for in full. */
  lemma {:induction false} NulFreeAccounted(inputs: seq<Input>)
    requires Byte(0) !in inputs
    ensures var (end, pieces) := Run(Start, inputs); Spelled(pieces) + end.buf == Bytes(inputs)
  {
    NulFreeLosesNothing(Start, inputs);
    EveryByteAccounted(inputs);
  }

  /** A NUL typed after ESC is lost. */
  lemma {:induction false} EscNulLost()
    ensures var inputs := [Byte(EscByte), Byte(0)];
      var (end, pieces) := Run(Start, inputs); Spelled(pieces) + end.buf != Bytes(inputs)
  {
    var inputs := [Byte(EscByte), Byte(0)];
    var p := Take(Start, inputs[0]).0;
    assert p.state == Esc && inputs[1..] == [Byte(0)];
    assert !LosesNothing(p, inputs[1..]);
    EveryByteAccounted(inputs);
  }

  // ----- what is recognised -----

  /** A report in shape, whether or not its parameters make sense. */
  predicate IsReport(raw: seq<byte>) {
    5 <= |raw| <= 33 && OpenReport(raw[..|raw| - 1]) && (raw[|raw| - 1] == 77 || raw[|raw| - 1] == 109)
  }

  function ReportEvent(raw: seq<byte>): Option<Event>
    requires |raw| >= 4
  {
    ParseParams(raw[3..|raw| - 1], raw[|raw| - 1] == 109)
  }

  /**
   * Pieces called reports have the shape of one, and parameters that parse
   * to the event given; malformed ones have the shape only; bytes handed back
   * never are a report.
   */
  lemma {:induction false} PiecesAreRight(p: State, input: Input)
    requires Valid(p)
    ensures var piece := Take(p, input).1;
      && (piece.Report? ==>
            && IsReport(piece.raw) && ReportEvent(piece.raw).Some?
            && piece.event == Located(ReportEvent(piece.raw).value, p.last))
      && (piece.Malformed? ==> IsReport(piece.raw) && ReportEvent(piece.raw) == None)
      && (piece.Flushed? ==> !IsReport(piece.bytes))
  {
    hide ParseParams;
    match input
    case ReadEnd =>
    case Byte(b) =>
      if p.state == Params && (b == 77 || b == 109) {
        FinishRight(p, b);
      } else {
        OthersFlush(p, b);
      }
  }

  lemma {:induction false} FinishRight(p: State, b: byte)
    requires Valid(p) && p.state == Params && (b == 77 || b == 109)
    ensures var piece := Step(p, b).1;
      && (piece.Report? || piece.Malformed?)
      && (piece.Report? ==>
            && IsReport(piece.raw) && ReportEvent(piece.raw).Some?
            && piece.event == Located(ReportEvent(piece.raw).value, p.last))
      && (piece.Malformed? ==> IsReport(piece.raw) && ReportEvent(piece.raw) == None)
  {
    hide ParseParams;
    hide OpenReport;
    var raw := p.buf + [b];
    OpenLong(p.buf);
    assert raw[..|raw| - 1] == p.buf;
    assert raw[3..|raw| - 1] == p.buf[3..];
  }

  lemma OpenLong(s: seq<byte>)
    requires OpenReport(s)
    ensures |s| >= 4
  {
  }

  lemma {:induction false} OthersFlush(p: State, b: byte)
    requires Valid(p) && !(p.state == Params && (b == 77 || b == 109))
    ensures var piece := Step(p, b).1;
      !piece.Report? && !piece.Malformed? && (piece.Flushed? ==> !IsReport(piece.bytes))
  {
    hide ParseParams;
    var bytes := if Step(p, b).1.Flushed? then Step(p, b).1.bytes else [];
    match p.state
    case Params => NotReportEnd(p.buf, b);
    case _ => NoOpening(bytes);
  }

  /** Without ESC [ < and two bytes more there is no report. */
  lemma NoOpening(bytes: seq<byte>)
    ensures |bytes| < 5 || bytes[2] != 60 ==> !IsReport(bytes)
  {
    if |bytes| >= 5 {
      assert bytes[..|bytes| - 1][2] == bytes[2];
    }
  }

  /** An open report is not a report, nor is it with a byte that does not end it. */
  lemma {:induction false} NotReportEnd(s: seq<byte>, b: byte)
    requires OpenReport(s)
    ensures !IsReport(s) || |s| == 4
    ensures b != 77 && b != 109 ==> !IsReport(s + [b])
  {
    assert |s| > 4 ==> IsReportByte(s[|s| - 1]);
    assert (s + [b])[|s|] == b;
  }

  /** Events of a run chain: each starts where the one before it was. */
  function Events(pieces: seq<Piece>): seq<Event> {
    if pieces == [] then []
    else (if pieces[0].Report? then [pieces[0].event] else []) + Events(pieces[1..])
  }

  predicate StartsFrom(e: Event, last: Option<(int, int)>) {
    (e.lastX, e.lastY) == if last.Some? then last.value else (e.x, e.y)
  }

  ghost predicate Chained(last: Option<(int, int)>, events: seq<Event>)
    decreases |events|
  {
    events != [] ==> StartsFrom(events[0], last) && Chained(Some((events[0].x, events[0].y)), events[1..])
  }

  lemma ChainFirst(last: Option<(int, int)>, e: Event, rest: seq<Event>)
    requires Chained(Some((e.x, e.y)), rest) && StartsFrom(e, last)
    ensures Chained(last, [e] + rest)
  {
    assert ([e] + rest)[1..] == rest;
  }

  lemma {:induction false} TakeLast(p: State, input: Input)
    requires Valid(p)
    ensures var (next, piece) := Take(p, input);
      && next.last == (if piece.Report? then Some((piece.event.x, piece.event.y)) else p.last)
      && (piece.Report? ==> StartsFrom(piece.event, p.last))
  {
    hide ParseParams;
  }

  lemma {:induction false} EventsChain(p: State, inputs: seq<Input>)
    requires Valid(p)
    ensures Chained(p.last, Events(Run(p, inputs).1))
    decreases |inputs|
  {
    if inputs != [] {
      var (next, piece) := Take(p, inputs[0]);
      TakeValid(p, inputs[0]);
      TakeLast(p, inputs[0]);
      var pieces := Run(next, inputs[1..]).1;
      EventsChain(next, inputs[1..]);
      assert ([piece] + pieces)[1..] == pieces;
      if piece.Report? {
        ChainFirst(p.last, piece.event, Events(pieces));
      } else {
        assert Events([piece] + pieces) == Events(pieces);
      }
    }
  }

  // ----- reports written out are read back -----

  function Decimal(n: nat): seq<byte> {
    seq(|Digits(n)|, i requires 0 <= i < |Digits(n)| => (48 + Digits(n)[i]) as byte)
  }

  lemma {:induction false} DecimalValue(n: nat)
    ensures Decimal(n) != [] && AllDigits(Decimal(n)) && Value(Decimal(n)) == n
  {
    hide Number;
    NumberOfDigits(n);
    var s := Decimal(n);
    assert seq(|s|, i requires 0 <= i < |s| => DigitValue(s[i])) == Digits(n);
  }

  lemma {:induction false} DecimalAtoi(n: nat)
    requires n <= MaxInt
    ensures Atoi(Decimal(n)) == Some(n) && Semicolon !in Decimal(n)
  {
    DecimalValue(n);
    assert IsDigit(Decimal(n)[0]);
  }

  /** A sign is read as one. */
  lemma {:induction false} AtoiSigned(n: int)
    requires 0 <= n <= MaxInt
    ensures Atoi([45] + Decimal(n)).Some? && Atoi([45] + Decimal(n)).value == -n
    ensures Atoi([43] + Decimal(n)) == Some(n)
  {
    hide Decimal;
    DecimalValue(n);
    assert ([45] + Decimal(n))[1..] == Decimal(n) && ([43] + Decimal(n))[1..] == Decimal(n);
  }

  function Params3(cb: nat, cx: nat, cy: nat): seq<byte> {
    Decimal(cb) + [Semicolon] + Decimal(cx) + [Semicolon] + Decimal(cy)
  }

  function Encode(cb: nat, cx: nat, cy: nat, isRelease: bool): seq<byte> {
    [EscByte, 91, 60] + Params3(cb, cx, cy) + [if isRelease then 109 else 77]
  }

  lemma Join3(a: seq<byte>, b: seq<byte>, c: seq<byte>)
    ensures Join([a, b, c]) == a + [Semicolon] + b + [Semicolon] + c
  {
    assert [a, b, c][1..] == [b, c] && [b, c][1..] == [c];
    assert Join([b, c]) == b + [Semicolon] + c;
    assert a + [Semicolon] + (b + [Semicolon] + c) == a + [Semicolon] + b + [Semicolon] + c;
  }

  lemma {:induction false} ParamsParse(cb: nat, cx: nat, cy: nat, isRelease: bool)
    requires cb <= MaxInt && cx <= MaxInt && cy <= MaxInt
    ensures ParseParams(Params3(cb, cx, cy), isRelease) == Some(EventOf(cb, cx, cy, isRelease))
  {
    hide Decimal;
    hide Join;
    hide Split;
    hide Atoi;
    hide EventOf;
    DecimalAtoi(cb);
    DecimalAtoi(cx);
    DecimalAtoi(cy);
    Join3(Decimal(cb), Decimal(cx), Decimal(cy));
    SplitJoin([Decimal(cb), Decimal(cx), Decimal(cy)]);
  }

  lemma {:induction false} Params3Shape(cb: nat, cx: nat, cy: nat)
    ensures var s := Params3(cb, cx, cy); |s| >= 5 && forall i :: 0 <= i < |s| ==> IsReportByte(s[i])
  {
    DecimalValue(cb);
    DecimalValue(cx);
    DecimalValue(cy);
  }

  function Typed(s: seq<byte>): seq<Input> {
    seq(|s|, i requires 0 <= i < |s| => Byte(s[i]))
  }

  /** The parser i bytes into the report s. */
  function Within(s: seq<byte>, i: nat, last: Option<(int, int)>): State
    requires i <= |s|
  {
    State(match i case 0 => Ground case 1 => Esc case 2 => Bracket case 3 => Lt case _ => Params, s[..i], last)
  }

  lemma {:induction false} StepWithin(s: seq<byte>, i: nat, last: Option<(int, int)>)
    requires IsReport(s) && i < |s| - 1
    ensures Valid(Within(s, i, last)) && Step(Within(s, i, last), s[i]) == (Within(s, i + 1, last), Nothing)
  {
    var open := s[..|s| - 1];
    assert s[..i] + [s[i]] == s[..i + 1];
    assert open[i] == s[i];
    assert i == 0 ==> s[..i + 1] == [s[i]];
    assert forall k :: 0 <= k < i ==> s[..i][k] == open[k];
  }

  lemma {:induction false} StepLast(s: seq<byte>, last: Option<(int, int)>)
    requires IsReport(s)
    ensures Valid(Within(s, |s| - 1, last))
    ensures Step(Within(s, |s| - 1, last), s[|s| - 1]) == Outcome(s, last)
  {
    hide ParseParams;
    var i := |s| - 1;
    assert s[..i] + [s[i]] == s && s[..i][3..] == s[3..i];
  }

  /** How the last byte of a report ends it. */
  function Outcome(s: seq<byte>, last: Option<(int, int)>): (State, Piece)
    requires IsReport(s)
  {
    match ReportEvent(s)
    case Some(e) => (State(Ground, [], Some((e.x, e.y))), Report(s, Located(e, last)))
    case None => (State(Ground, [], last), Malformed(s))
  }

  /** A report in shape is read in silence up to its last byte, which yields it or drops it. */
  lemma {:induction false} RunReport(s: seq<byte>, i: nat, last: Option<(int, int)>)
    requires IsReport(s) && i < |s| && Valid(Within(s, i, last))
    ensures var (end, pieces) := Run(Within(s, i, last), Typed(s)[i..]);
      && |pieces| == |s| - i
      && (forall k :: 0 <= k < |pieces| - 1 ==> pieces[k] == Nothing)
      && (end, pieces[|pieces| - 1]) == Outcome(s, last)
    decreases |s| - i
  {
    hide Step;
    hide Outcome;
    hide Valid;
    hide Within;
    hide IsReport;
    var inputs := Typed(s)[i..];
    var p := Within(s, i, last);
    assert inputs[0] == Byte(s[i]) && inputs[1..] == Typed(s)[i + 1..];
    TakeValid(p, inputs[0]);
    if i < |s| - 1 {
      StepWithin(s, i, last);
      RunReport(s, i + 1, last);
    } else {
      assert inputs[1..] == [];
      StepLast(s, last);
    }
  }

  /** Anything shaped like a report, typed from the ground state, comes out as one report, or malformed. */
  lemma {:induction false} ReportRecognised(s: seq<byte>, last: Option<(int, int)>)
    requires IsReport(s)
    ensures var pieces := Run(State(Ground, [], last), Typed(s)).1;
      Events(pieces) == match ReportEvent(s) case Some(e) => [Located(e, last)] case None => []
  {
    assert Typed(s)[0..] == Typed(s) && s[..0] == [];
    RunReport(s, 0, last);
    EventsAtEnd(Run(State(Ground, [], last), Typed(s)).1);
  }

  predicate Ends(piece: Piece) {
    piece.Report? || piece.Malformed?
  }

  /** Where the parser can be i bytes into a report whose ESC it took for something else. */
  predicate Astray(p: State, i: nat) {
    Valid(p) && (p.state == Ground || (i == 1 && p.state == Params) || (i == 4 && p.state == Esc))
  }

  lemma {:induction false} StepAstray(s: seq<byte>, i: nat, p: State)
    requires IsReport(s) && i < |s| && if i == 0 then Valid(p) && p.state != Ground else Astray(p, i)
    ensures Astray(Step(p, s[i]).0, i + 1) && !Ends(Step(p, s[i]).1)
  {
    hide ParseParams;
    StepValid(p, s[i]);
    var open := s[..|s| - 1];
    assert i < |open| ==> open[i] == s[i];
  }

  lemma {:induction false} RunAstray(s: seq<byte>, i: nat, p: State)
    requires IsReport(s) && i <= |s| && if i == 0 then Valid(p) && p.state != Ground else Astray(p, i)
    ensures forall piece :: piece in Run(p, Typed(s)[i..]).1 ==> !Ends(piece)
    decreases |s| - i
  {
    hide Step;
    hide IsReport;
    if i < |s| {
      var inputs := Typed(s)[i..];
      assert inputs[0] == Byte(s[i]) && inputs[1..] == Typed(s)[i + 1..];
      StepAstray(s, i, p);
      RunAstray(s, i + 1, Step(p, s[i]).0);
    }
  }

  lemma {:induction false} RunAppend(p: State, inputs: seq<Input>, more: seq<Input>)
    requires Valid(p)
    ensures Valid(Run(p, inputs).0) && |Run(p, inputs).1| == |inputs|
    ensures Run(p, inputs + more) ==
      (Run(Run(p, inputs).0, more).0, Run(p, inputs).1 + Run(Run(p, inputs).0, more).1)
    decreases |inputs|
  {
    hide Take;
    hide Valid;
    if inputs == [] {
      assert inputs + more == more;
      assert Run(p, inputs).1 + Run(p, more).1 == Run(p, more).1;
    } else {
      assert (inputs + more)[1..] == inputs[1..] + more;
      TakeValid(p, inputs[0]);
      var (next, piece) := Take(p, inputs[0]);
      RunAppend(next, inputs[1..], more);
      var (end, pieces) := Run(next, inputs[1..]);
      assert ([piece] + pieces) + Run(end, more).1 == [piece] + (pieces + Run(end, more).1);
    }
  }

  /**
   * A report inside a stream is recognised, as one event or as malformed,
   * exactly when the parser is in the ground state at its ESC; otherwise not
   * even a part of it yields one.
   */
  lemma {:induction false} ReportInStream(before: seq<Input>, s: seq<byte>, after: seq<Input>)
    requires IsReport(s)
    ensures var (p, pieces) := (Run(Start, before).0, Run(Start, before + Typed(s) + after).1);
      && |pieces| == |before| + |s| + |after|
      && (p.state == Ground ==> pieces[|before| + |s| - 1] == Outcome(s, p.last).1)
      && (p.state == Ground <==> exists k :: |before| <= k < |before| + |s| && Ends(pieces[k]))
  {
    hide Step;
    hide IsReport;
    hide Run;
    hide Outcome;
    var p, mid := Run(Start, before).0, Run(Run(Start, before).0, Typed(s));
    var pieces := Run(Start, before + Typed(s) + after).1;
    assert before + Typed(s) + after == before + (Typed(s) + after);
    RunAppend(Start, before, Typed(s) + after);
    RunAppend(p, Typed(s), after);
    RunAppend(mid.0, after, []);
    assert forall k :: 0 <= k < |s| ==> pieces[|before| + k] == mid.1[k];
    assert Typed(s)[0..] == Typed(s);
    if p.state == Ground {
      OutcomeEnds(s, p.last);
      assert s[..0] == [] && p == Within(s, 0, p.last);
      RunReport(s, 0, p.last);
      assert Ends(pieces[|before| + |s| - 1]);
    } else {
      RunAstray(s, 0, p);
      forall k | |before| <= k < |before| + |s| ensures !Ends(pieces[k]) {
        assert pieces[|before| + (k - |before|)] in mid.1;
      }
    }
  }

  lemma OutcomeEnds(s: seq<byte>, last: Option<(int, int)>)
    requires IsReport(s)
    ensures |s| >= 5 && Ends(Outcome(s, last).1)
  {
  }

  // ----- other control sequences -----

  /** A control sequence that is no mouse report, short enough for the parser to hold. */
  predicate IsControl(s: seq<byte>) {
    && 3 <= |s| <= 65 && s[0] == EscByte && s[1] == 91 && s[2] != 60
    && (forall i :: 2 <= i < |s| - 1 ==> 0x20 <= s[i] <= 0x3f)
    && 0x40 <= s[|s| - 1] <= 0x7e
  }

  /** The parser i bytes into the control sequence s. */
  function WithinControl(s: seq<byte>, i: nat, last: Option<(int, int)>): State
    requires i <= |s|
  {
    State(match i case 0 => Ground case 1 => Esc case 2 => Bracket case _ => Csi, s[..i], last)
  }

  lemma {:induction false} StepControl(s: seq<byte>, i: nat, last: Option<(int, int)>)
    requires IsControl(s) && i < |s|
    ensures Valid(WithinControl(s, i, last))
    ensures Step(WithinControl(s, i, last), s[i]) ==
      if i < |s| - 1 then (WithinControl(s, i + 1, last), Nothing) else (State(Ground, [], last), Flushed(s))
  {
    assert s[..i] + [s[i]] == s[..i + 1];
    assert s[..|s|] == s;
    assert i == 0 ==> s[..i + 1] == [s[i]];
    assert forall k :: 0 <= k < i ==> s[..i][k] == s[k];
  }

  /** A control sequence that is no mouse report comes back whole, in one piece. */
  lemma {:induction false} ControlWhole(s: seq<byte>, i: nat, last: Option<(int, int)>)
    requires IsControl(s) && i < |s| && Valid(WithinControl(s, i, last))
    ensures var (end, pieces) := Run(WithinControl(s, i, last), Typed(s)[i..]);
      && |pieces| == |s| - i && end == State(Ground, [], last)
      && (forall k :: 0 <= k < |pieces| - 1 ==> pieces[k] == Nothing)
      && pieces[|pieces| - 1] == Flushed(s)
    decreases |s| - i
  {
    hide Step;
    hide Valid;
    hide WithinControl;
    hide IsControl;
    var inputs := Typed(s)[i..];
    assert inputs[0] == Byte(s[i]) && inputs[1..] == Typed(s)[i + 1..];
    StepControl(s, i, last);
    TakeValid(WithinControl(s, i, last), inputs[0]);
    if i < |s| - 1 {
      ControlWhole(s, i + 1, last);
    } else {
      assert inputs[1..] == [];
    }
  }

  /** It happens: a report right behind a lone ESC yields no event. */
  lemma {:induction false} EscHidesReport()
    ensures Events(Run(Start, Typed([EscByte] + Encode(0, 1, 1, false))).1) == []
  {
    hide Encode;
    hide ParseParams;
    var s := Encode(0, 1, 1, false);
    var p := State(Esc, [EscByte], None);
    EncodeIsReport(0, 1, 1, false);
    assert Typed([EscByte] + s) == [Byte(EscByte)] + Typed(s);
    assert ([Byte(EscByte)] + Typed(s))[1..] == Typed(s) && Typed(s)[0..] == Typed(s);
    assert Take(Start, Byte(EscByte)) == (p, Nothing);
    RunAstray(s, 0, p);
    NoEvents([Nothing] + Run(p, Typed(s)).1);
  }

  lemma {:induction false} NoEvents(pieces: seq<Piece>)
    requires forall piece :: piece in pieces ==> !Ends(piece)
    ensures Events(pieces) == []
  {
    if pieces != [] {
      assert pieces[0] in pieces;
      NoEvents(pieces[1..]);
    }
  }

  lemma {:induction false} EventsAtEnd(pieces: seq<Piece>)
    requires |pieces| > 0 && forall k :: 0 <= k < |pieces| - 1 ==> pieces[k] == Nothing
    ensures Events(pieces) == if pieces[|pieces| - 1].Report? then [pieces[|pieces| - 1].event] else []
  {
    if |pieces| > 1 {
      EventsAtEnd(pieces[1..]);
    } else {
      assert pieces[1..] == [];
    }
  }

  /**
   * Button code and coordinates written as a report come back as the event
   * they denote, whenever the parameters fit the 29 bytes the parser buffers.
   */
  lemma {:induction false} EncodeParses(cb: nat, cx: nat, cy: nat, isRelease: bool, last: Option<(int, int)>)
    requires cb <= MaxInt && cx <= MaxInt && cy <= MaxInt && |Params3(cb, cx, cy)| <= 29
    ensures var events := Events(Run(State(Ground, [], last), Typed(Encode(cb, cx, cy, isRelease))).1);
      && events == [Located(EventOf(cb, cx, cy, isRelease), last)]
      && (events[0].x, events[0].y) == (cx - 1, cy - 1)
  {
    hide ParseParams;
    hide Run;
    hide IsReport;
    var s := Encode(cb, cx, cy, isRelease);
    ParamsParse(cb, cx, cy, isRelease);
    EncodeIsReport(cb, cx, cy, isRelease);
    ReportRecognised(s, last);
  }

  lemma {:induction false} EncodeIsReport(cb: nat, cx: nat, cy: nat, isRelease: bool)
    ensures var (s, params) := (Encode(cb, cx, cy, isRelease), Params3(cb, cx, cy));
      && (|params| <= 29 ==> IsReport(s))
      && |s| == |params| + 4 && s[3..|s| - 1] == params && s[|s| - 1] == if isRelease then 109 else 77
  {
    var s, params := Encode(cb, cx, cy, isRelease), Params3(cb, cx, cy);
    Params3Shape(cb, cx, cy);
    var open := s[..|s| - 1];
    assert open == [EscByte, 91, 60] + params;
    assert forall k :: 3 <= k < |open| ==> open[k] == params[k - 3];
  }

  lemma ZeroMultiple(d: int, k: int)
    requires -d < d * k < d
    ensures k == 0
  {
  }

  lemma DivMod(x: int, d: int, q: int, r: int)
    requires 0 <= r < d && x == d * q + r
    ensures x / d == q && x % d == r
  {
    var k := x / d - q;
    assert d * k == d * (x / d) - d * q == r - x % d;
    ZeroMultiple(d, k);
  }

  lemma BitIs(x: int, weight: nat, on: bool, above: int, below: nat)
    requires below < weight && x == weight * (2 * above + Flag(on, 1)) + below
    ensures Bit(x, weight) == on
  {
    DivMod(x, weight, 2 * above + Flag(on, 1), below);
  }

  lemma ButtonBitsAre(x: int, high: int, middle: nat, low: nat)
    requires x == 64 * high + 4 * middle + low && middle < 16 && low < 4
    ensures ButtonBits(x) == 64 * high + low
  {
    DivMod(x, 64, high, 4 * middle + low);
    DivMod(x, 4, 16 * high + middle, low);
  }

  function Flag(on: bool, weight: nat): nat {
    if on then weight else 0
  }

  function Code(button: nat, shift: bool, alt: bool, ctrl: bool, motion: bool): nat {
    button % 4 + Flag(shift, 4) + Flag(alt, 8) + Flag(ctrl, 16) + Flag(motion, 32) + Flag(button >= 4, 64)
  }

  const Buttons := [Left, Middle, Right, NoButton, ScrollUp, ScrollDown, ScrollLeft, ScrollRight]

  lemma {:induction false} CodeBits(button: nat, shift: bool, alt: bool, ctrl: bool, motion: bool)
    ensures var cb := Code(button, shift, alt, ctrl, motion);
      && Bit(cb, 4) == shift && Bit(cb, 8) == alt && Bit(cb, 16) == ctrl && Bit(cb, 32) == motion
      && ButtonBits(cb) == button % 4 + Flag(button >= 4, 64)
  {
    hide Bit;
    hide ButtonBits;
    var low, high := button % 4, Flag(button >= 4, 1);
    var s, a, c, m := Flag(shift, 1), Flag(alt, 1), Flag(ctrl, 1), Flag(motion, 1);
    var cb := Code(button, shift, alt, ctrl, motion);
    assert cb == low + 4 * s + 8 * a + 16 * c + 32 * m + 64 * high;
    BitIs(cb, 4, shift, a + 2 * c + 4 * m + 8 * high, low);
    BitIs(cb, 8, alt, c + 2 * m + 4 * high, low + 4 * s);
    BitIs(cb, 16, ctrl, m + 2 * high, low + 4 * s + 8 * a);
    BitIs(cb, 32, motion, high, low + 4 * s + 8 * a + 16 * c);
    ButtonBitsAre(cb, high, s + 2 * a + 4 * c + 8 * m, low);
  }

  /** Button, modifiers and motion are independent fields of the button code. */
  lemma {:induction false} CodeFields(button: nat, shift: bool, alt: bool, ctrl: bool, motion: bool, isRelease: bool)
    requires button < 8
    ensures var e := EventOf(Code(button, shift, alt, ctrl, motion), 1, 1, isRelease);
      && (e.shift, e.alt, e.ctrl) == (shift, alt, ctrl)
      && e.button == Buttons[button]
      && e.action == if isRelease then Release else if motion then Motion else Press
  {
    hide Bit;
    hide ButtonBits;
    hide Code;
    CodeBits(button, shift, alt, ctrl, motion);
  }

  /**
   * A report written for any button, modifiers and motion, at any column and
   * row counted from 1, is read as exactly one event: with those, at that place
   * counted from 0, and coming from where the last event was.
   */
  lemma {:induction false} ReportRead(button: nat, shift: bool, alt: bool, ctrl: bool, motion: bool,
                                      column: nat, row: nat, isRelease: bool, last: Option<(int, int)>)
    requires button < 8 && column <= MaxInt && row <= MaxInt
    requires |Params3(Code(button, shift, alt, ctrl, motion), column, row)| <= 29
    ensures var events := Events(Run(State(Ground, [], last),
                                     Typed(Encode(Code(button, shift, alt, ctrl, motion), column, row, isRelease))).1);
      && |events| == 1
      && events[0].x == column - 1 && events[0].y == row - 1
      && (events[0].lastX, events[0].lastY) == (if last.Some? then last.value else (column - 1, row - 1))
      && (events[0].shift, events[0].alt, events[0].ctrl) == (shift, alt, ctrl)
      && events[0].button == Buttons[button]
      && events[0].action == if isRelease then Release else if motion then Motion else Press
  {
    hide Run;
    hide Encode;
    hide Params3;
    hide Bit;
    hide ButtonBits;
    hide Code;
    CodeRange(button, shift, alt, ctrl, motion);
    CodeBits(button, shift, alt, ctrl, motion);
    EncodeParses(Code(button, shift, alt, ctrl, motion), column, row, isRelease, last);
  }

  lemma CodeRange(button: nat, shift: bool, alt: bool, ctrl: bool, motion: bool)
    ensures Code(button, shift, alt, ctrl, motion) < 128
  {
  }

  /** A report as terminals write it: button 0 pressed at column 10, row 5. */
  lemma {:induction false} PressAtTenFive()
    ensures Encode(0, 10, 5, false) == [EscByte, 91, 60, 48, Semicolon, 49, 48, Semicolon, 53, 77]
  {
    DigitsBelowTen(0);
    DigitsBelowTen(5);
    assert Digits(10) == [1, 0];
    assert Decimal(0) == [48] && Decimal(10) == [49, 48] && Decimal(5) == [53];
  }

  lemma DigitsBelowTen(n: nat)
    requires n < 10
    ensures Digits(n) == [n]
  {
  }
}
