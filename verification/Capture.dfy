/**
 * Incremental capture of a pane: the scrollback and screen text published for
 * a terminal emulator, extended from the previous capture where possible. The
 * emulator itself is abstract; only what capture relies on is modelled.
 */
module Capture {
  import opened Common

  // ----- the emulator, as capture sees it -----

  /** One screen row: its text and its styled cells. */
  datatype Line = Line(text: string, cells: seq<int>)

  datatype Grid = Grid(width: int, height: int, rows: seq<Line>)

  /**
   * `history` lists every line ever pushed into scrollback and `kept` is how
   * many of the latest are retained: trimming and clearing lower `kept`.
   * `touched` are the rows changed since rows were last drained, when
   * the screen was `base`. `written` logs the bytes the emulator was fed.
   */
  datatype Emu = Emu(
    screen: Grid,
    history: seq<string>,
    kept: nat,
    touched: set<nat>,
    base: Grid,
    written: seq<byte>
  )

  predicate GridOk(g: Grid) {
    && g.height >= 0 && |g.rows| == g.height
    && (g.width <= 0 ==> forall i :: 0 <= i < |g.rows| ==> g.rows[i] == Line("", []))
  }

  predicate SameSize(g: Grid, h: Grid) {
    g.width == h.width && g.height == h.height
  }

  /** Touched rows cover every difference from the base. */
  predicate Covered(e: Emu) {
    SameSize(e.screen, e.base) ==>
      forall i :: 0 <= i < |e.screen.rows| && i < |e.base.rows| && e.screen.rows[i] != e.base.rows[i] ==> i in e.touched
  }

  predicate EmuOk(e: Emu) {
    GridOk(e.screen) && GridOk(e.base) && e.kept <= |e.history| && Covered(e)
  }

  function Scrollback(e: Emu): seq<string>
    requires e.kept <= |e.history|
  {
    e.history[|e.history| - e.kept..]
  }

  /** What any emulator operation may do between two drains. */
  ghost predicate Evolves(e: Emu, f: Emu) {
    EmuOk(f) && f.base == e.base && e.history <= f.history
  }

  predicate Drainable(e: Emu) {
    e.screen.width > 0 && e.screen.height > 0
  }

  /** Reading off the touched rows resets them; without an area nothing happens. */
  function Drained(e: Emu): Emu {
    if Drainable(e) then e.(touched := {}, base := e.screen) else e
  }

  /** The touched rows inside the screen. */
  function DrainedRows(e: Emu): set<nat> {
    if Drainable(e) then set i | i in e.touched && i < e.screen.height else {}
  }

  // ----- capture state -----

  datatype ScrollState = ScrollState(pushed: nat, lines: seq<string>)

  /** What the last capture left behind; a part never captured is None. */
  datatype State = State(scroll: Option<ScrollState>, screen: Option<Grid>)

  datatype Snapshot = Snapshot(scrollback: seq<string>, screen: Grid)

  const NoState: State := State(None, None)

  /** The previous scrollback without its first lines, plus the newly pushed ones; None asks for a rebuild. */
  function ExtendScrollback(prev: Option<ScrollState>, e: Emu): Option<seq<string>>
    requires e.kept <= |e.history|
  {
    if prev == None || |e.history| < prev.value.pushed then None
    else
      var appended := |e.history| - prev.value.pushed;
      if appended > e.kept then None
      else
        var trimmed := |prev.value.lines| + appended - e.kept;
        if trimmed < 0 || trimmed > |prev.value.lines| then None
        else Some(prev.value.lines[trimmed..] + Scrollback(e)[e.kept - appended..])
  }

  /** The previous screen with the touched rows replaced; None asks for a rebuild. */
  function ExtendScreen(prev: Option<Grid>, e: Emu): Option<Grid>
    requires GridOk(e.screen)
  {
    if prev == None || !SameSize(prev.value, e.screen) || |prev.value.rows| != e.screen.height then None
    else
      var rows := DrainedRows(e);
      Some(prev.value.(rows := seq(|e.screen.rows|, i requires 0 <= i < |e.screen.rows| =>
        if i in rows then e.screen.rows[i] else prev.value.rows[i])))
  }

  /** The state a capture leaves belongs to this emulator: a window of its history, and its drained screen. */
  ghost predicate Follows(s: State, e: Emu) {
    && (s.scroll.Some? ==>
          && |s.scroll.value.lines| <= s.scroll.value.pushed <= |e.history|
          && s.scroll.value.lines == e.history[s.scroll.value.pushed - |s.scroll.value.lines|..s.scroll.value.pushed])
    && (s.screen.Some? ==> Matches(s.screen.value, e))
  }

  /** A captured screen is the one last drained, or has no area and so no content. */
  ghost predicate Matches(g: Grid, e: Emu) {
    GridOk(g) && (g == e.base || g.width <= 0 || g.height == 0)
  }

  /** The capture just taken shows the emulator as it is. */
  predicate Current(s: State, e: Emu) {
    s.screen == Some(e.screen)
  }

  /** One capture: what is published, the state kept for the next, and whether the screen changed. */
  function Take(prev: State, e: Emu): (Snapshot, State, bool)
    requires EmuOk(e)
  {
    var scroll := match ExtendScrollback(prev.scroll, e) case Some(lines) => lines case None => Scrollback(e);
    var extended := ExtendScreen(prev.screen, e);
    var screen := if extended.Some? then extended.value else e.screen;
    (Snapshot(scroll, screen), State(Some(ScrollState(|e.history|, scroll)), Some(screen)), DrainedRows(e) != {} || extended == None)
  }

  // ----- an extended capture is a rebuilt one -----

  lemma {:induction false} ExtendScrollbackExact(prev: State, e: Emu)
    requires EmuOk(e) && Follows(prev, e)
    ensures var r := ExtendScrollback(prev.scroll, e); r.Some? ==> r.value == Scrollback(e)
  {
    var r := ExtendScrollback(prev.scroll, e);
    if r.Some? {
      var h, p, n := e.history, prev.scroll.value.pushed, |prev.scroll.value.lines|;
      var start := |h| - e.kept;
      var trimmed := n + (|h| - p) - e.kept;
      assert p - n + trimmed == start;
      assert prev.scroll.value.lines[trimmed..] == h[start..p];
      assert Scrollback(e)[e.kept - (|h| - p)..] == h[p..];
      assert h[start..p] + h[p..] == h[start..];
    }
  }

  lemma {:induction false} ExtendScreenExact(prev: State, e: Emu)
    requires EmuOk(e) && Follows(prev, e)
    ensures var r := ExtendScreen(prev.screen, e); r.Some? ==> r.value == e.screen
  {
    var r := ExtendScreen(prev.screen, e);
    if r.Some? {
      var g := prev.screen.value;
      forall i | 0 <= i < |e.screen.rows| ensures r.value.rows[i] == e.screen.rows[i] {
        if g == e.base && Drainable(e) {
          assert e.screen.rows[i] != g.rows[i] ==> i in e.touched;
        }
      }
      assert r.value.rows == e.screen.rows;
    }
  }

  /** Whatever is reused, what is published is the scrollback and screen of the emulator. */
  lemma {:induction false} TakeExact(prev: State, e: Emu)
    requires EmuOk(e) && Follows(prev, e)
    ensures var (snap, next, _) := Take(prev, e);
      && snap == Snapshot(Scrollback(e), e.screen)
      && EmuOk(Drained(e)) && Follows(next, Drained(e)) && Current(next, Drained(e))
  {
    ExtendScrollbackExact(prev, e);
    ExtendScreenExact(prev, e);
  }

  /** A capture that reports no change publishes the screen captured before. */
  lemma {:induction false} UnchangedIsSame(prev: State, e: Emu)
    requires EmuOk(e) && !Take(prev, e).2
    ensures prev.screen.Some? && Take(prev, e).0.screen == prev.screen.value
  {
    var g := Take(prev, e).0.screen;
    assert g.rows == prev.screen.value.rows;
  }

  /** Capture state stays good however the emulator changes, clears and resizes included. */
  lemma {:induction false} FollowsEvolves(s: State, e: Emu, f: Emu)
    requires Follows(s, e) && Evolves(e, f)
    ensures Follows(s, f)
  {
  }

  /** Draining without capturing is harmless once the capture is current. */
  lemma {:induction false} DrainHarmless(s: State, e: Emu)
    requires EmuOk(e) && Follows(s, e) && (Current(s, e) || s.screen == None)
    ensures EmuOk(Drained(e)) && Follows(s, Drained(e)) && (Current(s, Drained(e)) || s.screen == None)
  {
  }

  /** Draining changed rows that no capture has seen loses them: the next capture is wrong. */
  lemma {:induction false} DrainEarlyLoses(s: State, e: Emu)
    requires EmuOk(e) && Follows(s, e) && Drainable(e)
    requires s.screen.Some? && SameSize(s.screen.value, e.screen) && !Current(s, e)
    ensures Take(s, Drained(e)).0.screen != e.screen
  {
    var d := Drained(e);
    assert s.screen.value.rows != e.screen.rows;
    var r := ExtendScreen(s.screen, d);
    assert DrainedRows(d) == {};
    assert r.value.rows == s.screen.value.rows;
  }

  // ----- any interleaving on one emulator -----

  /** What can happen to an emulator: it changes, a capture is published, or rendering drains it. */
  datatype Event = Change(to: Emu) | Publish | Render

  datatype Pane = Pane(emu: Emu, state: State, published: seq<Snapshot>)

  /** Rendering happens only between actor commands, when no change is unpublished. */
  ghost predicate Possible(p: Pane, ev: Event) {
    match ev
    case Change(f) => Evolves(p.emu, f)
    case Publish => true
    case Render => Current(p.state, p.emu) || p.state.screen == None
  }

  function After(p: Pane, ev: Event): Pane
    requires EmuOk(p.emu)
  {
    match ev
    case Change(f) => p.(emu := f)
    case Publish =>
      var (snap, next, _) := Take(p.state, p.emu);
      Pane(Drained(p.emu), next, p.published + [snap])
    case Render => p.(emu := Drained(p.emu))
  }

  ghost predicate PaneOk(p: Pane) {
    EmuOk(p.emu) && Follows(p.state, p.emu)
  }

  ghost predicate PossibleRun(p: Pane, events: seq<Event>)
    requires EmuOk(p.emu)
    decreases |events|
  {
    events != [] ==>
      Possible(p, events[0]) && EmuOk(After(p, events[0]).emu) && PossibleRun(After(p, events[0]), events[1..])
  }

  /** The captures a rebuild at every publication would give. */
  ghost function Rebuilt(p: Pane, events: seq<Event>): seq<Snapshot>
    requires EmuOk(p.emu) && PossibleRun(p, events)
    decreases |events|
  {
    if events == [] then []
    else
      var now := if events[0] == Publish then [Snapshot(Scrollback(p.emu), p.emu.screen)] else [];
      now + Rebuilt(After(p, events[0]), events[1..])
  }

  ghost function Final(p: Pane, events: seq<Event>): Pane
    requires EmuOk(p.emu) && PossibleRun(p, events)
    decreases |events|
  {
    if events == [] then p else Final(After(p, events[0]), events[1..])
  }

  lemma {:induction false} AfterOk(p: Pane, ev: Event)
    requires PaneOk(p) && Possible(p, ev)
    ensures PaneOk(After(p, ev))
    ensures After(p, ev).published ==
      p.published + if ev == Publish then [Snapshot(Scrollback(p.emu), p.emu.screen)] else []
  {
    match ev
    case Change(f) => FollowsEvolves(p.state, p.emu, f);
    case Publish => TakeExact(p.state, p.emu);
    case Render => DrainHarmless(p.state, p.emu);
  }

  /** Over every run, each capture published is the rebuild at that moment. */
  lemma {:induction false} CapturesAreRebuilds(p: Pane, events: seq<Event>)
    requires PaneOk(p) && PossibleRun(p, events)
    ensures Final(p, events).published == p.published + Rebuilt(p, events)
    decreases |events|
  {
    hide After;
    hide Possible;
    hide Scrollback;
    hide EmuOk;
    hide PaneOk;
    PaneEmuOk(p);
    if events != [] {
      var next := After(p, events[0]);
      AfterOk(p, events[0]);
      CapturesAreRebuilds(next, events[1..]);
      var now := if events[0] == Publish then [Snapshot(Scrollback(p.emu), p.emu.screen)] else [];
      assert (p.published + now) + Rebuilt(next, events[1..]) == p.published + (now + Rebuilt(next, events[1..]));
    }
  }

  lemma PaneEmuOk(p: Pane)
    requires PaneOk(p)
    ensures EmuOk(p.emu) && p.emu.kept <= |p.emu.history|
  {
  }
}
