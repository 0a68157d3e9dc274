/**
 * The client render actor: which panes have emulators, what output is held
 * back for panes nobody sees, and which captures are published.
 */
module Renderer {
  import opened Common
  import opened Capture
  import opened RendererPane

  type PaneId = nat

  const GlobalBarHeight := 1

  function PaneContentHeight(cellHeight: int): int {
    if cellHeight - 1 < 1 then 1 else cellHeight - 1
  }

  /** A layout as the server sends it, scaled to this client: the cells of the active window and of the others. */
  datatype Layout = Layout(panes: seq<PaneId>, cells: map<PaneId, (int, int)>, others: map<PaneId, (int, int)>, zoomed: PaneId)

  /** The actor's view of the session; zoomed 0 means no pane is. */
  datatype Snap = Snap(
    panes: set<PaneId>,
    cells: Option<map<PaneId, (int, int)>>,
    others: map<PaneId, (int, int)>,
    zoomed: PaneId,
    visible: set<PaneId>,
    width: int,
    height: int,
    captures: map<PaneId, Snapshot>
  )

  predicate InActiveLayout(snap: Snap, p: PaneId) {
    snap.cells.Some? && p in snap.cells.value
  }

  /** What is on screen: the zoomed pane, or else every pane of the active window. */
  function VisibleSet(snap: Snap): (visible: set<PaneId>)
    ensures forall p :: p in visible <==>
      snap.cells.Some? && if snap.zoomed != 0 then p == snap.zoomed else p in snap.cells.value && p != 0
  {
    if snap.cells == None then {}
    else if snap.zoomed != 0 then {snap.zoomed}
    else snap.cells.value.Keys - {0}
  }

  function PaneDimensions(snap: Snap, p: PaneId): Option<(int, int)> {
    if InActiveLayout(snap, p) then Some((snap.cells.value[p].0, PaneContentHeight(snap.cells.value[p].1)))
    else if p in snap.others then Some((snap.others[p].0, PaneContentHeight(snap.others[p].1)))
    else if snap.width <= 0 || snap.height - GlobalBarHeight <= 0 then None
    else Some(ScreenSize(snap.width, snap.height))
  }

  /** The size of a pane that has the whole screen. */
  function ScreenSize(width: int, height: int): (int, int) {
    (width, PaneContentHeight(height - GlobalBarHeight))
  }

  /** A zoomed pane is one of the active window's. */
  predicate ZoomOk(snap: Snap) {
    snap.zoomed != 0 && snap.cells.Some? ==> snap.zoomed in snap.cells.value
  }

  /** Where a pane stands in a layout, as far as its emulator is concerned. */
  function Fitted(vt: Vt, snap: Snap, p: PaneId, s: Slot): Slot {
    var tiled :=
      if InActiveLayout(snap, p) && p != snap.zoomed
      then Resized(vt, s, (snap.cells.value[p].0, PaneContentHeight(snap.cells.value[p].1)))
      else s;
    if snap.zoomed != 0 && p == snap.zoomed
    then ResizedIfNeeded(vt, tiled, ScreenSize(snap.width, snap.height))
    else tiled
  }

  /** A pane that leaves loses its emulator, and then what was held for it; one that enters the active layout gets one. */
  function Kept(vt: Vt, next: Snap, p: PaneId, s: Slot): Slot {
    if p !in next.panes then s.(emu := None, pending := if s.emu.Some? then None else s.pending)
    else if InActiveLayout(next, p) then Started(vt, s, PaneDimensions(next, p))
    else s
  }

  function Shown(vt: Vt, next: Snap, p: PaneId, s: Slot): Slot {
    if p in next.visible && p != 0 then Warmed(vt, s) else s
  }

  /** One pane over a layout change, up to publication. */
  function Relaid(vt: Vt, next: Snap, p: PaneId, s: Slot): Slot {
    Fitted(vt, next, p, Shown(vt, next, p, Kept(vt, next, p, s)))
  }

  function Uncaptured(s: Slot): Slot {
    s.(state := NoState, capture := None)
  }

  lemma {:induction false} FittedOk(vt: Vt, snap: Snap, p: PaneId, s: Slot, visible: bool)
    requires Lawful(vt) && SlotOk(s, visible, false)
    ensures SlotOk(Fitted(vt, snap, p, s), visible, false) && Total(Fitted(vt, snap, p, s)) == Total(s)
    ensures Fitted(vt, snap, p, s).emu.Some? <==> s.emu.Some?
    ensures Fitted(vt, snap, p, s).pending == s.pending
  {
    hide SlotOk;
    hide Lawful;
    hide Total;
    if InActiveLayout(snap, p) && p != snap.zoomed {
      ResizedOk(vt, s, (snap.cells.value[p].0, PaneContentHeight(snap.cells.value[p].1)), visible, false);
    }
    if snap.zoomed != 0 && p == snap.zoomed {
      ResizedOk(vt, s, ScreenSize(snap.width, snap.height), visible, false);
    }
  }

  /** The size a layout gives a pane: that of the screen when zoomed, else that of its cell. */
  function TargetSize(snap: Snap, p: PaneId): Option<(int, int)> {
    if snap.zoomed != 0 && p == snap.zoomed then Some(ScreenSize(snap.width, snap.height))
    else if p != snap.zoomed && InActiveLayout(snap, p) then
      Some((snap.cells.value[p].0, PaneContentHeight(snap.cells.value[p].1)))
    else None
  }

  /** The pane's emulator has the size the layout gives it. */
  predicate FitsCell(snap: Snap, p: PaneId, s: Slot) {
    TargetSize(snap, p).Some? ==> HasSize(s, TargetSize(snap, p).value)
  }

  lemma {:induction false} FittedFits(vt: Vt, snap: Snap, p: PaneId, s: Slot)
    requires Lawful(vt) && (s.emu.Some? ==> EmuOk(s.emu.value))
    ensures FitsCell(snap, p, Fitted(vt, snap, p, s))
  {
    if s.emu.Some? && TargetSize(snap, p).Some? {
      var (w, h) := TargetSize(snap, p).value;
      assert SizeOf(vt.resize(s.emu.value, w, h)) == (w, h);
    }
  }

  /** Buffered output of a pane that becomes visible without getting an emulator is thrown away. */
  predicate DropsPending(next: Snap, p: PaneId, s: Slot) {
    && p in next.panes && p in next.visible && p != 0
    && !InActiveLayout(next, p) && s.emu == None && s.pending.Some?
  }

  /** A pane that stays keeps all its bytes over a layout change, exactly unless its held bytes are dropped. */
  lemma {:induction false} RelaidOk(vt: Vt, next: Snap, p: PaneId, s: Slot)
    requires Lawful(vt) && SlotOk(s, false, false) && p in next.panes
    ensures var t := Relaid(vt, next, p, s);
      && SlotOk(t, p in next.visible && p != 0, false)
      && (InActiveLayout(next, p) || s.emu.Some? ==> t.emu.Some?)
      && FitsCell(next, p, t)
      && Total(t) == if DropsPending(next, p, s) then [] else Total(s)
  {
    hide Lawful;
    hide SlotOk;
    hide PaneDimensions;
    hide Fitted;
    StartedOk(vt, s, PaneDimensions(next, p), false, false);
    KeptOk(vt, next, p, s);
    var kept := Kept(vt, next, p, s);
    WarmedOk(vt, kept, false, false);
    FittedOk(vt, next, p, Shown(vt, next, p, kept), p in next.visible && p != 0);
    SlotEmuOk(Shown(vt, next, p, kept));
    FittedFits(vt, next, p, Shown(vt, next, p, kept));
  }

  lemma ZoomedFits(snap: Snap, s: Slot)
    requires snap.zoomed != 0 && FitsCell(snap, snap.zoomed, s)
    ensures HasSize(s, ScreenSize(snap.width, snap.height))
  {
  }

  lemma SlotEmuOk(s: Slot)
    ensures forall visible, settled :: SlotOk(s, visible, settled) && s.emu.Some? ==> EmuOk(s.emu.value)
  {
  }

  lemma {:induction false} KeptOk(vt: Vt, next: Snap, p: PaneId, s: Slot)
    requires Lawful(vt) && SlotOk(s, false, false) && p in next.panes
    ensures var kept := Kept(vt, next, p, s);
      SlotOk(kept, false, false) && Total(kept) == Total(s) && (InActiveLayout(next, p) ==> kept.emu.Some?)
  {
    StartedOk(vt, s, PaneDimensions(next, p), false, false);
  }

  /** What stays held for a pane that leaves: nothing if it had an emulator or its place is on screen, else all of it. */
  function Left(next: Snap, p: PaneId, s: Slot): seq<byte> {
    if s.emu.Some? || (p in next.visible && p != 0) then [] else Total(s)
  }

  /** A pane that leaves keeps no emulator, and just what stays held for it. */
  lemma {:induction false} RelaidGone(vt: Vt, next: Snap, p: PaneId, s: Slot)
    requires Lawful(vt) && SlotOk(s, false, false) && p !in next.panes
    ensures var t := Uncaptured(Relaid(vt, next, p, s));
      && SlotOk(t, p in next.visible && p != 0, true) && t.emu == None && Relaid(vt, next, p, s).emu == None
      && Total(Relaid(vt, next, p, s)) == Left(next, p, s)
  {
  }

  /** Dropping held bytes is a loss: there always are some. */
  lemma {:induction false} DropLoses(vt: Vt, next: Snap, p: PaneId, s: Slot)
    requires Lawful(vt) && SlotOk(s, false, false) && DropsPending(next, p, s)
    ensures p in next.panes && Total(Relaid(vt, next, p, s)) != Total(s)
  {
    RelaidOk(vt, next, p, s);
    assert s.pending.value.chunks[0] in s.pending.value.chunks;
  }

  /** It happens: pane 1, hidden and cold, holds a byte when a layout zooms it from outside the active window. */
  lemma {:induction false} DropPossible(vt: Vt)
    requires Lawful(vt)
    ensures var s := Slot(None, Some(Buffer([[65]], 80, 24)), NoState, None);
      var next := Snap({1, 2}, Some(map[2 := (80, 24)]), map[1 := (80, 24)], 1, {1}, 80, 25, map[]);
      next.visible == VisibleSet(next) && Total(s) == [65] && Total(Relaid(vt, next, 1, s)) == []
  {
    var s := Slot(None, Some(Buffer([[65]], 80, 24)), NoState, None);
    var next := Snap({1, 2}, Some(map[2 := (80, 24)]), map[1 := (80, 24)], 1, {1}, 80, 25, map[]);
    var chunks := s.pending.value.chunks;
    assert chunks[1..] == [] && Concat(chunks) == chunks[0] + [];
    RelaidOk(vt, next, 1, s);
  }

  /**
   * It happens: pane 1, in the active layout but hidden by the zoom of pane 2,
   * holds a byte. The layout captures its emulator, a reader has the byte
   * replayed, and the capture is no longer what a rebuild would give.
   */
  lemma {:induction false} LagPossible()
    ensures var vt := PushingVt();
      var s := Slot(None, Some(Buffer([[65]], 80, 24)), NoState, None);
      var next := Snap({1, 2}, Some(map[1 := (80, 24), 2 := (80, 24)]), map[], 2, {2}, 80, 25, map[]);
      && Lawful(vt) && next.visible == VisibleSet(next) && ZoomOk(next)
      && var laid := Relaid(vt, next, 1, s);
      && (laid.emu.Some? ==> EmuOk(laid.emu.value))
      && var shown := Published(laid);
      Captured(shown) && !Captured(Warmed(vt, shown))
  {
    hide Lawful;
    hide PushingVt;
    hide Published;
    hide Captured;
    hide Warmed;
    hide SlotOk;
    hide EmuOk;
    hide Relaid;
    var vt := PushingVt();
    var s := Slot(None, Some(Buffer([[65]], 80, 24)), NoState, None);
    var next := Snap({1, 2}, Some(map[1 := (80, 24), 2 := (80, 24)]), map[], 2, {2}, 80, 25, map[]);
    PushingLawful();
    HeldOk(s);
    RelaidOk(vt, next, 1, s);
    StillHeld(vt, next, 1, s);
    PushedLags(Relaid(vt, next, 1, s), [65]);
  }

  lemma HeldOk(s: Slot)
    requires s.emu == None && s.state == NoState && s.capture == None
    requires s.pending.Some? && s.pending.value.chunks != [] && [] !in s.pending.value.chunks
    ensures SlotOk(s, false, false)
  {
  }

  /** Output stays held for a pane that stays hidden. */
  lemma StillHeld(vt: Vt, next: Snap, p: PaneId, s: Slot)
    requires p in next.panes && p !in next.visible
    ensures Relaid(vt, next, p, s).pending == s.pending
  {
  }

  /** With every write pushing a line, any replay after publication leaves the capture behind. */
  lemma {:induction false} PushedLags(s: Slot, data: seq<byte>)
    requires SlotOk(s, false, false) && s.emu.Some? && s.pending.Some? && s.pending.value.chunks == [data]
    ensures EmuOk(s.emu.value) && Captured(Published(s)) && !Captured(Warmed(PushingVt(), Published(s)))
  {
    hide Lawful;
    hide Take;
    PushingLawful();
    PublishedOk(s, false, false);
    var shown := Published(s);
    ReplayLags(PushingVt(), shown);
    OneMore(shown.emu.value, data);
  }

  lemma OneMore(e: Emu, data: seq<byte>)
    requires EmuOk(e)
    ensures var f := WriteAll(PushingVt(), e, [data]);
      EmuOk(f) && |Scrollback(f)| == |Scrollback(e)| + 1
  {
    assert [data][1..] == [];
    assert WriteAll(PushingVt(), e, [data]) == PushingVt().write(e, data);
  }

  /** One pane over one piece of output, up to publication. */
  function Routed(vt: Vt, snap: Snap, p: PaneId, s: Slot, data: seq<byte>): Slot {
    if p !in snap.panes then s
    else
      var started := if p in snap.visible && p != 0 then Started(vt, s, PaneDimensions(snap, p)) else s;
      if started.emu.Some? then Fed(vt, if p == 0 then started else Warmed(vt, started), data)
      else if p in snap.visible || p == 0 then started
      else Buffered(s, PaneDimensions(snap, p), data)
  }

  /** Output for a visible pane that can get no emulator is thrown away. */
  predicate DropsOutput(snap: Snap, p: PaneId, s: Slot) {
    p in snap.visible && s.emu == None && StartSize(s, PaneDimensions(snap, p)) == None
  }

  lemma {:induction false} RoutedOk(vt: Vt, snap: Snap, p: PaneId, s: Slot, data: seq<byte>, settled: bool)
    requires Lawful(vt) && SlotOk(s, p in snap.visible, settled) && (p == 0 ==> s.pending == None)
    ensures var t := Routed(vt, snap, p, s, data);
      && SlotOk(t, p in snap.visible, settled && (p !in snap.panes || t.emu == None))
      && (s.emu.Some? ==> t.emu.Some?)
      && (p == 0 ==> t.pending == None)
      && (p != 0 && p in snap.panes && !DropsOutput(snap, p, s) ==> Total(t) == Total(s) + data)
  {
    hide Lawful;
    hide Total;
    var size := PaneDimensions(snap, p);
    StartedOk(vt, s, size, p in snap.visible, settled);
    if p in snap.panes {
      var started := if p in snap.visible && p != 0 then Started(vt, s, size) else s;
      if started.emu.Some? {
        WarmedOk(vt, started, p in snap.visible, settled);
        FedOk(vt, if p == 0 then started else Warmed(vt, started), data, true, false);
      } else if p !in snap.visible {
        BufferedOk(s, size, data, settled);
      }
    }
  }

  lemma RoutedOther(vt: Vt, snap: Snap, p: PaneId, s: Slot, data: seq<byte>)
    ensures p !in snap.panes ==> Routed(vt, snap, p, s, data) == s
  {
  }

  /** A cold pane can get an emulator: it is known, and a size for it is. */
  ghost predicate Starts(snap: Snap, p: PaneId, s: Slot) {
    p != 0 && p in snap.panes && exists w, h :: StartsAt(snap, p, s, w, h)
  }

  lemma StartsSame(snap: Snap, p: PaneId, s: Slot)
    ensures forall c :: Starts(snap.(captures := c), p, s) == Starts(snap, p, s)
  {
    forall c ensures Starts(snap.(captures := c), p, s) == Starts(snap, p, s) {
      assert forall w, h :: StartsAt(snap.(captures := c), p, s, w, h) == StartsAt(snap, p, s, w, h);
    }
  }

  lemma StartsEmulator(vt: Vt, snap: Snap, p: PaneId, s: Slot)
    ensures p != 0 && p in snap.panes ==>
      (Started(vt, s, PaneDimensions(snap, p)).emu.Some? <==> s.emu.Some? || Starts(snap, p, s))
  {
    hide Started;
    hide PaneDimensions;
    hide StartsAt;
    StartedWarm(vt, s, PaneDimensions(snap, p));
    if s.emu == None {
      StartedBegins(vt, snap, p, s);
    }
  }

  /** What a batch holds for one pane. */
  function SentTo(p: PaneId, items: seq<(PaneId, seq<byte>)>): seq<byte> {
    if items == [] then []
    else
      var (q, data) := items[|items| - 1];
      SentTo(p, items[..|items| - 1]) + if q == p then data else []
  }

  function PanesOf(items: seq<(PaneId, seq<byte>)>): set<PaneId> {
    set i | 0 <= i < |items| :: items[i].0
  }

  type Received = map<PaneId, seq<byte>>

  function Get(r: Received, p: PaneId): seq<byte> {
    if p in r then r[p] else []
  }

  /** The record with output for p noted, if p is a pane at all. */
  function Noted(r: Received, panes: set<PaneId>, p: PaneId, data: seq<byte>): Received {
    if p in panes then r[p := Get(r, p) + data] else r
  }

  function NotedAll(r: Received, panes: set<PaneId>, items: seq<(PaneId, seq<byte>)>): Received {
    if items == [] then r
    else
      var (p, data) := items[|items| - 1];
      Noted(NotedAll(r, panes, items[..|items| - 1]), panes, p, data)
  }

  lemma NotedNothing(r: Received, panes: set<PaneId>)
    ensures NotedAll(r, panes, []) == r
  {
  }

  lemma NotedNext(r: Received, panes: set<PaneId>, items: seq<(PaneId, seq<byte>)>, i: nat)
    requires i < |items|
    ensures NotedAll(r, panes, items[..i + 1]) == Noted(NotedAll(r, panes, items[..i]), panes, items[i].0, items[i].1)
  {
    assert items[..i + 1][..i] == items[..i];
  }

  /** Each pane is noted to have got just what the batch holds for it. */
  lemma {:induction false} NotedAllGet(r: Received, panes: set<PaneId>, items: seq<(PaneId, seq<byte>)>, p: PaneId)
    ensures Get(NotedAll(r, panes, items), p) == Get(r, p) + if p in panes then SentTo(p, items) else []
    decreases |items|
  {
    if items != [] {
      NotedAllGet(r, panes, items[..|items| - 1], p);
    }
  }

  /** Fitting carries over, whatever is published in the snapshot meanwhile. */
  ghost predicate FitsEither(snap: Snap, p: PaneId, s: Slot, t: Slot) {
    forall c :: FitsCell(snap, p, s) ==> FitsCell(snap.(captures := c), p, t)
  }

  lemma StillFits(snap: Snap, p: PaneId, s: Slot, t: Slot)
    requires forall size :: HasSize(s, size) ==> HasSize(t, size)
    ensures FitsEither(snap, p, s, t)
  {
    forall c ensures TargetSize(snap.(captures := c), p) == TargetSize(snap, p) {
    }
  }

  lemma PublishedCold(s: Slot)
    ensures s.emu == None ==> Published(s) == s
  {
  }

  lemma PublishedDrains(s: Slot)
    requires s.emu.Some? ==> EmuOk(s.emu.value)
    ensures s.emu.Some? ==> Published(s).emu == Some(Drained(s.emu.value))
    ensures Published(s).pending == s.pending
  {
  }

  lemma SlotLess(s: Slot, visible: bool, settled: bool, less: bool)
    requires SlotOk(s, visible, settled)
    ensures (less ==> settled) ==> SlotOk(s, visible, less)
  {
  }

  lemma StartedWarm(vt: Vt, s: Slot, size: Option<(int, int)>)
    ensures s.emu.Some? ==> Started(vt, s, size) == s
    ensures Started(vt, s, size).capture == s.capture
  {
  }

  lemma StartedPending(vt: Vt, s: Slot, size: Option<(int, int)>)
    ensures Started(vt, s, size) == s.(emu := Started(vt, s, size).emu)
  {
  }

  lemma StartedCold(vt: Vt, s: Slot, size: Option<(int, int)>)
    ensures Started(vt, s, size).emu == None ==> Started(vt, s, size) == s
  {
  }

  // ----- at what size, and with what, an emulator starts -----

  /** The size the layout has for a pane: its cell's without the status row, or else the screen's. */
  predicate SizeFor(snap: Snap, p: PaneId, w: int, h: int) {
    if snap.cells.Some? && p in snap.cells.value then
      w == snap.cells.value[p].0 && h == Rows(snap.cells.value[p].1)
    else if p in snap.others then
      w == snap.others[p].0 && h == Rows(snap.others[p].1)
    else
      snap.width > 0 && snap.height > GlobalBarHeight && w == snap.width && h == Rows(snap.height - GlobalBarHeight)
  }

  /** Rows left below a pane's status row, one at least. */
  function Rows(height: int): (r: int)
    ensures height >= 2 ==> r + 1 == height
    ensures height < 2 ==> r == 1
  {
    if height < 2 then 1 else height - 1
  }

  predicate IsRecorded(s: Slot) {
    s.pending.Some? && s.pending.value.width > 0 && s.pending.value.height > 0
  }

  /** A cold pane's emulator has the size recorded with the output held for it, or else the layout's. */
  predicate StartsAt(snap: Snap, p: PaneId, s: Slot, w: int, h: int) {
    if IsRecorded(s) then (w, h) == (s.pending.value.width, s.pending.value.height) else SizeFor(snap, p, w, h)
  }

  /** t is s with an emulator of the right size, or s itself if no size is known. */
  ghost predicate Begun(vt: Vt, snap: Snap, p: PaneId, s: Slot, t: Slot) {
    && t == s.(emu := t.emu)
    && (t.emu.Some? ==> exists w, h :: StartsAt(snap, p, s, w, h) && t.emu.value == vt.start(w, h))
    && (t.emu == None ==> forall w, h :: !StartsAt(snap, p, s, w, h))
  }

  lemma {:induction false} DimensionsFor(snap: Snap, p: PaneId, w: int, h: int)
    ensures SizeFor(snap, p, w, h) <==> PaneDimensions(snap, p) == Some((w, h))
  {
  }

  lemma {:induction false} StartedBegins(vt: Vt, snap: Snap, p: PaneId, s: Slot)
    requires s.emu == None
    ensures Begun(vt, snap, p, s, Started(vt, s, PaneDimensions(snap, p)))
  {
    hide PaneDimensions;
    hide SizeFor;
    forall w, h ensures SizeFor(snap, p, w, h) <==> PaneDimensions(snap, p) == Some((w, h)) {
      DimensionsFor(snap, p, w, h);
    }
    var t := Started(vt, s, PaneDimensions(snap, p));
    if t.emu.Some? {
      var (w, h) := StartSize(s, PaneDimensions(snap, p)).value;
      assert StartsAt(snap, p, s, w, h) && t.emu.value == vt.start(w, h);
    }
  }

  /** e is the emulator of s, or a new one of the right size, after all that is held was written to it in order. */
  ghost predicate CaughtUp(vt: Vt, snap: Snap, p: PaneId, s: Slot, e: Emu) {
    if s.emu.Some? then FedInOrder(vt, s.emu.value, ChunksOf(s), e)
    else exists w, h :: StartsAt(snap, p, s, w, h) && FedInOrder(vt, vt.start(w, h), ChunksOf(s), e)
  }

  lemma {:induction false} WarmedFeeds(vt: Vt, s: Slot)
    requires s.emu.Some?
    ensures Warmed(vt, s).emu.Some? && FedInOrder(vt, s.emu.value, ChunksOf(s), Warmed(vt, s).emu.value)
  {
    hide FedInOrder;
    WriteAllFeeds(vt, s.emu.value, ChunksOf(s));
  }

  /** A reader's replay leaves the emulator caught up. */
  lemma {:induction false} ReplayedCaughtUp(vt: Vt, snap: Snap, p: PaneId, s: Slot)
    requires p in snap.panes && Replayed(vt, snap, p, s).emu.Some? && (p == 0 ==> s.pending == None)
    ensures CaughtUp(vt, snap, p, s, Replayed(vt, snap, p, s).emu.value)
  {
    hide PaneDimensions;
    hide Started;
    hide Warmed;
    hide FedInOrder;
    hide StartsAt;
    var started := Started(vt, s, PaneDimensions(snap, p));
    StartedWarm(vt, s, PaneDimensions(snap, p));
    if s.emu == None {
      StartedBegins(vt, snap, p, s);
    }
    if p == 0 {
      WriteAllFeeds(vt, s.emu.value, []);
    } else {
      WarmedFeeds(vt, started);
    }
  }

  /** f is what the emulator is once caught up, fed the new output and captured. */
  ghost predicate TookOutput(vt: Vt, snap: Snap, p: PaneId, s: Slot, data: seq<byte>, f: Emu) {
    exists e :: CaughtUp(vt, snap, p, s, e) && f == Drained(vt.write(e, data))
  }

  lemma {:induction false} RoutedFeeds(vt: Vt, snap: Snap, p: PaneId, s: Slot, data: seq<byte>)
    requires p in snap.panes && (p == 0 ==> s.pending == None) && Routed(vt, snap, p, s, data).emu.Some?
    ensures TookOutput(vt, snap, p, s, data, Drained(Routed(vt, snap, p, s, data).emu.value))
  {
    hide PaneDimensions;
    hide Started;
    hide Warmed;
    hide FedInOrder;
    hide StartsAt;
    hide Drained;
    var started := if p in snap.visible && p != 0 then Started(vt, s, PaneDimensions(snap, p)) else s;
    StartedWarm(vt, s, PaneDimensions(snap, p));
    if s.emu == None {
      StartedBegins(vt, snap, p, s);
    }
    BufferedCold(s, PaneDimensions(snap, p), data);
    if p == 0 {
      WriteAllFeeds(vt, s.emu.value, []);
    } else {
      WarmedFeeds(vt, started);
    }
  }

  /** An emulator starts only for a pane on screen; without one its output is dropped, and so is that of an unknown pane. */
  lemma {:induction false} RoutedElse(vt: Vt, snap: Snap, p: PaneId, s: Slot, data: seq<byte>)
    ensures var t := Routed(vt, snap, p, s, data);
      && (p !in snap.panes ==> t == s)
      && (p in snap.panes ==> (t.emu.Some? <==> s.emu.Some? || (p in snap.visible && Starts(snap, p, s))))
      && (t.emu == None && (p in snap.visible || p == 0) ==> t == s)
  {
    hide PaneDimensions;
    hide Started;
    hide Warmed;
    hide Starts;
    StartsEmulator(vt, snap, p, s);
    StartedCold(vt, s, PaneDimensions(snap, p));
    BufferedCold(s, PaneDimensions(snap, p), data);
    NotStarted(snap, p, s);
    var started := if p in snap.visible && p != 0 then Started(vt, s, PaneDimensions(snap, p)) else s;
    WarmedStays(vt, started);
  }

  lemma NothingSent(vt: Vt, snap: Snap, p: PaneId, s: Slot)
    ensures Routed(vt, snap, p, s, []).emu == None ==> Routed(vt, snap, p, s, []) == s
  {
    hide PaneDimensions;
    hide Warmed;
    StartedCold(vt, s, PaneDimensions(snap, p));
    WarmedStays(vt, if p in snap.visible && p != 0 then Started(vt, s, PaneDimensions(snap, p)) else s);
  }

  lemma NotStarted(snap: Snap, p: PaneId, s: Slot)
    ensures Starts(snap, p, s) ==> p != 0 && p in snap.panes
  {
  }

  lemma WarmedStays(vt: Vt, s: Slot)
    ensures Warmed(vt, s).emu.Some? <==> s.emu.Some?
  {
  }

  lemma BufferedCold(s: Slot, size: Option<(int, int)>, data: seq<byte>)
    ensures Buffered(s, size, data).emu == s.emu
  {
  }

  /** Output for a cold pane nobody sees is held, with the right size. */
  lemma {:induction false} RoutedHolds(vt: Vt, snap: Snap, p: PaneId, s: Slot, data: seq<byte>)
    requires p != 0 && p in snap.panes && p !in snap.visible && s.emu == None && data != []
    ensures HoldsMore(snap, p, s, data, Routed(vt, snap, p, s, data))
  {
    hide PaneDimensions;
    BufferedHolds(snap, p, s, data);
  }

  /** The size a pane of the active layout is shown at: the screen's when zoomed, else its cell's. */
  predicate ShownSize(snap: Snap, p: PaneId, w: int, h: int) {
    if snap.zoomed != 0 && p == snap.zoomed then w == snap.width && h == Rows(snap.height - GlobalBarHeight)
    else snap.cells.Some? && p in snap.cells.value && SizeFor(snap, p, w, h)
  }

  /**
   * A cold pane that enters the active layout starts at the size recorded for
   * it, is fed what was held if it is on screen, and only then resized.
   */
  ghost predicate Entered(vt: Vt, snap: Snap, p: PaneId, s: Slot, f: Emu) {
    exists w, h, e, u, v :: EnteredBy(vt, snap, p, s, f, w, h, e, u, v)
  }

  ghost predicate EnteredBy(vt: Vt, snap: Snap, p: PaneId, s: Slot, f: Emu, w: int, h: int, e: Emu, u: int, v: int) {
    && StartsAt(snap, p, s, w, h) && ShownSize(snap, p, u, v)
    && FedInOrder(vt, vt.start(w, h), if p in snap.visible then ChunksOf(s) else [], e)
    && (f == Drained(vt.resize(e, u, v)) || (f == Drained(e) && SizeOf(e) == (u, v)))
  }

  /** An emulator that fits has the size its pane is shown at. */
  lemma {:induction false} FitsShown(snap: Snap, p: PaneId, s: Slot, w: int, h: int)
    requires FitsCell(snap, p, s) && p != 0 && ShownSize(snap, p, w, h)
    ensures HasSize(s, (w, h))
  {
  }

  lemma {:induction false} EntersCold(vt: Vt, next: Snap, p: PaneId, s: Slot)
    requires p != 0 && p in next.panes && s.emu == None && InActiveLayout(next, p)
    ensures Relaid(vt, next, p, s).emu.Some? && Entered(vt, next, p, s, Drained(Relaid(vt, next, p, s).emu.value))
  {
    hide FedInOrder;
    hide Drained;
    hide Started;
    hide StartsAt;
    hide SizeFor;
    hide PaneDimensions;
    StartedBegins(vt, next, p, s);
    var begun := Kept(vt, next, p, s);
    HasDimensions(vt, next, p, s);
    WriteAllFeeds(vt, begun.emu.value, []);
    WarmedFeeds(vt, begun);
    var shown := Shown(vt, next, p, begun);
    FittedEmu(vt, next, p, shown);
    var w, h :| StartsAt(next, p, s, w, h) && begun.emu.value == vt.start(w, h);
    var f := Relaid(vt, next, p, s).emu.value;
    var u, v :| ShownSize(next, p, u, v)
      && (f == vt.resize(shown.emu.value, u, v) || (f == shown.emu.value && SizeOf(shown.emu.value) == (u, v)));
    assert EnteredBy(vt, next, p, s, Drained(f), w, h, shown.emu.value, u, v);
  }

  lemma {:induction false} HasDimensions(vt: Vt, next: Snap, p: PaneId, s: Slot)
    requires s.emu == None && InActiveLayout(next, p)
    ensures Started(vt, s, PaneDimensions(next, p)).emu.Some?
  {
  }

  lemma {:induction false} FittedEmu(vt: Vt, snap: Snap, p: PaneId, s: Slot)
    requires p != 0 && s.emu.Some? && InActiveLayout(snap, p)
    ensures var t := Fitted(vt, snap, p, s);
      t.emu.Some? && exists u, v ::
        ShownSize(snap, p, u, v)
        && (t.emu.value == vt.resize(s.emu.value, u, v) || (t.emu.value == s.emu.value && SizeOf(s.emu.value) == (u, v)))
  {
    var (u, v) :=
      if snap.zoomed != 0 && p == snap.zoomed then ScreenSize(snap.width, snap.height)
      else (snap.cells.value[p].0, PaneContentHeight(snap.cells.value[p].1));
    assert ShownSize(snap, p, u, v);
  }

  /** A cold pane that stays out of sight and outside the active layout is left alone. */
  lemma {:induction false} StaysCold(vt: Vt, next: Snap, p: PaneId, s: Slot)
    requires p in next.panes && s.emu == None && !InActiveLayout(next, p) && p !in next.visible
    ensures Relaid(vt, next, p, s) == s
  {
    FittedNone(vt, next, p, s);
  }

  /** What a layout makes of a pane that had no emulator, if it is known: it enters, or is left alone, or comes on screen. */
  ghost predicate ColdStep(vt: Vt, snap: Snap, p: PaneId, s: Slot, t: Slot) {
    && (snap.cells.Some? && p in snap.cells.value ==> t.emu.Some? && Entered(vt, snap, p, s, t.emu.value))
    && (!(snap.cells.Some? && p in snap.cells.value) && p !in snap.visible ==> t.emu == None && t.pending == s.pending)
  }

  lemma ColdStepSame(vt: Vt, snap: Snap, c: map<PaneId, Snapshot>, p: PaneId, s: Slot, t: Slot)
    requires ColdStep(vt, snap, p, s, t)
    ensures ColdStep(vt, snap.(captures := c), p, s, t)
  {
    hide FedInOrder;
    hide Drained;
    if snap.cells.Some? && p in snap.cells.value {
      EnteredSame(vt, snap, c, p, s, t.emu.value);
    }
  }

  lemma EnteredSame(vt: Vt, snap: Snap, c: map<PaneId, Snapshot>, p: PaneId, s: Slot, f: Emu)
    requires Entered(vt, snap, p, s, f)
    ensures Entered(vt, snap.(captures := c), p, s, f)
  {
    hide FedInOrder;
    hide Drained;
    var w, h, e, u, v :| EnteredBy(vt, snap, p, s, f, w, h, e, u, v);
    assert EnteredBy(vt, snap.(captures := c), p, s, f, w, h, e, u, v);
  }

  lemma {:induction false} ColdRelaid(vt: Vt, next: Snap, p: PaneId, s: Slot, t: Slot)
    requires p != 0 && p in next.panes && s.emu == None && t.pending == Relaid(vt, next, p, s).pending
    requires t.emu == match Relaid(vt, next, p, s).emu case Some(e) => Some(Drained(e)) case None => None
    ensures ColdStep(vt, next, p, s, t)
  {
    hide Relaid;
    hide Entered;
    hide Drained;
    if InActiveLayout(next, p) {
      EntersCold(vt, next, p, s);
    } else if p !in next.visible {
      StaysCold(vt, next, p, s);
    }
  }

  /** t holds one chunk more than s, with the size recorded first kept, or else the layout's now if there is one. */
  ghost predicate HoldsMore(snap: Snap, p: PaneId, s: Slot, data: seq<byte>, t: Slot) {
    && t == s.(pending := t.pending) && t.pending.Some? && t.pending.value.chunks == ChunksOf(s) + [data]
    && (forall w, h :: w > 0 && h > 0 && (if IsRecorded(s) then StartsAt(snap, p, s, w, h) else SizeFor(snap, p, w, h)) ==>
          (t.pending.value.width, t.pending.value.height) == (w, h))
    && (IsRecorded(t) ==> IsRecorded(s) || SizeFor(snap, p, t.pending.value.width, t.pending.value.height))
  }

  lemma {:induction false} BufferedHolds(snap: Snap, p: PaneId, s: Slot, data: seq<byte>)
    requires data != []
    ensures HoldsMore(snap, p, s, data, Buffered(s, PaneDimensions(snap, p), data))
  {
    hide PaneDimensions;
    hide SizeFor;
    forall w, h ensures SizeFor(snap, p, w, h) <==> PaneDimensions(snap, p) == Some((w, h)) {
      DimensionsFor(snap, p, w, h);
    }
  }

  /** What is held for a pane nobody sees, chunk by chunk, whatever the layout was meanwhile. */
  ghost predicate HeldSince(p: PaneId, snaps: seq<Snap>, slots: seq<Slot>, data: seq<seq<byte>>) {
    && |slots| == |data| + 1 && |snaps| == |data|
    && slots[0].emu == None && slots[0].pending == None
    && forall k :: 0 <= k < |data| ==> HoldsMore(snaps[k], p, slots[k], data[k], slots[k + 1])
  }

  lemma {:induction false} HeldWithFirstSize(p: PaneId, snaps: seq<Snap>, slots: seq<Slot>, data: seq<seq<byte>>,
                                            w: int, h: int, k: nat)
    requires HeldSince(p, snaps, slots, data) && 0 < k <= |data| && SizeFor(snaps[0], p, w, h) && w > 0 && h > 0
    ensures slots[k].emu == None && slots[k].pending.Some?
    ensures slots[k].pending.value == Buffer(data[..k], w, h)
  {
    hide SizeFor;
    assert HoldsMore(snaps[k - 1], p, slots[k - 1], data[k - 1], slots[k]);
    assert data[..k] == data[..k - 1] + [data[k - 1]];
    if k > 1 {
      HeldWithFirstSize(p, snaps, slots, data, w, h, k - 1);
      assert StartsAt(snaps[k - 1], p, slots[k - 1], w, h);
    }
  }

  /**
   * Lazy replay is eager feeding: an emulator caught up after output was held
   * is what one of the size known at the first chunk would have become, had it
   * been there from the start and fed every chunk as it came.
   */
  lemma {:induction false} LazyIsEager(vt: Vt, p: PaneId, snaps: seq<Snap>, slots: seq<Slot>, data: seq<seq<byte>>,
                                      now: Snap, w: int, h: int, e: Emu)
    requires HeldSince(p, snaps, slots, data) && data != [] && SizeFor(snaps[0], p, w, h) && w > 0 && h > 0
    requires CaughtUp(vt, now, p, slots[|data|], e)
    ensures FedInOrder(vt, vt.start(w, h), data, e)
  {
    hide HeldSince;
    hide SizeFor;
    hide FedInOrder;
    HeldWithFirstSize(p, snaps, slots, data, w, h, |data|);
    assert data[..|data|] == data;
  }

  /** One pane over a reader's replay: an emulator if it can get one, fed what is held. */
  function Replayed(vt: Vt, snap: Snap, p: PaneId, s: Slot): Slot {
    if p == 0 || p !in snap.panes then s
    else
      var started := Started(vt, s, PaneDimensions(snap, p));
      if started.emu == None then s else Warmed(vt, started)
  }

  /** The replay keeps all bytes and the capture, and leaves a warm pane holding nothing as it is. */
  lemma {:induction false} ReplayedOk(vt: Vt, snap: Snap, p: PaneId, s: Slot, visible: bool, settled: bool)
    requires Lawful(vt) && SlotOk(s, visible, settled)
    requires p in snap.panes || s.emu == None
    requires p == 0 ==> s.pending == None
    ensures var t := Replayed(vt, snap, p, s);
      && SlotOk(t, visible, settled && (visible || t == s))
      && Total(t) == Total(s) && t.capture == s.capture
      && (t.emu.Some? <==> s.emu.Some? || Starts(snap, p, s))
      && (t.emu.Some? ==> t.pending == None)
      && (t.emu == None || (s.emu.Some? && s.pending == None) ==> t == s)
  {
    hide SlotOk;
    hide Lawful;
    hide Total;
    hide Warmed;
    hide Started;
    hide PaneDimensions;
    var size := PaneDimensions(snap, p);
    var started := Started(vt, s, size);
    StartsEmulator(vt, snap, p, s);
    StartedOk(vt, s, size, visible, settled);
    StartedWarm(vt, s, size);
    WarmedOk(vt, started, visible, settled);
    WarmedCapture(vt, started);
    SlotLess(Warmed(vt, started), visible, visible && settled, false);
  }

  lemma WarmedCapture(vt: Vt, s: Slot)
    ensures Warmed(vt, s).capture == s.capture
  {
  }

  lemma SlotWeaker(s: Slot, visible: bool, settled: bool)
    requires SlotOk(s, visible, settled)
    ensures SlotOk(s, visible, false) && SlotOk(s, false, false)
    ensures s.emu == None ==> SlotOk(Uncaptured(s), visible, true)
  {
  }

  lemma FittedNone(vt: Vt, snap: Snap, p: PaneId, s: Slot)
    ensures s.emu == None ==> Fitted(vt, snap, p, s) == s
  {
  }

  lemma GoneOk(s: Slot, visible: bool)
    requires s.emu == None && SlotOk(Uncaptured(s), visible, true)
    ensures Total(Uncaptured(s)) == Total(s) && Captured(Uncaptured(s)) && SlotOk(Uncaptured(s), visible, visible)
    ensures forall size :: HasSize(Uncaptured(s), size)
  {
  }

  class Renderer {
    const vt: Vt
    var snap: Snap
    var emulators: map<PaneId, Emu>
    var states: map<PaneId, State>
    var pending: map<PaneId, Buffer>
    var compositorHeight: int

    /** All output accepted for a pane since it was last forgotten. */
    ghost var received: Received
    /** Panes whose emulator was started or fed by a reader and not captured since. */
    ghost var stale: set<PaneId>

    function At(p: PaneId): Slot
      reads this`emulators, this`pending, this`states, this`snap
    {
      Slot(if p in emulators then Some(emulators[p]) else None,
           if p in pending then Some(pending[p]) else None,
           if p in states then states[p] else NoState,
           if p in snap.captures then Some(snap.captures[p]) else None)
    }

    ghost function Got(p: PaneId): seq<byte>
      reads this`received
    {
      Get(received, p)
    }

    /** If the pane has a capture, it is up to date. */
    ghost predicate Settled(p: PaneId, dirty: set<PaneId>)
      reads this`snap, this`stale
    {
      p !in dirty && (p in snap.visible || p !in stale)
    }

    /** As Valid, but captures of the dirty panes may be out of date. */
    ghost predicate ValidBut(dirty: set<PaneId>)
      reads this`snap, this`emulators, this`states, this`pending, this`compositorHeight, this`stale
    {
      && Lawful(vt)
      && snap.visible == VisibleSet(snap) && compositorHeight == snap.height
      && emulators.Keys <= snap.panes && 0 !in pending
      && (forall p :: p in snap.panes && InActiveLayout(snap, p) ==> p in emulators && p in snap.captures)
      && stale <= emulators.Keys && (forall p :: p in stale && p in snap.visible ==> !InActiveLayout(snap, p))
      && (forall p :: SlotOk(At(p), p in snap.visible, Settled(p, dirty)))
      && (forall p :: p !in dirty && p !in stale ==> Captured(At(p)))
    }

    /**
     * Between commands: every pane of the active layout has an emulator and a
     * capture, and a visible pane holds no output back. Every pane with an
     * emulator, hidden ones too, has a capture that is what a full rebuild would
     * give, except those a reader started or fed since; no such pane is on
     * screen unless it is zoomed from outside the active window.
     */
    ghost predicate Valid()
      reads this`snap, this`emulators, this`states, this`pending, this`compositorHeight, this`stale
    {
      ValidBut({})
    }

    /** Every byte accepted is in the emulator or held back behind it, in order. */
    ghost predicate Conserving()
      reads this
    {
      ZoomOk(snap) && forall p :: p != 0 ==> Total(At(p)) == Got(p)
    }

    constructor (vt: Vt, width: int, height: int)
      requires Lawful(vt)
      ensures Valid() && Conserving() && this.vt == vt && stale == {}
    {
      this.vt := vt;
      snap := Snap({}, None, map[], 0, {}, width, height, map[]);
      emulators, states, pending, received, stale := map[], map[], map[], map[], {};
      compositorHeight := height;
    }

    // ----- steps of commands -----

    method EnsurePaneEmulator(p: PaneId)
      modifies this`emulators
      ensures p != 0 && p in snap.panes ==> At(p) == Started(vt, old(At(p)), PaneDimensions(snap, p))
      ensures p != 0 && p in snap.panes && p !in old(emulators) ==> Begun(vt, snap, p, old(At(p)), At(p))
      ensures forall q :: q != p || p == 0 || p !in snap.panes ==> At(q) == old(At(q))
      ensures old(emulators.Keys) <= emulators.Keys <= old(emulators.Keys) + snap.panes
    {
      if p != 0 && p !in emulators && p in snap.panes {
        StartedBegins(vt, snap, p, At(p));
        var size := StartSize(At(p), PaneDimensions(snap, p));
        if size.Some? {
          var (w, h) := size.value;
          emulators := emulators[p := vt.start(w, h)];
        }
      }
    }

    method WarmPaneOutput(p: PaneId)
      modifies this`emulators, this`pending
      ensures forall q :: At(q) == if q == p && p != 0 then Warmed(vt, old(At(p))) else old(At(q))
      ensures pending.Keys <= old(pending.Keys) && emulators.Keys == old(emulators.Keys)
    {
      if p == 0 || p !in pending || pending[p].chunks == [] {
        return;
      }
      if p !in emulators {
        pending := pending - {p};
        return;
      }
      var chunks := pending[p].chunks;
      var emu := emulators[p];
      for i := 0 to |chunks|
        invariant WriteAll(vt, emulators[p], chunks) == WriteAll(vt, emu, chunks[i..])
      {
        emu := vt.write(emu, chunks[i]);
        assert chunks[i..][1..] == chunks[i + 1..];
      }
      emulators := emulators[p := emu];
      pending := pending - {p};
    }

    method BufferPaneOutput(p: PaneId, data: seq<byte>)
      modifies this`pending
      ensures forall q :: At(q) == if q == p && p != 0 then Buffered(old(At(p)), PaneDimensions(snap, p), data) else old(At(q))
      ensures p == 0 ==> pending == old(pending)
      ensures pending.Keys <= old(pending.Keys) + {p}
    {
      if p == 0 || |data| == 0 {
        return;
      }
      var b := if p in pending then pending[p] else Buffer([], 0, 0);
      b := WithReplaySize(b, PaneDimensions(snap, p));
      pending := pending[p := b.(chunks := b.chunks + [data])];
    }

    /** Output goes to the emulator if the pane is visible or warm, and is held back otherwise. */
    method Route(p: PaneId, data: seq<byte>) returns (dirty: bool)
      modifies this`emulators, this`pending
      ensures forall q :: At(q) == if q == p then Routed(vt, snap, p, old(At(p)), data) else old(At(q))
      ensures dirty <==> p in snap.panes && p in emulators
      ensures old(emulators.Keys) <= emulators.Keys <= old(emulators.Keys) + snap.panes
      ensures 0 !in old(pending) ==> 0 !in pending
    {
      dirty := false;
      if p !in snap.panes {
        return;
      }
      if p !in snap.visible {
        if p !in emulators {
          BufferPaneOutput(p, data);
          return;
        }
      } else {
        EnsurePaneEmulator(p);
        if p !in emulators {
          return;
        }
      }
      WarmPaneOutput(p);
      assert p in emulators;
      ghost var warmed := At(p);
      emulators := emulators[p := vt.write(emulators[p], data)];
      assert At(p) == Fed(vt, warmed, data);
      dirty := true;
    }

    method PublishPaneCapture(p: PaneId)
      requires p in emulators ==> EmuOk(emulators[p])
      modifies this`emulators, this`states, this`snap
      ensures At(p) == Published(old(At(p)))
      ensures forall q :: q != p ==> At(q) == old(At(q))
      ensures snap == old(snap).(captures := snap.captures) && emulators.Keys == old(emulators.Keys)
      ensures old(snap.captures.Keys) <= snap.captures.Keys
    {
      hide Take;
      hide EmuOk;
      if p in emulators {
        var emu := emulators[p];
        var (capture, state, _) := Take(if p in states then states[p] else NoState, emu);
        emulators := emulators[p := Drained(emu)];
        states := states[p := state];
        snap := snap.(captures := snap.captures[p := capture]);
      }
    }

    /** A capture of each of the given panes that has an emulator. */
    method PublishPaneCaptures(ids: set<PaneId>)
      requires forall p :: p in emulators ==> EmuOk(emulators[p])
      modifies this`emulators, this`states, this`snap
      ensures forall p :: At(p) == if p in ids then Published(old(At(p))) else old(At(p))
      ensures snap == old(snap).(captures := snap.captures) && emulators.Keys == old(emulators.Keys)
      ensures old(snap.captures.Keys) <= snap.captures.Keys
    {
      hide Published;
      hide EmuOk;
      var todo := ids;
      while todo != {}
        invariant todo <= ids
        invariant emulators.Keys == old(emulators.Keys)
        invariant snap == old(snap).(captures := snap.captures) && old(snap.captures.Keys) <= snap.captures.Keys
        invariant forall p :: At(p) == if p in ids && p !in todo then Published(old(At(p))) else old(At(p))
      {
        var p :| p in todo;
        todo := todo - {p};
        assert At(p) == old(At(p));
        assert p in emulators ==> At(p).emu == Some(emulators[p]);
        PublishPaneCapture(p);
      }
    }

    /** The emulators of panes in the active layout take the size of their cell, a zoomed one that of the screen. */
    method ResizeSnapshotEmulators()
      modifies this`emulators
      ensures forall p :: At(p) == Fitted(vt, snap, p, old(At(p)))
      ensures emulators.Keys == old(emulators.Keys)
    {
      hide Resized;
      var cells := if snap.cells.Some? then snap.cells.value else map[];
      var todo := cells.Keys;
      while todo != {}
        invariant todo <= cells.Keys
        invariant emulators.Keys == old(emulators.Keys)
        invariant forall p :: p !in cells || p in todo || p == snap.zoomed ==> At(p) == old(At(p))
        invariant forall p :: p in cells && p !in todo && p != snap.zoomed ==>
          At(p) == Resized(vt, old(At(p)), (cells[p].0, PaneContentHeight(cells[p].1)))
      {
        var p :| p in todo;
        todo := todo - {p};
        if p != snap.zoomed {
          ResizeEmulator(p, (cells[p].0, PaneContentHeight(cells[p].1)));
        }
      }
      if snap.zoomed != 0 {
        ResizeEmulatorIfNeeded(snap.zoomed, ScreenSize(snap.width, snap.height));
      }
    }

    method ResizeEmulatorIfNeeded(p: PaneId, size: (int, int))
      modifies this`emulators
      ensures At(p) == ResizedIfNeeded(vt, old(At(p)), size)
      ensures forall q :: q != p ==> At(q) == old(At(q))
      ensures emulators.Keys == old(emulators.Keys)
      ensures old(HasSize(At(p), size)) ==> emulators == old(emulators)
    {
      if p in emulators && SizeOf(emulators[p]) != size {
        ResizeEmulator(p, size);
      }
    }

    method ResizeEmulator(p: PaneId, size: (int, int))
      modifies this`emulators
      ensures At(p) == Resized(vt, old(At(p)), size)
      ensures forall q :: q != p ==> At(q) == old(At(q))
      ensures emulators.Keys == old(emulators.Keys)
    {
      if p in emulators {
        emulators := emulators[p := vt.resize(emulators[p], size.0, size.1)];
      }
    }

    /** Forget captures of panes that are gone, and capture every emulator. */
    method RefreshPaneCaptures()
      requires emulators.Keys <= snap.panes && forall p :: p in emulators ==> EmuOk(emulators[p])
      modifies this`emulators, this`states, this`snap
      ensures forall p :: At(p) == if p in snap.panes then Published(old(At(p))) else old(At(p)).(state := NoState, capture := None)
      ensures snap == old(snap).(captures := snap.captures) && emulators.Keys == old(emulators.Keys)
    {
      hide EmuOk;
      hide Published;
      snap := snap.(captures := map p | p in snap.captures && p in snap.panes :: snap.captures[p]);
      states := map p | p in states && p in snap.panes :: states[p];
      forall p ensures At(p) == if p in snap.panes then old(At(p)) else old(At(p)).(state := NoState, capture := None) {
      }
      forall p | p !in emulators ensures Published(At(p)) == At(p) {
        PublishedCold(At(p));
      }
      PublishPaneCaptures(emulators.Keys);
    }

    // ----- commands -----

    /** Output for one pane; the result says whether the screen shows it. */
    method HandlePaneOutput(p: PaneId, data: seq<byte>) returns (shown: bool)
      requires Valid()
      modifies this`emulators, this`pending, this`states, this`snap, this`received, this`stale
      ensures Valid() && snap == old(snap).(captures := snap.captures)
      ensures stale == old(stale) - {p}
      ensures received == Noted(old(received), snap.panes, p, data)
      ensures forall q :: q != p ==> At(q) == old(At(q))
      ensures p in snap.panes ==> Captured(At(p))
      ensures p in emulators ==> TookOutput(vt, old(snap), p, old(At(p)), data, emulators[p])
      ensures p != 0 && p in snap.panes && p !in snap.visible && p !in old(emulators) && data != [] ==>
        HoldsMore(snap, p, old(At(p)), data, At(p))
      ensures p in emulators <==>
        p in old(emulators) || (p in snap.panes && p in snap.visible && Starts(snap, p, old(At(p))))
      ensures p !in snap.panes || (p !in emulators && (p == 0 || p in snap.visible || data == [])) ==> At(p) == old(At(p))
      ensures old(Conserving()) ==> Conserving()
      ensures shown <==> p in snap.visible && p in emulators
    {
      hide SlotOk;
      hide Routed;
      hide Total;
      hide Lawful;
      hide TookOutput;
      hide HoldsMore;
      hide Drained;
      hide Captured;
      hide VisibleSet;
      hide ZoomOk;
      hide Starts;
      StaleWarm();
      StartsSame(snap, p, At(p));
      ghost var before := At(p);
      var dirty := Accept({}, p, data);
      RoutedTo(p, before, data);
      shown := false;
      if dirty {
        Settle({p});
        shown := p in snap.visible;
      }
    }

    lemma RoutedTo(p: PaneId, s: Slot, data: seq<byte>)
      requires At(p) == Routed(vt, snap, p, s, data) && (p == 0 ==> s.pending == None)
      ensures p in snap.panes && p in emulators ==> TookOutput(vt, snap, p, s, data, Drained(emulators[p]))
      ensures p != 0 && p in snap.panes && p !in snap.visible && s.emu == None && data != [] ==>
        HoldsMore(snap, p, s, data, At(p)) && p !in emulators
      ensures p in snap.panes ==> (p in emulators <==> s.emu.Some? || (p in snap.visible && Starts(snap, p, s)))
      ensures p !in snap.panes || (p !in emulators && (p == 0 || p in snap.visible || data == [])) ==> At(p) == s
    {
      hide Starts;
      hide Routed;
      hide TookOutput;
      hide Drained;
      RoutedElse(vt, snap, p, s, data);
      NothingSent(vt, snap, p, s);
      if p in snap.panes && p in emulators {
        RoutedFeeds(vt, snap, p, s, data);
      }
      if p != 0 && p in snap.panes && p !in snap.visible && s.emu == None && data != [] {
        RoutedHolds(vt, snap, p, s, data);
      }
    }

    /** Output routed and recorded; the pane's capture is left behind if it has an emulator. */
    method Accept(ghost waiting: set<PaneId>, p: PaneId, data: seq<byte>) returns (dirty: bool)
      requires ValidBut(waiting)
      modifies this`emulators, this`pending, this`received
      ensures dirty <==> p in snap.panes && p in emulators
      ensures ValidBut(if dirty then waiting + {p} else waiting)
      ensures received == Noted(old(received), snap.panes, p, data)
      ensures At(p) == Routed(vt, snap, p, old(At(p)), data)
      ensures forall q :: q != p ==> At(q) == old(At(q)) && (q in emulators <==> q in old(emulators))
      ensures old(emulators.Keys) <= emulators.Keys
      ensures old(Conserving()) ==> Conserving()
    {
      hide SlotOk;
      hide Routed;
      hide Total;
      hide Lawful;
      hide DropsOutput;
      hide PaneDimensions;
      hide VisibleSet;
      hide ZoomOk;
      hide At;
      hide ValidBut;
      hide Captured;
      EmulatorAt();
      ghost var before := At(p);
      Others(waiting);
      Basics(waiting, p);
      dirty := Route(p, data);
      EmulatorAt();
      ColdCaptured(p);
      RoutedOk(vt, snap, p, before, data, Settled(p, waiting));
      RoutedOther(vt, snap, p, before, data);
      assert At(p) == Routed(vt, snap, p, before, data);
      VisibleStarts(snap, p, before);
      received := Noted(received, snap.panes, p, data);
      ghost var now := if dirty then waiting + {p} else waiting;
      assert forall q :: q != p ==> Settled(q, now) == old(Settled(q, waiting));
      OnePane(p, now);
    }

    /** Publishing the dirty panes brings every capture up to date. */
    method Settle(dirty: set<PaneId>)
      requires ValidBut(dirty)
      modifies this`emulators, this`states, this`snap, this`stale
      ensures Valid() && snap == old(snap).(captures := snap.captures) && emulators.Keys == old(emulators.Keys)
      ensures stale == old(stale) - dirty
      ensures forall p :: p !in dirty ==> At(p) == old(At(p))
      ensures forall p :: p in dirty ==> Captured(At(p)) && Total(At(p)) == old(Total(At(p)))
      ensures forall p :: p in emulators ==>
        emulators[p] == if p in dirty then Drained(old(emulators[p])) else old(emulators[p])
      ensures old(Conserving()) ==> Conserving()
    {
      hide Drained;
      hide SlotOk;
      hide Total;
      hide Lawful;
      hide Captured;
      hide Published;
      hide VisibleSet;
      hide ZoomOk;
      hide EmuOk;
      hide At;
      hide ValidBut;
      Others(dirty);
      Basics(dirty, 0);
      EmulatorsOk(dirty);
      PublishesAll(dirty);
      SameVisible(snap);
      AtIs();
      PublishPaneCaptures(dirty);
      AtIs();
      stale := stale - dirty;
      assert forall p :: p in dirty ==> Settled(p, {});
      assert forall p :: p !in dirty ==> (Settled(p, {}) <==> old(Settled(p, dirty)));
      OnePane(0, {});
    }

    lemma AtIs()
      ensures forall p :: p in emulators ==> At(p).emu == Some(emulators[p])
    {
    }

    lemma PublishesAll(dirty: set<PaneId>)
      requires forall p :: SlotOk(At(p), p in snap.visible, Settled(p, dirty))
      ensures forall p :: At(p).emu.Some? ==> EmuOk(At(p).emu.value)
      ensures forall p :: SlotOk(Published(At(p)), p in snap.visible, true)
      ensures forall p :: Total(Published(At(p))) == Total(At(p)) && Captured(Published(At(p)))
      ensures forall p :: At(p).emu.Some? ==> Published(At(p)).emu == Some(Drained(At(p).emu.value))
    {
      hide SlotOk;
      hide Published;
      hide Drained;
      hide Total;
      hide Captured;
      hide EmuOk;
      hide At;
      forall p
        ensures At(p).emu.Some? ==> EmuOk(At(p).emu.value)
        ensures SlotOk(Published(At(p)), p in snap.visible, true)
        ensures Total(Published(At(p))) == Total(At(p)) && Captured(Published(At(p)))
        ensures At(p).emu.Some? ==> Published(At(p)).emu == Some(Drained(At(p).emu.value))
      {
        PublishedOk(At(p), p in snap.visible, Settled(p, dirty));
        PublishedDrains(At(p));
      }
    }

    /** A batch of output, captured once at the end. */
    method HandlePaneOutputBatch(items: seq<(PaneId, seq<byte>)>)
      requires Valid()
      modifies this`emulators, this`pending, this`states, this`snap, this`received, this`stale
      ensures Valid() && snap == old(snap).(captures := snap.captures)
      ensures stale == old(stale) - PanesOf(items)
      ensures received == NotedAll(old(received), snap.panes, items)
      ensures forall i :: 0 <= i < |items| && items[i].0 in snap.panes ==> Captured(At(items[i].0))
      ensures old(Conserving()) ==> Conserving()
    {
      hide ValidBut;
      hide Conserving;
      hide NotedAll;
      hide Noted;
      hide Captured;
      hide At;
      var dirty := {};
      StaleWarm();
      NotedNothing(received, snap.panes);
      assert items[..0] == [];
      for i := 0 to |items|
        invariant ValidBut(dirty) && snap == old(snap)
        invariant received == NotedAll(old(received), snap.panes, items[..i])
        invariant forall j :: 0 <= j < i && items[j].0 in snap.panes && items[j].0 in emulators ==> items[j].0 in dirty
        invariant dirty <= PanesOf(items) && old(emulators.Keys) <= emulators.Keys && stale == old(stale)
        invariant old(Conserving()) ==> Conserving()
      {
        var (p, data) := items[i];
        var wrote := Accept(dirty, p, data);
        if wrote {
          dirty := dirty + {p};
        }
        assert items[i].0 in PanesOf(items);
        NotedNext(old(received), snap.panes, items, i);
      }
      assert items[..|items|] == items;
      assert old(stale) - dirty == old(stale) - PanesOf(items);
      Settle(dirty);
      forall i | 0 <= i < |items| && items[i].0 in snap.panes ensures Captured(At(items[i].0)) {
        ColdCaptured(items[i].0);
      }
    }

    lemma StaleWarm()
      requires Valid()
      ensures stale <= emulators.Keys <= snap.panes && 0 !in pending
    {
    }

    lemma CapturedKeys()
      ensures (forall p :: Captured(At(p))) ==> emulators.Keys <= snap.captures.Keys
    {
      if forall p :: Captured(At(p)) {
        forall p | p in emulators ensures p in snap.captures {
          assert Captured(At(p));
        }
      }
    }

    lemma ColdCaptured(p: PaneId)
      ensures p !in emulators ==> Captured(At(p))
    {
    }

    /** Something happens to a pane's emulator when it is replayed: it is started, or fed what is held. */
    predicate Revived(p: PaneId)
      reads this`emulators, this`pending
    {
      p !in emulators || p in pending
    }

    /**
     * A cold pane gets an emulator and its held output, as a reader of its
     * buffer needs. Nothing is published: the pane's capture stays what it
     * was, and is out of date if the emulator was started or fed.
     */
    method Replay(p: PaneId)
      requires Valid()
      modifies this`emulators, this`pending, this`stale
      ensures Valid() && (p in emulators ==> p !in pending)
      ensures p in emulators <==> p in old(emulators) || Starts(snap, p, old(At(p)))
      ensures Total(At(p)) == old(Total(At(p))) && At(p).capture == old(At(p).capture)
      ensures stale == old(stale) + if p in emulators && old(Revived(p)) then {p} else {}
      ensures old(!Revived(p)) ==> At(p) == old(At(p))
      ensures p in emulators ==> CaughtUp(vt, snap, p, old(At(p)), emulators[p])
      ensures old(Conserving()) ==> Conserving()
      ensures forall q :: q != p ==> At(q) == old(At(q))
    {
      hide SlotOk;
      hide Lawful;
      hide Total;
      hide Replayed;
      hide CaughtUp;
      hide Starts;
      hide Captured;
      hide VisibleSet;
      hide InActiveLayout;
      hide ZoomOk;
      hide At;
      hide ValidBut;
      EmulatorAt();
      ghost var before, visible, settled := At(p), p in snap.visible, Settled(p, {});
      Others({});
      Basics({}, p);
      HiddenOrOutside(before, visible, settled);
      ReplayedOk(vt, snap, p, before, visible, settled);
      ghost var revived := Revived(p);
      Revive(p);
      EmulatorAt();
      RevivedTo(p, before);
      ColdCaptured(p);
      if p in emulators && revived {
        stale := stale + {p};
      }
      assert forall q :: q != p ==> Settled(q, {}) == old(Settled(q, {}));
      OnePane(p, {});
    }

    /** A change to one pane keeps the renderer in good order if it leaves that pane so. */
    lemma OnePane(p: PaneId, dirty: set<PaneId>)
      requires Lawful(vt) && snap.visible == VisibleSet(snap) && compositorHeight == snap.height
      requires emulators.Keys <= snap.panes && 0 !in pending && stale <= emulators.Keys
      requires forall q :: q in snap.panes && InActiveLayout(snap, q) ==> q in emulators && q in snap.captures
      requires forall q :: q in stale && q in snap.visible ==> !InActiveLayout(snap, q)
      requires forall q :: q != p ==> SlotOk(At(q), q in snap.visible, Settled(q, dirty))
      requires forall q :: q != p && q !in dirty && q !in stale ==> Captured(At(q))
      requires SlotOk(At(p), p in snap.visible, Settled(p, dirty))
      requires p !in dirty && p !in stale ==> Captured(At(p))
      ensures ValidBut(dirty)
    {
      hide SlotOk;
      hide Captured;
      hide VisibleSet;
      hide InActiveLayout;
      hide Lawful;
      hide At;
    }

    method Revive(p: PaneId)
      modifies this`emulators, this`pending
      ensures forall q :: At(q) == if q == p then Replayed(vt, snap, p, old(At(p))) else old(At(q))
      ensures pending.Keys <= old(pending.Keys)
      ensures old(emulators.Keys) <= emulators.Keys <= old(emulators.Keys) + snap.panes
    {
      hide Warmed;
      hide Started;
      if p == 0 || p !in snap.panes {
        return;
      }
      EnsurePaneEmulator(p);
      if p !in emulators {
        StartedCold(vt, old(At(p)), PaneDimensions(snap, p));
        return;
      }
      WarmPaneOutput(p);
    }

    lemma RevivedTo(p: PaneId, s: Slot)
      requires At(p) == Replayed(vt, snap, p, s) && (p == 0 ==> s.pending == None) && (p in emulators ==> p in snap.panes)
      ensures p in emulators ==> CaughtUp(vt, snap, p, s, emulators[p])
    {
      hide Replayed;
      hide CaughtUp;
      if p in emulators {
        ReplayedCaughtUp(vt, snap, p, s);
      }
    }

    /** A capture of one pane, replaying what is held back for it. */
    method CapturePane(p: PaneId)
      requires Valid()
      modifies this`emulators, this`pending, this`states, this`snap, this`stale
      ensures Valid() && snap == old(snap).(captures := snap.captures)
      ensures stale == old(stale) - {p}
      ensures p in emulators <==> p in old(emulators) || Starts(snap, p, old(At(p)))
      ensures p in emulators ==> Captured(At(p)) && p !in pending
      ensures p in emulators ==> exists e :: CaughtUp(vt, old(snap), p, old(At(p)), e) && emulators[p] == Drained(e)
      ensures Total(At(p)) == old(Total(At(p)))
      ensures forall q :: q != p ==> At(q) == old(At(q))
      ensures old(Conserving()) ==> Conserving()
    {
      hide Total;
      hide SlotOk;
      hide Lawful;
      hide Captured;
      hide CaughtUp;
      hide Drained;
      hide Starts;
      hide At;
      hide ValidBut;
      hide Conserving;
      StaleWarm();
      StartsSame(snap, p, At(p));
      Replay(p);
      if p in emulators {
        Weaken({p});
        Settle({p});
      }
    }

    lemma Weaken(dirty: set<PaneId>)
      requires Valid()
      ensures ValidBut(dirty)
    {
      hide SlotOk;
      forall p ensures SlotOk(At(p), p in snap.visible, Settled(p, dirty)) {
        assert SlotOk(At(p), p in snap.visible, Settled(p, {}));
        SlotLess(At(p), p in snap.visible, Settled(p, {}), Settled(p, dirty));
      }
    }

    /** Rendering drains the changed rows of what is on screen. */
    method DrainVisiblePaneScreenChanges()
      requires Valid()
      modifies this`emulators
      ensures Valid()
      ensures old(Conserving()) ==> Conserving()
      ensures forall p :: At(p) == if p in snap.visible then DrainedSlot(old(At(p))) else old(At(p))
    {
      hide SlotOk;
      hide Lawful;
      hide Total;
      hide Drained;
      hide Captured;
      forall p | p in snap.visible
        ensures SlotOk(DrainedSlot(At(p)), true, true) && Total(DrainedSlot(At(p))) == Total(At(p))
        ensures Captured(At(p)) ==> Captured(DrainedSlot(At(p)))
      {
        assert SlotOk(At(p), p in snap.visible, Settled(p, {}));
        DrainedOk(At(p), true);
      }
      DrainAll(snap.visible);
    }

    method DrainAll(ids: set<PaneId>)
      modifies this`emulators
      ensures forall p :: At(p) == if p in ids then DrainedSlot(old(At(p))) else old(At(p))
      ensures emulators.Keys == old(emulators.Keys)
    {
      hide Drained;
      var todo := ids;
      while todo != {}
        invariant todo <= ids
        invariant emulators.Keys == old(emulators.Keys)
        invariant forall p :: At(p) == if p in ids && p !in todo then DrainedSlot(old(At(p))) else old(At(p))
      {
        var p :| p in todo;
        todo := todo - {p};
        assert At(p) == old(At(p));
        if p in emulators {
          emulators := emulators[p := Drained(emulators[p])];
        }
      }
    }

    /** The client's own terminal changes size; `cells` is the active layout rescaled to it. */
    method Resize(width: int, height: int, cells: map<PaneId, (int, int)>)
      requires Valid() && (snap.cells.Some? ==> cells.Keys == snap.cells.value.Keys)
      modifies this`emulators, this`states, this`snap, this`compositorHeight, this`stale
      ensures stale == {}
      ensures Valid() && (snap.width, snap.height) == (width, height)
      ensures snap.visible == old(snap.visible) && snap.panes == old(snap.panes)
      ensures snap.cells == (if old(snap.cells).Some? then Some(cells) else None)
      ensures snap.zoomed == old(snap.zoomed) && snap.others == old(snap.others)
      ensures forall p :: Captured(At(p)) && FitsCell(snap, p, At(p))
      ensures old(Conserving()) ==> Conserving()
    {
      hide Drained;
      hide VisibleSet;
      hide InActiveLayout;
      hide SlotOk;
      hide Lawful;
      hide Total;
      hide FitsCell;
      hide Published;
      hide Captured;
      hide Fitted;
      hide Uncaptured;
      hide At;
      hide ValidBut;
      hide TargetSize;
      hide PaneContentHeight;
      var next := snap.(width := width, height := height, cells := if snap.cells.Some? then Some(cells) else None);
      SameCells(snap, next);
      SameVisible(next);
      next := next.(visible := VisibleSet(next));
      SameCells(snap, next);
      Basics({}, 0);
      FitsAll(next);
      compositorHeight := height;
      FitEmulators(next);
      PublishEverything();
      stale := {};
      AllSettled();
    }

    lemma Others(dirty: set<PaneId>)
      requires ValidBut(dirty)
      ensures forall q :: q in snap.panes && InActiveLayout(snap, q) ==> q in emulators && q in snap.captures
      ensures forall q :: q in stale && q in snap.visible ==> !InActiveLayout(snap, q)
      ensures forall q :: SlotOk(At(q), q in snap.visible, Settled(q, dirty))
      ensures forall q :: q !in dirty && q !in stale ==> Captured(At(q))
    {
    }

    lemma Basics(dirty: set<PaneId>, p: PaneId)
      requires ValidBut(dirty)
      ensures SlotOk(At(p), p in snap.visible, Settled(p, dirty)) && (p !in dirty && p !in stale ==> Captured(At(p)))
      ensures stale <= emulators.Keys
      ensures Lawful(vt) && snap.visible == VisibleSet(snap) && compositorHeight == snap.height
      ensures emulators.Keys <= snap.panes && 0 !in pending
      ensures forall p :: p in snap.panes && InActiveLayout(snap, p) ==> p in emulators
    {
    }

    /** With every capture renewed the renderer is in good order. */
    lemma AllSettled()
      requires Lawful(vt) && snap.visible == VisibleSet(snap) && compositorHeight == snap.height
      requires emulators.Keys <= snap.panes && 0 !in pending && stale == {}
      requires forall p :: p in snap.panes && InActiveLayout(snap, p) ==> p in emulators
      requires forall p :: SlotOk(At(p), p in snap.visible, true) && Captured(At(p))
      ensures Valid()
    {
      hide SlotOk;
      hide Captured;
      hide Lawful;
      hide VisibleSet;
      hide InActiveLayout;
      CapturedKeys();
      assert forall p :: p in snap.visible || p !in stale;
    }

    method FitEmulators(next: Snap)
      requires next.captures == snap.captures
      modifies this`emulators, this`snap
      ensures snap == next && emulators.Keys == old(emulators.Keys)
      ensures forall p :: At(p) == Fitted(vt, snap, p, old(At(p)))
    {
      hide Fitted;
      snap := next;
      ResizeSnapshotEmulators();
    }

    lemma FitsAll(next: Snap)
      requires Valid() && next.visible == snap.visible && next.panes == snap.panes
      ensures forall p :: p in snap.panes ==> SlotOk(Fitted(vt, next, p, At(p)), p in next.visible, false)
      ensures forall p :: p !in snap.panes ==> SlotOk(Uncaptured(Fitted(vt, next, p, At(p))), p in next.visible, true)
      ensures forall p :: Total(Fitted(vt, next, p, At(p))) == Total(At(p))
      ensures forall p :: FitsCell(next, p, Fitted(vt, next, p, At(p)))
    {
      hide SlotOk;
      hide Fitted;
      hide Total;
      hide Lawful;
      forall p
        ensures p in snap.panes ==> SlotOk(Fitted(vt, next, p, At(p)), p in next.visible, false)
        ensures p !in snap.panes ==> SlotOk(Uncaptured(Fitted(vt, next, p, At(p))), p in next.visible, true)
        ensures Total(Fitted(vt, next, p, At(p))) == Total(At(p))
        ensures FitsCell(next, p, Fitted(vt, next, p, At(p)))
      {
        SlotEmuOk(At(p));
        FittedFits(vt, next, p, At(p));
        assert SlotOk(At(p), p in snap.visible, Settled(p, {}));
        SlotWeaker(At(p), p in snap.visible, Settled(p, {}));
        FittedOk(vt, next, p, At(p), p in snap.visible);
        FittedNone(vt, next, p, At(p));
      }
    }

    /** Refreshing all captures brings them up to date. */
    method PublishEverything()
      requires emulators.Keys <= snap.panes
      requires forall p :: p in snap.panes ==> SlotOk(At(p), p in snap.visible, false)
      requires forall p :: p !in snap.panes ==> SlotOk(Uncaptured(At(p)), p in snap.visible, true)
      modifies this`emulators, this`states, this`snap
      ensures snap == old(snap).(captures := snap.captures) && emulators.Keys == old(emulators.Keys)
      ensures forall p :: SlotOk(At(p), p in snap.visible, true)
      ensures forall p :: Captured(At(p))
      ensures forall p :: Total(At(p)) == old(Total(At(p)))
      ensures forall p :: old(FitsCell(snap, p, At(p))) ==> FitsCell(snap, p, At(p))
      ensures forall p :: At(p).pending == old(At(p).pending)
      ensures forall p :: p in emulators ==> emulators[p] == Drained(old(emulators[p]))
    {
      hide Drained;
      hide SlotOk;
      hide Published;
      hide Captured;
      hide Total;
      hide FitsCell;
      forall p | p in snap.panes
        ensures At(p).emu.Some? ==> EmuOk(At(p).emu.value)
        ensures SlotOk(Published(At(p)), p in snap.visible, true)
        ensures Total(Published(At(p))) == Total(At(p)) && Captured(Published(At(p)))
        ensures FitsEither(snap, p, At(p), Published(At(p)))
        ensures At(p).emu.Some? ==> Published(At(p)).emu == Some(Drained(At(p).emu.value))
        ensures Published(At(p)).pending == At(p).pending
      {
        PublishedOk(At(p), p in snap.visible, false);
        PublishedDrains(At(p));
        StillFits(snap, p, At(p), Published(At(p)));
      }
      forall p | p !in snap.panes
        ensures Total(Uncaptured(At(p))) == Total(At(p)) && Captured(Uncaptured(At(p)))
        ensures SlotOk(Uncaptured(At(p)), p in snap.visible, true)
        ensures FitsEither(snap, p, At(p), Uncaptured(At(p)))
      {
        GoneOk(At(p), p in snap.visible);
        StillFits(snap, p, At(p), Uncaptured(At(p)));
      }
      AtIs();
      RefreshPaneCaptures();
      AtIs();
    }

    /** Emulators for the new layout: kept ones, and new ones for panes that enter the active layout cold. */
    method PlaceEmulators(panes: seq<PaneId>)
      requires forall p :: p in snap.panes <==> p in panes
      modifies this`emulators, this`pending
      ensures forall p :: At(p) == Kept(vt, snap, p, old(At(p)))
      ensures emulators.Keys <= snap.panes && pending.Keys <= old(pending.Keys)
    {
      hide Started;
      hide PaneDimensions;
      var next := NextEmulators(panes);
      EmulatorAt();
      forall p ensures p in snap.panes ==> Kept(vt, snap, p, At(p)) == At(p).(emu := Kept(vt, snap, p, At(p)).emu) {
        StartedPending(vt, At(p), PaneDimensions(snap, p));
      }
      pending := map p | p in pending && (p in emulators ==> p in snap.panes) :: pending[p];
      emulators := next;
    }

    method NextEmulators(panes: seq<PaneId>) returns (next: map<PaneId, Emu>)
      requires forall p :: p in snap.panes <==> p in panes
      ensures next.Keys <= snap.panes
      ensures forall p :: p in snap.panes ==> (if p in next then Some(next[p]) else None) == Kept(vt, snap, p, At(p)).emu
    {
      next := map[];
      for i := 0 to |panes|
        invariant next.Keys <= snap.panes
        invariant forall p :: p !in panes[..i] ==> p !in next
        invariant forall p :: p in panes[..i] ==>
          (if p in next then Some(next[p]) else None) == Kept(vt, snap, p, At(p)).emu
      {
        var p := panes[i];
        assert panes[i] in panes;
        assert forall q :: q in panes[..i + 1] <==> q in panes[..i] || q == p;
        if p in emulators {
          next := next[p := emulators[p]];
        } else if InActiveLayout(snap, p) {
          var size := StartSize(At(p), PaneDimensions(snap, p));
          if size.Some? {
            next := next[p := vt.start(size.value.0, size.value.1)];
          }
        }
      }
      assert panes[..|panes|] == panes;
    }

    method WarmVisiblePanes()
      modifies this`emulators, this`pending
      ensures forall p :: At(p) == Shown(vt, snap, p, old(At(p)))
      ensures emulators.Keys == old(emulators.Keys) && pending.Keys <= old(pending.Keys)
    {
      hide Warmed;
      var todo := snap.visible;
      while todo != {}
        invariant todo <= snap.visible
        invariant emulators.Keys == old(emulators.Keys) && pending.Keys <= old(pending.Keys)
        invariant forall p :: At(p) == if p in todo then old(At(p)) else Shown(vt, snap, p, old(At(p)))
      {
        var p :| p in todo;
        todo := todo - {p};
        assert At(p) == old(At(p));
        WarmPaneOutput(p);
      }
    }

    /**
     * A new layout. Panes that stay keep their bytes, except that those
     * held for a zoomed pane outside the active window, still without an
     * emulator, are lost; panes that go are forgotten but for what was
     * held for a cold one that is not on screen.
     */
    method HandleLayout(layout: Layout)
      requires Valid()
      modifies this`emulators, this`pending, this`states, this`snap, this`received, this`stale
      ensures Valid() && snap.panes == (set p | p in layout.panes) && snap.zoomed == layout.zoomed
      ensures snap.cells == Some(layout.cells) && snap.others == layout.others
      ensures (snap.width, snap.height) == old((snap.width, snap.height))
      ensures forall p :: Captured(At(p)) && FitsCell(snap, p, At(p))
      ensures forall p :: p in snap.panes ==>
        Got(p) == old(Got(p)) && Total(At(p)) == if DropsPending(snap, p, old(At(p))) then [] else old(Total(At(p)))
      ensures forall p :: p !in snap.panes ==>
        p !in emulators && Got(p) == Total(At(p)) == Left(snap, p, old(At(p)))
      ensures forall p :: p != 0 && p in snap.panes && p !in old(emulators) ==> ColdStep(vt, snap, p, old(At(p)), At(p))
      ensures stale == {}
      ensures old(Conserving()) && ZoomOk(snap) ==> Conserving()
    {
      hide ColdStep;
      hide ValidBut;
      hide Conserving;
      hide At;
      hide Total;
      hide Captured;
      hide DropsPending;
      hide Left;
      hide FitsCell;
      hide HasSize;
      hide ScreenSize;
      hide ResizedIfNeeded;
      Relayout(layout);
      if snap.zoomed != 0 {
        ZoomedFits(snap, At(snap.zoomed));
        ResizeEmulatorIfNeeded(snap.zoomed, ScreenSize(snap.width, compositorHeight));
      }
    }

    /** All of a layout change but the last look at a zoomed pane's size, which finds it right. */
    method Relayout(layout: Layout)
      requires Valid()
      modifies this`emulators, this`pending, this`states, this`snap, this`received, this`stale
      ensures Valid() && snap.panes == (set p | p in layout.panes) && snap.zoomed == layout.zoomed
      ensures snap.cells == Some(layout.cells) && snap.others == layout.others
      ensures (snap.width, snap.height) == old((snap.width, snap.height))
      ensures forall p :: Captured(At(p)) && FitsCell(snap, p, At(p))
      ensures forall p :: p in snap.panes ==>
        Got(p) == old(Got(p)) && Total(At(p)) == if DropsPending(snap, p, old(At(p))) then [] else old(Total(At(p)))
      ensures forall p :: p !in snap.panes ==>
        p !in emulators && Got(p) == Total(At(p)) == Left(snap, p, old(At(p)))
      ensures stale == {}
      ensures old(Conserving()) && ZoomOk(snap) ==> Conserving()
      ensures compositorHeight == snap.height
      ensures forall p :: p != 0 && p in snap.panes && p !in old(emulators) ==> ColdStep(vt, snap, p, old(At(p)), At(p))
    {
      hide ColdStep;
      hide SlotOk;
      hide Lawful;
      hide Total;
      hide Captured;
      hide DropsPending;
      hide Left;
      hide FitsCell;
      hide At;
      hide VisibleSet;
      hide ZoomOk;
      hide ValidBut;
      var panes := set p | p in layout.panes;
      var next := Snap(panes, Some(layout.cells), layout.others, layout.zoomed, {}, snap.width, snap.height, snap.captures);
      next := next.(visible := VisibleSet(next));
      Basics({}, 0);
      SameVisible(next);
      NoDrops(next);
      DropsSame(next);
      LayOut(next, layout.panes);
      forall p | p != 0 && p in snap.panes && p !in old(emulators) ensures ColdStep(vt, snap, p, old(At(p)), At(p)) {
        ColdStepSame(vt, next, snap.captures, p, old(At(p)), At(p));
      }
      Record();
    }

    /** Every pane brought to its place in the layout, and captured there. */
    method LayOut(next: Snap, panes: seq<PaneId>)
      requires Valid() && next.captures == snap.captures && next.visible == VisibleSet(next)
      requires next.height == snap.height && forall p :: p in next.panes <==> p in panes
      modifies this`emulators, this`pending, this`states, this`snap, this`stale
      ensures Valid() && snap == next.(captures := snap.captures) && stale == {}
      ensures forall p :: Captured(At(p)) && FitsCell(snap, p, At(p))
      ensures forall p :: p in snap.panes ==>
        Total(At(p)) == if DropsPending(next, p, old(At(p))) then [] else old(Total(At(p)))
      ensures forall p :: p !in snap.panes ==> p !in emulators && Total(At(p)) == Left(next, p, old(At(p)))
      ensures forall p :: p != 0 && p in snap.panes && p !in old(emulators) ==> ColdStep(vt, next, p, old(At(p)), At(p))
    {
      hide ColdStep;
      hide Drained;
      hide SlotOk;
      hide Lawful;
      hide Total;
      hide Captured;
      hide Relaid;
      hide Uncaptured;
      hide DropsPending;
      hide Left;
      hide FitsCell;
      hide At;
      hide VisibleSet;
      hide ValidBut;
      Basics({}, 0);
      SameVisible(next);
      RelaysAll(next);
      EmulatorAt();
      ApplyLayout(next, panes);
      EmulatorAt();
      AtIs();
      ghost var applied := emulators;
      assert forall p :: (if p in applied then Some(applied[p]) else None) == Relaid(vt, next, p, old(At(p))).emu;
      PublishEverything();
      EmulatorAt();
      AtIs();
      stale := {};
      AllSettled();
      forall p | p != 0 && p in snap.panes && p !in old(emulators) ensures ColdStep(vt, next, p, old(At(p)), At(p)) {
        ColdRelaid(vt, next, p, old(At(p)), At(p));
      }
    }

    lemma DropsSame(next: Snap)
      ensures forall p, c :: DropsPending(next.(captures := c), p, At(p)) == DropsPending(next, p, At(p))
      ensures forall p, c :: Left(next.(captures := c), p, At(p)) == Left(next, p, At(p))
    {
    }

    lemma EmulatorAt()
      ensures forall p :: p in emulators <==> At(p).emu.Some?
      ensures forall p :: p in pending <==> At(p).pending.Some?
    {
    }

    /** What is remembered of panes that are gone is what is still held for them. */
    ghost method Record()
      modifies this`received
      ensures forall p :: p in snap.panes ==> Got(p) == old(Got(p))
      ensures forall p :: p !in snap.panes && p !in emulators ==> Got(p) == Total(At(p))
    {
      received := map p | p in received.Keys + pending.Keys :: if p in snap.panes then Got(p) else Total(At(p));
    }

    /** Emulators created, dropped, fed what was held for them, and resized. */
    method ApplyLayout(next: Snap, panes: seq<PaneId>)
      requires next.captures == snap.captures && forall p :: p in next.panes <==> p in panes
      modifies this`emulators, this`pending, this`snap
      ensures snap == next && emulators.Keys <= snap.panes && pending.Keys <= old(pending.Keys)
      ensures forall p :: At(p) == Relaid(vt, snap, p, old(At(p)))
    {
      hide Kept;
      hide Fitted;
      hide Shown;
      snap := next;
      PlaceEmulators(panes);
      WarmVisiblePanes();
      ResizeSnapshotEmulators();
    }

    /** With the zoomed pane in the active layout, no held output is dropped. */
    lemma NoDrops(next: Snap)
      ensures ZoomOk(next) && next.visible == VisibleSet(next) ==> forall p :: !DropsPending(next, p, At(p))
    {
    }

    lemma RelaysAll(next: Snap)
      requires Valid() && 0 !in next.visible
      ensures forall p :: p in next.panes ==>
        && SlotOk(Relaid(vt, next, p, At(p)), p in next.visible, false)
        && (InActiveLayout(next, p) ==> Relaid(vt, next, p, At(p)).emu.Some?)
      ensures forall p :: p in next.panes ==>
        Total(Relaid(vt, next, p, At(p))) == if DropsPending(next, p, At(p)) then [] else Total(At(p))
      ensures forall p :: p !in next.panes ==>
        && SlotOk(Uncaptured(Relaid(vt, next, p, At(p))), p in next.visible, true)
        && Total(Relaid(vt, next, p, At(p))) == Left(next, p, At(p))
      ensures forall p :: FitsCell(next, p, Relaid(vt, next, p, At(p)))
    {
      hide SlotOk;
      hide Relaid;
      hide Total;
      hide Left;
      hide Lawful;
      forall p
        ensures p in next.panes ==>
          && SlotOk(Relaid(vt, next, p, At(p)), p in next.visible, false)
          && (InActiveLayout(next, p) ==> Relaid(vt, next, p, At(p)).emu.Some?)
          && Total(Relaid(vt, next, p, At(p))) == if DropsPending(next, p, At(p)) then [] else Total(At(p))
        ensures p !in next.panes ==>
          && SlotOk(Uncaptured(Relaid(vt, next, p, At(p))), p in next.visible, true)
          && Total(Relaid(vt, next, p, At(p))) == Left(next, p, At(p))
        ensures FitsCell(next, p, Relaid(vt, next, p, At(p)))
      {
        assert SlotOk(At(p), p in snap.visible, Settled(p, {}));
        SlotWeaker(At(p), p in snap.visible, Settled(p, {}));
        if p in next.panes {
          RelaidOk(vt, next, p, At(p));
        } else {
          RelaidGone(vt, next, p, At(p));
        }
      }
    }

    lemma HiddenOrOutside(s: Slot, visible: bool, settled: bool)
      requires SlotOk(s, visible, settled)
      ensures visible ==> s.pending == None
    {
    }

    lemma EmulatorsOk(dirty: set<PaneId>)
      requires forall p :: SlotOk(At(p), p in snap.visible, Settled(p, dirty))
      ensures forall p :: p in emulators ==> EmuOk(emulators[p])
    {
      forall p | p in emulators ensures EmuOk(emulators[p]) {
        assert At(p).emu == Some(emulators[p]);
      }
    }
  }

  /** What is visible depends on which panes have a cell, not on its size. */
  lemma SameCells(snap: Snap, next: Snap)
    requires next.zoomed == snap.zoomed && (next.cells.Some? <==> snap.cells.Some?)
    requires snap.cells.Some? ==> next.cells.value.Keys == snap.cells.value.Keys
    ensures VisibleSet(next) == VisibleSet(snap)
    ensures forall p, c :: InActiveLayout(next.(captures := c), p) <==> InActiveLayout(snap, p)
  {
  }

  /** What is visible, and whether zooming is sound, depends on layout and zoom alone. */
  lemma SameVisible(snap: Snap)
    ensures 0 !in VisibleSet(snap)
    ensures forall v, c :: VisibleSet(snap.(visible := v, captures := c)) == VisibleSet(snap)
    ensures forall v :: VisibleSet(snap.(visible := v)) == VisibleSet(snap)
    ensures forall c :: VisibleSet(snap.(captures := c)) == VisibleSet(snap)
    ensures forall c :: ZoomOk(snap.(captures := c)) == ZoomOk(snap)
  {
  }

  /** With the zoomed pane in the active layout, no output is dropped. */
  lemma VisibleStarts(snap: Snap, p: PaneId, s: Slot)
    ensures ZoomOk(snap) && snap.visible == VisibleSet(snap) ==> !DropsOutput(snap, p, s)
  {
  }
}
