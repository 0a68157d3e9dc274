/**
 * What the client renderer keeps for one pane: its emulator if it is warm,
 * the output buffered while it is not, and its published capture.
 */
module RendererPane {
  import opened Common
  import opened Capture

  /** The emulator library: creating, feeding and resizing an emulator. */
  datatype Vt = Vt(start: (int, int) -> Emu, write: (Emu, seq<byte>) -> Emu, resize: (Emu, int, int) -> Emu)

  /** Writing only adds to the log of bytes and never un-pushes a line; resizing writes nothing. */
  ghost predicate Lawful(vt: Vt) {
    && (forall w, h :: EmuOk(vt.start(w, h)) && vt.start(w, h).written == [])
    && (forall e, data :: EmuOk(e) ==> Evolves(e, vt.write(e, data)) && vt.write(e, data).written == e.written + data)
    && (forall e, w, h :: EmuOk(e) ==> Evolves(e, vt.resize(e, w, h)) && vt.resize(e, w, h).written == e.written)
    && (forall e, w, h :: EmuOk(e) && h >= 0 ==> SizeOf(vt.resize(e, w, h)) == (w, h))
  }

  function Below(n: nat): (r: set<nat>)
    ensures forall i: nat :: i in r <==> i < n
  {
    if n == 0 then {} else Below(n - 1) + {n - 1}
  }

  /** An emulator with a blank screen, every row of it touched. */
  function Blank(e: Emu, w: int, h: int): Emu {
    if h < 0 then e
    else e.(screen := Grid(w, h, seq(h, _ => Line("", []))), touched := Below(h))
  }

  /** The assumptions on the library are consistent: one that only ever shows blanks meets them. */
  lemma {:induction false} LawfulPossible()
    ensures exists vt :: Lawful(vt)
  {
    var none := Grid(0, 0, []);
    var vt := Vt((w: int, h: int) => Emu(none, [], 0, {}, none, []),
                 (e: Emu, data: seq<byte>) => e.(written := e.written + data),
                 Blank);
    assert Lawful(vt);
  }

  function SizeOf(e: Emu): (int, int) {
    (e.screen.width, e.screen.height)
  }

  predicate HasSize(s: Slot, size: (int, int)) {
    s.emu.Some? ==> SizeOf(s.emu.value) == size
  }

  /** Output held for a pane without an emulator, with the size it was produced for. */
  datatype Buffer = Buffer(chunks: seq<seq<byte>>, width: int, height: int)

  datatype Slot = Slot(emu: Option<Emu>, pending: Option<Buffer>, state: State, capture: Option<Snapshot>)

  function Held(s: Slot): seq<byte> {
    if s.pending.Some? then Concat(s.pending.value.chunks) else []
  }

  /** Everything the pane has been sent: fed to its emulator, then held back. */
  function Total(s: Slot): seq<byte> {
    (if s.emu.Some? then s.emu.value.written else []) + Held(s)
  }

  // ----- operations on one pane -----

  function WithReplaySize(b: Buffer, size: Option<(int, int)>): Buffer {
    match size
    case None => b
    case Some((w, h)) =>
      if w <= 0 || h <= 0 || (b.width > 0 && b.height > 0) then b else b.(width := w, height := h)
  }

  function Buffered(s: Slot, size: Option<(int, int)>, data: seq<byte>): Slot {
    if data == [] then s
    else
      var b := if s.pending.Some? then s.pending.value else Buffer([], 0, 0);
      var sized := WithReplaySize(b, size);
      s.(pending := Some(sized.(chunks := sized.chunks + [data])))
  }

  /** The size a cold emulator starts with: that of the buffered output if known. */
  function StartSize(s: Slot, size: Option<(int, int)>): Option<(int, int)> {
    if s.pending.Some? && s.pending.value.width > 0 && s.pending.value.height > 0
    then Some((s.pending.value.width, s.pending.value.height))
    else size
  }

  function Started(vt: Vt, s: Slot, size: Option<(int, int)>): Slot {
    if s.emu.Some? then s
    else
      match StartSize(s, size)
      case Some((w, h)) => s.(emu := Some(vt.start(w, h)))
      case None => s
  }

  function WriteAll(vt: Vt, e: Emu, chunks: seq<seq<byte>>): Emu
    decreases |chunks|
  {
    if chunks == [] then e else WriteAll(vt, vt.write(e, chunks[0]), chunks[1..])
  }

  /** Replay what is held back; without an emulator it is thrown away. */
  function Warmed(vt: Vt, s: Slot): Slot {
    if s.pending == None || s.pending.value.chunks == [] then s
    else if s.emu == None then s.(pending := None)
    else s.(emu := Some(WriteAll(vt, s.emu.value, s.pending.value.chunks)), pending := None)
  }

  function Fed(vt: Vt, s: Slot, data: seq<byte>): Slot {
    if s.emu == None then s else s.(emu := Some(vt.write(s.emu.value, data)))
  }

  function Resized(vt: Vt, s: Slot, size: (int, int)): Slot {
    if s.emu == None then s else s.(emu := Some(vt.resize(s.emu.value, size.0, size.1)))
  }

  function ResizedIfNeeded(vt: Vt, s: Slot, size: (int, int)): Slot {
    if s.emu == None || SizeOf(s.emu.value) == size then s else Resized(vt, s, size)
  }

  function Published(s: Slot): Slot
    requires s.emu.Some? ==> EmuOk(s.emu.value)
  {
    if s.emu == None then s
    else
      var (snap, next, _) := Take(s.state, s.emu.value);
      s.(emu := Some(Drained(s.emu.value)), state := next, capture := Some(snap))
  }

  function DrainedSlot(s: Slot): Slot {
    if s.emu == None then s else s.(emu := Some(Drained(s.emu.value)))
  }

  // ----- what every pane keeps -----

  /** The published capture is what a full rebuild would give now. */
  predicate UpToDate(s: Slot)
    requires s.emu.Some? ==> EmuOk(s.emu.value)
  {
    s.capture.Some? ==>
      s.emu.Some? && Current(s.state, s.emu.value) && s.capture.value == Snapshot(Scrollback(s.emu.value), s.emu.value.screen)
  }

  /** `visible` panes hold nothing back; `settled` ones are captured as they are. */
  ghost predicate SlotOk(s: Slot, visible: bool, settled: bool) {
    && (s.emu.Some? ==> EmuOk(s.emu.value) && Follows(s.state, s.emu.value))
    && (s.emu == None ==> s.state == NoState)
    && (s.capture.Some? <==> s.state.screen.Some?)
    && (s.pending.Some? ==> s.pending.value.chunks != [] && [] !in s.pending.value.chunks)
    && (visible ==> s.pending == None)
    && (settled ==> UpToDate(s))
  }

  lemma {:induction false} ConcatSnoc(chunks: seq<seq<byte>>, data: seq<byte>)
    ensures Concat(chunks + [data]) == Concat(chunks) + data
  {
    if chunks == [] {
      assert chunks + [data] == [data] && [data][1..] == [];
      assert Concat([data]) == data + [] == data;
    } else {
      assert (chunks + [data])[0] == chunks[0] && (chunks + [data])[1..] == chunks[1..] + [data];
      ConcatSnoc(chunks[1..], data);
    }
  }

  lemma {:induction false} EvolvesTransitive(e: Emu, f: Emu, g: Emu)
    requires Evolves(e, f) && Evolves(f, g)
    ensures Evolves(e, g)
  {
  }

  lemma {:induction false} WriteAllOk(vt: Vt, e: Emu, chunks: seq<seq<byte>>)
    requires Lawful(vt) && EmuOk(e)
    ensures Evolves(e, WriteAll(vt, e, chunks)) && WriteAll(vt, e, chunks).written == e.written + Concat(chunks)
    decreases |chunks|
  {
    if chunks != [] {
      var f := vt.write(e, chunks[0]);
      WriteAllOk(vt, f, chunks[1..]);
      EvolvesTransitive(e, f, WriteAll(vt, e, chunks));
    }
  }

  function ChunksOf(s: Slot): seq<seq<byte>> {
    if s.pending.Some? then s.pending.value.chunks else []
  }

  /** `last` is what `first` becomes when the chunks are written to it one by one. */
  ghost predicate FedInOrder(vt: Vt, first: Emu, chunks: seq<seq<byte>>, last: Emu) {
    exists es: seq<Emu> :: FeedSteps(vt, first, chunks, es) && es[|chunks|] == last
  }

  predicate FeedSteps(vt: Vt, first: Emu, chunks: seq<seq<byte>>, es: seq<Emu>) {
    && |es| == |chunks| + 1 && es[0] == first
    && forall i :: 0 <= i < |chunks| ==> es[i + 1] == vt.write(es[i], chunks[i])
  }

  lemma {:induction false} WriteAllFeeds(vt: Vt, e: Emu, chunks: seq<seq<byte>>)
    ensures FedInOrder(vt, e, chunks, WriteAll(vt, e, chunks))
    decreases |chunks|
  {
    if chunks == [] {
      assert FeedSteps(vt, e, chunks, [e]);
    } else {
      var f := vt.write(e, chunks[0]);
      WriteAllFeeds(vt, f, chunks[1..]);
      var es :| FeedSteps(vt, f, chunks[1..], es) && es[|chunks| - 1] == WriteAll(vt, f, chunks[1..]);
      FeedFirst(vt, e, chunks, es);
    }
  }

  lemma FeedFirst(vt: Vt, e: Emu, chunks: seq<seq<byte>>, es: seq<Emu>)
    requires chunks != [] && FeedSteps(vt, vt.write(e, chunks[0]), chunks[1..], es)
    ensures FeedSteps(vt, e, chunks, [e] + es)
  {
    forall i | 0 <= i < |chunks| ensures ([e] + es)[i + 1] == vt.write(([e] + es)[i], chunks[i]) {
      if i > 0 {
        assert chunks[1..][i - 1] == chunks[i];
      }
    }
  }

  /** What comes of feeding chunks in order is determined. */
  lemma {:induction false} FedUnique(vt: Vt, e: Emu, chunks: seq<seq<byte>>, f: Emu)
    requires FedInOrder(vt, e, chunks, f)
    ensures f == WriteAll(vt, e, chunks)
    decreases |chunks|
  {
    var es :| FeedSteps(vt, e, chunks, es) && es[|chunks|] == f;
    if chunks != [] {
      assert es[1] == vt.write(e, chunks[0]);
      assert FeedSteps(vt, es[1], chunks[1..], es[1..]);
      FedUnique(vt, es[1], chunks[1..], f);
    }
  }

  lemma {:induction false} ChangedOk(s: Slot, f: Emu, visible: bool, settled: bool)
    requires SlotOk(s, visible, settled) && s.emu.Some? && Evolves(s.emu.value, f)
    ensures SlotOk(s.(emu := Some(f)), visible, false)
  {
    FollowsEvolves(s.state, s.emu.value, f);
  }

  /** Nothing buffered is lost or reordered. */
  lemma {:induction false} BufferedOk(s: Slot, size: Option<(int, int)>, data: seq<byte>, settled: bool)
    requires SlotOk(s, false, settled)
    ensures SlotOk(Buffered(s, size, data), false, settled)
    ensures Total(Buffered(s, size, data)) == Total(s) + data
  {
    hide EmuOk;
    hide Follows;
    BufferedTotal(s, size, data);
  }

  lemma {:induction false} BufferedTotal(s: Slot, size: Option<(int, int)>, data: seq<byte>)
    ensures Total(Buffered(s, size, data)) == Total(s) + data
  {
    hide Concat;
    var b := if s.pending.Some? then s.pending.value else Buffer([], 0, 0);
    NothingConcat();
    ConcatSnoc(b.chunks, data);
    assert Held(s) == Concat(b.chunks);
    if data != [] {
      assert Held(Buffered(s, size, data)) == Held(s) + data;
    }
  }

  lemma NothingConcat()
    ensures Concat([]) == []
  {
  }

  lemma {:induction false} StartedOk(vt: Vt, s: Slot, size: Option<(int, int)>, visible: bool, settled: bool)
    requires Lawful(vt) && SlotOk(s, visible, settled)
    ensures SlotOk(Started(vt, s, size), visible, settled)
    ensures Total(Started(vt, s, size)) == Total(s)
    ensures size.Some? ==> Started(vt, s, size).emu.Some?
    ensures Started(vt, s, size).pending == s.pending
  {
  }

  /** Replaying moves the held bytes to the emulator, in order; without one they are gone. */
  lemma {:induction false} WarmedOk(vt: Vt, s: Slot, visible: bool, settled: bool)
    requires Lawful(vt) && SlotOk(s, visible, settled)
    ensures SlotOk(Warmed(vt, s), true, settled && s.pending == None)
    ensures SlotOk(Warmed(vt, s), visible, visible && settled)
    ensures Warmed(vt, s).pending == None
    ensures s.pending == None ==> Warmed(vt, s) == s
    ensures s.emu.Some? ==> Total(Warmed(vt, s)) == Total(s)
    ensures s.emu == None && s.pending.Some? ==> Total(Warmed(vt, s)) == []
    ensures Warmed(vt, s).emu.Some? <==> s.emu.Some?
  {
    if s.emu.Some? && s.pending.Some? {
      WriteAllOk(vt, s.emu.value, s.pending.value.chunks);
      ChangedOk(s, WriteAll(vt, s.emu.value, s.pending.value.chunks), visible, settled);
    }
  }

  lemma {:induction false} FedOk(vt: Vt, s: Slot, data: seq<byte>, visible: bool, settled: bool)
    requires Lawful(vt) && SlotOk(s, visible, settled) && s.emu.Some? && s.pending == None
    ensures SlotOk(Fed(vt, s, data), true, false)
    ensures Total(Fed(vt, s, data)) == Total(s) + data
  {
    ChangedOk(s, vt.write(s.emu.value, data), visible, settled);
  }

  lemma {:induction false} ResizedOk(vt: Vt, s: Slot, size: (int, int), visible: bool, settled: bool)
    requires Lawful(vt) && SlotOk(s, visible, settled)
    ensures SlotOk(Resized(vt, s, size), visible, settled && s.emu == None)
    ensures Total(Resized(vt, s, size)) == Total(s)
  {
    if s.emu.Some? {
      var (w, h) := size;
      assert Evolves(s.emu.value, vt.resize(s.emu.value, w, h));
      ChangedOk(s, vt.resize(s.emu.value, w, h), visible, settled);
    }
  }

  /** A pane with an emulator has a capture, and it is what a full rebuild would give. */
  predicate Captured(s: Slot) {
    s.emu.Some? ==>
      EmuOk(s.emu.value) && s.capture == Some(Snapshot(Scrollback(s.emu.value), s.emu.value.screen))
  }

  lemma {:induction false} PublishedOk(s: Slot, visible: bool, settled: bool)
    requires SlotOk(s, visible, settled)
    ensures s.emu.Some? ==> EmuOk(s.emu.value)
    ensures SlotOk(Published(s), visible, true) && SlotOk(Published(s), visible, visible)
    ensures Total(Published(s)) == Total(s)
    ensures Captured(Published(s))
    ensures forall size :: HasSize(s, size) ==> HasSize(Published(s), size)
  {
    if s.emu.Some? {
      TakeExact(s.state, s.emu.value);
    }
  }

  /**
   * Replaying held output leaves the published capture as it was, so the
   * capture is still what a rebuild would give exactly when the output changed
   * neither screen nor scrollback.
   */
  lemma {:induction false} ReplayLags(vt: Vt, s: Slot)
    requires Lawful(vt) && SlotOk(s, false, false) && s.emu.Some? && s.pending.Some? && Captured(s)
    ensures var t := Warmed(vt, s);
      && t.emu.Some? && t.capture == s.capture && EmuOk(t.emu.value)
      && (Captured(t) <==>
            Scrollback(t.emu.value) == Scrollback(s.emu.value) && t.emu.value.screen == s.emu.value.screen)
  {
    WarmedOk(vt, s, false, false);
  }

  /** An emulator library that keeps a blank screen and pushes one line for every write. */
  function PushingVt(): Vt {
    Vt((w: int, h: int) => Emu(Grid(0, 0, []), [], 0, {}, Grid(0, 0, []), []),
       (e: Emu, data: seq<byte>) => e.(written := e.written + data, history := e.history + ["line"], kept := e.kept + 1),
       Blank)
  }

  lemma {:induction false} PushingLawful()
    ensures Lawful(PushingVt())
  {
  }

  /** Draining at render time is safe for a pane whose capture is up to date. */
  lemma {:induction false} DrainedOk(s: Slot, visible: bool)
    requires SlotOk(s, visible, true)
    ensures SlotOk(DrainedSlot(s), visible, true)
    ensures Total(DrainedSlot(s)) == Total(s)
    ensures Captured(s) ==> Captured(DrainedSlot(s))
  {
    if s.emu.Some? {
      DrainHarmless(s.state, s.emu.value);
    }
  }
}
