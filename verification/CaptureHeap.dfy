/**
 * The capture loops on their real storage: the scrollback of a capture is a
 * slice of a backing array that later captures extend in place, while readers
 * still hold slices published before.
 */
module CaptureHeap {
  import opened Common
  import opened Capture

  /** A view of `len` elements of an array from `off` on; the rest of the array is spare capacity. */
  datatype Slice = Slice(arr: array<string>, off: nat, len: nat) {
    predicate Fits() {
      off + len <= arr.Length
    }

    function End(): nat {
      off + len
    }

    ghost function Lines(): seq<string>
      requires Fits()
      reads arr
    {
      arr[off..off + len]
    }
  }

  /** Appending writes in place when there is room behind the slice, and copies otherwise. */
  method Append(s: Slice, line: string) returns (t: Slice)
    requires s.Fits()
    modifies s.arr
    ensures t.Fits() && t.Lines() == old(s.Lines()) + [line]
    ensures (t.arr == s.arr && t.End() == s.End() + 1) || fresh(t.arr)
    ensures forall i :: 0 <= i < s.End() ==> s.arr[i] == old(s.arr[i])
  {
    if s.End() < s.arr.Length {
      s.arr[s.End()] := line;
      t := s.(len := s.len + 1);
      assert t.Lines() == s.Lines() + [line];
    } else {
      var spare: int := *;
      var arr := new string[s.len + 1 + if spare < 0 then 0 else spare](_ => "");
      for i := 0 to s.len
        invariant forall k :: 0 <= k < i ==> arr[k] == s.arr[s.off + k]
        invariant forall k :: 0 <= k < s.arr.Length ==> s.arr[k] == old(s.arr[k])
      {
        arr[i] := s.arr[s.off + i];
      }
      arr[s.len] := line;
      t := Slice(arr, 0, s.len + 1);
      assert t.Lines()[..s.len] == s.Lines();
    }
  }

  method RebuildScrollback(e: Emu) returns (s: Slice)
    requires EmuOk(e)
    ensures s.Fits() && fresh(s.arr) && s.Lines() == Scrollback(e)
  {
    var arr := new string[e.kept](_ => "");
    for row := 0 to e.kept
      invariant forall k :: 0 <= k < row ==> arr[k] == Scrollback(e)[k]
    {
      arr[row] := Scrollback(e)[row];
    }
    s := Slice(arr, 0, e.kept);
  }

  lemma ScrollbackLength(e: Emu)
    requires EmuOk(e)
    ensures e.kept <= |e.history| && |Scrollback(e)| == e.kept
  {
  }

  /** Lines appended one by one behind a slice, in place or in fresh storage. */
  method AppendRows(s: Slice, lines: seq<string>) returns (t: Slice)
    requires s.Fits()
    modifies s.arr
    ensures t.Fits() && t.Lines() == old(s.Lines()) + lines
    ensures (t.arr == s.arr && s.End() <= t.End()) || fresh(t.arr)
    ensures forall i :: 0 <= i < s.End() ==> s.arr[i] == old(s.arr[i])
  {
    t := s;
    ghost var before := s.Lines();
    assert before + lines[..0] == before;
    for row := 0 to |lines|
      invariant t.Fits() && t.Lines() == before + lines[..row]
      invariant (t.arr == s.arr && s.End() <= t.End()) || fresh(t.arr)
      invariant forall i :: 0 <= i < s.End() ==> s.arr[i] == old(s.arr[i])
    {
      t := Append(t, lines[row]);
      assert (before + lines[..row]) + [lines[row]] == before + lines[..row + 1];
    }
    assert lines[..|lines|] == lines;
  }

  /** The previous slice without its first lines, extended by what was pushed since; None asks for a rebuild. */
  method Extend(prev: Slice, pushed: nat, e: Emu) returns (r: Option<Slice>)
    requires prev.Fits() && EmuOk(e)
    modifies prev.arr
    ensures r.Some? <==> ExtendScrollback(Some(ScrollState(pushed, old(prev.Lines()))), e).Some?
    ensures r.Some? ==> r.value.Fits()
    ensures r.Some? ==> Some(r.value.Lines()) == ExtendScrollback(Some(ScrollState(pushed, old(prev.Lines()))), e)
    ensures r.Some? ==> (r.value.arr == prev.arr && prev.End() <= r.value.End()) || fresh(r.value.arr)
    ensures forall i :: 0 <= i < prev.End() ==> prev.arr[i] == old(prev.arr[i])
  {
    if |e.history| < pushed || |e.history| - pushed > e.kept {
      return None;
    }
    var appended := |e.history| - pushed;
    var trimmed := prev.len + appended - e.kept;
    if trimmed < 0 || trimmed > prev.len {
      return None;
    }
    if appended == 0 && trimmed == 0 {
      assert prev.Lines()[0..] + Scrollback(e)[e.kept..] == prev.Lines();
      return Some(prev);
    }
    var s := Slice(prev.arr, prev.off + trimmed, prev.len - trimmed);
    assert s.Lines() == prev.Lines()[trimmed..];
    s := AppendRows(s, Scrollback(e)[e.kept - appended..]);
    r := Some(s);
  }

  /**
   * The slice and push count the last capture kept, and a record of every
   * slice published so far with what it held at the time.
   */
  class ScrollCapture {
    var kept: Option<(Slice, nat)>
    ghost var published: seq<(Slice, seq<string>)>

    /** Published slices still hold what they held, and end no later than the one that will be extended. */
    ghost predicate Valid()
      reads this, set p | p in published :: p.0.arr
    {
      && (kept == None ==> published == [])
      && (kept.Some? ==> published != [] && published[|published| - 1].0 == kept.value.0)
      && (forall i :: 0 <= i < |published| ==> published[i].0.Fits() && published[i].0.Lines() == published[i].1)
      && (forall i :: 0 <= i < |published| && kept.Some? && published[i].0.arr == kept.value.0.arr ==>
            published[i].0.End() <= kept.value.0.End())
    }

    ghost function View(): Option<ScrollState>
      requires Valid()
      reads this, set p | p in published :: p.0.arr
    {
      match kept
      case None => None
      case Some((_, pushed)) => Some(ScrollState(pushed, published[|published| - 1].1))
    }

    constructor ()
      ensures Valid() && View() == None && published == []
    {
      kept, published := None, [];
    }

    /**
     * Capturing publishes the emulator's scrollback, whether extended or
     * rebuilt, and leaves every slice published before as it was.
     */
    method Capture(e: Emu) returns (s: Slice)
      requires Valid() && EmuOk(e) && Follows(State(View(), None), e)
      modifies this, if kept.Some? then {kept.value.0.arr} else {}
      ensures Valid()
      ensures s.Fits() && s.Lines() == Scrollback(e)
      ensures View() == Some(ScrollState(|e.history|, Scrollback(e)))
      ensures published == old(published) + [(s, Scrollback(e))]
    {
      hide ExtendScrollback;
      hide Scrollback;
      hide EmuOk;
      hide Follows;
      ScrollbackLength(e);
      ghost var past := published;
      ExtendScrollbackExact(State(View(), None), e);
      var extended := None;
      if kept.Some? {
        assert kept.value.0.Lines() == published[|published| - 1].1;
        extended := Extend(kept.value.0, kept.value.1, e);
        assert forall i :: 0 <= i < |past| ==> past[i].0.Lines() == past[i].1;
      }
      if extended.Some? {
        s := extended.value;
      } else {
        s := RebuildScrollback(e);
      }
      kept := Some((s, |e.history|));
      published := published + [(s, Scrollback(e))];
    }
  }

  ghost predicate Lists(changed: seq<int>, rows: set<nat>) {
    && (forall k :: 0 <= k < |changed| ==> changed[k] >= 0 && changed[k] in rows)
    && (forall i :: i in rows ==> i in changed)
  }

  /**
   * Screen rows are copied before touched ones are replaced, so the previous
   * capture is left alone; a row outside the screen asks for a rebuild.
   */
  method ExtendScreenRows(prev: Option<Grid>, e: Emu, changed: seq<int>) returns (r: Option<seq<Line>>)
    requires GridOk(e.screen)
    ensures Lists(changed, DrainedRows(e)) ==>
      r == match ExtendScreen(prev, e) case None => None case Some(g) => Some(g.rows)
    ensures (exists k :: 0 <= k < |changed| && !(0 <= changed[k] < e.screen.height)) ==> r == None
  {
    if prev == None || prev.value.width != e.screen.width || prev.value.height != e.screen.height
       || |prev.value.rows| != e.screen.height {
      return None;
    }
    var rows := prev.value.rows;
    for k := 0 to |changed|
      invariant |rows| == e.screen.height
      invariant forall j :: 0 <= j < k ==> 0 <= changed[j] < e.screen.height
      invariant forall i :: 0 <= i < |rows| ==> rows[i] == if i in changed[..k] then e.screen.rows[i] else prev.value.rows[i]
    {
      var row := changed[k];
      if row < 0 || row >= e.screen.height {
        return None;
      }
      rows := rows[row := e.screen.rows[row]];
      assert forall i :: i in changed[..k + 1] <==> i in changed[..k] || i == row;
    }
    assert changed[..|changed|] == changed;
    if Lists(changed, DrainedRows(e)) {
      var g := ExtendScreen(prev, e).value;
      assert forall i: nat :: i in changed <==> i in DrainedRows(e);
      assert rows == g.rows;
    }
    r := Some(rows);
  }
}
