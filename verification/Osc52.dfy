/**
 * Scanning terminal output for OSC 52 clipboard sequences: the scanner as
 * written, searching each read for the prefix and then the terminator, against
 * a machine that takes one byte at a time and so cannot see where reads end.
 */
module Osc52 {
  import opened Common

  const Esc: byte := 27
  const Bel: byte := 7
  const Backslash: byte := 92

  /** ESC ] 5 2 ; */
  const Prefix: seq<byte> := [27, 93, 53, 50, 59]

  const MaxSize: nat := 4 * 1024 * 1024

  /** What a scan yields: complete sequences, and the bytes carried to the next read. */
  datatype Scanned = Scanned(results: seq<seq<byte>>, partial: seq<byte>)

  // ----- the scanner -----

  predicate PrefixAt(data: seq<byte>, i: nat) {
    i + |Prefix| <= |data| && data[i..i + |Prefix|] == Prefix
  }

  /** The first position from i on where the prefix stands, or -1. */
  function IndexPrefix(data: seq<byte>, i: nat): (r: int)
    requires i <= |data|
    ensures r == -1 || (i <= r < |data| && PrefixAt(data, r))
    ensures forall k: nat :: i <= k && (r == -1 || k < r) ==> !PrefixAt(data, k)
    decreases |data| - i
  {
    if i == |data| then -1
    else if PrefixAt(data, i) then i
    else IndexPrefix(data, i + 1)
  }

  predicate StopAt(data: seq<byte>, i: nat) {
    && i < |data|
    && (data[i] == Bel || (i + 1 < |data| && data[i] == Esc && data[i + 1] == Backslash))
  }

  /** The first BEL from i on, or -1. */
  function IndexBel(data: seq<byte>, i: nat): (r: int)
    requires i <= |data|
    ensures r == -1 || (i <= r < |data| && data[r] == Bel)
    ensures forall k :: i <= k < |data| && (r == -1 || k < r) ==> data[k] != Bel
    decreases |data| - i
  {
    if i == |data| then -1 else if data[i] == Bel then i else IndexBel(data, i + 1)
  }

  predicate StringEndAt(data: seq<byte>, i: nat) {
    i + 1 < |data| && data[i] == Esc && data[i + 1] == Backslash
  }

  /** The first ESC \ from i on, or -1. */
  function IndexStringEnd(data: seq<byte>, i: nat): (r: int)
    requires i <= |data|
    ensures r == -1 || (i <= r && StringEndAt(data, r))
    ensures forall k: nat :: i <= k && (r == -1 || k < r) ==> !StringEndAt(data, k)
    decreases |data| - i
  {
    if i == |data| then -1 else if StringEndAt(data, i) then i else IndexStringEnd(data, i + 1)
  }

  /** Where the terminator of a sequence starting at 0 begins, or -1, and its length. */
  function FindEnd(data: seq<byte>): (r: (int, nat))
    ensures r.0 == -1 ==> forall k: nat :: |Prefix| <= k ==> !StopAt(data, k)
    ensures r.0 != -1 ==>
      && |Prefix| <= r.0 && StopAt(data, r.0)
      && r.1 == (if data[r.0] == Bel then 1 else 2)
      && (forall k: nat :: |Prefix| <= k < r.0 ==> !StopAt(data, k))
  {
    var after := if |data| < |Prefix| then |data| else |Prefix|;
    var bel, end := IndexBel(data, after), IndexStringEnd(data, after);
    assert forall k: nat :: StopAt(data, k) <==> StringEndAt(data, k) || (k < |data| && data[k] == Bel);
    if bel >= 0 && (end < 0 || bel <= end) then (bel, 1)
    else if end >= 0 then (end, 2)
    else (-1, 0)
  }

  predicate StartsPrefix(s: seq<byte>) {
    |s| <= |Prefix| && s == Prefix[..|s|]
  }

  /** The trailing bytes, from position i on, that may begin the prefix. */
  function TrailingPrefix(data: seq<byte>, i: nat): (r: seq<byte>)
    requires i <= |data|
    ensures |r| <= |data| - i
    decreases |data| - i
  {
    if i == |data| then []
    else if StartsPrefix(data[i..]) then data[i..]
    else TrailingPrefix(data, i + 1)
  }

  function TailStart(data: seq<byte>): nat {
    if |data| < |Prefix| then 0 else |data| - |Prefix| + 1
  }

  /** One scan of `data`, abandoning a sequence that has more than `limit` bytes after it begins. */
  function ScanAll(data: seq<byte>, limit: nat): Scanned
    decreases |data|
  {
    var idx := IndexPrefix(data, 0);
    if idx < 0 then Scanned([], TrailingPrefix(data, TailStart(data)))
    else
      var rest := data[idx..];
      if |rest| > limit then ScanAll(data[idx + |Prefix|..], limit)
      else
        var (end, termLen) := FindEnd(rest);
        if end < 0 then Scanned([], rest)
        else
          var more := ScanAll(rest[end + termLen..], limit);
          Scanned([rest[..end + termLen]] + more.results, more.partial)
  }

  lemma {:induction false} ScanNone(data: seq<byte>, limit: nat)
    requires IndexPrefix(data, 0) < 0
    ensures ScanAll(data, limit) == Scanned([], TrailingPrefix(data, TailStart(data)))
  {
  }

  lemma {:induction false} ScanAbandon(data: seq<byte>, limit: nat)
    requires IndexPrefix(data, 0) >= 0 && |data| - IndexPrefix(data, 0) > limit
    ensures ScanAll(data, limit) == ScanAll(data[IndexPrefix(data, 0) + |Prefix|..], limit)
  {
  }

  /** The two ways on from a prefix at idx that the guard lets pass. */
  lemma {:induction false} ScanFound(data: seq<byte>, limit: nat, idx: nat, end: int, termLen: nat)
    requires IndexPrefix(data, 0) == idx && |data| - idx <= limit && FindEnd(data[idx..]) == (end, termLen)
    ensures end < 0 ==> ScanAll(data, limit) == Scanned([], data[idx..])
    ensures end >= 0 ==>
      var more := ScanAll(data[idx + end + termLen..], limit);
      ScanAll(data, limit) == Scanned([data[idx..][..end + termLen]] + more.results, more.partial)
  {
    hide FindEnd;
    hide IndexPrefix;
    hide TrailingPrefix;
    if end >= 0 {
      assert data[idx..][end + termLen..] == data[idx + end + termLen..];
    }
  }

  lemma NothingLeft(data: seq<byte>)
    ensures |data| == 0 ==> IndexPrefix(data, 0) < 0
  {
  }

  class OSC52Scanner {
    var partial: seq<byte>

    constructor ()
      ensures partial == []
    {
      partial := [];
    }

    method Scan(chunk: seq<byte>) returns (results: seq<seq<byte>>)
      modifies this
      ensures Scanned(results, partial) == ScanAll(old(partial) + chunk, MaxSize)
    {
      hide ScanAll;
      hide FindEnd;
      results := [];
      var data := partial + chunk;
      ghost var all := ScanAll(data, MaxSize);
      partial := [];
      var found := false;
      while |data| > 0
        invariant partial == []
        invariant all.results == results + ScanAll(data, MaxSize).results
        invariant all.partial == ScanAll(data, MaxSize).partial
        decreases |data|
      {
        var idx := IndexPrefix(data, 0);
        if idx < 0 {
          break;
        }
        var rest := data[idx..];
        if |rest| > MaxSize {
          ScanAbandon(data, MaxSize);
          data := data[idx + |Prefix|..];
          continue;
        }
        var (end, termLen) := FindEnd(rest);
        ScanFound(data, MaxSize, idx, end, termLen);
        if end < 0 {
          partial := rest;
          found := true;
          break;
        }
        results := results + [rest[..end + termLen]];
        data := data[idx + end + termLen..];
      }
      if !found {
        NothingLeft(data);
        ScanNone(data, MaxSize);
      }
      if !found && |data| > 0 {
        ghost var start := TailStart(data);
        var i := TailStart(data);
        while i < |data|
          invariant start <= i <= |data|
          invariant TrailingPrefix(data, start) == TrailingPrefix(data, i)
          invariant partial == []
        {
          if StartsPrefix(data[i..]) {
            partial := data[i..];
            break;
          }
          i := i + 1;
        }
      }
      assert results + [] == results;
    }
  }

  // ----- one byte at a time -----

  /** A carried partial with the whole prefix is inside a sequence; a shorter one may yet become one. */
  predicate Inside(partial: seq<byte>) {
    |Prefix| <= |partial|
  }

  /** Whether byte b ends the sequence `partial` is inside of. */
  predicate Ends(partial: seq<byte>, b: byte)
    requires Inside(partial)
  {
    b == Bel || (b == Backslash && |Prefix| < |partial| && partial[|partial| - 1] == Esc)
  }

  function Step(partial: seq<byte>, b: byte): Scanned {
    if Inside(partial) then
      if Ends(partial, b) then Scanned([partial + [b]], []) else Scanned([], partial + [b])
    else if b == Prefix[|partial|] then Scanned([], partial + [b])
    else if b == Esc then Scanned([], [b])
    else Scanned([], [])
  }

  /** The machine over a whole input. */
  function Feed(partial: seq<byte>, data: seq<byte>): Scanned
    decreases |data|
  {
    if data == [] then Scanned([], partial)
    else
      var now := Step(partial, data[0]);
      var more := Feed(now.partial, data[1..]);
      Scanned(now.results + more.results, more.partial)
  }

  lemma {:induction false} FeedAppend(partial: seq<byte>, a: seq<byte>, b: seq<byte>)
    ensures var x := Feed(partial, a); var y := Feed(x.partial, b);
      Feed(partial, a + b) == Scanned(x.results + y.results, y.partial)
    decreases |a|
  {
    if a == [] {
      assert a + b == b;
    } else {
      assert (a + b)[0] == a[0] && (a + b)[1..] == a[1..] + b;
      FeedAppend(Step(partial, a[0]).partial, a[1..], b);
    }
  }

  lemma FeedOne(partial: seq<byte>, b: byte)
    ensures Feed(partial, [b]) == Step(partial, b)
  {
    assert [b][1..] == [];
    var now := Step(partial, b);
    assert now.results + [] == now.results;
  }

  // ----- the scanner runs the machine -----

  /** `tail` is the nonempty suffix of data that may begin the prefix, if there is one. */
  ghost predicate IsTail(data: seq<byte>, tail: seq<byte>) {
    && |tail| <= |data| && |tail| < |Prefix| && StartsPrefix(tail)
    && data[|data| - |tail|..] == tail
    && forall k :: 0 <= k < |data| && |tail| < |data| - k <= |Prefix| ==> !StartsPrefix(data[k..])
  }

  lemma {:induction false} StartsAt(s: seq<byte>, j: nat)
    requires j < |s|
    ensures StartsPrefix(s) ==> s[j] == Prefix[j]
  {
  }

  /** Only the first prefix byte is ESC, so two different suffixes cannot both begin it. */
  lemma {:induction false} OneTail(data: seq<byte>, k: nat, j: nat)
    requires k < j < |data| && StartsPrefix(data[k..])
    ensures !StartsPrefix(data[j..])
  {
    StartsAt(data[k..], j - k);
    StartsAt(data[j..], 0);
    assert data[k..][j - k] == data[j] == data[j..][0];
  }

  lemma {:induction false} TrailingIsTail(data: seq<byte>, i: nat, tail: seq<byte>)
    requires TailStart(data) <= i <= |data| && IsTail(data, tail) && |tail| <= |data| - i
    ensures TrailingPrefix(data, i) == tail
    decreases |data| - i
  {
    if i < |data| {
      if |tail| == |data| - i {
        assert data[i..] == tail;
      } else {
        assert !StartsPrefix(data[i..]);
        TrailingIsTail(data, i + 1, tail);
      }
    }
  }

  ghost predicate NoPrefix(data: seq<byte>) {
    forall k: nat :: !PrefixAt(data, k)
  }

  lemma NoPrefixFront(data: seq<byte>, n: nat)
    requires n <= |data| && NoPrefix(data)
    ensures NoPrefix(data[..n])
  {
    forall k: nat | PrefixAt(data[..n], k) ensures false {
      assert data[k..k + |Prefix|] == data[..n][k..k + |Prefix|];
      assert PrefixAt(data, k);
    }
  }

  /** A suffix of data + [b] begins the prefix exactly when it is b = ESC, or extends one that did. */
  lemma {:induction false} TailGrows(data: seq<byte>, b: byte, k: nat)
    requires k <= |data| && |data| + 1 - k <= |Prefix|
    ensures StartsPrefix((data + [b])[k..]) <==> StartsPrefix(data[k..]) && b == Prefix[|data| - k]
  {
    var s := data[k..];
    assert (data + [b])[k..] == s + [b];
    if StartsPrefix(s + [b]) {
      assert s == (s + [b])[..|s|] == Prefix[..|s| + 1][..|s|] == Prefix[..|s|];
      assert b == (s + [b])[|s|] == Prefix[..|s| + 1][|s|];
    }
    if StartsPrefix(s) && b == Prefix[|s|] {
      assert s + [b] == Prefix[..|s|] + [Prefix[|s|]] == Prefix[..|s| + 1];
    }
  }

  lemma {:induction false} StepTail(data: seq<byte>, b: byte, tail: seq<byte>)
    requires IsTail(data, tail) && NoPrefix(data + [b])
    ensures var s := Step(tail, b); s.results == [] && IsTail(data + [b], s.partial)
  {
    hide NoPrefix;
    hide StartsPrefix;
    var all := data + [b];
    var t := Step(tail, b).partial;
    var k0 := |data| - |tail|;
    NotWhole(data, b, tail);
    StepTailEnds(data, b, tail);
    TailGrows(data, b, k0);
    forall k | 0 <= k < |all| && |t| < |all| - k <= |Prefix| ensures !StartsPrefix(all[k..]) {
      TailGrows(data, b, k);
      if k < |data| && k0 < k && tail != [] {
        OneTail(data, k0, k);
      }
    }
  }

  /** The bytes the machine carries are the end of what it read. */
  lemma {:induction false} StepTailEnds(data: seq<byte>, b: byte, tail: seq<byte>)
    requires |tail| <= |data| && |tail| < |Prefix| && StartsPrefix(tail) && data[|data| - |tail|..] == tail
    ensures var all, t := data + [b], Step(tail, b).partial;
      |t| <= |all| && all[|all| - |t|..] == t && StartsPrefix(t)
  {
    var all := data + [b];
    var k0 := |data| - |tail|;
    TailGrows(data, b, k0);
    TailGrows(data, b, |data|);
    assert all[k0..] == tail + [b];
    assert all[|data|..] == [b] && data[|data|..] == [];
  }

  lemma {:induction false} NotWhole(data: seq<byte>, b: byte, tail: seq<byte>)
    requires |tail| <= |data| && |tail| < |Prefix| && StartsPrefix(tail) && data[|data| - |tail|..] == tail
    requires NoPrefix(data + [b])
    ensures |tail| + 1 == |Prefix| ==> b != Prefix[|tail|]
  {
    if |tail| + 1 == |Prefix| {
      var all, k := data + [b], |data| - |tail|;
      assert !PrefixAt(all, k);
      assert all[k..k + |Prefix|] == tail + [b];
      assert Prefix[..|tail|] + [Prefix[|tail|]] == Prefix;
    }
  }

  lemma {:induction false} FeedTail(data: seq<byte>)
    requires NoPrefix(data)
    ensures Feed([], data).results == [] && IsTail(data, Feed([], data).partial)
    decreases |data|
  {
    if data != [] {
      var n := |data| - 1;
      NoPrefixFront(data, n);
      FeedTail(data[..n]);
      assert data == data[..n] + [data[n]];
      FeedAppend([], data[..n], [data[n]]);
      FeedOne(Feed([], data[..n]).partial, data[n]);
      StepTail(data[..n], data[n], Feed([], data[..n]).partial);
    }
  }

  /** From any state outside a sequence, the prefix leads inside. */
  lemma {:induction false} FeedPrefix(tail: seq<byte>)
    requires !Inside(tail)
    ensures Feed(tail, Prefix) == Scanned([], Prefix)
  {
    FeedSteps(tail, Prefix, 0);
  }

  lemma {:induction false} FeedSteps(tail: seq<byte>, p: seq<byte>, i: nat)
    requires p == Prefix && i <= |p| && (if i == 0 then !Inside(tail) else tail == p[..i])
    ensures Feed(tail, p[i..]) == Scanned([], if i == |p| then tail else p)
    decreases |p| - i
  {
    if i < |p| {
      assert p[i..][0] == p[i] && p[i..][1..] == p[i + 1..];
      assert p[..i] + [p[i]] == p[..i + 1];
      assert Step(tail, p[i]).partial == p[..i + 1];
      FeedSteps(p[..i + 1], p, i + 1);
    } else {
      assert p[i..] == [];
    }
  }

  lemma {:induction false} NoEndYet(whole: seq<byte>, i: nat, n: nat)
    requires |Prefix| <= i < n <= |whole|
    requires forall k: nat :: |Prefix| <= k ==> !StopAt(whole[..n], k)
    ensures !Ends(whole[..i], whole[i])
  {
    var head := whole[..n];
    assert head[i] == whole[i] && head[i - 1] == whole[i - 1] && whole[..i][i - 1] == whole[i - 1];
    assert !StopAt(head, i);
    assert |Prefix| < i ==> !StopAt(head, i - 1);
  }

  lemma FeedFirst(partial: seq<byte>, b: byte, data: seq<byte>)
    requires Step(partial, b).results == []
    ensures Feed(partial, [b] + data) == Feed(Step(partial, b).partial, data)
  {
    assert ([b] + data)[1..] == data;
  }

  /** Inside a sequence, bytes accumulate until a terminator completes. */
  lemma {:induction false} FeedInside(whole: seq<byte>, i: nat, n: nat)
    requires |Prefix| <= i <= n <= |whole|
    requires forall k: nat :: |Prefix| <= k ==> !StopAt(whole[..n], k)
    ensures Feed(whole[..i], whole[i..n]) == Scanned([], whole[..n])
    decreases n - i
  {
    hide Feed;
    hide StopAt;
    hide Ends;
    if i == n {
      assert whole[i..n] == [];
      FeedNone(whole[..i]);
    } else {
      NoEndYet(whole, i, n);
      assert whole[i..n] == [whole[i]] + whole[i + 1..n];
      assert whole[..i] + [whole[i]] == whole[..i + 1];
      FeedFirst(whole[..i], whole[i], whole[i + 1..n]);
      FeedInside(whole, i + 1, n);
    }
  }

  lemma StopInFront(data: seq<byte>, n: nat, k: nat)
    requires n <= |data|
    ensures StopAt(data[..n], k) ==> StopAt(data, k)
  {
  }

  /** Reading a complete sequence yields just it. */
  lemma {:induction false} FeedComplete(rest: seq<byte>, end: nat, termLen: nat)
    requires |Prefix| <= |rest| && rest[..|Prefix|] == Prefix && FindEnd(rest) == (end, termLen)
    ensures end + termLen <= |rest|
    ensures Feed(Prefix, rest[|Prefix|..end + termLen]) == Scanned([rest[..end + termLen]], [])
  {
    hide Feed;
    hide FindEnd;
    hide StopAt;
    hide Ends;
    EndsThere(rest, end, termLen);
    var n := end + termLen - 1;
    var head := rest[..n];
    FeedInside(rest, |Prefix|, n);
    var b := rest[n];
    assert rest[|Prefix|..n + 1] == rest[|Prefix|..n] + [b];
    FeedAppend(Prefix, rest[|Prefix|..n], [b]);
    FeedOne(head, b);
    assert head + [b] == rest[..n + 1];
  }

  /** The sequence has no terminator before its last byte, which completes one. */
  lemma {:induction false} EndsThere(rest: seq<byte>, end: nat, termLen: nat)
    requires |Prefix| <= |rest| && FindEnd(rest) == (end, termLen)
    ensures var n := end + termLen - 1;
      && |Prefix| <= n < |rest| && Ends(rest[..n], rest[n])
      && forall k: nat :: |Prefix| <= k ==> !StopAt(rest[..n], k)
  {
    hide FindEnd;
    var n := end + termLen - 1;
    forall k: nat | |Prefix| <= k ensures !StopAt(rest[..n], k) {
      if k < end {
        StopInFront(rest, n, k);
      }
    }
    assert termLen == 2 ==> rest[..n][n - 1] == rest[end];
  }

  /** The guard lets a scan pass: from the first prefix on there are at most `limit` bytes. */
  predicate Untripped(data: seq<byte>, limit: nat) {
    IndexPrefix(data, 0) >= 0 ==> |data| - IndexPrefix(data, 0) <= limit
  }

  /** A scan that abandons nothing is the machine run over the same bytes. */
  lemma {:induction false} ScanIsFeed(data: seq<byte>, limit: nat)
    requires Untripped(data, limit)
    ensures ScanAll(data, limit) == Feed([], data)
    decreases |data|
  {
    hide Feed;
    hide ScanAll;
    hide FindEnd;
    var idx := IndexPrefix(data, 0);
    if idx < 0 {
      ScanNone(data, limit);
      FeedTail(data);
      TailWithin(data, Feed([], data).partial);
      TrailingIsTail(data, TailStart(data), Feed([], data).partial);
    } else {
      var rest := data[idx..];
      BeforePrefix(data, idx);
      assert rest[..|Prefix|] == Prefix;
      var (end, termLen) := FindEnd(rest);
      ScanFound(data, limit, idx, end, termLen);
      if end < 0 {
        assert rest[..|rest|] == rest && rest[|Prefix|..|rest|] == rest[|Prefix|..];
        FeedInside(rest, |Prefix|, |rest|);
      } else {
        var n := end + termLen;
        FeedComplete(rest, end, termLen);
        assert data[idx + n..] == rest[n..];
        ScanIsFeed(rest[n..], limit);
        assert rest[|Prefix|..] == rest[|Prefix|..n] + rest[n..];
        FeedAppend(Prefix, rest[|Prefix|..n], rest[n..]);
      }
    }
  }

  lemma TailWithin(data: seq<byte>, tail: seq<byte>)
    requires IsTail(data, tail)
    ensures |tail| <= |data| - TailStart(data)
  {
  }

  lemma {:induction false} FrontClear(data: seq<byte>, idx: nat)
    requires IndexPrefix(data, 0) == idx
    ensures NoPrefix(data[..idx])
  {
    var front := data[..idx];
    forall k: nat ensures !PrefixAt(front, k) {
      if k + |Prefix| <= idx {
        assert data[k..k + |Prefix|] == front[k..k + |Prefix|];
        assert !PrefixAt(data, k);
      }
    }
  }

  lemma {:induction false} BeforePrefix(data: seq<byte>, idx: nat)
    requires IndexPrefix(data, 0) == idx
    ensures idx + |Prefix| <= |data|
    ensures Feed([], data) == Feed(Prefix, data[idx..][|Prefix|..])
  {
    hide Feed;
    hide IndexPrefix;
    hide NoPrefix;
    hide IsTail;
    var front, after := data[..idx], data[idx + |Prefix|..];
    FrontClear(data, idx);
    FeedTail(front);
    TailOutside(front, Feed([], front).partial);
    FeedPrefix(Feed([], front).partial);
    assert data[idx..][|Prefix|..] == after;
    assert data == (front + Prefix) + after;
    FeedAppend([], front, Prefix);
    FeedAppend([], front + Prefix, after);
  }

  lemma TailOutside(data: seq<byte>, tail: seq<byte>)
    requires IsTail(data, tail)
    ensures !Inside(tail)
  {
  }

  // ----- abandoning is losing -----

  function Total(results: seq<seq<byte>>): nat {
    if results == [] then 0 else |results[0]| + Total(results[1..])
  }

  lemma {:induction false} TotalAppend(a: seq<seq<byte>>, b: seq<seq<byte>>)
    ensures Total(a + b) == Total(a) + Total(b)
  {
    if a == [] {
      assert a + b == b;
    } else {
      assert (a + b)[0] == a[0] && (a + b)[1..] == a[1..] + b;
      TotalAppend(a[1..], b);
    }
  }

  /** Inside a sequence that the other machine missed the start of. */
  ghost predicate Longer(p: seq<byte>, q: seq<byte>) {
    && Inside(p) && |q| < |p| && q == p[|p| - |q|..]
    && (|q| <= |Prefix| ==> StartsPrefix(q))
  }

  /** How a machine that missed nothing stands to one that abandoned something. */
  ghost predicate Ahead(p: seq<byte>, q: seq<byte>) {
    p == q || Longer(p, q) || (!Inside(p) && q == [])
  }

  ghost predicate Behind(x: Scanned, y: Scanned) {
    Ahead(x.partial, y.partial) && Total(y.results) <= Total(x.results)
  }

  ghost predicate FarBehind(x: Scanned, y: Scanned) {
    Behind(x, y) && (Total(y.results) < Total(x.results) || Longer(x.partial, y.partial))
  }

  /** x followed by y */
  function Then(x: Scanned, y: Scanned): Scanned {
    Scanned(x.results + y.results, y.partial)
  }

  lemma {:induction false} ThenBehind(x: Scanned, y: Scanned, u: Scanned, v: Scanned)
    requires Behind(x, y) && Behind(u, v)
    requires Longer(x.partial, y.partial) ==> FarBehind(u, v)
    ensures Behind(Then(x, u), Then(y, v))
    ensures FarBehind(x, y) || FarBehind(u, v) ==> FarBehind(Then(x, u), Then(y, v))
  {
    hide Longer;
    hide Ahead;
    TotalAppend(x.results, u.results);
    TotalAppend(y.results, v.results);
  }

  lemma {:induction false} SameEnd(p: seq<byte>, q: seq<byte>, b: byte)
    requires Longer(p, q) && Inside(q)
    ensures Ends(q, b) <==> Ends(p, b)
  {
    assert q[|q| - 1] == p[|p| - 1];
    if |q| == |Prefix| {
      assert q[4] == 59;
    }
  }

  lemma {:induction false} LongerGrows(p: seq<byte>, q: seq<byte>, b: byte)
    requires Longer(p, q) && !Ends(p, b)
    ensures Step(q, b).results == [] && Longer(p + [b], Step(q, b).partial)
  {
    hide Ends;
    if Inside(q) {
      SameEnd(p, q, b);
    }
    var p1, q1 := p + [b], Step(q, b).partial;
    if q1 == q + [b] {
      assert p1[|p1| - |q1|..] == p[|p| - |q|..] + [b];
      if |q| < |Prefix| {
        assert q1 == Prefix[..|q|] + [Prefix[|q|]] == Prefix[..|q1|];
      }
    } else if q1 != [] {
      assert p1[|p1| - 1..] == q1;
    } else {
      assert p1[|p1|..] == q1;
    }
  }

  lemma {:induction false} LongerStep(p: seq<byte>, q: seq<byte>, b: byte)
    requires Longer(p, q)
    ensures FarBehind(Step(p, b), Step(q, b))
  {
    if !Ends(p, b) {
      LongerGrows(p, q, b);
    } else if Inside(q) {
      SameEnd(p, q, b);
      assert Total([p + [b]]) == |p| + 1 && Total([q + [b]]) == |q| + 1;
    } else {
      assert Step(q, b) == Scanned([], []);
      assert Total([p + [b]]) == |p| + 1;
    }
  }

  lemma {:induction false} AheadStep(p: seq<byte>, q: seq<byte>, b: byte)
    requires Ahead(p, q)
    ensures Behind(Step(p, b), Step(q, b))
    ensures Longer(p, q) ==> FarBehind(Step(p, b), Step(q, b))
  {
    if Longer(p, q) {
      LongerStep(p, q, b);
    } else if p != q {
      var p1 := Step(p, b).partial;
      assert p1[|p1|..] == [];
    }
  }

  lemma {:induction false} AheadFeed(p: seq<byte>, q: seq<byte>, data: seq<byte>)
    requires Ahead(p, q)
    ensures Behind(Feed(p, data), Feed(q, data))
    ensures Longer(p, q) ==> FarBehind(Feed(p, data), Feed(q, data))
    decreases |data|
  {
    hide Ahead;
    hide Longer;
    hide Step;
    if data != [] {
      var x, y := Step(p, data[0]), Step(q, data[0]);
      AheadStep(p, q, data[0]);
      AheadFeed(x.partial, y.partial, data[1..]);
      ThenBehind(x, y, Feed(x.partial, data[1..]), Feed(y.partial, data[1..]));
    }
  }

  lemma {:induction false} BehindTransitive(x: Scanned, y: Scanned, z: Scanned)
    requires Behind(x, y) && Behind(y, z)
    ensures Behind(x, z)
    ensures FarBehind(x, y) || FarBehind(y, z) ==> FarBehind(x, z)
  {
  }

  /** A guarded scan never finds more than the machine, and strictly less once it abandons a sequence. */
  lemma {:induction false} GuardedBehind(data: seq<byte>, limit: nat)
    ensures Behind(Feed([], data), ScanAll(data, limit))
    ensures !Untripped(data, limit) ==> FarBehind(Feed([], data), ScanAll(data, limit))
    decreases |data|
  {
    hide Feed;
    hide ScanAll;
    hide Step;
    hide Total;
    if Untripped(data, limit) {
      ScanIsFeed(data, limit);
    } else {
      var idx := IndexPrefix(data, 0);
      var after := data[idx + |Prefix|..];
      BeforePrefix(data, idx);
      assert data[idx..][|Prefix|..] == after;
      ScanAbandon(data, limit);
      GuardedBehind(after, limit);
      assert Prefix[|Prefix|..] == [];
      assert Longer(Prefix, []);
      AheadFeed(Prefix, [], after);
      BehindTransitive(Feed(Prefix, after), Feed([], after), ScanAll(after, limit));
    }
  }

  /** The guard changes what one scan yields exactly when it trips. */
  lemma {:induction false} GuardExact(data: seq<byte>, limit: nat)
    ensures ScanAll(data, limit) == ScanAll(data, |data|) <==> Untripped(data, limit)
  {
    ScanIsFeed(data, |data|);
    GuardedBehind(data, limit);
    if Untripped(data, limit) {
      ScanIsFeed(data, limit);
    }
  }

  /** What the guard is for: no more than `limit` bytes are ever carried. */
  lemma {:induction false} CarryBounded(data: seq<byte>, limit: nat)
    requires |Prefix| <= limit
    ensures |ScanAll(data, limit).partial| <= limit
    decreases |data|
  {
    hide ScanAll;
    hide FindEnd;
    var idx := IndexPrefix(data, 0);
    if idx < 0 {
      ScanNone(data, limit);
    } else if |data| - idx > limit {
      ScanAbandon(data, limit);
      CarryBounded(data[idx + |Prefix|..], limit);
    } else {
      var (end, termLen) := FindEnd(data[idx..]);
      ScanFound(data, limit, idx, end, termLen);
      if end >= 0 {
        CarryBounded(data[idx + end + termLen..], limit);
      }
    }
  }

  // ----- independence from read boundaries -----

  /** The scanner over successive reads, starting with `partial` carried. */
  function ScanReads(partial: seq<byte>, chunks: seq<seq<byte>>): Scanned
    decreases |chunks|
  {
    if chunks == [] then Scanned([], partial)
    else
      var now := ScanAll(partial + chunks[0], MaxSize);
      Then(now, ScanReads(now.partial, chunks[1..]))
  }

  /** No read trips the guard. */
  predicate NeverTrips(partial: seq<byte>, chunks: seq<seq<byte>>)
    decreases |chunks|
  {
    chunks != [] ==>
      && Untripped(partial + chunks[0], MaxSize)
      && NeverTrips(ScanAll(partial + chunks[0], MaxSize).partial, chunks[1..])
  }

  /** Carried bytes plus chunk never exceed the guard's size. */
  predicate WithinLimit(partial: seq<byte>, chunks: seq<seq<byte>>)
    decreases |chunks|
  {
    chunks != [] ==>
      && |partial| + |chunks[0]| <= MaxSize
      && WithinLimit(ScanAll(partial + chunks[0], MaxSize).partial, chunks[1..])
  }

  lemma {:induction false} WithinLimitNeverTrips(partial: seq<byte>, chunks: seq<seq<byte>>)
    requires WithinLimit(partial, chunks)
    ensures NeverTrips(partial, chunks)
    decreases |chunks|
  {
    if chunks != [] {
      WithinLimitNeverTrips(ScanAll(partial + chunks[0], MaxSize).partial, chunks[1..]);
    }
  }

  /** Bytes the scanner may carry: re-reading them leads back to carrying them. */
  ghost predicate Carried(partial: seq<byte>) {
    Feed([], partial) == Scanned([], partial)
  }

  lemma {:induction false} StepCarried(partial: seq<byte>, b: byte)
    requires Carried(partial)
    ensures Carried(Step(partial, b).partial)
  {
    FeedAppend([], partial, [b]);
    FeedOne(partial, b);
    FeedOne([], b);
  }

  lemma {:induction false} FeedCarried(partial: seq<byte>, data: seq<byte>)
    requires Carried(partial)
    ensures Carried(Feed(partial, data).partial)
    decreases |data|
  {
    if data != [] {
      StepCarried(partial, data[0]);
      FeedCarried(Step(partial, data[0]).partial, data[1..]);
    }
  }

  lemma {:induction false} FeedContinues(partial: seq<byte>, data: seq<byte>)
    requires Carried(partial)
    ensures Feed([], partial + data) == Feed(partial, data)
  {
    hide Feed;
    FeedAppend([], partial, data);
  }

  lemma FeedNone(partial: seq<byte>)
    ensures Feed(partial, []) == Scanned([], partial)
  {
  }

  lemma {:induction false} ScanCarried(data: seq<byte>, limit: nat)
    ensures Carried(ScanAll(data, limit).partial)
    decreases |data|
  {
    hide ScanAll;
    if Untripped(data, limit) {
      ScanIsFeed(data, limit);
      FeedCarried([], data);
    } else {
      ScanAbandon(data, limit);
      ScanCarried(data[IndexPrefix(data, 0) + |Prefix|..], limit);
    }
  }

  /** Reads that never trip the guard run the machine; reads that trip it fall behind for good. */
  lemma {:induction false} ReadsBehind(p: seq<byte>, q: seq<byte>, chunks: seq<seq<byte>>)
    requires Ahead(p, q) && Carried(q)
    ensures Behind(Feed(p, Concat(chunks)), ScanReads(q, chunks))
    ensures Longer(p, q) || !NeverTrips(q, chunks) ==> FarBehind(Feed(p, Concat(chunks)), ScanReads(q, chunks))
    decreases |chunks|
  {
    hide Ahead;
    hide Longer;
    hide ScanAll;
    hide Untripped;
    hide Feed;
    hide Carried;
    FeedNone(p);
    if chunks != [] {
      var c, rest := chunks[0], chunks[1..];
      var now := ScanAll(q + c, MaxSize);
      var x := Feed(p, c);
      FeedContinues(q, c);
      GuardedBehind(q + c, MaxSize);
      AheadFeed(p, q, c);
      BehindTransitive(x, Feed(q, c), now);
      ScanCarried(q + c, MaxSize);
      ReadsBehind(x.partial, now.partial, rest);
      FeedAppend(p, c, Concat(rest));
      ThenBehind(x, now, Feed(x.partial, Concat(rest)), ScanReads(now.partial, rest));
    }
  }

  lemma {:induction false} ReadsAreFeed(partial: seq<byte>, chunks: seq<seq<byte>>)
    requires Carried(partial) && NeverTrips(partial, chunks)
    ensures ScanReads(partial, chunks) == Feed(partial, Concat(chunks))
    decreases |chunks|
  {
    hide Feed;
    hide ScanAll;
    hide Untripped;
    hide Carried;
    FeedNone(partial);
    if chunks != [] {
      ScanIsFeed(partial + chunks[0], MaxSize);
      FeedContinues(partial, chunks[0]);
      FeedCarried(partial, chunks[0]);
      ReadsAreFeed(Feed(partial, chunks[0]).partial, chunks[1..]);
      FeedAppend(partial, chunks[0], Concat(chunks[1..]));
    }
  }

  /**
   * However a stream is cut into reads, the scanner finds what one unguarded
   * scan of the whole stream finds, and carries the same bytes at the end,
   * exactly when no read trips the guard.
   */
  lemma {:induction false} CutsDoNotMatter(chunks: seq<seq<byte>>)
    ensures ScanReads([], chunks) == ScanAll(Concat(chunks), |Concat(chunks)|) <==> NeverTrips([], chunks)
  {
    var whole := Concat(chunks);
    ScanIsFeed(whole, |whole|);
    ReadsBehind([], [], chunks);
    if NeverTrips([], chunks) {
      ReadsAreFeed([], chunks);
    }
  }

  /** In particular for reads that stay within the size limit. */
  lemma {:induction false} CutsWithinLimit(chunks: seq<seq<byte>>)
    requires WithinLimit([], chunks)
    ensures ScanReads([], chunks) == ScanAll(Concat(chunks), |Concat(chunks)|)
  {
    WithinLimitNeverTrips([], chunks);
    CutsDoNotMatter(chunks);
  }

  /** The guard counts everything read after a sequence begins: one big read can lose a short, complete sequence. */
  lemma {:induction false} BigReadLoses()
    ensures var sequence, filler := Prefix + [Bel], seq(MaxSize, _ => 0 as byte);
      ScanReads([], [sequence + filler]) != ScanAll(sequence + filler, |sequence + filler|)
  {
    var sequence, filler := Prefix + [Bel], seq(MaxSize, _ => 0 as byte);
    var data := sequence + filler;
    var chunks := [data];
    assert data[0..|Prefix|] == Prefix;
    assert PrefixAt(data, 0);
    assert chunks[1..] == [] && [] + data == data;
    assert !NeverTrips([], chunks);
    assert Concat(chunks) == data + [] == data;
    CutsDoNotMatter(chunks);
  }

  // ----- a sequence amid plain output is found -----

  lemma {:induction false} FeedText(text: seq<byte>)
    requires Esc !in text
    ensures Feed([], text) == Scanned([], [])
  {
    if text != [] {
      FeedText(text[1..]);
    }
  }

  /** A clipboard sequence with the given payload, ended by BEL or by ESC \. */
  function Sequence(payload: seq<byte>, bel: bool): seq<byte> {
    Prefix + payload + (if bel then [Bel] else [Esc, Backslash])
  }

  lemma {:induction false} FeedSequence(payload: seq<byte>, bel: bool)
    requires Esc !in payload && Bel !in payload
    ensures Feed(Prefix, payload + (if bel then [Bel] else [Esc, Backslash])) == Scanned([Sequence(payload, bel)], [])
  {
    hide Feed;
    var body := Prefix + payload;
    var shown := if bel then body else body + [Esc];
    forall k: nat | |Prefix| <= k ensures !StopAt(shown, k) {
      assert |Prefix| <= k < |body| ==> shown[k] == payload[k - |Prefix|];
    }
    var last := if bel then Bel else Backslash;
    assert shown[..|shown|] == shown && shown[..|Prefix|] == Prefix;
    FeedInside(shown, |Prefix|, |shown|);
    FeedAppend(Prefix, shown[|Prefix|..], [last]);
    FeedOne(shown, last);
    assert shown[|Prefix|..|shown|] == shown[|Prefix|..];
    assert shown[|Prefix|..] + [last] == payload + (if bel then [Bel] else [Esc, Backslash]);
    assert shown + [last] == Sequence(payload, bel);
  }

  /** Whatever follows, a sequence after plain output is reported, and scanning goes on after it. */
  lemma {:induction false} SequenceFound(text: seq<byte>, payload: seq<byte>, bel: bool, more: seq<byte>)
    requires Esc !in text && Esc !in payload && Bel !in payload
    ensures
      var data := text + Sequence(payload, bel) + more;
      var rest := ScanAll(more, |more|);
      ScanAll(data, |data|) == Scanned([Sequence(payload, bel)] + rest.results, rest.partial)
  {
    hide Feed;
    hide ScanAll;
    var tail := payload + (if bel then [Bel] else [Esc, Backslash]);
    var data := text + Sequence(payload, bel) + more;
    ScanIsFeed(data, |data|);
    ScanIsFeed(more, |more|);
    assert data == text + (Prefix + (tail + more));
    FeedText(text);
    FeedAppend([], text, Prefix + (tail + more));
    FeedPrefix([]);
    FeedAppend([], Prefix, tail + more);
    FeedSequence(payload, bel);
    FeedAppend(Prefix, tail, more);
  }
}
