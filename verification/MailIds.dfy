/**
 * Message identifiers: how sequence numbers are written and read back, and the
 * string order that lists are sorted by.
 */
module MailIds {
  import opened Common

  const Uint64Max: nat := 0xffff_ffff_ffff_ffff

  type Id = string

  // ----- decimal numbers -----

  predicate IsDigit(c: char) {
    '0' <= c <= '9'
  }

  function DigitValue(c: char): nat {
    if IsDigit(c) then c as int - '0' as int else 0
  }

  function Written(ds: seq<nat>): string
    requires AreDigits(ds)
  {
    seq(|ds|, i requires 0 <= i < |ds| => ('0' as int + ds[i]) as char)
  }

  /** The digits of a number with leading zeros up to six. */
  function SixDigits(n: nat): (ds: seq<nat>)
    ensures ds != [] && AreDigits(ds)
  {
    var ds := Digits(n);
    if |ds| < 6 then Zeros(6 - |ds|) + ds else ds
  }

  function Padded(n: nat): string {
    Written(SixDigits(n))
  }

  predicate AllDigits(s: string) {
    forall i :: 0 <= i < |s| ==> IsDigit(s[i])
  }

  function Value(s: string): nat {
    Number(seq(|s|, i requires 0 <= i < |s| => DigitValue(s[i])))
  }

  const Tag: string := "msg-"

  function FormatId(seqNo: nat): Id {
    Tag + Padded(seqNo)
  }

  /** The sequence number an identifier spells, if it has the tag and a 64-bit number after it. */
  function ParseSeq(id: Id): Option<nat> {
    if |id| < |Tag| || id[..|Tag|] != Tag then None
    else
      var rest := id[|Tag|..];
      if rest == [] || !AllDigits(rest) || Value(rest) > Uint64Max then None else Some(Value(rest))
  }

  lemma {:induction false} WrittenReads(ds: seq<nat>)
    requires AreDigits(ds)
    ensures |Written(ds)| == |ds| && AllDigits(Written(ds)) && Value(Written(ds)) == Number(ds)
  {
    var s := Written(ds);
    assert seq(|s|, i requires 0 <= i < |s| => DigitValue(s[i])) == ds;
  }

  lemma {:induction false} PaddedReads(n: nat)
    ensures Padded(n) != [] && AllDigits(Padded(n)) && Value(Padded(n)) == n
  {
    hide Number;
    hide Digits;
    hide Written;
    hide Value;
    var ds := Digits(n);
    NumberOfDigits(n);
    NumberAfterZeros(if |ds| < 6 then 6 - |ds| else 0, ds);
    WrittenReads(SixDigits(n));
  }

  /** Reading an identifier gives back its number, so identifiers of different numbers differ. */
  lemma {:induction false} FormatParses(n: nat)
    requires n <= Uint64Max
    ensures ParseSeq(FormatId(n)) == Some(n)
  {
    PaddedReads(n);
    assert FormatId(n)[|Tag|..] == Padded(n);
  }

  lemma {:induction false} FormatInjective(m: nat, n: nat)
    requires FormatId(m) == FormatId(n)
    ensures m == n
  {
    PaddedReads(m);
    PaddedReads(n);
    assert FormatId(m)[|Tag|..] == Padded(m) && FormatId(n)[|Tag|..] == Padded(n);
  }

  // ----- string order -----

  predicate Less(a: string, b: string) {
    if b == [] then false
    else if a == [] then true
    else a[0] < b[0] || (a[0] == b[0] && Less(a[1..], b[1..]))
  }

  lemma {:induction false} LessIrreflexive(a: string)
    ensures !Less(a, a)
  {
    if a != [] {
      LessIrreflexive(a[1..]);
    }
  }

  lemma {:induction false} LessTransitive(a: string, b: string, c: string)
    requires Less(a, b) && Less(b, c)
    ensures Less(a, c)
  {
    if a != [] && a[0] == b[0] && b[0] == c[0] {
      LessTransitive(a[1..], b[1..], c[1..]);
    }
  }

  lemma {:induction false} LessTotal(a: string, b: string)
    ensures Less(a, b) || Less(b, a) || a == b
  {
    if a != [] && b != [] && a[0] == b[0] {
      LessTotal(a[1..], b[1..]);
      assert a == [a[0]] + a[1..] && b == [b[0]] + b[1..];
    }
  }

  // ----- sorted lists -----

  ghost predicate Ascending(ids: seq<Id>) {
    forall i, j :: 0 <= i < j < |ids| ==> Less(ids[i], ids[j])
  }

  predicate IsLeast(x: Id, ids: set<Id>) {
    x in ids && forall y :: y in ids && y != x ==> Less(x, y)
  }

  lemma {:induction false} LeastExists(ids: set<Id>)
    requires ids != {}
    ensures exists x :: IsLeast(x, ids)
  {
    var a :| a in ids;
    if ids == {a} {
      assert IsLeast(a, ids);
    } else {
      var rest := ids - {a};
      LeastExists(rest);
      var b :| IsLeast(b, rest);
      LessTotal(a, b);
      if Less(a, b) {
        forall y | y in ids && y != a ensures Less(a, y) {
          if y != b {
            LessTransitive(a, b, y);
          }
        }
        assert IsLeast(a, ids);
      } else {
        assert IsLeast(b, ids);
      }
    }
  }

  lemma LeastUnique(ids: set<Id>, x: Id, y: Id)
    requires IsLeast(x, ids) && IsLeast(y, ids)
    ensures x == y
  {
    if x != y {
      LessTransitive(x, y, x);
      LessIrreflexive(x);
    }
  }

  function Least(ids: set<Id>): (x: Id)
    requires ids != {}
    ensures IsLeast(x, ids)
  {
    LeastExists(ids);
    assert forall x, y :: IsLeast(x, ids) && IsLeast(y, ids) ==> x == y by {
      forall x, y | IsLeast(x, ids) && IsLeast(y, ids) ensures x == y {
        LeastUnique(ids, x, y);
      }
    }
    var x :| IsLeast(x, ids);
    x
  }

  /** What sorting a set of identifiers gives. */
  function Sorted(ids: set<Id>): (r: seq<Id>)
    ensures Ascending(r) && (forall x :: x in r <==> x in ids) && |r| == |ids|
  {
    if ids == {} then []
    else
      var x := Least(ids);
      [x] + Sorted(ids - {x})
  }

  /** There is only one ascending list of a set. */
  lemma {:induction false} SortedUnique(r: seq<Id>, ids: set<Id>)
    requires Ascending(r) && forall x :: x in r <==> x in ids
    ensures r == Sorted(ids)
    decreases |r|
  {
    if r == [] {
      assert ids == {};
    } else {
      assert r[0] in r && r[0] in ids;
      var x := Least(ids);
      assert x in r;
      var k :| 0 <= k < |r| && r[k] == x;
      if k > 0 {
        LessTransitive(x, r[0], x);
        LessIrreflexive(x);
      }
      assert r == [x] + r[1..];
      forall y ensures y in r[1..] <==> y in ids - {x} {
        if y in r[1..] {
          var j :| 0 <= j < |r[1..]| && r[1..][j] == y;
          assert Less(r[0], r[j + 1]);
          LessIrreflexive(x);
        }
      }
      SortedUnique(r[1..], ids - {x});
    }
  }

  /** Ascending, repeats allowed. */
  ghost predicate NotDescending(r: seq<Id>) {
    forall i, j :: 0 <= i < j < |r| ==> !Less(r[j], r[i])
  }

  function Members(m: multiset<Id>): (ids: set<Id>)
    ensures m != multiset{} ==> ids != {}
    ensures forall y :: y in ids <==> y in m
  {
    var ids := set y | y in m;
    assert m != multiset{} ==> ids != {} by {
      if m != multiset{} {
        var y :| y in m;
        assert y in ids;
      }
    }
    ids
  }

  /** What sorting a list of identifiers gives, repeats included. */
  function SortedAll(m: multiset<Id>): (r: seq<Id>)
    ensures NotDescending(r) && multiset(r) == m
    decreases |m|
  {
    if m == multiset{} then []
    else
      var x := Least(Members(m));
      var rest := SortedAll(m - multiset{x});
      LeastFirst(x, m, rest);
      [x] + rest
  }

  lemma LeastFirst(x: Id, m: multiset<Id>, rest: seq<Id>)
    requires IsLeast(x, Members(m)) && multiset(rest) == m - multiset{x} && NotDescending(rest)
    ensures NotDescending([x] + rest) && multiset([x] + rest) == m
  {
    LessIrreflexive(x);
    forall j | 0 <= j < |rest| ensures !Less(rest[j], x) {
      assert rest[j] in multiset(rest);
      if Less(rest[j], x) {
        LessTransitive(x, rest[j], x);
      }
    }
  }

  /** There is only one way to sort a list, repeats included. */
  lemma {:induction false} SortedAllUnique(r: seq<Id>, m: multiset<Id>)
    requires NotDescending(r) && multiset(r) == m
    ensures r == SortedAll(m)
    decreases |r|
  {
    if r != [] {
      var x := Least(Members(m));
      assert x in multiset(r);
      var k :| 0 <= k < |r| && r[k] == x;
      assert r[0] in multiset(r);
      assert r[0] == x;
      assert r == [x] + r[1..];
      assert multiset(r[1..]) == m - multiset{x};
      SortedAllUnique(r[1..], m - multiset{x});
    }
  }
}
