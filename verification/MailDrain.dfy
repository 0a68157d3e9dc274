/**
 * What a pane is told about its mailbox: the list of deliveries, and the drain
 * summary with its counts, its newest pending messages and its fingerprint.
 */
module MailDrain {
  import opened Common
  import opened MailIds
  import opened MailStore

  datatype Summary = Summary(
    messageId: Id, threadId: Id, inReplyTo: Id, sender: Address, subject: string,
    topics: seq<string>, groups: seq<string>, createdAt: Time, bodySize: nat, partCount: nat,
    delivery: Delivery
  )

  function SummaryFor(m: Message, d: Delivery): Summary {
    Summary(m.id, m.threadId, m.inReplyTo, m.content.sender, m.content.subject, m.content.topics, m.content.groups,
            m.content.createdAt, BodySize(m.content.parts), |m.content.parts|, d)
  }

  // ----- newest first -----

  predicate Newer(a: Summary, b: Summary) {
    if a.delivery.deliveredAt != b.delivery.deliveredAt then a.delivery.deliveredAt > b.delivery.deliveredAt
    else Less(b.messageId, a.messageId)
  }

  lemma NewerTransitive(a: Summary, b: Summary, c: Summary)
    requires Newer(a, b) && Newer(b, c)
    ensures Newer(a, c)
  {
    if a.delivery.deliveredAt == b.delivery.deliveredAt == c.delivery.deliveredAt {
      LessTransitive(c.messageId, b.messageId, a.messageId);
    }
  }

  lemma NewerTotal(a: Summary, b: Summary)
    requires a.messageId != b.messageId
    ensures Newer(a, b) || Newer(b, a)
  {
    LessTotal(a.messageId, b.messageId);
  }

  ghost predicate NewestFirst(list: seq<Summary>) {
    forall i, j :: 0 <= i < j < |list| ==> Newer(list[i], list[j])
  }

  /** Where a summary belongs in a list: before the first one it is newer than. */
  function Rank(list: seq<Summary>, s: Summary): (i: nat)
    ensures i <= |list| && (i < |list| ==> Newer(s, list[i]))
    ensures forall k :: 0 <= k < i ==> !Newer(s, list[k])
  {
    if list == [] then 0
    else if Newer(s, list[0]) then 0
    else 1 + Rank(list[1..], s)
  }

  function Insert(list: seq<Summary>, s: Summary): seq<Summary> {
    Splice(list, Rank(list, s), s)
  }

  function FirstOf(list: seq<Summary>, limit: nat): seq<Summary> {
    if |list| <= limit then list else list[..limit]
  }

  /** Sorting by repeated insertion. */
  function Newest(ss: seq<Summary>): seq<Summary> {
    if ss == [] then [] else Insert(Newest(ss[..|ss| - 1]), ss[|ss| - 1])
  }

  ghost predicate DistinctIds(ss: seq<Summary>) {
    forall i, j :: 0 <= i < j < |ss| ==> ss[i].messageId != ss[j].messageId
  }

  lemma {:induction false} RankSplits(list: seq<Summary>, s: Summary, i: nat)
    requires NewestFirst(list) && i < |list| && list[i].messageId != s.messageId
    ensures if i < Rank(list, s) then Newer(list[i], s) else Newer(s, list[i])
  {
    hide Newer;
    NewerTotal(list[i], s);
    var k := Rank(list, s);
    if i > k {
      NewerTransitive(s, list[k], list[i]);
    }
  }

  lemma {:induction false} SplicedSorted(list: seq<Summary>, s: Summary, k: nat)
    requires NewestFirst(list) && k <= |list|
    requires forall i :: 0 <= i < |list| ==> if i < k then Newer(list[i], s) else Newer(s, list[i])
    ensures NewestFirst(Splice(list, k, s))
  {
    hide Newer;
    var out := Splice(list, k, s);
    forall i, j | 0 <= i < j < |out| ensures Newer(out[i], out[j]) {
      var a, b := if i < k then i else i - 1, if j < k then j else j - 1;
      assert i != k ==> out[i] == list[a];
      assert j != k ==> out[j] == list[b];
    }
  }

  lemma {:induction false} InsertSorts(list: seq<Summary>, s: Summary)
    requires NewestFirst(list) && forall i :: 0 <= i < |list| ==> list[i].messageId != s.messageId
    ensures NewestFirst(Insert(list, s)) && multiset(Insert(list, s)) == multiset(list) + multiset{s}
  {
    hide Newer;
    hide NewestFirst;
    hide Rank;
    var k := Rank(list, s);
    forall i | 0 <= i < |list| ensures if i < k then Newer(list[i], s) else Newer(s, list[i]) {
      RankSplits(list, s, i);
    }
    SplicedSorted(list, s, k);
    assert list == list[..k] + list[k..];
  }

  /** Newest sorts: it is a rearrangement with the newest first. */
  lemma {:induction false} NewestSorts(ss: seq<Summary>)
    requires DistinctIds(ss)
    ensures NewestFirst(Newest(ss)) && multiset(Newest(ss)) == multiset(ss)
  {
    hide Insert;
    hide NewestFirst;
    if ss == [] {
      NoneNewest();
    } else {
      var n := |ss| - 1;
      NewestSorts(ss[..n]);
      NotAmong(Newest(ss[..n]), ss[..n], ss[n]);
      InsertSorts(Newest(ss[..n]), ss[n]);
      assert ss == ss[..n] + [ss[n]];
    }
  }

  lemma NoneNewest()
    ensures NewestFirst([])
  {
  }

  lemma {:induction false} NotAmong(list: seq<Summary>, ss: seq<Summary>, s: Summary)
    requires multiset(list) == multiset(ss) && forall i :: 0 <= i < |ss| ==> ss[i].messageId != s.messageId
    ensures forall i :: 0 <= i < |list| ==> list[i].messageId != s.messageId
  {
    forall i | 0 <= i < |list| ensures list[i].messageId != s.messageId {
      assert list[i] in multiset(ss);
    }
  }

  lemma {:induction false} RankOfFirst(list: seq<Summary>, s: Summary, limit: nat)
    ensures Rank(FirstOf(list, limit), s) == if Rank(list, s) <= limit then Rank(list, s) else limit
  {
    var short := FirstOf(list, limit);
    var k, r := Rank(list, s), Rank(short, s);
    if r < |short| {
      assert Newer(s, list[r]);
    }
    if k < |short| {
      assert Newer(s, short[k]);
    }
  }

  function Splice<T>(list: seq<T>, k: nat, s: T): seq<T>
    requires k <= |list|
  {
    list[..k] + [s] + list[k..]
  }

  lemma SpliceFirst<T>(list: seq<T>, k: nat, s: T, limit: nat)
    requires k <= |list| && k <= limit <= |list|
    ensures Splice(list[..limit], k, s)[..limit] == Splice(list, k, s)[..limit]
  {
    assert list[..limit][..k] == list[..k];
    assert list[..limit][k..] == list[k..limit];
    assert list[k..] == list[k..limit] + list[limit..];
  }

  /** Keeping only the first entries at every insertion loses none of the first entries of all. */
  lemma {:induction false} FirstOfInsert(list: seq<Summary>, s: Summary, limit: nat)
    ensures FirstOf(Insert(FirstOf(list, limit), s), limit) == FirstOf(Insert(list, s), limit)
  {
    hide Rank;
    hide Newer;
    RankOfFirst(list, s, limit);
    var k := Rank(list, s);
    if limit < |list| {
      if k <= limit {
        SpliceFirst(list, k, s, limit);
      } else {
        assert Splice(list, k, s)[..limit] == list[..limit];
        assert Splice(list[..limit], limit, s)[..limit] == list[..limit];
      }
    }
  }

  /** The insertion point by binary search, then insertion into a bounded list. */
  method InsertDrainLatest(latest: seq<Summary>, s: Summary, limit: nat) returns (out: seq<Summary>)
    requires NewestFirst(latest) && |latest| <= limit
    ensures out == FirstOf(Insert(latest, s), limit)
  {
    var lo, hi := 0, |latest|;
    while lo < hi
      invariant 0 <= lo <= hi <= |latest|
      invariant forall k :: 0 <= k < lo ==> !Newer(s, latest[k])
      invariant hi < |latest| ==> Newer(s, latest[hi])
    {
      var mid := (lo + hi) / 2;
      if !Newer(s, latest[mid]) {
        forall k | 0 <= k < mid ensures !Newer(s, latest[k]) {
          if Newer(s, latest[k]) {
            NewerTransitive(s, latest[k], latest[mid]);
          }
        }
        lo := mid + 1;
      } else {
        hi := mid;
      }
    }
    ghost var r := Rank(latest, s);
    assert r == lo;
    if lo == |latest| && |latest| >= limit {
      assert Insert(latest, s)[..limit] == latest;
      return latest;
    }
    out := latest[..lo] + [s] + latest[lo..];
    if |out| > limit {
      out := out[..limit];
    }
  }

  // ----- lists and the drain summary -----

  predicate Unread(d: Delivery) { d.readAt == 0 }
  predicate Unacked(d: Delivery) { d.ackedAt == 0 }

  type Mail = map<Id, Delivery>

  function UnreadIds(box: Mail): set<Id> { set id | id in box && Unread(box[id]) }
  function UnackedIds(box: Mail): set<Id> { set id | id in box && Unacked(box[id]) }
  function PendingIds(box: Mail): set<Id> { set id | id in box && (Unread(box[id]) || Unacked(box[id])) }
  function UntouchedIds(box: Mail): set<Id> { set id | id in box && Unread(box[id]) && Unacked(box[id]) }

  function Summaries(messages: map<Id, Message>, box: Mail, ids: seq<Id>): seq<Summary>
    requires forall i :: 0 <= i < |ids| ==> ids[i] in messages && ids[i] in box
  {
    seq(|ids|, i requires 0 <= i < |ids| => SummaryFor(messages[ids[i]], box[ids[i]]))
  }

  /** Every delivery is of a stored message. */
  predicate BoxOk(messages: map<Id, Message>, box: Mail) {
    forall id :: id in box ==> id in messages && messages[id].id == id
  }

  method SummarizeAll(messages: map<Id, Message>, box: Mail, ids: seq<Id>) returns (r: seq<Summary>)
    requires forall i :: 0 <= i < |ids| ==> ids[i] in messages && ids[i] in box
    ensures r == Summaries(messages, box, ids)
  {
    hide SummaryFor;
    r := [];
    for i := 0 to |ids|
      invariant r == Summaries(messages, box, ids)[..i]
    {
      r := r + [SummaryFor(messages[ids[i]], box[ids[i]])];
    }
  }

  /** The identifiers a list shows. */
  function Listed(box: Mail, unreadOnly: bool): set<Id> {
    if unreadOnly then UntouchedIds(box) else box.Keys
  }

  method CollectIds(box: Mail, unreadOnly: bool) returns (ids: set<Id>)
    ensures ids == Listed(box, unreadOnly)
  {
    var todo := box.Keys;
    ids := {};
    while todo != {}
      invariant todo <= box.Keys
      invariant ids == set id | id in box && id !in todo && (!unreadOnly || (Unread(box[id]) && Unacked(box[id])))
    {
      var id :| id in todo;
      todo := todo - {id};
      if !unreadOnly || (box[id].readAt == 0 && box[id].ackedAt == 0) {
        ids := ids + {id};
      }
    }
  }

  lemma SortedStored(messages: map<Id, Message>, box: Mail, ids: set<Id>)
    requires BoxOk(messages, box) && ids <= box.Keys
    ensures var sorted := Sorted(ids); forall i :: 0 <= i < |sorted| ==> sorted[i] in messages && sorted[i] in box
  {
    var sorted := Sorted(ids);
    forall i | 0 <= i < |sorted| ensures sorted[i] in messages && sorted[i] in box {
      assert sorted[i] in sorted;
    }
  }

  /** What a list of a mailbox shows: all deliveries, or those neither read nor acknowledged, by identifier. */
  function ListOf(messages: map<Id, Message>, box: Mail, unreadOnly: bool): seq<Summary>
    requires BoxOk(messages, box)
  {
    SortedStored(messages, box, Listed(box, unreadOnly));
    Summaries(messages, box, Sorted(Listed(box, unreadOnly)))
  }

  method List(messages: map<Id, Message>, box: Mail, unreadOnly: bool) returns (r: seq<Summary>)
    requires BoxOk(messages, box)
    ensures r == ListOf(messages, box, unreadOnly)
  {
    hide Sorted;
    var ids := CollectIds(box, unreadOnly);
    SortedStored(messages, box, ids);
    r := SummarizeAll(messages, box, Sorted(ids));
  }

  datatype Status = Status(unread: nat, unacked: nat, pending: nat, pendingIds: seq<Id>, latest: seq<Summary>, hashed: Option<string>)

  const DefaultLatest: nat := 5

  /** What the summary should say, from the mailbox and its sorted lists. */
  function StatusOf(messages: map<Id, Message>, box: Mail, limit: int): Status
    requires BoxOk(messages, box)
  {
    var ids := Sorted(PendingIds(box));
    SortedStored(messages, box, PendingIds(box));
    Status(|UnreadIds(box)|, |UnackedIds(box)|, |PendingIds(box)|, ids,
           LatestOf(messages, box, ids, if limit <= 0 then DefaultLatest else limit),
           if ids == [] then None else Some(Preimage(Flags(box, ids))))
  }

  /** Deliveries neither read nor acknowledged are counted twice among the pending, and just they are. */
  lemma {:induction false} CountsAddUp(messages: map<Id, Message>, box: Mail, limit: int)
    requires BoxOk(messages, box)
    ensures var s := StatusOf(messages, box, limit);
      s.unread + s.unacked - s.pending == |ListOf(messages, box, true)|
  {
    assert UnreadIds(box) + UnackedIds(box) == PendingIds(box);
    assert UnreadIds(box) * UnackedIds(box) == UntouchedIds(box);
  }

  // ----- fingerprint -----

  datatype Entry = Entry(id: Id, unread: bool, unacked: bool)

  function Flags(box: Mail, ids: seq<Id>): seq<Entry>
    requires forall i :: 0 <= i < |ids| ==> ids[i] in box
  {
    seq(|ids|, i requires 0 <= i < |ids| => Entry(ids[i], Unread(box[ids[i]]), Unacked(box[ids[i]])))
  }

  function BoolText(b: bool): string { if b then "true" else "false" }

  function EntryText(e: Entry): string {
    e.id + ['\0'] + (BoolText(e.unread) + ['\0'] + (BoolText(e.unacked) + ['\n']))
  }

  /** The text that is hashed for the fingerprint. */
  function Preimage(entries: seq<Entry>): string {
    if entries == [] then [] else EntryText(entries[0]) + Preimage(entries[1..])
  }

  lemma {:induction false} SplitUnique(x: string, u: string, y: string, v: string, sep: char)
    requires sep !in x && sep !in y && x + [sep] + u == y + [sep] + v
    ensures x == y && u == v
  {
    var a, b := x + [sep] + u, y + [sep] + v;
    assert a[|x|] == sep && b[|y|] == sep;
    assert a[..|x|] == x && b[..|y|] == y;
    assert a[|x| + 1..] == u && b[|y| + 1..] == v;
  }

  lemma {:induction false} BoolTextUnique(a: bool, u: string, b: bool, v: string, sep: char)
    requires (sep == '\0' || sep == '\n') && BoolText(a) + [sep] + u == BoolText(b) + [sep] + v
    ensures a == b && u == v
  {
    SplitUnique(BoolText(a), u, BoolText(b), v, sep);
    assert BoolText(true)[0] == 't' && BoolText(false)[0] == 'f';
  }

  lemma {:induction false} EntryUnique(a: Entry, u: string, b: Entry, v: string)
    requires '\0' !in a.id && '\0' !in b.id && EntryText(a) + u == EntryText(b) + v
    ensures a == b && u == v
  {
    hide BoolText;
    var a2, b2 := BoolText(a.unacked) + ['\n'] + u, BoolText(b.unacked) + ['\n'] + v;
    var a1, b1 := BoolText(a.unread) + ['\0'] + a2, BoolText(b.unread) + ['\0'] + b2;
    assert EntryText(a) + u == a.id + ['\0'] + a1;
    assert EntryText(b) + v == b.id + ['\0'] + b1;
    SplitUnique(a.id, a1, b.id, b1, '\0');
    BoolTextUnique(a.unread, a2, b.unread, b2, '\0');
    BoolTextUnique(a.unacked, u, b.unacked, v, '\n');
  }

  /** The hashed text determines identifiers and flags, for identifiers without NUL. */
  lemma {:induction false} PreimageUnique(a: seq<Entry>, b: seq<Entry>)
    requires (forall i :: 0 <= i < |a| ==> '\0' !in a[i].id) && (forall i :: 0 <= i < |b| ==> '\0' !in b[i].id)
    requires Preimage(a) == Preimage(b)
    ensures a == b
    decreases |a|
  {
    PreimageNonEmpty(a);
    PreimageNonEmpty(b);
    if a != [] && b != [] {
      EntryUnique(a[0], Preimage(a[1..]), b[0], Preimage(b[1..]));
      PreimageUnique(a[1..], b[1..]);
      assert a == [a[0]] + a[1..] && b == [b[0]] + b[1..];
    }
  }

  lemma PreimageNonEmpty(entries: seq<Entry>)
    ensures entries != [] ==> Preimage(entries) != []
  {
  }

  // ----- the drain loop -----

  /** The identifiers of a list that are pending, in order. */
  function PendingOf(box: Mail, ids: seq<Id>): seq<Id>
    requires forall i :: 0 <= i < |ids| ==> ids[i] in box
  {
    if ids == [] then []
    else
      var id := ids[|ids| - 1];
      PendingOf(box, ids[..|ids| - 1]) + if Unread(box[id]) || Unacked(box[id]) then [id] else []
  }

  /** How many of the listed identifiers are in a set. */
  function CountIn(ids: seq<Id>, among: set<Id>): nat {
    if ids == [] then 0 else CountIn(ids[..|ids| - 1], among) + if ids[|ids| - 1] in among then 1 else 0
  }

  lemma AscendingNoRepeats(ids: seq<Id>)
    requires Ascending(ids)
    ensures NoRepeats(ids)
  {
    forall i, j | 0 <= i < j < |ids| ensures ids[i] != ids[j] {
      LessIrreflexive(ids[i]);
    }
  }

  lemma {:induction false} CountIs(ids: seq<Id>, among: set<Id>)
    requires NoRepeats(ids)
    ensures CountIn(ids, among) == |set id | id in ids && id in among|
  {
    if ids != [] {
      var n := |ids| - 1;
      var front, id := ids[..n], ids[n];
      CountIs(front, among);
      CountSnoc(front, id, among);
      assert ids == front + [id] && id !in front;
    }
  }

  lemma CountSnoc(front: seq<Id>, id: Id, among: set<Id>)
    requires id !in front
    ensures |set x | x in front + [id] && x in among| == |set x | x in front && x in among| + if id in among then 1 else 0
  {
    var a, b := set x | x in front && x in among, set x | x in front + [id] && x in among;
    assert b == if id in among then a + {id} else a;
  }

  lemma {:induction false} PendingOfSorted(box: Mail, ids: seq<Id>)
    requires Ascending(ids) && forall i :: 0 <= i < |ids| ==> ids[i] in box
    ensures Ascending(PendingOf(box, ids))
    ensures forall x :: x in PendingOf(box, ids) <==> x in ids && (Unread(box[x]) || Unacked(box[x]))
  {
    if ids != [] {
      var n := |ids| - 1;
      var front, id := ids[..n], ids[n];
      PendingOfSorted(box, front);
      assert forall x :: x in ids <==> x in front || x == id;
      var p := PendingOf(box, front);
      forall i | 0 <= i < |p| ensures Less(p[i], id) {
        assert p[i] in p;
        var k :| 0 <= k < n && ids[k] == p[i];
      }
    }
  }

  lemma {:induction false} PendingOfAll(box: Mail)
    ensures var ids := Sorted(box.Keys);
      && (forall i :: 0 <= i < |ids| ==> ids[i] in box)
      && PendingOf(box, ids) == Sorted(PendingIds(box))
      && CountIn(ids, UnreadIds(box)) == |UnreadIds(box)| && CountIn(ids, UnackedIds(box)) == |UnackedIds(box)|
  {
    hide Sorted;
    var ids := Sorted(box.Keys);
    assert forall i :: 0 <= i < |ids| ==> ids[i] in ids;
    PendingOfSorted(box, ids);
    SortedUnique(PendingOf(box, ids), PendingIds(box));
    AscendingNoRepeats(ids);
    CountIs(ids, UnreadIds(box));
    CountIs(ids, UnackedIds(box));
    assert (set id | id in ids && id in UnreadIds(box)) == UnreadIds(box);
    assert (set id | id in ids && id in UnackedIds(box)) == UnackedIds(box);
  }

  lemma {:induction false} SummariesSnoc(messages: map<Id, Message>, box: Mail, ids: seq<Id>, id: Id)
    requires forall i :: 0 <= i < |ids| ==> ids[i] in messages && ids[i] in box
    requires id in messages && id in box
    ensures Newest(Summaries(messages, box, ids + [id])) == Insert(Newest(Summaries(messages, box, ids)), SummaryFor(messages[id], box[id]))
  {
    hide SummaryFor;
    hide Insert;
    var all := Summaries(messages, box, ids + [id]);
    assert all[..|ids|] == Summaries(messages, box, ids);
    assert all[|ids|] == SummaryFor(messages[id], box[id]);
  }

  lemma {:induction false} FirstStaysSorted(messages: map<Id, Message>, box: Mail, ids: seq<Id>, limit: nat)
    requires BoxOk(messages, box) && NoRepeats(ids) && forall i :: 0 <= i < |ids| ==> ids[i] in messages && ids[i] in box
    ensures NewestFirst(FirstOf(Newest(Summaries(messages, box, ids)), limit))
  {
    hide Newest;
    NewestSorts(Summaries(messages, box, ids));
  }

  /** The newest of the pending messages so far. */
  function LatestOf(messages: map<Id, Message>, box: Mail, ids: seq<Id>, limit: nat): seq<Summary>
    requires forall i :: 0 <= i < |ids| ==> ids[i] in messages && ids[i] in box
  {
    FirstOf(Newest(Summaries(messages, box, ids)), limit)
  }

  /** One more pending message among the newest. */
  method AddPending(messages: map<Id, Message>, box: Mail, ghost ids: seq<Id>, latest: seq<Summary>, id: Id, limit: nat)
    returns (out: seq<Summary>)
    requires BoxOk(messages, box) && id in box && NoRepeats(ids)
    requires forall i :: 0 <= i < |ids| ==> ids[i] in messages && ids[i] in box
    requires latest == LatestOf(messages, box, ids, limit)
    ensures out == LatestOf(messages, box, ids + [id], limit)
  {
    hide SummaryFor;
    hide Newest;
    hide Insert;
    hide FirstOf;
    hide NewestFirst;
    FirstStaysSorted(messages, box, ids, limit);
    SummariesSnoc(messages, box, ids, id);
    FirstOfShort(Newest(Summaries(messages, box, ids)), limit);
    FirstOfInsert(Newest(Summaries(messages, box, ids)), SummaryFor(messages[id], box[id]), limit);
    out := InsertDrainLatest(latest, SummaryFor(messages[id], box[id]), limit);
  }

  method DrainStatus(messages: map<Id, Message>, box: Mail, limit: int) returns (s: Status)
    requires BoxOk(messages, box)
    ensures s == StatusOf(messages, box, limit)
  {
    hide Sorted;
    hide LatestOf;
    hide PendingOf;
    hide CountIn;
    hide Preimage;
    hide Flags;
    hide Ascending;
    hide NoRepeats;
    var ids := Sorted(box.Keys);
    var top: nat := if limit <= 0 then DefaultLatest else limit;
    var unread, unacked := 0, 0;
    var pendingIds: seq<Id>, latest: seq<Summary> := [], [];
    PendingOfAll(box);
    DrainStart(messages, box, top);
    assert ids[..0] == [];
    for i := 0 to |ids|
      invariant unread == CountIn(ids[..i], UnreadIds(box)) && unacked == CountIn(ids[..i], UnackedIds(box))
      invariant pendingIds == PendingOf(box, ids[..i])
      invariant forall k :: 0 <= k < |pendingIds| ==> pendingIds[k] in messages && pendingIds[k] in box
      invariant latest == LatestOf(messages, box, pendingIds, top)
    {
      var id := ids[i];
      DrainStep(box, ids, i);
      if box[id].readAt == 0 {
        unread := unread + 1;
      }
      if box[id].ackedAt == 0 {
        unacked := unacked + 1;
      }
      if box[id].readAt == 0 || box[id].ackedAt == 0 {
        latest := AddPending(messages, box, pendingIds, latest, id, top);
        pendingIds := pendingIds + [id];
      }
    }
    assert ids[..|ids|] == ids;
    s := Status(unread, unacked, |pendingIds|, pendingIds, latest, if pendingIds == [] then None else Some(Preimage(Flags(box, pendingIds))));
  }

  lemma DrainStart(messages: map<Id, Message>, box: Mail, limit: nat)
    ensures LatestOf(messages, box, [], limit) == [] && PendingOf(box, []) == []
    ensures forall among :: CountIn([], among) == 0
  {
  }

  lemma {:induction false} DrainStep(box: Mail, ids: seq<Id>, i: nat)
    requires Ascending(ids) && i < |ids| && forall k :: 0 <= k < |ids| ==> ids[k] in box
    ensures forall among :: CountIn(ids[..i + 1], among) == CountIn(ids[..i], among) + if ids[i] in among then 1 else 0
    ensures PendingOf(box, ids[..i + 1]) == PendingOf(box, ids[..i]) + if Unread(box[ids[i]]) || Unacked(box[ids[i]]) then [ids[i]] else []
    ensures NoRepeats(PendingOf(box, ids[..i]))
    ensures ids[i] in UnreadIds(box) <==> Unread(box[ids[i]])
    ensures ids[i] in UnackedIds(box) <==> Unacked(box[ids[i]])
  {
    assert ids[..i + 1][..i] == ids[..i];
    PrefixAscends(ids, i);
    PendingOfSorted(box, ids[..i]);
    AscendingNoRepeats(PendingOf(box, ids[..i]));
  }

  lemma PrefixAscends(ids: seq<Id>, i: nat)
    requires Ascending(ids) && i <= |ids|
    ensures Ascending(ids[..i])
  {
  }

  lemma FirstOfShort(list: seq<Summary>, limit: nat)
    ensures |FirstOf(list, limit)| <= limit
  {
  }

  // ----- what the summary means -----

  lemma {:induction false} PendingDistinct(messages: map<Id, Message>, box: Mail)
    requires BoxOk(messages, box)
    ensures var ids := Sorted(PendingIds(box));
      && (forall i :: 0 <= i < |ids| ==> ids[i] in messages && ids[i] in box)
      && DistinctIds(Summaries(messages, box, ids))
  {
    hide Sorted;
    var ids := Sorted(PendingIds(box));
    SortedStored(messages, box, PendingIds(box));
    AscendingNoRepeats(ids);
  }

  /**
   * The latest entries are the first ones of all pending deliveries sorted
   * newest first, though the loop only ever keeps that many.
   */
  lemma {:induction false} LatestAreNewest(messages: map<Id, Message>, box: Mail, limit: int)
    requires BoxOk(messages, box)
    ensures
      var ids := Sorted(PendingIds(box));
      && (forall i :: 0 <= i < |ids| ==> ids[i] in messages && ids[i] in box)
      && var all := Summaries(messages, box, ids);
      && NewestFirst(Newest(all)) && multiset(Newest(all)) == multiset(all)
      && StatusOf(messages, box, limit).latest == FirstOf(Newest(all), if limit <= 0 then DefaultLatest else limit)
  {
    hide Sorted;
    hide Newest;
    PendingDistinct(messages, box);
    NewestSorts(Summaries(messages, box, Sorted(PendingIds(box))));
  }

  /** Two mailboxes with the same fingerprint text have the same pending messages, in the same states. */
  lemma {:induction false} FingerprintDetermines(m: map<Id, Message>, box: Mail, m': map<Id, Message>, box': Mail, limit: int)
    requires BoxOk(m, box) && BoxOk(m', box')
    requires (forall id :: id in box ==> '\0' !in id) && (forall id :: id in box' ==> '\0' !in id)
    requires StatusOf(m, box, limit).hashed == StatusOf(m', box', limit).hashed
    ensures PendingIds(box) == PendingIds(box')
    ensures forall id :: id in PendingIds(box) ==>
      (Unread(box[id]) <==> Unread(box'[id])) && (Unacked(box[id]) <==> Unacked(box'[id]))
  {
    hide Sorted;
    hide Preimage;
    hide LatestOf;
    var ids, ids' := Sorted(PendingIds(box)), Sorted(PendingIds(box'));
    SortedStored(m, box, PendingIds(box));
    SortedStored(m', box', PendingIds(box'));
    var a, b := Flags(box, ids), Flags(box', ids');
    assert ids == [] ==> a == [];
    assert ids' == [] ==> b == [];
    PreimageUnique(a, b);
    assert |ids| == |ids'|;
    assert forall i :: 0 <= i < |ids| ==> a[i].id == ids[i] && b[i].id == ids'[i];
    assert ids == ids';
    assert forall id :: id in PendingIds(box) <==> id in ids;
    assert forall id :: id in PendingIds(box') <==> id in ids;
    forall id | id in PendingIds(box)
      ensures (Unread(box[id]) <==> Unread(box'[id])) && (Unacked(box[id]) <==> Unacked(box'[id]))
    {
      var i :| 0 <= i < |ids| && ids[i] == id;
      assert a[i] == b[i];
    }
  }

  // ----- reading and acknowledging settle -----

  /** A read takes just this delivery off the unread ones of just this pane; reading again changes nothing. */
  lemma {:induction false} ReadSettles(db: Db, id: Id, r: PaneId, q: PaneId, now: Time, later: Time)
    requires now > 0 && Read(db, id, r, false, now).Ok?
    ensures var out := Read(db, id, r, false, now).value;
      && UnreadIds(Box(out, q)) == (if q == r then UnreadIds(Box(db, q)) - {id} else UnreadIds(Box(db, q)))
      && UnackedIds(Box(out, q)) == UnackedIds(Box(db, q)) && Box(out, q).Keys == Box(db, q).Keys
      && Read(out, id, r, false, later) == Ok(out)
  {
  }

  /** Acknowledging takes just this delivery off the unacknowledged ones; the same again changes nothing. */
  lemma {:induction false} AckSettles(env: Env, limits: Limits, db: Db, id: Id, r: PaneId, q: PaneId,
                                      status: string, note: string, now: Time, later: Time)
    requires now > 0 && Ack(env, limits, db, id, r, status, note, now).Ok?
    ensures var out := Ack(env, limits, db, id, r, status, note, now).value;
      && UnackedIds(Box(out, q)) == (if q == r then UnackedIds(Box(db, q)) - {id} else UnackedIds(Box(db, q)))
      && UnreadIds(Box(out, q)) == UnreadIds(Box(db, q)) && Box(out, q).Keys == Box(db, q).Keys
      && Ack(env, limits, out, id, r, status, note, later) == Ok(out)
  {
  }
}
