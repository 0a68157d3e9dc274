/**
 * Saving the mailbox store and loading it again: what a snapshot holds, which
 * snapshots are accepted, and that a loaded store answers like the saved one.
 */
module MailSnapshot {
  import opened Common
  import opened MailIds
  import opened MailStore
  import opened MailDrain

  datatype Snapshot = Saved(nextSeq: nat, messages: seq<Message>, deliveries: seq<Delivery>)

  type Boxes = map<PaneId, map<Id, Delivery>>

  // ----- saving -----

  predicate IsFirst(r: PaneId, panes: set<PaneId>) {
    r in panes && forall q :: q in panes ==> r <= q
  }

  lemma {:induction false} FirstExists(panes: set<PaneId>)
    requires panes != {}
    ensures exists r :: IsFirst(r, panes)
  {
    var a :| a in panes;
    if panes == {a} {
      assert IsFirst(a, panes);
    } else {
      FirstExists(panes - {a});
      var b :| IsFirst(b, panes - {a});
      var r := if a < b then a else b;
      forall q | q in panes ensures r <= q {
        assert q == a || q in panes - {a};
      }
      assert IsFirst(r, panes);
    }
  }

  function First(panes: set<PaneId>): (r: PaneId)
    requires panes != {}
    ensures IsFirst(r, panes)
  {
    FirstExists(panes);
    var r :| IsFirst(r, panes);
    r
  }

  function Ordered(panes: set<PaneId>): (r: seq<PaneId>)
    ensures forall p :: p in r <==> p in panes
    ensures forall i, j :: 0 <= i < j < |r| ==> r[i] < r[j]
  {
    if panes == {} then []
    else
      var p := First(panes);
      [p] + Ordered(panes - {p})
  }

  function MessagesOf(messages: map<Id, Message>, ids: seq<Id>): seq<Message>
    requires forall i :: 0 <= i < |ids| ==> ids[i] in messages
  {
    seq(|ids|, i requires 0 <= i < |ids| => messages[ids[i]])
  }

  function MailOf(box: map<Id, Delivery>, ids: seq<Id>): seq<Delivery>
    requires forall i :: 0 <= i < |ids| ==> ids[i] in box
  {
    seq(|ids|, i requires 0 <= i < |ids| => box[ids[i]])
  }

  lemma SortedKeys<V>(m: map<Id, V>)
    ensures var ids := Sorted(m.Keys); forall i :: 0 <= i < |ids| ==> ids[i] in m
  {
    var ids := Sorted(m.Keys);
    forall i | 0 <= i < |ids| ensures ids[i] in m {
      assert ids[i] in ids;
    }
  }

  /** Deliveries pane by pane, each pane's by message. */
  function AllMail(boxes: Boxes, panes: seq<PaneId>): seq<Delivery>
    requires forall i :: 0 <= i < |panes| ==> panes[i] in boxes
  {
    if panes == [] then []
    else
      var box := boxes[panes[|panes| - 1]];
      SortedKeys(box);
      AllMail(boxes, panes[..|panes| - 1]) + MailOf(box, Sorted(box.Keys))
  }

  function Save(db: Db): Snapshot {
    SortedKeys(db.messages);
    var panes := Ordered(db.deliveries.Keys);
    assert forall i :: 0 <= i < |panes| ==> panes[i] in panes;
    Saved(db.nextSeq, MessagesOf(db.messages, Sorted(db.messages.Keys)), AllMail(db.deliveries, panes))
  }

  // ----- loading -----

  datatype Fault = MessageWithoutId | DuplicateMessage | DeliveryWithoutId | DeliveryWithoutPane | MissingMessage | DuplicateDelivery

  datatype Load<T> = Loaded(value: T) | Rejected(fault: Fault)

  datatype Half = Half(messages: map<Id, Message>, threads: map<Id, seq<Id>>, maxSeq: nat)

  function AddMessage(h: Half, m: Message): Load<Half> {
    if m.id == "" then Rejected(MessageWithoutId)
    else if m.id in h.messages then Rejected(DuplicateMessage)
    else
      Loaded(Half(h.messages[m.id := m],
                  if m.threadId == "" then h.threads
                  else h.threads[m.threadId := (if m.threadId in h.threads then h.threads[m.threadId] else []) + [m.id]],
                  if ParseSeq(m.id).Some? && ParseSeq(m.id).value > h.maxSeq then ParseSeq(m.id).value else h.maxSeq))
  }

  function LoadMessages(ms: seq<Message>): Load<Half> {
    if ms == [] then Loaded(Half(map[], map[], 0))
    else
      match LoadMessages(ms[..|ms| - 1])
      case Rejected(fault) => Rejected(fault)
      case Loaded(h) => AddMessage(h, ms[|ms| - 1])
  }

  function AddDelivery(messages: map<Id, Message>, boxes: Boxes, d: Delivery): Load<Boxes> {
    if d.messageId == "" then Rejected(DeliveryWithoutId)
    else if d.recipient.id == 0 then Rejected(DeliveryWithoutPane)
    else if d.messageId !in messages then Rejected(MissingMessage)
    else
      var box := BoxOf(boxes, d.recipient.id);
      if d.messageId in box then Rejected(DuplicateDelivery)
      else Loaded(boxes[d.recipient.id := box[d.messageId := d]])
  }

  function LoadDeliveries(messages: map<Id, Message>, ds: seq<Delivery>): Load<Boxes> {
    if ds == [] then Loaded(map[])
    else
      match LoadDeliveries(messages, ds[..|ds| - 1])
      case Rejected(fault) => Rejected(fault)
      case Loaded(boxes) => AddDelivery(messages, boxes, ds[|ds| - 1])
  }

  /** The next number: the saved one, 1 if there is none, or past every number in use; in 64 bits. */
  function NextAfter(saved: nat, maxSeq: nat): nat {
    var next := if saved == 0 then 1 else saved;
    if maxSeq >= next then (maxSeq + 1) % (Uint64Max + 1) else next
  }

  function Restore(s: Snapshot): Load<Db> {
    match LoadMessages(s.messages)
    case Rejected(fault) => Rejected(fault)
    case Loaded(h) =>
      match LoadDeliveries(h.messages, s.deliveries)
      case Rejected(fault) => Rejected(fault)
      case Loaded(boxes) => Loaded(Db(NextAfter(s.nextSeq, h.maxSeq), h.messages, boxes, h.threads))
  }

  // ----- new identifiers do not collide -----

  predicate Bounds(messages: map<Id, Message>, maxSeq: nat) {
    && (forall id :: id in messages && ParseSeq(id).Some? ==> ParseSeq(id).value <= maxSeq)
    && (maxSeq == 0 || exists id :: id in messages && ParseSeq(id) == Some(maxSeq))
  }

  lemma {:induction false} LoadBounds(ms: seq<Message>)
    requires LoadMessages(ms).Loaded?
    ensures Bounds(LoadMessages(ms).value.messages, LoadMessages(ms).value.maxSeq)
  {
    hide ParseSeq;
    if ms != [] {
      var n := |ms| - 1;
      LoadBounds(ms[..n]);
      var h, out := LoadMessages(ms[..n]).value, LoadMessages(ms).value;
      assert ms[n].id in out.messages;
      if out.maxSeq == h.maxSeq && h.maxSeq != 0 {
        var id :| id in h.messages && ParseSeq(id) == Some(h.maxSeq);
        assert id in out.messages;
      }
    }
  }

  lemma ParsedWithin(id: Id)
    ensures ParseSeq(id).Some? ==> ParseSeq(id).value <= Uint64Max
  {
  }

  lemma {:induction false} LoadedBounds(s: Snapshot)
    requires Restore(s).Loaded? && s.nextSeq <= Uint64Max
    ensures var db, max := Restore(s).value, LoadMessages(s.messages).value.maxSeq;
      && Bounds(db.messages, max) && max <= Uint64Max && db.nextSeq <= Uint64Max
      && (Uses(db, Uint64Max) <==> max == Uint64Max)
      && if max == Uint64Max then db.nextSeq == 0 else max < db.nextSeq
  {
    hide ParseSeq;
    LoadBounds(s.messages);
    var db, h := Restore(s).value, LoadMessages(s.messages).value;
    forall id | id in h.messages ensures ParseSeq(id).Some? ==> ParseSeq(id).value <= Uint64Max {
      ParsedWithin(id);
    }
  }

  /** Some message spells this number. */
  ghost predicate Uses(db: Db, n: nat) {
    exists id :: id in db.messages && ParseSeq(id) == Some(n)
  }

  /** The n-th identifier a loaded store hands out was loaded: numbering has wrapped by then and reached a number in use. */
  ghost predicate Taken(db: Db, n: nat) {
    if Uses(db, Uint64Max) then FormatId(n) in db.messages
    else db.nextSeq + n > Uint64Max && FormatId(db.nextSeq + n - Uint64Max - 1) in db.messages
  }

  lemma {:induction false} NthTaken(s: Snapshot, n: nat)
    requires Restore(s).Loaded? && s.nextSeq <= Uint64Max && n <= Uint64Max
    ensures var db := Restore(s).value; FormatId(NthSeq(db.nextSeq, n)) in db.messages <==> Taken(db, n)
  {
    hide ParseSeq;
    hide FormatId;
    hide Restore;
    var db := Restore(s).value;
    LoadedBounds(s);
    if !Uses(db, Uint64Max) && db.nextSeq + n <= Uint64Max {
      FormatParses(db.nextSeq + n);
    }
  }

  /** Numbers less than a full round apart differ. */
  lemma NthDistinct(n: nat, i: nat, k: nat)
    requires i < k <= Uint64Max
    ensures NthSeq(n, i) != NthSeq(n, k)
  {
    var m := Uint64Max + 1;
    assert (n + k) - (n + i) == k - i;
  }

  /**
   * After any run from any accepted snapshot, in which n sends went through,
   * the next identifier is in use exactly when numbering has wrapped and
   * reached a number that was loaded.
   */
  lemma {:induction false} NextCollides(s: Snapshot, env: Env, limits: Limits, ops: seq<(Op, Time)>)
    requires Restore(s).Loaded? && s.nextSeq <= Uint64Max
    requires SendCount(env, limits, Restore(s).value, ops) <= Uint64Max
    ensures var db := Restore(s).value; var out := RunFrom(env, limits, db, ops);
      FormatId(out.nextSeq) in out.messages <==> Taken(db, SendCount(env, limits, db, ops))
  {
    hide FormatId;
    hide Restore;
    hide RunFrom;
    hide SendCount;
    hide NthSeq;
    hide Taken;
    var db := Restore(s).value;
    var n := SendCount(env, limits, db, ops);
    LoadedBounds(s);
    RunNext(env, limits, db, ops);
    NthTaken(s, n);
    var id := FormatId(NthSeq(db.nextSeq, n));
    IdsFromHas(db.nextSeq, n, id);
    forall i: nat | i < n ensures id != FormatId(NthSeq(db.nextSeq, i)) {
      NthDistinct(db.nextSeq, i, n);
      if id == FormatId(NthSeq(db.nextSeq, i)) {
        FormatInjective(NthSeq(db.nextSeq, n), NthSeq(db.nextSeq, i));
      }
    }
  }

  /** It happens: a snapshot of two messages, numbered with the greatest number and with zero, is accepted and collides at once. */
  lemma {:induction false} CollisionPossible(m: Message)
    ensures var s := Saved(0, [m.(id := FormatId(0)), m.(id := FormatId(Uint64Max))], []);
      Restore(s).Loaded? && FormatId(Restore(s).value.nextSeq) in Restore(s).value.messages
  {
    hide FormatId;
    hide ParseSeq;
    var a, b := m.(id := FormatId(0)), m.(id := FormatId(Uint64Max));
    FormatParses(0);
    FormatParses(Uint64Max);
    NotEmpty(0);
    NotEmpty(Uint64Max);
    assert [a, b][..1] == [a] && [a][..0] == [];
    assert LoadMessages([a]).Loaded? && LoadMessages([a]).value.messages == map[a.id := a];
    assert LoadMessages([a]).value.maxSeq == 0;
    assert LoadMessages([a, b]).Loaded? && LoadMessages([a, b]).value.maxSeq == Uint64Max;
  }

  lemma NotEmpty(n: nat)
    ensures FormatId(n) != ""
  {
  }

  /** Below the greatest number, all identifiers a loaded store will hand out before numbering wraps are unused. */
  lemma {:induction false} NewIdsUnused(s: Snapshot, n: nat)
    requires Restore(s).Loaded? && s.nextSeq <= Uint64Max
    requires forall id :: id in Restore(s).value.messages ==> ParseSeq(id) != Some(Uint64Max)
    requires Restore(s).value.nextSeq <= n <= Uint64Max
    ensures FormatId(n) !in Restore(s).value.messages && Restore(s).value.nextSeq >= 1
  {
    hide ParseSeq;
    hide FormatId;
    hide Restore;
    LoadedBounds(s);
    FormatParses(n);
  }

  // ----- loading what was saved -----

  ghost predicate SameElements(a: seq<Id>, b: seq<Id>) {
    NoRepeats(a) && NoRepeats(b) && forall id :: id in a <==> id in b
  }

  /** Equal stores, but for the order in which threads list their messages. */
  ghost predicate Same(db: Db, other: Db) {
    && other.nextSeq == db.nextSeq && other.messages == db.messages && other.deliveries == db.deliveries
    && other.threads.Keys == db.threads.Keys
    && forall t :: t in db.threads ==> SameElements(db.threads[t], other.threads[t])
  }

  /** Half-way: the messages listed so far. */
  ghost predicate HalfMessages(all: map<Id, Message>, ids: seq<Id>, some: map<Id, Message>) {
    && (forall id :: id in some <==> id in ids)
    && (forall id :: id in ids ==> id in all && some[id] == all[id])
  }

  /** Half-way: each thread holds just those of its messages that were listed so far, once. */
  ghost predicate HalfThreads(all: map<Id, Message>, ids: seq<Id>, threads: map<Id, seq<Id>>) {
    && (forall t, id :: t in threads && id in threads[t] ==> id in ids && id in all && all[id].threadId == t)
    && (forall id :: id in ids && id in all ==> all[id].threadId in threads && id in threads[all[id].threadId])
    && (forall t :: t in threads ==> NoRepeats(threads[t]) && threads[t] != [])
  }

  ghost predicate HalfOk(db: Db, ids: seq<Id>, h: Half) {
    HalfMessages(db.messages, ids, h.messages) && HalfThreads(db.messages, ids, h.threads) && h.maxSeq < db.nextSeq
  }

  lemma {:induction false} AddToThread(all: map<Id, Message>, ids: seq<Id>, threads: map<Id, seq<Id>>, id: Id)
    requires HalfThreads(all, ids, threads) && id in all && id !in ids
    ensures var t := all[id].threadId;
      HalfThreads(all, ids + [id], threads[t := (if t in threads then threads[t] else []) + [id]])
  {
    hide NoRepeats;
    var t := all[id].threadId;
    var old' := if t in threads then threads[t] else [];
    assert id !in old';
    NoneNoRepeats();
    SnocNoRepeats(old', id);
    var out := threads[t := old' + [id]];
    forall x | x in ids + [id] && x in all ensures all[x].threadId in out && x in out[all[x].threadId] {
      assert x != id ==> x in ids;
    }
  }

  lemma {:induction false} AddMessageOk(db: Db, ids: seq<Id>, h: Half, id: Id)
    requires HalfOk(db, ids, h) && IdsOk(db) && ThreadsOk(db) && id in db.messages && id !in ids
    ensures AddMessage(h, db.messages[id]).Loaded? && HalfOk(db, ids + [id], AddMessage(h, db.messages[id]).value)
  {
    hide HalfThreads;
    hide ThreadsOk;
    hide FormatId;
    hide ParseSeq;
    NextUnused(db);
    ParentThread(db, id);
    AddToThread(db.messages, ids, h.threads, id);
  }

  lemma {:induction false} LoadsMessages(db: Db, ids: seq<Id>)
    requires IdsOk(db) && ThreadsOk(db) && NoRepeats(ids) && forall i :: 0 <= i < |ids| ==> ids[i] in db.messages
    ensures var r := LoadMessages(MessagesOf(db.messages, ids)); r.Loaded? && HalfOk(db, ids, r.value)
    decreases |ids|
  {
    hide AddMessage;
    hide IdsOk;
    hide ThreadsOk;
    hide HalfOk;
    hide LoadMessages;
    var ms := MessagesOf(db.messages, ids);
    if ids == [] {
      IdsBound(db);
      LoadsNoMessages(db);
      assert ms == [];
    } else {
      var n := |ids| - 1;
      var front, id := ids[..n], ids[n];
      LoadsMessages(db, front);
      assert ms == MessagesOf(db.messages, front) + [db.messages[id]];
      LoadOneMessage(MessagesOf(db.messages, front), db.messages[id]);
      assert id !in front && front + [id] == ids;
      AddMessageOk(db, front, LoadMessages(MessagesOf(db.messages, front)).value, id);
    }
  }

  lemma LoadsNoMessages(db: Db)
    requires db.nextSeq >= 1
    ensures LoadMessages([]).Loaded? && HalfOk(db, [], LoadMessages([]).value)
  {
  }

  lemma LoadOneMessage(ms: seq<Message>, m: Message)
    ensures LoadMessages(ms).Loaded? ==> LoadMessages(ms + [m]) == AddMessage(LoadMessages(ms).value, m)
  {
    assert (ms + [m])[..|ms|] == ms;
  }

  lemma LoadOneMore(messages: map<Id, Message>, ds: seq<Delivery>, d: Delivery)
    ensures LoadDeliveries(messages, ds).Loaded? ==>
      LoadDeliveries(messages, ds + [d]) == AddDelivery(messages, LoadDeliveries(messages, ds).value, d)
  {
    assert (ds + [d])[..|ds|] == ds;
  }

  function PartOf(box: map<Id, Delivery>, ids: seq<Id>): map<Id, Delivery> {
    map id | id in box && id in ids :: box[id]
  }

  lemma PartSnoc(box: map<Id, Delivery>, ids: seq<Id>, id: Id)
    requires id in box
    ensures PartOf(box, ids + [id]) == PartOf(box, ids)[id := box[id]]
  {
  }

  lemma PartWhole(box: map<Id, Delivery>, ids: seq<Id>)
    requires forall id :: id in ids <==> id in box
    ensures PartOf(box, ids) == box
  {
  }

  /** Deliveries of stored messages to one pane. */
  ghost predicate BelongTo(messages: map<Id, Message>, box: map<Id, Delivery>, r: PaneId) {
    r != 0 && forall id :: id in box ==>
      id in messages && id != "" && box[id].messageId == id && box[id].recipient.id == r
  }

  /** Loading one pane's deliveries in order fills its box, and touches no other. */
  lemma {:induction false} LoadsBox(messages: map<Id, Message>, ds: seq<Delivery>, boxes: Boxes, r: PaneId, box: map<Id, Delivery>, ids: seq<Id>)
    requires LoadDeliveries(messages, ds) == Loaded(boxes) && r !in boxes && BelongTo(messages, box, r)
    requires NoRepeats(ids) && ids != [] && forall i :: 0 <= i < |ids| ==> ids[i] in box
    ensures LoadDeliveries(messages, ds + MailOf(box, ids)) == Loaded(boxes[r := PartOf(box, ids)])
    decreases |ids|
  {
    hide LoadDeliveries;
    hide PartOf;
    var n := |ids| - 1;
    var front, id := ids[..n], ids[n];
    assert ids == front + [id] && id !in front;
    var before := ds + MailOf(box, front);
    assert ds + MailOf(box, ids) == before + [box[id]];
    LoadOneMore(messages, before, box[id]);
    PartSnoc(box, front, id);
    PartKeys(box, front);
    if front == [] {
      assert before == ds;
      PartNone(box);
    } else {
      LoadsBox(messages, ds, boxes, r, box, front);
      assert boxes[r := PartOf(box, front)][r := PartOf(box, ids)] == boxes[r := PartOf(box, ids)];
    }
  }

  lemma PartKeys(box: map<Id, Delivery>, ids: seq<Id>)
    ensures forall id :: id in PartOf(box, ids) ==> id in ids
  {
  }

  lemma PartNone(box: map<Id, Delivery>)
    ensures PartOf(box, []) == map[]
  {
  }

  ghost predicate BoxesOk(messages: map<Id, Message>, boxes: Boxes) {
    forall r :: r in boxes ==> boxes[r] != map[] && BelongTo(messages, boxes[r], r)
  }

  function BoxesFor(boxes: Boxes, panes: seq<PaneId>): Boxes {
    map r | r in boxes && r in panes :: boxes[r]
  }

  lemma SomeSnoc(boxes: Boxes, panes: seq<PaneId>, r: PaneId)
    requires r in boxes && r !in panes
    ensures BoxesFor(boxes, panes + [r]) == BoxesFor(boxes, panes)[r := boxes[r]] && r !in BoxesFor(boxes, panes)
  {
  }

  lemma {:induction false} LoadsDeliveries(messages: map<Id, Message>, boxes: Boxes, panes: seq<PaneId>)
    requires BoxesOk(messages, boxes)
    requires (forall i :: 0 <= i < |panes| ==> panes[i] in boxes) && (forall i, j :: 0 <= i < j < |panes| ==> panes[i] != panes[j])
    ensures LoadDeliveries(messages, AllMail(boxes, panes)) == Loaded(BoxesFor(boxes, panes))
    decreases |panes|
  {
    hide LoadDeliveries;
    hide BoxesFor;
    hide Sorted;
    hide BelongTo;
    if panes == [] {
      LoadsNone(messages, boxes);
    } else {
      var n := |panes| - 1;
      var r := panes[n];
      var box := boxes[r];
      LoadsDeliveries(messages, boxes, panes[..n]);
      assert panes == panes[..n] + [r] && r !in panes[..n];
      SomeSnoc(boxes, panes[..n], r);
      var ids := Sorted(box.Keys);
      SortedKeys(box);
      AscendingNoRepeats(ids);
      NotNone(box, ids);
      LoadsBox(messages, AllMail(boxes, panes[..n]), BoxesFor(boxes, panes[..n]), r, box, ids);
      PartWhole(box, ids);
    }
  }

  lemma LoadsNone(messages: map<Id, Message>, boxes: Boxes)
    ensures LoadDeliveries(messages, []) == Loaded(BoxesFor(boxes, []))
  {
  }

  lemma NotNone(box: map<Id, Delivery>, ids: seq<Id>)
    requires forall id :: id in ids <==> id in box
    ensures box != map[] ==> ids != []
  {
    if box != map[] {
      var id :| id in box;
      assert id in ids;
    }
  }

  lemma {:induction false} CoherentBoxes(db: Db)
    requires IdsOk(db) && DeliveriesOk(db)
    ensures BoxesOk(db.messages, db.deliveries)
  {
    hide FormatId;
    hide SeqOf;
    NextUnused(db);
    forall r | r in db.deliveries ensures db.deliveries[r] != map[] && BelongTo(db.messages, db.deliveries[r], r) {
      CoherentBox(db, r);
    }
  }

  lemma {:induction false} CoherentBox(db: Db, r: PaneId)
    requires IdsOk(db) && DeliveriesOk(db) && r in db.deliveries
    ensures db.deliveries[r] != map[] && BelongTo(db.messages, db.deliveries[r], r)
  {
    hide FormatId;
    hide SeqOf;
    hide Names;
    NextUnused(db);
    forall id | id in db.deliveries[r]
      ensures id in db.messages && id != "" && db.deliveries[r][id].messageId == id && db.deliveries[r][id].recipient.id == r
    {
      assert id in Box(db, r);
      assert DeliveryOk(Box(db, r)[id], db.messages[id], r);
    }
  }

  lemma {:induction false} SameThreadKeys(db: Db, ids: seq<Id>, h: Half)
    requires HalfThreads(db.messages, ids, h.threads) && ThreadsOk(db) && forall id :: id in ids <==> id in db.messages
    ensures h.threads.Keys == db.threads.Keys
  {
    hide NoRepeats;
    forall t ensures t in h.threads <==> t in db.threads {
      if t in h.threads {
        var id := h.threads[t][0];
        assert id in h.threads[t];
        assert id in db.messages && db.messages[id].threadId == t;
        assert id in ThreadIds(db, t);
      }
      if t in db.threads {
        var id := db.threads[t][0];
        assert id in ThreadIds(db, t);
        assert id in ids;
      }
    }
  }

  lemma {:induction false} HalfIsSame(db: Db, ids: seq<Id>, h: Half)
    requires HalfOk(db, ids, h) && ThreadsOk(db) && forall id :: id in ids <==> id in db.messages
    ensures h.messages == db.messages && h.threads.Keys == db.threads.Keys
    ensures forall t :: t in db.threads ==> SameElements(db.threads[t], h.threads[t])
  {
    hide NoRepeats;
    SameThreadKeys(db, ids, h);
    assert h.messages == db.messages;
    forall t | t in db.threads ensures SameElements(db.threads[t], h.threads[t]) {
      forall id ensures id in db.threads[t] <==> id in h.threads[t] {
        assert id in ThreadIds(db, t) <==> id in db.messages && db.messages[id].threadId == t;
      }
    }
  }

  /** A snapshot of a coherent store is accepted, and loads as the same store with the same next identifier. */
  lemma {:induction false} RestoreSave(env: Env, limits: Limits, db: Db)
    requires Coherent(env, limits, db)
    ensures Restore(Save(db)).Loaded? && Same(db, Restore(Save(db)).value)
  {
    hide IdsOk;
    hide DeliveriesOk;
    hide ThreadsOk;
    hide RepliesOk;
    hide LimitsOk;
    hide LoadMessages;
    hide LoadDeliveries;
    hide Sorted;
    hide Ordered;
    hide HalfMessages;
    hide HalfThreads;
    hide SameElements;
    hide BoxesFor;
    hide AllMail;
    var ids := Sorted(db.messages.Keys);
    SortedKeys(db.messages);
    AscendingNoRepeats(ids);
    LoadsMessages(db, ids);
    HalfIsSame(db, ids, LoadMessages(MessagesOf(db.messages, ids)).value);
    CoherentBoxes(db);
    var panes := Ordered(db.deliveries.Keys);
    assert forall i :: 0 <= i < |panes| ==> panes[i] in panes;
    LoadsDeliveries(db.messages, db.deliveries, panes);
    SomeWhole(db.deliveries, panes);
    IdsBound(db);
  }

  lemma SomeWhole(boxes: Boxes, panes: seq<PaneId>)
    requires forall r :: r in panes <==> r in boxes
    ensures BoxesFor(boxes, panes) == boxes
  {
  }

  // ----- the loaded store behaves like the saved one -----

  /** The identifiers a thread lists, in order. */
  function SortedThread(db: Db, t: Id): seq<Id> {
    SortedAll(multiset(ThreadIds(db, t)))
  }

  function TopicSet(db: Db, topic: string): set<Id> {
    set id | id in db.messages && topic in db.messages[id].content.topics
  }

  predicate ThreadsStored(db: Db) {
    forall t :: t in db.threads ==> forall id :: id in db.threads[t] ==> id in db.messages
  }

  /** The messages of the thread a message belongs to, or else those on a topic, by identifier. */
  function ThreadOf(db: Db, ref: string): Option<seq<Message>>
    requires ThreadsStored(db)
  {
    if ref == "" then None
    else
      var ids := if ref in db.messages then SortedThread(db, db.messages[ref].threadId) else Sorted(TopicSet(db, ref));
      StoredOnly(db, ref);
      if ids == [] then None else Some(MessagesOf(db.messages, ids))
  }

  lemma StoredOnly(db: Db, ref: string)
    requires ThreadsStored(db)
    ensures forall t :: AllIn(SortedThread(db, t), db.messages)
    ensures AllIn(Sorted(TopicSet(db, ref)), db.messages)
  {
    forall t ensures AllIn(SortedThread(db, t), db.messages) {
      var r := SortedThread(db, t);
      forall i | 0 <= i < |r| ensures r[i] in db.messages {
        assert r[i] in multiset(r);
        assert r[i] in ThreadIds(db, t);
      }
    }
    var r := Sorted(TopicSet(db, ref));
    forall i | 0 <= i < |r| ensures r[i] in db.messages {
      assert r[i] in r;
    }
  }

  predicate AllIn(ids: seq<Id>, messages: map<Id, Message>) {
    forall i :: 0 <= i < |ids| ==> ids[i] in messages
  }

  lemma {:induction false} SameThread(db: Db, other: Db, t: Id)
    requires Same(db, other)
    ensures SortedThread(db, t) == SortedThread(other, t)
  {
    hide SortedAll;
    var a, b := ThreadIds(db, t), ThreadIds(other, t);
    SameThreadIds(db, other, t);
    forall id ensures multiset(a)[id] == multiset(b)[id] {
      Once(a, id);
      Once(b, id);
    }
    assert multiset(a) == multiset(b);
  }

  lemma {:induction false} Once(ids: seq<Id>, id: Id)
    requires NoRepeats(ids)
    ensures multiset(ids)[id] == if id in ids then 1 else 0
  {
    if ids != [] {
      var n := |ids| - 1;
      assert ids == ids[..n] + [ids[n]];
      Once(ids[..n], id);
    }
  }

  lemma {:induction false} SameSnoc(a: seq<Id>, b: seq<Id>, id: Id)
    requires SameElements(a, b) && id !in a
    ensures SameElements(a + [id], b + [id])
  {
    hide NoRepeats;
    SnocNoRepeats(a, id);
    SnocNoRepeats(b, id);
  }

  lemma SameThreadIds(db: Db, other: Db, t: Id)
    requires Same(db, other)
    ensures SameElements(ThreadIds(db, t), ThreadIds(other, t))
  {
  }

  lemma {:induction false} SameStored(env: Env, db: Db, other: Db, req: Request, thread: Id, now: Time)
    requires Same(db, other) && Placed(db, req, thread) && ThreadsOk(db)
    ensures Same(Stored(env, db, req, thread, now), Stored(env, other, req, thread, now))
  {
    hide FormatId;
    hide IdsOk;
    hide Delivered;
    hide ContentOf;
    hide SameElements;
    NextUnused(db);
    var id := FormatId(db.nextSeq);
    var t := if thread == "" then id else thread;
    assert id !in ThreadIds(db, t);
    SameThreadIds(db, other, t);
    SameSnoc(ThreadIds(db, t), ThreadIds(other, t), id);
  }

  lemma {:induction false} SameResolve(db: Db, other: Db, replyTo: Id, requested: Id)
    requires Same(db, other)
    ensures Resolve(db, replyTo, requested) == Resolve(other, replyTo, requested)
  {
  }

  lemma {:induction false} SameSend(env: Env, limits: Limits, db: Db, other: Db, req: Request, now: Time)
    requires Same(db, other) && Coherent(env, limits, db)
    ensures var r, r' := Send(env, limits, db, req, now), Send(env, limits, other, req, now);
      if r.Ok? then r'.Ok? && Same(r.value, r'.value) else r' == r
  {
    hide Stored;
    hide FormatId;
    hide IdsOk;
    hide DeliveriesOk;
    hide ThreadsOk;
    hide RepliesOk;
    hide LimitsOk;
    SameResolve(db, other, req.replyTo, req.threadId);
    if Send(env, limits, db, req, now).Ok? {
      SendPlaced(env, limits, db, req, now);
      SameStored(env, db, other, req, Resolve(db, req.replyTo, req.threadId).value, now);
    }
  }

  lemma {:induction false} SameUpdate(env: Env, limits: Limits, db: Db, other: Db, op: Op, now: Time)
    requires Same(db, other) && !op.DoSend?
    ensures Same(Apply(env, limits, db, op, now), Apply(env, limits, other, op, now))
  {
    hide Send;
    hide SameElements;
    assert Locate(db, op.id, op.r) == Locate(other, op.id, op.r);
    assert Box(db, op.r) == Box(other, op.r);
  }

  lemma {:induction false} ThreadsAreStored(db: Db)
    requires ThreadsOk(db)
    ensures ThreadsStored(db)
  {
    forall t, id | t in db.threads && id in db.threads[t] ensures id in db.messages {
      assert id in ThreadIds(db, t);
    }
  }

  /** Both give the same deliveries, lists, drain summaries and threads; refusals included. */
  lemma {:induction false} SameAnswers(db: Db, other: Db, id: Id, r: PaneId, ref: string, unreadOnly: bool, limit: int)
    requires Same(db, other) && ThreadsStored(db) && ThreadsStored(other) && BoxOk(db.messages, Box(db, r))
    ensures Locate(db, id, r) == Locate(other, id, r)
    ensures BoxOk(other.messages, Box(other, r))
    ensures ListOf(db.messages, Box(db, r), unreadOnly) == ListOf(other.messages, Box(other, r), unreadOnly)
    ensures StatusOf(db.messages, Box(db, r), limit) == StatusOf(other.messages, Box(other, r), limit)
    ensures ThreadOf(db, ref) == ThreadOf(other, ref)
  {
    hide Sorted;
    hide SortedAll;
    hide ListOf;
    hide StatusOf;
    if ref in db.messages {
      SameThread(db, other, db.messages[ref].threadId);
    }
  }

  lemma {:induction false} SameThreads(db: Db, other: Db)
    requires Same(db, other) && ThreadsOk(db)
    ensures ThreadsOk(other)
  {
    hide NoRepeats;
    forall t, id ensures id in ThreadIds(other, t) <==> id in other.messages && other.messages[id].threadId == t {
      assert id in ThreadIds(db, t) <==> id in db.messages && db.messages[id].threadId == t;
    }
    forall t | t in other.threads ensures t != "" && other.threads[t] != [] && NoRepeats(other.threads[t]) {
      assert db.threads[t][0] in db.threads[t];
    }
  }

  lemma {:induction false} SameCoherent(env: Env, limits: Limits, db: Db, other: Db)
    requires Same(db, other) && Coherent(env, limits, db)
    ensures Coherent(env, limits, other)
  {
    hide IdsOk;
    hide DeliveriesOk;
    hide ThreadsOk;
    hide RepliesOk;
    hide LimitsOk;
    SameOthers(env, limits, db, other);
    SameThreads(db, other);
  }

  lemma {:induction false} SameBoxes(db: Db, other: Db)
    requires other == db.(threads := other.threads) && DeliveriesOk(db)
    ensures DeliveriesOk(other)
  {
    hide Names;
    hide DeliveryOk;
    assert forall r :: Box(other, r) == Box(db, r);
  }

  lemma {:induction false} SameReplies(db: Db, other: Db)
    requires other == db.(threads := other.threads) && RepliesOk(db)
    ensures RepliesOk(other)
  {
    hide AnswersExact;
    hide SeqOf;
    forall x | x in other.messages && other.messages[x].inReplyTo != "" ensures HasParent(other, x) {
      assert HasParent(db, x);
    }
  }

  lemma {:induction false} SameOthers(env: Env, limits: Limits, db: Db, other: Db)
    requires other == db.(threads := other.threads)
    requires IdsOk(db) && DeliveriesOk(db) && RepliesOk(db) && LimitsOk(env, limits, db)
    ensures IdsOk(other) && DeliveriesOk(other) && RepliesOk(other) && LimitsOk(env, limits, other)
  {
    hide DeliveriesOk;
    hide RepliesOk;
    hide FormatId;
    hide SeqOf;
    hide SumOf;
    SameBoxes(db, other);
    SameReplies(db, other);
  }

  /**
   * From a store and from its loaded snapshot, the same further operations
   * lead to the same stores, so every later answer and identifier is the same.
   */
  lemma {:induction false} RestoredForever(env: Env, limits: Limits, db: Db, ops: seq<(Op, Time)>)
    requires Coherent(env, limits, db) && db.nextSeq + SendCount(env, limits, db, ops) <= Uint64Max
    ensures Restore(Save(db)).Loaded?
    ensures var other := RunFrom(env, limits, Restore(Save(db)).value, ops); var now := RunFrom(env, limits, db, ops);
      Coherent(env, limits, now) && Coherent(env, limits, other) && Same(now, other) && now.nextSeq == db.nextSeq + SendCount(env, limits, db, ops)
    decreases |ops|
  {
    hide Coherent;
    hide Same;
    hide Apply;
    hide Restore;
    RestoreSave(env, limits, db);
    if ops == [] {
      SameCoherent(env, limits, db, Restore(Save(db)).value);
    } else {
      var n := |ops| - 1;
      RestoredForever(env, limits, db, ops[..n]);
      var a, b := RunFrom(env, limits, db, ops[..n]), RunFrom(env, limits, Restore(Save(db)).value, ops[..n]);
      StillCoherent(env, limits, a, ops[n].0, ops[n].1);
      SameApply(env, limits, a, b, ops[n].0, ops[n].1);
      SameCoherent(env, limits, Apply(env, limits, a, ops[n].0, ops[n].1), Apply(env, limits, b, ops[n].0, ops[n].1));
    }
  }

  lemma {:induction false} SameApply(env: Env, limits: Limits, db: Db, other: Db, op: Op, now: Time)
    requires Same(db, other) && Coherent(env, limits, db)
    ensures Same(Apply(env, limits, db, op, now), Apply(env, limits, other, op, now))
  {
    hide Same;
    hide Coherent;
    if op.DoSend? {
      SameSend(env, limits, db, other, op.req, now);
    } else {
      SameUpdate(env, limits, db, other, op, now);
    }
  }
}
