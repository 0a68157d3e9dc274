/**
 * The mailbox store as the program runs it: maps changed in place by each
 * operation, against the store as a value.
 */
module Mailbox {
  import opened Common
  import opened MailIds
  import opened MailStore
  import opened MailDrain
  import opened MailSnapshot

  class Store {
    const env: Env
    const limits: Limits
    var nextSeq: nat
    var messages: map<Id, Message>
    var deliveries: map<PaneId, map<Id, Delivery>>
    var threads: map<Id, seq<Id>>

    function View(): Db
      reads this
    {
      Db(nextSeq, messages, deliveries, threads)
    }

    /** All indexes in step. */
    ghost predicate Valid()
      reads this
    {
      Coherent(env, limits, View())
    }

    /** What queries rely on: deliveries and threads name stored messages, each filed under its own identifier. */
    ghost predicate Readable()
      reads this
    {
      ReadableDb(View())
    }

    constructor (env: Env, limits: Limits)
      ensures Valid() && Readable() && View() == Empty && this.env == env && this.limits == limits
    {
      this.env, this.limits := env, limits;
      nextSeq, messages, deliveries, threads := 1, map[], map[], map[];
      new;
      EmptyCoherent(env, limits);
    }

    method StoredByteCount() returns (total: nat)
      ensures total == StoredBytes(env, View())
    {
      hide MessageBytes;
      total := 0;
      var sizes := Sizes(env, messages);
      var todo := messages.Keys;
      assert sizes - (sizes.Keys - todo) == sizes;
      while todo != {}
        invariant todo <= messages.Keys
        invariant total + SumOf(sizes - (sizes.Keys - todo)) == SumOf(sizes)
        decreases |todo|
      {
        var id :| id in todo;
        ghost var rest := sizes - (sizes.Keys - todo);
        SumWithout(rest, id);
        todo := todo - {id};
        assert rest - {id} == sizes - (sizes.Keys - todo);
        total := total + MessageBytes(env, messages[id]);
      }
      assert sizes - (sizes.Keys - todo) == map[];
    }

    /** One delivery record for each recipient. */
    method DeliverTo(rs: seq<Address>, id: Id, now: Time)
      modifies this`deliveries
      ensures deliveries == Delivered(old(deliveries), rs, id, now)
    {
      for i := 0 to |rs|
        invariant deliveries == Delivered(old(deliveries), rs[..i], id, now)
      {
        var r := rs[i];
        var box := if r.id in deliveries then deliveries[r.id] else map[];
        deliveries := deliveries[r.id := box[id := NewDelivery(id, r, now)]];
        assert rs[..i + 1][..i] == rs[..i];
      }
      assert rs[..|rs|] == rs;
    }

    /**
     * A message stored under the next identifier, or a refusal that changes
     * nothing. In a coherent store that identifier is new, and the store
     * stays coherent unless it was the last number.
     */
    method Send(req: Request, now: Time) returns (r: Result<Message>)
      requires now > 0
      modifies this
      ensures match MailStore.Send(env, limits, old(View()), req, now)
        case Refused(why) => r == Refused(why) && View() == old(View())
        case Ok(db) =>
          && View() == db && r.Ok? && r.value.id == FormatId(old(nextSeq))
          && r.value.id in messages && r.value == messages[r.value.id]
      ensures old(Readable()) ==> Readable()
      ensures old(Valid()) && r.Ok? ==> r.value.id !in old(messages)
      ensures old(Valid()) && old(nextSeq) < Uint64Max ==> Valid()
    {
      hide Acceptable;
      hide SumOf;
      hide Stored;
      hide FormatId;
      hide Coherent;
      hide ReadableDb;
      ghost var before := View();
      if MailStore.Send(env, limits, before, req, now).Ok? {
        if Coherent(env, limits, before) {
          SendCoherent(env, limits, before, req, now);
          CoherentNext(env, limits, before);
        }
        SendReadable(env, limits, before, req, now);
      }
      if limits.storedMessages > 0 && |messages| >= limits.storedMessages {
        return Refused(StoreFull);
      }
      if !Acceptable(env, limits, req) {
        return Refused(BadRequest);
      }
      var resolved := Resolve(View(), req.replyTo, req.threadId);
      if resolved.Refused? {
        return Refused(resolved.why);
      }
      var stored := StoredByteCount();
      if limits.storedMailboxBytes > 0 && RequestBytes(env, req) + stored > limits.storedMailboxBytes {
        return Refused(TooManyBytes);
      }
      var msg := Commit(req, resolved.value, now);
      r := Ok(msg);
    }

    /** The message filed in all four indexes under the next identifier. */
    method Commit(req: Request, thread: Id, now: Time) returns (msg: Message)
      modifies this
      ensures msg.id == FormatId(old(nextSeq)) && msg.id in messages && messages[msg.id] == msg
      ensures View() == Stored(env, old(View()), req, thread, now)
    {
      hide Delivered;
      hide FormatId;
      var id := FormatId(nextSeq);
      nextSeq := (nextSeq + 1) % (Uint64Max + 1);
      msg := NewMessage(env, req, id, thread, now);
      threads := threads[msg.threadId := (if msg.threadId in threads then threads[msg.threadId] else []) + [id]];
      if req.replyTo != "" && req.replyTo in messages {
        messages := messages[req.replyTo := Answered(messages[req.replyTo], id, now)];
      }
      messages := messages[id := msg];
      DeliverTo(req.recipients, id, now);
    }

    /** The first real read is recorded; a peek is not. */
    method Read(id: Id, pane: PaneId, peek: bool, now: Time) returns (r: Result<(Message, Delivery)>)
      requires now > 0
      modifies this`deliveries, this`messages
      ensures (old(Valid()) ==> Valid()) && (old(Readable()) ==> Readable())
      ensures match MailStore.Read(old(View()), id, pane, peek, now)
        case Refused(why) => r == Refused(why) && View() == old(View())
        case Ok(db) => View() == db && id in messages && Locate(View(), id, pane).Ok? && r == Ok((messages[id], Locate(View(), id, pane).value))
    {
      hide Coherent;
      hide ReadableDb;
      UpdateKeeps(env, limits, View(), DoRead(id, pane, peek), now);
      var found := Locate(View(), id, pane);
      if found.Refused? {
        return Refused(found.why);
      }
      var d := found.value;
      if !peek && d.readAt == 0 {
        d := d.(readAt := now);
        deliveries := deliveries[pane := deliveries[pane][id := d]];
        messages := messages[id := messages[id].(updatedAt := now)];
      }
      r := Ok((messages[id], d));
    }

    /** An acknowledgement is recorded when it says something new. */
    method Ack(id: Id, pane: PaneId, status: string, note: string, now: Time) returns (r: Result<Delivery>)
      requires now > 0
      modifies this`deliveries, this`messages
      ensures (old(Valid()) ==> Valid()) && (old(Readable()) ==> Readable())
      ensures match MailStore.Ack(env, limits, old(View()), id, pane, status, note, now)
        case Refused(why) => r == Refused(why) && View() == old(View())
        case Ok(db) => View() == db && r == Locate(View(), id, pane)
    {
      hide Coherent;
      hide ReadableDb;
      UpdateKeeps(env, limits, View(), DoAck(id, pane, status, note), now);
      if env.byteLength(note) > limits.ackNoteBytes {
        return Refused(NoteTooLong);
      }
      r := Locate(View(), id, pane);
      if r.Refused? {
        return;
      }
      var d := r.value;
      if d.ackedAt == 0 || d.ackStatus != status || d.ackNote != note {
        d := d.(ackedAt := now, ackStatus := status, ackNote := note);
        deliveries := deliveries[pane := deliveries[pane][id := d]];
        messages := messages[id := messages[id].(updatedAt := now)];
      }
      r := Ok(d);
    }

    method SetLastEventSeq(id: Id, pane: PaneId, seqNo: nat) returns (r: Result<Delivery>)
      modifies this`deliveries
      ensures (old(Valid()) ==> Valid()) && (old(Readable()) ==> Readable())
      ensures match MailStore.SetLastEventSeq(old(View()), id, pane, seqNo)
        case Refused(why) => r == Refused(why) && View() == old(View())
        case Ok(db) => View() == db && r == Locate(View(), id, pane)
    {
      hide Coherent;
      hide ReadableDb;
      UpdateKeeps(env, limits, View(), DoSetSeq(id, pane, seqNo), 1);
      r := Locate(View(), id, pane);
      if r.Ok? {
        var d := r.value.(lastEventSeq := seqNo);
        deliveries := deliveries[pane := deliveries[pane][id := d]];
        r := Ok(d);
      }
    }

    method List(pane: PaneId, unreadOnly: bool) returns (r: Result<seq<Summary>>)
      requires Readable()
      ensures pane == 0 ==> r == Refused(NoRecipient)
      ensures pane != 0 ==> BoxOk(messages, Box(View(), pane)) && r == Ok(ListOf(messages, Box(View(), pane), unreadOnly))
    {
      if pane == 0 {
        return Refused(NoRecipient);
      }
      ReadableBox(View(), pane);
      var list := MailDrain.List(messages, Box(View(), pane), unreadOnly);
      r := Ok(list);
    }

    /** The drain summary; its counts agree with the unread list. */
    method DrainStatus(pane: PaneId, limit: int) returns (r: Result<Status>)
      requires Readable()
      ensures pane == 0 ==> r == Refused(NoRecipient)
      ensures pane != 0 ==>
        && BoxOk(messages, Box(View(), pane)) && r == Ok(StatusOf(messages, Box(View(), pane), limit))
        && r.value.unread + r.value.unacked - r.value.pending == |ListOf(messages, Box(View(), pane), true)|
    {
      hide Coherent;
      if pane == 0 {
        return Refused(NoRecipient);
      }
      ReadableBox(View(), pane);
      CountsAddUp(messages, Box(View(), pane), limit);
      var status := MailDrain.DrainStatus(messages, Box(View(), pane), limit);
      r := Ok(status);
    }

    method CollectMessages(ids: seq<Id>) returns (ms: seq<Message>)
      requires forall i :: 0 <= i < |ids| ==> ids[i] in messages
      ensures ms == MessagesOf(messages, ids)
    {
      ms := [];
      for i := 0 to |ids|
        invariant ms == MessagesOf(messages, ids)[..i]
      {
        ms := ms + [messages[ids[i]]];
      }
    }

    method CollectDeliveries(panes: seq<PaneId>) returns (ds: seq<Delivery>)
      requires forall i :: 0 <= i < |panes| ==> panes[i] in deliveries
      ensures ds == AllMail(deliveries, panes)
    {
      hide Sorted;
      ds := [];
      for i := 0 to |panes|
        invariant ds == AllMail(deliveries, panes[..i])
      {
        var box := deliveries[panes[i]];
        SortedKeys(box);
        ds := ds + MailOf(box, Sorted(box.Keys));
        assert panes[..i + 1][..i] == panes[..i];
      }
      assert panes[..|panes|] == panes;
    }

    /** All of the store, messages by identifier and deliveries by pane and identifier. */
    method Snapshot() returns (s: Snapshot)
      ensures s == Save(View())
    {
      hide Sorted;
      hide Ordered;
      hide AllMail;
      hide MessagesOf;
      SortedKeys(messages);
      var ms := CollectMessages(Sorted(messages.Keys));
      var panes := Ordered(deliveries.Keys);
      assert forall i :: 0 <= i < |panes| ==> panes[i] in panes;
      var ds := CollectDeliveries(panes);
      s := Saved(nextSeq, ms, ds);
    }

    method CollectTopic(topic: string) returns (ids: set<Id>)
      ensures ids == TopicSet(View(), topic)
    {
      ids := {};
      var todo := messages.Keys;
      while todo != {}
        invariant todo <= messages.Keys
        invariant ids == set id | id in messages && id !in todo && topic in messages[id].content.topics
      {
        var id :| id in todo;
        todo := todo - {id};
        if topic in messages[id].content.topics {
          ids := ids + {id};
        }
      }
    }

    /** A thread by one of its messages, or all messages on a topic; `ref` comes trimmed. */
    method Thread(ref: string) returns (r: Option<seq<Message>>)
      requires Readable()
      ensures ThreadsStored(View()) && r == ThreadOf(View(), ref)
    {
      hide Sorted;
      hide SortedAll;
      hide MessagesOf;
      if ref == "" {
        return None;
      }
      var ids;
      if ref in messages {
        ids := SortedThread(View(), messages[ref].threadId);
      } else {
        var found := CollectTopic(ref);
        ids := Sorted(found);
      }
      StoredOnly(View(), ref);
      if ids == [] {
        return None;
      }
      var ms := CollectMessages(ids);
      r := Some(ms);
    }
  }

  // ----- what queries rely on -----

  ghost predicate ReadableDb(db: Db) {
    && (forall id :: id in db.messages ==> db.messages[id].id == id)
    && (forall r :: r in db.deliveries ==> db.deliveries[r].Keys <= db.messages.Keys)
    && ThreadsStored(db)
  }

  lemma ReadableBox(db: Db, pane: PaneId)
    requires ReadableDb(db)
    ensures BoxOk(db.messages, Box(db, pane))
  {
  }

  /** A coherent store can be read. */
  lemma {:induction false} CoherentReadable(env: Env, limits: Limits, db: Db)
    requires Coherent(env, limits, db)
    ensures ReadableDb(db)
  {
    hide FormatId;
    hide SeqOf;
    hide Names;
    hide RepliesOk;
    hide LimitsOk;
    hide ThreadsOk;
    ThreadsAreStored(db);
    forall r, id | r in db.deliveries && id in db.deliveries[r] ensures id in db.messages {
      assert id in Box(db, r);
    }
  }

  lemma {:induction false} CoherentNext(env: Env, limits: Limits, db: Db)
    requires Coherent(env, limits, db)
    ensures FormatId(db.nextSeq) !in db.messages
  {
    hide IdsOk;
    hide FormatId;
    NextUnused(db);
  }

  lemma {:induction false} SendReadable(env: Env, limits: Limits, db: Db, req: Request, now: Time)
    requires MailStore.Send(env, limits, db, req, now).Ok?
    ensures ReadableDb(db) ==> ReadableDb(MailStore.Send(env, limits, db, req, now).value)
  {
    hide FormatId;
    hide Acceptable;
    hide SumOf;
    hide Stored;
    hide ReadableDb;
    if ReadableDb(db) {
      StoredReadable(env, db, req, Resolve(db, req.replyTo, req.threadId).value, now);
    }
  }

  lemma {:induction false} StoredReadable(env: Env, db: Db, req: Request, thread: Id, now: Time)
    requires ReadableDb(db)
    ensures ReadableDb(Stored(env, db, req, thread, now))
  {
    hide FormatId;
    hide Delivered;
    hide ContentOf;
    var out, id := Stored(env, db, req, thread, now), FormatId(db.nextSeq);
    assert db.messages.Keys <= out.messages.Keys && id in out.messages;
    forall r | r in out.deliveries ensures out.deliveries[r].Keys <= out.messages.Keys {
      DeliveredKeys(db.deliveries, req.recipients, id, now, r, db.messages.Keys);
    }
  }

  lemma {:induction false} DeliveredKeys(ds: Boxes, rs: seq<Address>, id: Id, now: Time, r: PaneId, ids: set<Id>)
    requires forall q :: q in ds ==> ds[q].Keys <= ids
    ensures r in Delivered(ds, rs, id, now) ==> Delivered(ds, rs, id, now)[r].Keys <= ids + {id}
  {
    hide Delivered;
    DeliveredBox(ds, rs, id, now, r);
  }

  lemma {:induction false} UpdateKeeps(env: Env, limits: Limits, db: Db, op: Op, now: Time)
    requires !op.DoSend?
    ensures Coherent(env, limits, db) ==> Coherent(env, limits, Apply(env, limits, db, op, now))
    ensures ReadableDb(db) ==> ReadableDb(Apply(env, limits, db, op, now))
  {
    hide Coherent;
    if Coherent(env, limits, db) {
      UpdateCoherent(env, limits, db, op, now);
    }
  }

  /** Every accepted snapshot loads as a store that can be read, coherent or not. */
  lemma {:induction false} RestoredReadable(s: Snapshot)
    requires Restore(s).Loaded?
    ensures ReadableDb(Restore(s).value)
  {
    hide LoadMessages;
    hide LoadDeliveries;
    LoadedMessages(s.messages);
    LoadedBoxes(LoadMessages(s.messages).value.messages, s.deliveries);
  }

  lemma {:induction false} LoadedMessages(ms: seq<Message>)
    requires LoadMessages(ms).Loaded?
    ensures var h := LoadMessages(ms).value;
      && (forall id :: id in h.messages ==> h.messages[id].id == id)
      && (forall t :: t in h.threads ==> forall id :: id in h.threads[t] ==> id in h.messages)
  {
    hide ParseSeq;
    if ms != [] {
      LoadedMessages(ms[..|ms| - 1]);
    }
  }

  lemma {:induction false} LoadedBoxes(messages: map<Id, Message>, ds: seq<Delivery>)
    requires LoadDeliveries(messages, ds).Loaded?
    ensures var boxes := LoadDeliveries(messages, ds).value; forall r :: r in boxes ==> boxes[r].Keys <= messages.Keys
  {
    if ds != [] {
      LoadedBoxes(messages, ds[..|ds| - 1]);
    }
  }

  /** Loading a snapshot into a new store, message by message and delivery by delivery. */
  method RestoreSnapshot(s: Snapshot, env: Env, limits: Limits) returns (r: Load<Store>)
    ensures match Restore(s)
      case Rejected(fault) => r == Rejected(fault)
      case Loaded(db) =>
        r.Loaded? && fresh(r.value) && r.value.View() == db && r.value.Readable() && r.value.env == env && r.value.limits == limits
  {
    hide LoadMessages;
    hide LoadDeliveries;
    hide ReadableDb;
    var half := ReadMessages(s.messages);
    if half.Rejected? {
      return Rejected(half.fault);
    }
    var h := half.value;
    var boxes := ReadDeliveries(h.messages, s.deliveries);
    if boxes.Rejected? {
      return Rejected(boxes.fault);
    }
    var store := new Store(env, limits);
    store.nextSeq := NextAfter(s.nextSeq, h.maxSeq);
    store.messages, store.deliveries, store.threads := h.messages, boxes.value, h.threads;
    RestoredReadable(s);
    r := Loaded(store);
  }

  method ReadMessages(ms: seq<Message>) returns (r: Load<Half>)
    ensures r == LoadMessages(ms)
  {
    hide AddMessage;
    var h := Half(map[], map[], 0);
    for i := 0 to |ms|
      invariant LoadMessages(ms[..i]) == Loaded(h)
    {
      assert ms[..i + 1][..i] == ms[..i];
      var next := AddMessage(h, ms[i]);
      if next.Rejected? {
        MessageFault(ms, i + 1, next.fault);
        return Rejected(next.fault);
      }
      h := next.value;
    }
    assert ms[..|ms|] == ms;
    r := Loaded(h);
  }

  method ReadDeliveries(messages: map<Id, Message>, ds: seq<Delivery>) returns (r: Load<Boxes>)
    ensures r == LoadDeliveries(messages, ds)
  {
    hide AddDelivery;
    var boxes: Boxes := map[];
    for i := 0 to |ds|
      invariant LoadDeliveries(messages, ds[..i]) == Loaded(boxes)
    {
      assert ds[..i + 1][..i] == ds[..i];
      var next := AddDelivery(messages, boxes, ds[i]);
      if next.Rejected? {
        DeliveryFault(messages, ds, i + 1, next.fault);
        return Rejected(next.fault);
      }
      boxes := next.value;
    }
    assert ds[..|ds|] == ds;
    r := Loaded(boxes);
  }

  /** A fault in the first messages is a fault in all. */
  lemma {:induction false} MessageFault(ms: seq<Message>, i: nat, fault: Fault)
    requires i <= |ms| && LoadMessages(ms[..i]) == Rejected(fault)
    ensures LoadMessages(ms) == Rejected(fault)
    decreases |ms| - i
  {
    if i == |ms| {
      assert ms[..i] == ms;
    } else {
      assert ms[..i + 1][..i] == ms[..i];
      MessageFault(ms, i + 1, fault);
    }
  }

  lemma {:induction false} DeliveryFault(messages: map<Id, Message>, ds: seq<Delivery>, i: nat, fault: Fault)
    requires i <= |ds| && LoadDeliveries(messages, ds[..i]) == Rejected(fault)
    ensures LoadDeliveries(messages, ds) == Rejected(fault)
    decreases |ds| - i
  {
    if i == |ds| {
      assert ds[..i] == ds;
    } else {
      assert ds[..i + 1][..i] == ds[..i];
      DeliveryFault(messages, ds, i + 1, fault);
    }
  }
}
