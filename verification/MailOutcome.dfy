/** What mailbox operations do, field by field, told from the request and the store before and after. */
module MailOutcome {
  import opened Common
  import opened MailIds
  import opened MailStore
  import opened MailDrain
  import opened MailSnapshot

  // ----- sending -----

  /** A part as it was given, but for defaults and its measured size. */
  predicate CarriesPart(env: Env, i: nat, given: Part, p: Part) {
    && p.bytes == given.bytes && p.size == |given.bytes|
    && p.name == (if given.name == "" then env.partName(i + 1) else given.name)
    && p.contentType == (if given.contentType == "" then PlainType else given.contentType)
    && p.encoding == (if given.encoding == "" then Utf8 else given.encoding)
  }

  /** The parts hold the request's body, or else each of its parts in turn. */
  predicate Carries(env: Env, req: Request, parts: seq<Part>) {
    if req.body != [] then
      && |parts| == 1 && parts[0].bytes == req.body && parts[0].size == |req.body| && parts[0].name == "body"
      && parts[0].contentType == PlainType && parts[0].encoding == Utf8
    else
      |parts| == |req.parts| && forall i :: 0 <= i < |parts| ==> CarriesPart(env, i, req.parts[i], parts[i])
  }

  predicate ContentFrom(env: Env, req: Request, c: Content, now: Time) {
    && c.sender == req.sender && c.recipients == req.recipients
    && c.topics == req.topics && c.groups == req.groups && c.subject == req.subject
    && Carries(env, req, c.parts) && c.metadata == req.metadata
    && c.createdAt == now && c.expiresAt == req.expiresAt
  }

  /** The thread a new message is in: its parent's, or the one asked for, or one of its own. */
  predicate ThreadFrom(db: Db, req: Request, m: Message) {
    m.threadId ==
      if req.replyTo != "" && req.replyTo in db.messages && db.messages[req.replyTo].threadId != ""
      then db.messages[req.replyTo].threadId
      else if req.replyTo == "" && req.threadId != "" then req.threadId
      else m.id
  }

  /** A pane's box after a message was sent: one new delivery, neither read nor acknowledged, if it is a recipient. */
  ghost predicate GotMail(was: Mail, box: Mail, rs: seq<Address>, r: PaneId, id: Id, now: Time) {
    && (forall i :: 0 <= i < |rs| && rs[i].id == r ==> box == was[id := Delivery(id, rs[i], now, 0, 0, "", "", 0)])
    && ((forall i :: 0 <= i < |rs| ==> rs[i].id != r) ==> box == was)
  }

  /** Everything a send does to the store. */
  ghost predicate Posted(env: Env, db: Db, out: Db, req: Request, now: Time) {
    var id := FormatId(db.nextSeq);
    && out.nextSeq == (if db.nextSeq == Uint64Max then 0 else db.nextSeq + 1)
    && out.messages.Keys == db.messages.Keys + {id}
    && PostedMessage(env, db, out.messages[id], req, now) && out.messages[id].id == id
    && (forall x :: x in db.messages && x != req.replyTo ==> out.messages[x] == db.messages[x])
    && (req.replyTo in db.messages && req.replyTo != "" ==>
          out.messages[req.replyTo] ==
            db.messages[req.replyTo].(replies := db.messages[req.replyTo].replies + [id], updatedAt := now))
    && (forall r :: GotMail(Box(db, r), Box(out, r), req.recipients, r, id, now))
    && (forall t :: ThreadIds(out, t) == if t == out.messages[id].threadId then ThreadIds(db, t) + [id] else ThreadIds(db, t))
  }

  predicate PostedMessage(env: Env, db: Db, m: Message, req: Request, now: Time) {
    && ContentFrom(env, req, m.content, now) && ThreadFrom(db, req, m)
    && m.inReplyTo == req.replyTo && m.replies == [] && m.updatedAt == now
  }

  lemma {:induction false} DeliveredGot(ds: Boxes, rs: seq<Address>, id: Id, now: Time, r: PaneId)
    requires MailStore.DistinctIds(rs)
    ensures GotMail(BoxOf(ds, r), BoxOf(Delivered(ds, rs, id, now), r), rs, r, id, now)
    decreases |rs|
  {
    if rs != [] {
      var n := |rs| - 1;
      assert forall i :: 0 <= i < n ==> rs[..n][i] == rs[i];
      DeliveredGot(ds, rs[..n], id, now, r);
      assert rs[n].id == r ==> forall i :: 0 <= i < n ==> rs[..n][i].id != r;
    }
  }

  lemma {:induction false} PartsAre(env: Env, req: Request)
    ensures |PartsOf(env, req)| == |Given(req)|
    ensures forall i :: 0 <= i < |Given(req)| ==> PartsOf(env, req)[i] == NormalPart(env, i, Given(req)[i])
  {
    hide NormalPart;
  }

  lemma {:induction false} PartsCarry(env: Env, req: Request)
    ensures Carries(env, req, PartsOf(env, req))
  {
    hide PartsOf;
    PartsAre(env, req);
    if req.body != [] {
      assert PartsOf(env, req)[0] == NormalPart(env, 0, Given(req)[0]);
    } else {
      forall i | 0 <= i < |req.parts| ensures CarriesPart(env, i, req.parts[i], PartsOf(env, req)[i]) {
      }
    }
  }

  lemma {:induction false} ContentCarries(env: Env, req: Request, now: Time)
    ensures ContentFrom(env, req, ContentOf(env, req, now), now)
  {
    hide PartsOf;
    hide Carries;
    PartsCarry(env, req);
  }

  lemma {:induction false} StoredPosts(env: Env, db: Db, req: Request, now: Time, thread: Id)
    requires FormatId(db.nextSeq) !in db.messages && MailStore.DistinctIds(req.recipients)
    requires db.nextSeq <= Uint64Max && Resolve(db, req.replyTo, req.threadId) == Ok(thread)
    ensures Posted(env, db, Stored(env, db, req, thread, now), req, now)
  {
    hide FormatId;
    hide Delivered;
    hide ContentOf;
    hide ContentFrom;
    hide GotMail;
    var out := Stored(env, db, req, thread, now);
    ContentCarries(env, req, now);
    forall r ensures GotMail(Box(db, r), Box(out, r), req.recipients, r, FormatId(db.nextSeq), now) {
      DeliveredGot(db.deliveries, req.recipients, FormatId(db.nextSeq), now, r);
      assert Box(db, r) == BoxOf(db.deliveries, r) && Box(out, r) == BoxOf(out.deliveries, r);
    }
  }

  /** A send that goes through stores the request as it was made, and changes nothing else. */
  lemma {:induction false} SendPosts(env: Env, limits: Limits, db: Db, req: Request, now: Time)
    requires FormatId(db.nextSeq) !in db.messages && db.nextSeq <= Uint64Max
    ensures var r := Send(env, limits, db, req, now); r.Ok? ==> Posted(env, db, r.value, req, now)
  {
    hide FormatId;
    hide Stored;
    hide Posted;
    hide SumOf;
    hide LabelsOk;
    hide BodyOk;
    hide MetadataOk;
    if Send(env, limits, db, req, now).Ok? {
      StoredPosts(env, db, req, now, Resolve(db, req.replyTo, req.threadId).value);
    }
  }

  /** Which sends go through, the request itself being acceptable, and why another does not. */
  lemma {:induction false} SendDecides(env: Env, limits: Limits, db: Db, req: Request, now: Time)
    requires Acceptable(env, limits, req)
    ensures var r := Send(env, limits, db, req, now);
      var full := limits.storedMessages > 0 && |db.messages| >= limits.storedMessages;
      var orphan := req.replyTo != "" && req.replyTo !in db.messages;
      var astray := req.replyTo != "" && req.replyTo in db.messages && req.threadId != ""
                    && req.threadId != db.messages[req.replyTo].threadId;
      var large := limits.storedMailboxBytes > 0
                   && RequestBytes(env, req) + StoredBytes(env, db) > limits.storedMailboxBytes;
      && (r == Refused(StoreFull) <==> full)
      && (r == Refused(NoParent) <==> !full && orphan)
      && (r == Refused(WrongThread) <==> !full && astray)
      && (r == Refused(TooManyBytes) <==> !full && !orphan && !astray && large)
      && (r.Ok? <==> !full && !orphan && !astray && !large)
  {
    hide Acceptable;
    hide SumOf;
    hide Stored;
  }

  // ----- what is stored, over every run -----

  /** A stored part: not empty, within the limit, and text without control characters, or base64. */
  predicate PartWithin(env: Env, limits: Limits, p: Part) {
    && 0 < |p.bytes| == p.size && (limits.partBytes > 0 ==> |p.bytes| <= limits.partBytes)
    && (p.encoding == Base64 ||
        (p.encoding == Utf8 && env.validUtf8(p.bytes) &&
         forall i :: 0 <= i < |p.bytes| ==> p.bytes[i] >= 32 || p.bytes[i] == 9 || p.bytes[i] == 10))
  }

  predicate Named(env: Env, a: Address) {
    a.id != 0 && !env.blank(a.name)
  }

  predicate Labelled(env: Env, labels: seq<string>) {
    && (forall i :: 0 <= i < |labels| ==> env.labelOk(labels[i]))
    && (forall i, j :: 0 <= i < |labels| && 0 <= j < |labels| && labels[i] == labels[j] ==> i == j)
  }

  /** Everything a stored message has to meet. */
  ghost predicate ContentWithin(env: Env, limits: Limits, c: Content) {
    && Named(env, c.sender) && (forall i :: 0 <= i < |c.recipients| ==> Named(env, c.recipients[i]))
    && 0 < |c.recipients| && (limits.recipientsPerMsg > 0 ==> |c.recipients| <= limits.recipientsPerMsg)
    && (forall i, j :: 0 <= i < |c.recipients| && 0 <= j < |c.recipients| && c.recipients[i].id == c.recipients[j].id ==> i == j)
    && env.byteLength(c.subject) <= limits.subjectBytes && env.plainText(c.subject)
    && Labelled(env, c.topics) && Labelled(env, c.groups)
    && c.parts != [] && (forall i :: 0 <= i < |c.parts| ==> PartWithin(env, limits, c.parts[i]))
    && (limits.totalBodyBytes > 0 ==> BodySize(c.parts) <= limits.totalBodyBytes)
    && (forall k :: k in c.metadata ==> k != "" && !("amux." <= k) && env.jsonOk(c.metadata[k]))
    && (limits.metadataBytes > 0 && c.metadata != map[] ==> env.jsonSize(c.metadata) <= limits.metadataBytes)
  }

  ghost predicate ContentsWithin(env: Env, limits: Limits, db: Db) {
    forall id :: id in db.messages ==> ContentWithin(env, limits, db.messages[id].content)
  }

  lemma {:induction false} PartsWithin(env: Env, limits: Limits, req: Request)
    ensures var parts := PartsOf(env, req);
      BodyOk(env, req, limits) <==>
        && (req.body == [] || req.parts == [])
        && parts != [] && (forall i :: 0 <= i < |parts| ==> PartWithin(env, limits, parts[i]))
        && (limits.totalBodyBytes > 0 ==> BodySize(parts) <= limits.totalBodyBytes)
  {
    hide BodySize;
    hide PartsOf;
    var parts := PartsOf(env, req);
    PartsAre(env, req);
    forall i | 0 <= i < |parts| ensures PartWithin(env, limits, parts[i]) <==> PartOk(env, parts[i], limits.partBytes) {
    }
  }

  /** A request is acceptable exactly if it does not give its body twice and what it would store is in order. */
  lemma {:induction false} AcceptedWithin(env: Env, limits: Limits, req: Request, now: Time)
    ensures Acceptable(env, limits, req) <==>
      (req.body == [] || req.parts == []) && ContentWithin(env, limits, ContentOf(env, req, now))
  {
    hide BodyOk;
    hide PartWithin;
    hide BodySize;
    PartsWithin(env, limits, req);
  }

  lemma {:induction false} ApplyWithin(env: Env, limits: Limits, db: Db, op: Op, now: Time)
    requires ContentsWithin(env, limits, db)
    ensures ContentsWithin(env, limits, Apply(env, limits, db, op, now))
  {
    hide ContentWithin;
    hide Acceptable;
    hide FormatId;
    hide Delivered;
    hide ContentOf;
    hide SumOf;
    if op.DoSend? {
      if Send(env, limits, db, op.req, now).Ok? {
        AcceptedWithin(env, limits, op.req, now);
      }
    } else if Locate(db, op.id, op.r).Ok? {
      assert op.id in db.messages;
    }
  }

  /** Over every run every stored message is within the limits and well formed. */
  lemma {:induction false} RunWithin(env: Env, limits: Limits, ops: seq<(Op, Time)>)
    ensures ContentsWithin(env, limits, Run(env, limits, ops))
    decreases |ops|
  {
    if ops != [] {
      hide ContentsWithin;
      hide Apply;
      var n := |ops| - 1;
      RunWithin(env, limits, ops[..n]);
      ApplyWithin(env, limits, Run(env, limits, ops[..n]), ops[n].0, ops[n].1);
    }
  }

  // ----- reading, acknowledging, event numbers -----

  /** Only the delivery of `id` to r changes, to d; and only the message's own time of change. */
  ghost predicate OnlyDelivery(db: Db, out: Db, id: Id, r: PaneId, d: Delivery, updatedAt: Time) {
    && id in db.messages && id in Box(db, r)
    && out.nextSeq == db.nextSeq && out.threads == db.threads
    && out.messages == db.messages[id := db.messages[id].(updatedAt := updatedAt)]
    && out.deliveries.Keys == db.deliveries.Keys
    && forall q :: Box(out, q) == if q == r then Box(db, q)[id := d] else Box(db, q)
  }

  /** A read is refused without a delivery; it sets the time of reading, once, and nothing at all when peeking. */
  lemma {:induction false} ReadSets(db: Db, id: Id, r: PaneId, peek: bool, now: Time)
    ensures var out := Read(db, id, r, peek, now);
      && (out.Ok? <==> r != 0 && id in db.messages && id in Box(db, r))
      && (out.Ok? && (peek || Box(db, r)[id].readAt != 0) ==> out.value == db)
      && (out.Ok? && !peek && Box(db, r)[id].readAt == 0 ==>
            OnlyDelivery(db, out.value, id, r, Box(db, r)[id].(readAt := now), now))
  {
  }

  /** An acknowledgement sets time, status and note, unless just that one is recorded already. */
  lemma {:induction false} AckSets(env: Env, limits: Limits, db: Db, id: Id, r: PaneId, status: string, note: string, now: Time)
    ensures var out := Ack(env, limits, db, id, r, status, note, now);
      && (out.Ok? <==> env.byteLength(note) <= limits.ackNoteBytes && r != 0 && id in db.messages && id in Box(db, r))
      && (out.Ok? ==>
            var d := Box(db, r)[id];
            if d.ackedAt != 0 && d.ackStatus == status && d.ackNote == note then out.value == db
            else OnlyDelivery(db, out.value, id, r, d.(ackedAt := now, ackStatus := status, ackNote := note), now))
  {
  }

  lemma {:induction false} EventSeqSets(db: Db, id: Id, r: PaneId, seqNo: nat)
    ensures var out := SetLastEventSeq(db, id, r, seqNo);
      && (out.Ok? <==> r != 0 && id in db.messages && id in Box(db, r))
      && (out.Ok? ==>
            OnlyDelivery(db, out.value, id, r, Box(db, r)[id].(lastEventSeq := seqNo), db.messages[id].updatedAt))
  {
  }

  // ----- threads, lists, summaries -----

  /** ms are the messages with identifiers ids, ascending, and these are just the stored ones that qualify. */
  ghost predicate Shows(messages: map<Id, Message>, ids: seq<Id>, ms: seq<Message>, which: set<Id>) {
    && Ascending(ids) && |ms| == |ids|
    && (forall id :: id in ids <==> id in which)
    && forall i :: 0 <= i < |ids| ==> ids[i] in messages && ms[i] == messages[ids[i]]
  }

  /** By one of its messages: the whole thread, each message once. */
  lemma {:induction false} ThreadByMessage(db: Db, ref: string) returns (ids: seq<Id>)
    requires ThreadsOk(db) && ThreadsStored(db) && ref in db.messages && ref != ""
    ensures ThreadOf(db, ref).Some?
    ensures Shows(db.messages, ids, ThreadOf(db, ref).value,
                  set id | id in db.messages && db.messages[id].threadId == db.messages[ref].threadId)
  {
    hide SortedThread;
    hide ThreadsOk;
    hide Sorted;
    hide Ascending;
    StoredOnly(db, ref);
    ids := SortedThread(db, db.messages[ref].threadId);
    ThreadAscends(db, db.messages[ref].threadId);
    assert ref in ids;
  }

  /** By a topic: all messages on it, if there is one. */
  lemma {:induction false} ThreadByTopic(db: Db, ref: string) returns (ids: seq<Id>)
    requires ThreadsStored(db) && ref !in db.messages
    ensures ThreadOf(db, ref).Some? <==> ref != "" && exists id :: id in db.messages && ref in db.messages[id].content.topics
    ensures ThreadOf(db, ref).Some? ==>
      Shows(db.messages, ids, ThreadOf(db, ref).value, set id | id in db.messages && ref in db.messages[id].content.topics)
  {
    hide SortedThread;
    hide Sorted;
    hide Ascending;
    StoredOnly(db, ref);
    ids := Sorted(TopicSet(db, ref));
    assert ids != [] ==> ids[0] in TopicSet(db, ref);
    if id :| id in db.messages && ref in db.messages[id].content.topics {
      assert id in TopicSet(db, ref) && id in ids;
    }
  }

  lemma {:induction false} ThreadAscends(db: Db, t: Id)
    requires ThreadsOk(db)
    ensures Ascending(SortedThread(db, t))
    ensures forall id :: id in SortedThread(db, t) <==> id in db.messages && db.messages[id].threadId == t
  {
    hide SortedAll;
    hide NotDescending;
    hide NoRepeats;
    hide Ascending;
    ThreadNoRepeats(db, t);
    SortedAscends(SortedThread(db, t), ThreadIds(db, t));
  }

  /** Sorting a list without repeats gives a strictly ascending one. */
  lemma {:induction false} SortedAscends(ids: seq<Id>, was: seq<Id>)
    requires NotDescending(ids) && multiset(ids) == multiset(was) && NoRepeats(was)
    ensures Ascending(ids) && forall id :: id in ids <==> id in was
  {
    hide Less;
    hide NoRepeats;
    assert forall id :: id in ids <==> id in multiset(ids);
    assert forall id :: id in was <==> id in multiset(was);
    forall i, j | 0 <= i < j < |ids| ensures Less(ids[i], ids[j]) {
      LessTotal(ids[i], ids[j]);
      Once(was, ids[i]);
      TwiceCounts(ids, i, j);
    }
  }

  lemma ThreadNoRepeats(db: Db, t: Id)
    requires ThreadsOk(db)
    ensures NoRepeats(ThreadIds(db, t))
  {
    NoneNoRepeats();
  }

  lemma {:induction false} TwiceCounts(ids: seq<Id>, i: nat, j: nat)
    requires i < j < |ids|
    ensures ids[i] == ids[j] ==> multiset(ids)[ids[i]] >= 2
  {
    assert ids == ids[..j] + [ids[j]] + ids[j + 1..];
    assert ids[..j] == ids[..i] + [ids[i]] + ids[i + 1..j];
  }

  predicate IsSummary(m: Message, d: Delivery, s: Summary) {
    && s.messageId == m.id && s.threadId == m.threadId && s.inReplyTo == m.inReplyTo
    && s.sender == m.content.sender && s.subject == m.content.subject
    && s.topics == m.content.topics && s.groups == m.content.groups && s.createdAt == m.content.createdAt
    && s.bodySize == BodySize(m.content.parts) && s.partCount == |m.content.parts| && s.delivery == d
  }

  ghost predicate Lists(messages: map<Id, Message>, box: Mail, which: set<Id>, ids: seq<Id>, list: seq<Summary>) {
    && Ascending(ids) && |list| == |ids| && (forall id :: id in ids <==> id in which)
    && forall i :: 0 <= i < |ids| ==> ids[i] in messages && ids[i] in box && IsSummary(messages[ids[i]], box[ids[i]], list[i])
  }

  /** A list shows all deliveries, or just those neither read nor acknowledged, by identifier. */
  lemma {:induction false} ListShows(messages: map<Id, Message>, box: Mail, unreadOnly: bool) returns (ids: seq<Id>)
    requires BoxOk(messages, box)
    ensures Lists(messages, box, (set id | id in box && (unreadOnly ==> box[id].readAt == 0 && box[id].ackedAt == 0)),
                  ids, ListOf(messages, box, unreadOnly))
  {
    hide Sorted;
    ids := Sorted(Listed(box, unreadOnly));
    SortedStored(messages, box, Listed(box, unreadOnly));
  }

  /** The drain summary's counts and identifiers, and how many of the newest pending messages it shows. */
  lemma {:induction false} StatusShows(messages: map<Id, Message>, box: Mail, limit: int)
    requires BoxOk(messages, box)
    ensures var s, most := StatusOf(messages, box, limit), if limit <= 0 then 5 else limit;
      && s.unread == |set id | id in box && box[id].readAt == 0|
      && s.unacked == |set id | id in box && box[id].ackedAt == 0|
      && s.pending == |set id | id in box && (box[id].readAt == 0 || box[id].ackedAt == 0)| == |s.pendingIds|
      && Ascending(s.pendingIds)
      && (forall id :: id in s.pendingIds <==> id in box && (box[id].readAt == 0 || box[id].ackedAt == 0))
      && |s.latest| == (if s.pending < most then s.pending else most)
      && (s.hashed == None <==> s.pending == 0)
  {
    hide Sorted;
    hide LatestOf;
    hide Newest;
    hide Preimage;
    LatestAreNewest(messages, box, limit);
    var ids := Sorted(PendingIds(box));
    SortedStored(messages, box, PendingIds(box));
    SameLength(Newest(Summaries(messages, box, ids)), Summaries(messages, box, ids));
    assert UnreadIds(box) == set id | id in box && box[id].readAt == 0;
    assert UnackedIds(box) == set id | id in box && box[id].ackedAt == 0;
    assert PendingIds(box) == set id | id in box && (box[id].readAt == 0 || box[id].ackedAt == 0);
  }

  lemma SameLength(a: seq<Summary>, b: seq<Summary>)
    requires multiset(a) == multiset(b)
    ensures |a| == |b|
  {
    assert |multiset(a)| == |a| && |multiset(b)| == |b|;
  }

  /** Newest first is by time of delivery, later identifiers first among equals. */
  lemma {:induction false} NewestFirstMeans(list: seq<Summary>)
    ensures NewestFirst(list) <==>
      forall i, j :: 0 <= i < j < |list| ==>
        && list[i].delivery.deliveredAt >= list[j].delivery.deliveredAt
        && (list[i].delivery.deliveredAt == list[j].delivery.deliveredAt ==> Less(list[j].messageId, list[i].messageId))
  {
  }

  // ----- which snapshots are accepted -----

  predicate MessagesAccepted(ms: seq<Message>) {
    && (forall i :: 0 <= i < |ms| ==> ms[i].id != "")
    && (forall i, j :: 0 <= i < j < |ms| ==> ms[i].id != ms[j].id)
  }

  predicate SameDelivery(d: Delivery, e: Delivery) {
    d.messageId == e.messageId && d.recipient.id == e.recipient.id
  }

  predicate DeliveriesAccepted(messages: map<Id, Message>, ds: seq<Delivery>) {
    && (forall i :: 0 <= i < |ds| ==> ds[i].messageId != "" && ds[i].recipient.id != 0 && ds[i].messageId in messages)
    && (forall i, j :: 0 <= i < j < |ds| ==> !SameDelivery(ds[i], ds[j]))
  }

  predicate DeliveryAccepted(s: Snapshot, i: nat)
    requires i < |s.deliveries|
  {
    s.deliveries[i].messageId != "" && s.deliveries[i].recipient.id != 0 && Holds(s.messages, s.deliveries[i].messageId)
  }

  predicate Holds(ms: seq<Message>, id: Id) {
    exists i :: 0 <= i < |ms| && ms[i].id == id
  }

  /** The messages loaded are just those listed, each filed under its identifier. */
  ghost predicate MessagesLoaded(ms: seq<Message>, messages: map<Id, Message>) {
    && (forall id :: id in messages <==> Holds(ms, id))
    && (forall i :: 0 <= i < |ms| ==> ms[i].id in messages && messages[ms[i].id] == ms[i])
  }

  predicate HoldsDelivery(ds: seq<Delivery>, r: PaneId, id: Id) {
    exists i :: 0 <= i < |ds| && ds[i].messageId == id && ds[i].recipient.id == r
  }

  ghost predicate DeliveriesLoaded(ds: seq<Delivery>, boxes: Boxes) {
    && (forall r, id :: id in BoxOf(boxes, r) <==> HoldsDelivery(ds, r, id))
    && (forall i :: 0 <= i < |ds| ==> IsFiled(boxes, ds[i]))
  }

  predicate IsFiled(boxes: Boxes, d: Delivery) {
    d.messageId in BoxOf(boxes, d.recipient.id) && BoxOf(boxes, d.recipient.id)[d.messageId] == d
  }

  lemma {:induction false} HoldsSnoc(ms: seq<Message>, m: Message, id: Id)
    ensures Holds(ms + [m], id) <==> Holds(ms, id) || m.id == id
  {
    if Holds(ms, id) {
      var i :| 0 <= i < |ms| && ms[i].id == id;
      assert (ms + [m])[i].id == id;
    }
    assert (ms + [m])[|ms|] == m;
  }

  lemma {:induction false} AcceptedSnoc(ms: seq<Message>, m: Message)
    ensures MessagesAccepted(ms + [m]) <==> MessagesAccepted(ms) && m.id != "" && !Holds(ms, m.id)
  {
    var all := ms + [m];
    assert all[|ms|] == m && forall i :: 0 <= i < |ms| ==> all[i] == ms[i];
  }

  lemma {:induction false} LoadedSnoc(ms: seq<Message>, m: Message, messages: map<Id, Message>)
    requires MessagesLoaded(ms, messages) && m.id !in messages
    ensures MessagesLoaded(ms + [m], messages[m.id := m])
  {
    hide Holds;
    forall id ensures id in messages[m.id := m] <==> Holds(ms + [m], id) {
      HoldsSnoc(ms, m, id);
    }
  }

  lemma {:induction false} LoadsAllMessages(ms: seq<Message>)
    ensures LoadMessages(ms).Loaded? <==> MessagesAccepted(ms)
    ensures LoadMessages(ms).Loaded? ==> MessagesLoaded(ms, LoadMessages(ms).value.messages)
    decreases |ms|
  {
    hide ParseSeq;
    hide MessagesAccepted;
    hide Holds;
    if ms == [] {
      NoneAccepted();
    } else {
      var n := |ms| - 1;
      LoadsAllMessages(ms[..n]);
      assert ms == ms[..n] + [ms[n]];
      AcceptedSnoc(ms[..n], ms[n]);
      if LoadMessages(ms).Loaded? {
        LoadedSnoc(ms[..n], ms[n], LoadMessages(ms[..n]).value.messages);
      }
    }
  }

  lemma NoneAccepted()
    ensures MessagesAccepted([]) && forall id :: !Holds([], id)
    ensures forall messages :: DeliveriesAccepted(messages, [])
    ensures forall r, id :: !HoldsDelivery([], r, id)
  {
  }

  lemma {:induction false} HoldsDeliverySnoc(ds: seq<Delivery>, d: Delivery, r: PaneId, id: Id)
    ensures HoldsDelivery(ds + [d], r, id) <==> HoldsDelivery(ds, r, id) || (d.messageId == id && d.recipient.id == r)
  {
    if HoldsDelivery(ds, r, id) {
      var i :| 0 <= i < |ds| && ds[i].messageId == id && ds[i].recipient.id == r;
      assert (ds + [d])[i] == ds[i];
    }
    assert (ds + [d])[|ds|] == d;
  }

  lemma {:induction false} DeliveredSnoc(messages: map<Id, Message>, ds: seq<Delivery>, d: Delivery)
    ensures DeliveriesAccepted(messages, ds + [d]) <==>
      && DeliveriesAccepted(messages, ds) && d.messageId != "" && d.recipient.id != 0 && d.messageId in messages
      && !HoldsDelivery(ds, d.recipient.id, d.messageId)
  {
    var all := ds + [d];
    assert all[|ds|] == d && forall i :: 0 <= i < |ds| ==> all[i] == ds[i];
    assert forall i :: 0 <= i < |ds| ==>
      (SameDelivery(all[i], d) <==> ds[i].messageId == d.messageId && ds[i].recipient.id == d.recipient.id);
  }

  lemma {:induction false} FiledSnoc(ds: seq<Delivery>, d: Delivery, boxes: Boxes)
    requires DeliveriesLoaded(ds, boxes) && d.messageId !in BoxOf(boxes, d.recipient.id)
    ensures DeliveriesLoaded(ds + [d], boxes[d.recipient.id := BoxOf(boxes, d.recipient.id)[d.messageId := d]])
  {
    hide HoldsDelivery;
    var out := boxes[d.recipient.id := BoxOf(boxes, d.recipient.id)[d.messageId := d]];
    forall r, id ensures id in BoxOf(out, r) <==> HoldsDelivery(ds + [d], r, id) {
      HoldsDeliverySnoc(ds, d, r, id);
      assert id in BoxOf(boxes, r) <==> HoldsDelivery(ds, r, id);
    }
    forall i | 0 <= i < |ds + [d]| ensures IsFiled(out, (ds + [d])[i]) {
      assert i < |ds| ==> IsFiled(boxes, ds[i]);
    }
  }

  lemma {:induction false} LoadsAllDeliveries(messages: map<Id, Message>, ds: seq<Delivery>)
    ensures LoadDeliveries(messages, ds).Loaded? <==> DeliveriesAccepted(messages, ds)
    ensures LoadDeliveries(messages, ds).Loaded? ==> DeliveriesLoaded(ds, LoadDeliveries(messages, ds).value)
    decreases |ds|
  {
    hide DeliveriesAccepted;
    hide HoldsDelivery;
    hide IsFiled;
    if ds == [] {
      NoneAccepted();
    } else {
      var n := |ds| - 1;
      LoadsAllDeliveries(messages, ds[..n]);
      assert ds == ds[..n] + [ds[n]];
      DeliveredSnoc(messages, ds[..n], ds[n]);
      if LoadDeliveries(messages, ds).Loaded? {
        FiledSnoc(ds[..n], ds[n], LoadDeliveries(messages, ds[..n]).value);
      }
    }
  }

  /**
   * A snapshot is accepted exactly if identifiers are there and distinct and
   * deliveries are of listed messages, no two of one message to one pane;
   * what is loaded is then what it lists.
   */
  lemma {:induction false} RestoreDecides(s: Snapshot)
    ensures Restore(s).Loaded? <==>
      && MessagesAccepted(s.messages)
      && (forall i :: 0 <= i < |s.deliveries| ==> DeliveryAccepted(s, i))
      && (forall i, j :: 0 <= i < j < |s.deliveries| ==> !SameDelivery(s.deliveries[i], s.deliveries[j]))
    ensures Restore(s).Loaded? ==>
      && MessagesLoaded(s.messages, Restore(s).value.messages)
      && DeliveriesLoaded(s.deliveries, Restore(s).value.deliveries)
  {
    hide LoadMessages;
    hide LoadDeliveries;
    hide DeliveriesLoaded;
    hide Holds;
    LoadsAllMessages(s.messages);
    if LoadMessages(s.messages).Loaded? {
      var messages := LoadMessages(s.messages).value.messages;
      LoadsAllDeliveries(messages, s.deliveries);
      var ds := s.deliveries;
      assert forall i :: 0 <= i < |ds| ==>
        (DeliveryAccepted(s, i) <==> ds[i].messageId != "" && ds[i].recipient.id != 0 && ds[i].messageId in messages);
    }
  }
}
