/**
 * The mailbox store: messages, their deliveries, their threads and the replies
 * to them, four indexes that every operation keeps in step.
 */
module MailStore {
  import opened Common
  import opened MailIds

  type PaneId = nat

  /** A point in time; 0 is the zero time, which no clock reading is. */
  type Time = nat

  type Metadata = map<string, seq<byte>>

  datatype Address = Address(id: PaneId, name: string, host: string)

  datatype Part = Part(name: string, contentType: string, encoding: string, bytes: seq<byte>, size: nat)

  /** What a message says, fixed when it is sent. */
  datatype Content = Content(
    sender: Address, recipients: seq<Address>, topics: seq<string>, groups: seq<string>,
    subject: string, parts: seq<Part>, metadata: Metadata, createdAt: Time, expiresAt: Time
  )

  datatype Message = Message(id: Id, threadId: Id, inReplyTo: Id, replies: seq<Id>, content: Content, updatedAt: Time)

  datatype Delivery = Delivery(
    messageId: Id, recipient: Address, deliveredAt: Time, readAt: Time,
    ackedAt: Time, ackStatus: string, ackNote: string, lastEventSeq: nat
  )

  datatype Request = Request(
    sender: Address, recipients: seq<Address>, topics: seq<string>, groups: seq<string>,
    subject: string, body: seq<byte>, parts: seq<Part>, metadata: Metadata,
    replyTo: Id, threadId: Id, expiresAt: Time
  )

  /** A limit of 0 or less on parts, bodies, metadata, recipients, messages or mailbox bytes does not limit. */
  datatype Limits = Limits(
    subjectBytes: int, partBytes: int, totalBodyBytes: int, metadataBytes: int, ackNoteBytes: int,
    recipientsPerMsg: int, storedMessages: int, storedMailboxBytes: int
  )

  /** Text and JSON tests that come from libraries. */
  datatype Env = Env(
    blank: string -> bool,
    byteLength: string -> nat,
    plainText: string -> bool,
    validUtf8: seq<byte> -> bool,
    labelOk: string -> bool,
    jsonOk: seq<byte> -> bool,
    jsonSize: Metadata -> nat,
    partName: nat -> string
  )

  datatype Result<T> = Ok(value: T) | Refused(why: Refusal)

  datatype Refusal = StoreFull | BadRequest | NoParent | WrongThread | TooManyBytes | NoRecipient | NoMessage | NotDelivered | NoteTooLong

  // ----- checking a request -----

  predicate AddressOk(env: Env, a: Address) {
    a.id != 0 && !env.blank(a.name)
  }

  predicate Within(n: nat, limit: int) {
    limit > 0 ==> n <= limit
  }

  predicate DistinctIds(rs: seq<Address>) {
    forall i, j :: 0 <= i < j < |rs| ==> rs[i].id != rs[j].id
  }

  predicate RecipientsOk(env: Env, rs: seq<Address>, limit: int) {
    rs != [] && Within(|rs|, limit) && DistinctIds(rs) && forall i :: 0 <= i < |rs| ==> AddressOk(env, rs[i])
  }

  predicate LabelsOk(env: Env, labels: seq<string>) {
    && (forall i :: 0 <= i < |labels| ==> env.labelOk(labels[i]))
    && (forall i, j :: 0 <= i < j < |labels| ==> labels[i] != labels[j])
  }

  const Utf8 := "utf-8"
  const Base64 := "base64"
  const PlainType := "text/plain; charset=utf-8"

  /** A part with its defaults filled in and its size measured. */
  function NormalPart(env: Env, i: nat, p: Part): Part {
    Part(if p.name == "" then env.partName(i + 1) else p.name,
         if p.contentType == "" then PlainType else p.contentType,
         if p.encoding == "" then Utf8 else p.encoding,
         p.bytes, |p.bytes|)
  }

  predicate PartOk(env: Env, p: Part, limit: int) {
    && Within(p.size, limit) && p.size > 0
    && (p.encoding == Base64 ||
        (p.encoding == Utf8 && env.validUtf8(p.bytes) &&
         forall i :: 0 <= i < |p.bytes| ==> p.bytes[i] >= 0x20 || p.bytes[i] == 10 || p.bytes[i] == 9))
  }

  /** The parts a request gives: a bare body is one part. */
  function Given(req: Request): seq<Part> {
    if req.body != [] then [Part("body", PlainType, Utf8, req.body, 0)] else req.parts
  }

  function PartsOf(env: Env, req: Request): seq<Part> {
    seq(|Given(req)|, i requires 0 <= i < |Given(req)| => NormalPart(env, i, Given(req)[i]))
  }

  function BodySize(parts: seq<Part>): nat {
    if parts == [] then 0 else BodySize(parts[..|parts| - 1]) + parts[|parts| - 1].size
  }

  predicate BodyOk(env: Env, req: Request, limits: Limits) {
    var parts := PartsOf(env, req);
    && !(req.body != [] && req.parts != []) && parts != []
    && (forall i :: 0 <= i < |parts| ==> PartOk(env, parts[i], limits.partBytes))
    && Within(BodySize(parts), limits.totalBodyBytes)
  }

  function MetadataBytes(env: Env, m: Metadata): nat {
    if m == map[] then 0 else env.jsonSize(m)
  }

  predicate MetadataOk(env: Env, m: Metadata, limit: int) {
    && (forall k :: k in m ==> k != "" && !("amux." <= k) && env.jsonOk(m[k]))
    && Within(MetadataBytes(env, m), limit)
  }

  /** Everything about a request that can be checked without looking at the store. */
  predicate Acceptable(env: Env, limits: Limits, req: Request) {
    && AddressOk(env, req.sender)
    && RecipientsOk(env, req.recipients, limits.recipientsPerMsg)
    && env.byteLength(req.subject) <= limits.subjectBytes && env.plainText(req.subject)
    && LabelsOk(env, req.topics) && LabelsOk(env, req.groups)
    && BodyOk(env, req, limits)
    && MetadataOk(env, req.metadata, limits.metadataBytes)
  }

  // ----- the store as a value -----

  datatype Db = Db(
    nextSeq: nat,
    messages: map<Id, Message>,
    deliveries: map<PaneId, map<Id, Delivery>>,
    threads: map<Id, seq<Id>>
  )

  const Empty: Db := Db(1, map[], map[], map[])

  /** The deliveries to one pane. */
  function Box(db: Db, r: PaneId): map<Id, Delivery> {
    if r in db.deliveries then db.deliveries[r] else map[]
  }

  function ThreadIds(db: Db, t: Id): seq<Id> {
    if t in db.threads then db.threads[t] else []
  }

  function MessageBytes(env: Env, m: Message): nat {
    BodySize(m.content.parts) + MetadataBytes(env, m.content.metadata)
  }

  function Sizes(env: Env, messages: map<Id, Message>): map<Id, nat> {
    map id | id in messages :: MessageBytes(env, messages[id])
  }

  ghost function SumOf(sizes: map<Id, nat>): nat {
    if sizes == map[] then 0
    else
      var id :| id in sizes;
      sizes[id] + SumOf(sizes - {id})
  }

  lemma {:induction false} SumWithout(sizes: map<Id, nat>, id: Id)
    requires id in sizes
    ensures SumOf(sizes) == sizes[id] + SumOf(sizes - {id})
    decreases sizes.Keys
  {
    var x :| x in sizes && SumOf(sizes) == sizes[x] + SumOf(sizes - {x});
    if x != id {
      SumWithout(sizes - {x}, id);
      SumWithout(sizes - {id}, x);
      assert sizes - {x} - {id} == sizes - {id} - {x};
    }
  }

  lemma {:induction false} SumWith(sizes: map<Id, nat>, id: Id, n: nat)
    requires id !in sizes
    ensures SumOf(sizes[id := n]) == SumOf(sizes) + n
  {
    SumWithout(sizes[id := n], id);
    assert sizes[id := n] - {id} == sizes;
  }

  ghost function StoredBytes(env: Env, db: Db): nat {
    SumOf(Sizes(env, db.messages))
  }

  // ----- operations on the value -----

  /** The thread a message goes to: its parent's, or the one asked for; "" stands for a new one. */
  function Resolve(db: Db, replyTo: Id, requested: Id): Result<Id> {
    if replyTo == "" then Ok(requested)
    else if replyTo !in db.messages then Refused(NoParent)
    else if requested != "" && requested != db.messages[replyTo].threadId then Refused(WrongThread)
    else Ok(db.messages[replyTo].threadId)
  }

  function NewDelivery(id: Id, to: Address, now: Time): Delivery {
    Delivery(id, to, now, 0, 0, "", "", 0)
  }

  function Delivered(ds: map<PaneId, map<Id, Delivery>>, rs: seq<Address>, id: Id, now: Time): map<PaneId, map<Id, Delivery>> {
    if rs == [] then ds
    else
      var before, r := Delivered(ds, rs[..|rs| - 1], id, now), rs[|rs| - 1];
      before[r.id := (if r.id in before then before[r.id] else map[])[id := NewDelivery(id, r, now)]]
  }

  function NewMessage(env: Env, req: Request, id: Id, thread: Id, now: Time): Message {
    Message(id, if thread == "" then id else thread, req.replyTo, [], ContentOf(env, req, now), now)
  }

  function ContentOf(env: Env, req: Request, now: Time): Content {
    Content(req.sender, req.recipients, req.topics, req.groups, req.subject, PartsOf(env, req), req.metadata, now, req.expiresAt)
  }

  function Answered(m: Message, id: Id, now: Time): Message {
    m.(replies := m.replies + [id], updatedAt := now)
  }

  /** The number k sends after n, in 64 bits. */
  function NthSeq(n: nat, k: nat): nat {
    (n + k) % (Uint64Max + 1)
  }

  /** A request stored under the next identifier. */
  function Stored(env: Env, db: Db, req: Request, thread: Id, now: Time): Db {
    var id := FormatId(db.nextSeq);
    var msg := NewMessage(env, req, id, thread, now);
    var answered :=
      if req.replyTo != "" && req.replyTo in db.messages
      then db.messages[req.replyTo := Answered(db.messages[req.replyTo], id, now)] else db.messages;
    Db(NthSeq(db.nextSeq, 1),
       answered[id := msg],
       Delivered(db.deliveries, req.recipients, id, now),
       db.threads[msg.threadId := ThreadIds(db, msg.threadId) + [id]])
  }

  function RequestBytes(env: Env, req: Request): nat {
    BodySize(PartsOf(env, req)) + MetadataBytes(env, req.metadata)
  }

  /** A request is stored, or refused without effect; the checks come in this order. */
  ghost function Send(env: Env, limits: Limits, db: Db, req: Request, now: Time): Result<Db> {
    if limits.storedMessages > 0 && |db.messages| >= limits.storedMessages then Refused(StoreFull)
    else if !Acceptable(env, limits, req) then Refused(BadRequest)
    else
      match Resolve(db, req.replyTo, req.threadId)
      case Refused(why) => Refused(why)
      case Ok(thread) =>
        if !Within(RequestBytes(env, req) + StoredBytes(env, db), limits.storedMailboxBytes) then Refused(TooManyBytes)
        else Ok(Stored(env, db, req, thread, now))
  }

  // ----- coherence -----

  predicate NoRepeats(ids: seq<Id>) {
    forall i, j :: 0 <= i < j < |ids| ==> ids[i] != ids[j]
  }

  function SeqOf(id: Id): nat {
    match ParseSeq(id) case Some(n) => n case None => 0
  }

  /** Identifiers are those allocated so far, each filed under itself. */
  predicate IdsOk(db: Db) {
    && 1 <= db.nextSeq <= Uint64Max
    && forall id :: id in db.messages ==>
         db.messages[id].id == id && id == FormatId(SeqOf(id)) && 1 <= SeqOf(id) < db.nextSeq
  }

  predicate Names(rs: seq<Address>, r: PaneId) {
    exists i :: 0 <= i < |rs| && rs[i].id == r
  }

  /** A delivery exists exactly for each message and each of its recipients. */
  ghost predicate DeliveriesOk(db: Db) {
    && (forall r, id :: id in Box(db, r) <==> id in db.messages && Names(db.messages[id].content.recipients, r))
    && (forall r, id :: id in Box(db, r) ==> DeliveryOk(Box(db, r)[id], db.messages[id], r))
    && (forall r :: r in db.deliveries ==> r != 0 && db.deliveries[r] != map[])
  }

  predicate DeliveryOk(d: Delivery, m: Message, r: PaneId) {
    d.messageId == m.id && d.recipient.id == r && d.recipient in m.content.recipients
  }

  /** Each thread lists exactly its messages, once. */
  ghost predicate ThreadsOk(db: Db) {
    && (forall t, id :: id in ThreadIds(db, t) <==> id in db.messages && db.messages[id].threadId == t)
    && (forall t :: t in db.threads ==> t != "" && db.threads[t] != [] && NoRepeats(db.threads[t]))
  }

  /** Replies is the inverse of InReplyTo, and a reply is in its parent's thread and later than it. */
  ghost predicate RepliesOk(db: Db) {
    && AnswersExact(db.messages)
    && (forall x :: x in db.messages && db.messages[x].inReplyTo != "" ==> HasParent(db, x))
  }

  /** Replies lists messages that answer this one, each once. */
  ghost predicate AnswersExact(messages: map<Id, Message>) {
    && (forall id, x :: id in messages && x in messages[id].replies ==> x in messages && messages[x].inReplyTo == id)
    && (forall id :: id in messages ==> NoRepeats(messages[id].replies))
  }

  predicate HasParent(db: Db, x: Id)
    requires x in db.messages
  {
    var p := db.messages[x].inReplyTo;
    p in db.messages && x in db.messages[p].replies && db.messages[p].threadId == db.messages[x].threadId && SeqOf(p) < SeqOf(x)
  }

  ghost predicate LimitsOk(env: Env, limits: Limits, db: Db) {
    Within(|db.messages|, limits.storedMessages) && Within(StoredBytes(env, db), limits.storedMailboxBytes)
  }

  ghost predicate Coherent(env: Env, limits: Limits, db: Db) {
    IdsOk(db) && DeliveriesOk(db) && ThreadsOk(db) && RepliesOk(db) && LimitsOk(env, limits, db)
  }

  /** The next identifier is not in use. */
  lemma {:induction false} NextUnused(db: Db)
    requires IdsOk(db)
    ensures FormatId(db.nextSeq) !in db.messages && FormatId(db.nextSeq) != "" && "" !in db.messages
    ensures SeqOf(FormatId(db.nextSeq)) == db.nextSeq
  {
    hide Padded;
    FormatParses(db.nextSeq);
    EmptyUnparsed();
  }

  lemma EmptyUnparsed()
    ensures SeqOf("") == 0
  {
  }

  /** A request that can be stored: the store's own checks on thread and parent passed. */
  ghost predicate Placed(db: Db, req: Request, thread: Id) {
    IdsOk(db) && Resolve(db, req.replyTo, req.threadId) == Ok(thread) && DistinctIds(req.recipients)
  }

  /** One more message, its parent answered, its thread and its recipients' boxes extended. */
  ghost predicate Grown(db: Db, out: Db, msg: Message, now: Time) {
    && msg.id !in db.messages && msg.id != "" && SeqOf(msg.id) == db.nextSeq
    && msg.replies == [] && msg.threadId != ""
    && (msg.inReplyTo == "" || (msg.inReplyTo in db.messages && db.messages[msg.inReplyTo].threadId == msg.threadId))
    && GrownMessages(db.messages, out.messages, msg, now)
    && out.threads == db.threads[msg.threadId := ThreadIds(db, msg.threadId) + [msg.id]]
    && out.deliveries == Delivered(db.deliveries, msg.content.recipients, msg.id, now)
  }

  ghost predicate GrownMessages(was: map<Id, Message>, now': map<Id, Message>, msg: Message, now: Time) {
    && now'.Keys == was.Keys + {msg.id} && now'[msg.id] == msg
    && forall x :: x in was ==> now'[x] == if x == msg.inReplyTo then Answered(was[x], msg.id, now) else was[x]
  }

  lemma {:induction false} StoredGrown(env: Env, db: Db, req: Request, thread: Id, now: Time)
    requires Placed(db, req, thread) && ThreadsOk(db)
    ensures var out, msg := Stored(env, db, req, thread, now), NewMessage(env, req, FormatId(db.nextSeq), thread, now);
      && Grown(db, out, msg, now)
      && out.nextSeq == if db.nextSeq < Uint64Max then db.nextSeq + 1 else 0
  {
    hide FormatId;
    hide SeqOf;
    hide ContentOf;
    hide Delivered;
    hide IdsOk;
    NextUnused(db);
    IdsBound(db);
    ParentThread(db, req.replyTo);
    assert ContentOf(env, req, now).recipients == req.recipients by {
      RecipientsOf(env, req, now);
    }
  }

  lemma RecipientsOf(env: Env, req: Request, now: Time)
    ensures ContentOf(env, req, now).recipients == req.recipients
  {
  }

  lemma IdsBound(db: Db)
    requires IdsOk(db)
    ensures 1 <= db.nextSeq <= Uint64Max
  {
  }

  lemma ParentThread(db: Db, id: Id)
    requires ThreadsOk(db)
    ensures id in db.messages ==> db.messages[id].threadId != ""
  {
    if id in db.messages {
      assert id in ThreadIds(db, db.messages[id].threadId);
    }
  }

  lemma {:induction false} GrownIds(db: Db, out: Db, msg: Message, now: Time)
    requires IdsOk(db) && Grown(db, out, msg, now) && msg.id == FormatId(db.nextSeq)
    requires out.nextSeq == if db.nextSeq < Uint64Max then db.nextSeq + 1 else 0
    ensures IdsOk(out) <==> db.nextSeq < Uint64Max
  {
    hide FormatId;
    hide SeqOf;
    hide Delivered;
  }

  function BoxOf(ds: map<PaneId, map<Id, Delivery>>, r: PaneId): map<Id, Delivery> {
    if r in ds then ds[r] else map[]
  }

  lemma NamesSnoc(rs: seq<Address>, r: PaneId)
    requires rs != []
    ensures Names(rs, r) <==> Names(rs[..|rs| - 1], r) || rs[|rs| - 1].id == r
  {
    var n := |rs| - 1;
    assert forall i :: 0 <= i < n ==> rs[..n][i] == rs[i];
  }

  /** Delivering touches just the boxes of the recipients, and there just the new message. */
  lemma {:induction false} DeliveredBox(ds: map<PaneId, map<Id, Delivery>>, rs: seq<Address>, id: Id, now: Time, r: PaneId)
    ensures var was, box := BoxOf(ds, r), BoxOf(Delivered(ds, rs, id, now), r);
      && (!Names(rs, r) ==> box == was)
      && (Names(rs, r) ==>
            && box.Keys == was.Keys + {id} && (forall x :: x in was && x != id ==> box[x] == was[x])
            && box[id].messageId == id && box[id].recipient.id == r && box[id].recipient in rs)
    ensures r in Delivered(ds, rs, id, now) <==> r in ds || Names(rs, r)
    decreases |rs|
  {
    if rs != [] {
      DeliveredBox(ds, rs[..|rs| - 1], id, now, r);
      NamesSnoc(rs, r);
    }
  }

  lemma {:induction false} GrownBox(db: Db, out: Db, msg: Message, now: Time, r: PaneId, x: Id)
    requires Grown(db, out, msg, now) && DeliveriesOk(db)
    ensures x in Box(out, r) <==> x in out.messages && Names(out.messages[x].content.recipients, r)
    ensures x in Box(out, r) ==> DeliveryOk(Box(out, r)[x], out.messages[x], r)
  {
    hide SeqOf;
    hide Delivered;
    hide Names;
    DeliveredBox(db.deliveries, msg.content.recipients, msg.id, now, r);
    assert Box(db, r) == BoxOf(db.deliveries, r) && Box(out, r) == BoxOf(out.deliveries, r);
    assert msg.id !in Box(db, r);
    assert x in Box(db, r) <==> x in db.messages && Names(db.messages[x].content.recipients, r);
  }

  lemma {:induction false} GrownDeliveries(db: Db, out: Db, msg: Message, now: Time)
    requires Grown(db, out, msg, now) && DeliveriesOk(db)
    requires forall i :: 0 <= i < |msg.content.recipients| ==> msg.content.recipients[i].id != 0
    ensures DeliveriesOk(out)
  {
    hide SeqOf;
    hide Delivered;
    hide GrownMessages;
    forall r, x
      ensures x in Box(out, r) <==> x in out.messages && Names(out.messages[x].content.recipients, r)
      ensures x in Box(out, r) ==> DeliveryOk(Box(out, r)[x], out.messages[x], r)
    {
      GrownBox(db, out, msg, now, r, x);
    }
    forall r | r in out.deliveries ensures r != 0 && out.deliveries[r] != map[] {
      DeliveredBox(db.deliveries, msg.content.recipients, msg.id, now, r);
    }
  }

  lemma {:induction false} GrownThreads(db: Db, out: Db, msg: Message, now: Time)
    requires Grown(db, out, msg, now) && ThreadsOk(db)
    ensures ThreadsOk(out)
  {
    hide SeqOf;
    hide Delivered;
    assert msg.id !in ThreadIds(db, msg.threadId);
    assert NoRepeats(ThreadIds(db, msg.threadId));
    forall u, x ensures x in ThreadIds(out, u) <==> x in out.messages && out.messages[x].threadId == u {
      assert x in ThreadIds(db, u) <==> x in db.messages && db.messages[x].threadId == u;
    }
  }

  lemma {:induction false} GrownParent(db: Db, out: Db, msg: Message, now: Time, x: Id)
    requires Grown(db, out, msg, now) && IdsOk(db) && RepliesOk(db) && x in out.messages && out.messages[x].inReplyTo != ""
    ensures HasParent(out, x)
  {
    hide SeqOf;
    hide FormatId;
    hide Delivered;
    if x in db.messages {
      assert HasParent(db, x);
      assert out.messages[x].threadId == db.messages[x].threadId && out.messages[x].inReplyTo == db.messages[x].inReplyTo;
      var p := db.messages[x].inReplyTo;
      assert x in out.messages[p].replies;
    }
  }

  lemma {:induction false} GrownReplies(db: Db, out: Db, msg: Message, now: Time)
    requires Grown(db, out, msg, now) && IdsOk(db) && RepliesOk(db)
    ensures RepliesOk(out)
  {
    hide SeqOf;
    hide FormatId;
    hide Delivered;
    hide HasParent;
    hide AnswersExact;
    hide GrownMessages;
    forall x | x in out.messages && out.messages[x].inReplyTo != "" ensures HasParent(out, x) {
      GrownParent(db, out, msg, now, x);
    }
    GrownAnswers(db.messages, out.messages, msg, now);
  }

  lemma {:induction false} GrownAnswers(was: map<Id, Message>, now': map<Id, Message>, msg: Message, now: Time)
    requires GrownMessages(was, now', msg, now) && AnswersExact(was)
    requires msg.id !in was && msg.replies == [] && msg.inReplyTo != msg.id
    ensures AnswersExact(now')
  {
    hide NoRepeats;
    GrownBackLinks(was, now', msg, now);
    forall m | m in now' ensures NoRepeats(now'[m].replies) {
      if m in was {
        assert msg.id !in was[m].replies;
        SnocNoRepeats(was[m].replies, msg.id);
      } else {
        NoneNoRepeats();
      }
    }
  }

  lemma {:induction false} GrownBackLinks(was: map<Id, Message>, now': map<Id, Message>, msg: Message, now: Time)
    requires GrownMessages(was, now', msg, now) && AnswersExact(was)
    requires msg.id !in was && msg.replies == [] && msg.inReplyTo != msg.id
    ensures forall m, x :: m in now' && x in now'[m].replies ==> x in now' && now'[x].inReplyTo == m
  {
    hide NoRepeats;
    forall m, x | m in now' && x in now'[m].replies ensures x in now' && now'[x].inReplyTo == m {
      assert m in was;
      assert (x == msg.id && m == msg.inReplyTo) || x in was[m].replies;
    }
  }

  lemma SnocNoRepeats(ids: seq<Id>, id: Id)
    ensures NoRepeats(ids) && id !in ids ==> NoRepeats(ids + [id])
  {
  }

  lemma NoneNoRepeats()
    ensures NoRepeats([])
  {
  }

  lemma {:induction false} GrownLimits(env: Env, limits: Limits, db: Db, out: Db, msg: Message, now: Time)
    requires Grown(db, out, msg, now)
    requires limits.storedMessages > 0 ==> |db.messages| < limits.storedMessages
    requires Within(MessageBytes(env, msg) + StoredBytes(env, db), limits.storedMailboxBytes)
    ensures LimitsOk(env, limits, out)
  {
    hide SumOf;
    hide MessageBytes;
    hide Sizes;
    hide Delivered;
    GrownSizes(env, db.messages, out.messages, msg, now);
    SumWith(Sizes(env, db.messages), msg.id, MessageBytes(env, msg));
  }

  lemma {:induction false} GrownSizes(env: Env, was: map<Id, Message>, now': map<Id, Message>, msg: Message, now: Time)
    requires GrownMessages(was, now', msg, now) && msg.id !in was
    ensures msg.id !in Sizes(env, was) && Sizes(env, now') == Sizes(env, was)[msg.id := MessageBytes(env, msg)]
    ensures |now'| == |was| + 1
  {
    hide MessageBytes;
    SameBytes(env);
    assert |now'.Keys| == |was.Keys| + 1;
  }

  /** Being answered does not change what a message takes up. */
  lemma SameBytes(env: Env)
    ensures forall m, id, now :: MessageBytes(env, Answered(m, id, now)) == MessageBytes(env, m)
    ensures forall m: Message, now :: MessageBytes(env, m.(updatedAt := now)) == MessageBytes(env, m)
  {
  }

  /** Sending keeps all indexes in step, exactly until sequence numbers run out. */
  lemma {:induction false} SendCoherent(env: Env, limits: Limits, db: Db, req: Request, now: Time)
    requires Coherent(env, limits, db) && Send(env, limits, db, req, now).Ok?
    ensures Coherent(env, limits, Send(env, limits, db, req, now).value) <==> db.nextSeq < Uint64Max
  {
    hide IdsOk;
    hide DeliveriesOk;
    hide ThreadsOk;
    hide RepliesOk;
    hide LimitsOk;
    hide Stored;
    hide Grown;
    hide FormatId;
    SendPlaced(env, limits, db, req, now);
    var thread := Resolve(db, req.replyTo, req.threadId).value;
    var out, msg := Stored(env, db, req, thread, now), NewMessage(env, req, FormatId(db.nextSeq), thread, now);
    StoredGrown(env, db, req, thread, now);
    GrownIds(db, out, msg, now);
    GrownDeliveries(db, out, msg, now);
    GrownThreads(db, out, msg, now);
    GrownReplies(db, out, msg, now);
    GrownLimits(env, limits, db, out, msg, now);
  }

  lemma {:induction false} SendPlaced(env: Env, limits: Limits, db: Db, req: Request, now: Time)
    requires IdsOk(db) && Send(env, limits, db, req, now).Ok?
    ensures var r := Resolve(db, req.replyTo, req.threadId); r.Ok? && Placed(db, req, r.value)
    ensures forall i :: 0 <= i < |req.recipients| ==> req.recipients[i].id != 0
  {
  }

  lemma {:induction false} EmptyCoherent(env: Env, limits: Limits)
    ensures Coherent(env, limits, Empty)
  {
  }

  // ----- reading and acknowledging -----

  /** The delivery of a message to a pane, or why there is none. */
  function Locate(db: Db, id: Id, r: PaneId): Result<Delivery> {
    if r == 0 then Refused(NoRecipient)
    else if id !in db.messages then Refused(NoMessage)
    else if id !in Box(db, r) then Refused(NotDelivered)
    else Ok(Box(db, r)[id])
  }

  function Filed(db: Db, id: Id, r: PaneId, d: Delivery): Db
    requires id in Box(db, r)
  {
    db.(deliveries := db.deliveries[r := db.deliveries[r][id := d]])
  }

  function Stamped(db: Db, id: Id, now: Time): Db
    requires id in db.messages
  {
    db.(messages := db.messages[id := db.messages[id].(updatedAt := now)])
  }

  /** The first read that is not a peek is recorded. */
  function Read(db: Db, id: Id, r: PaneId, peek: bool, now: Time): Result<Db> {
    match Locate(db, id, r)
    case Refused(why) => Refused(why)
    case Ok(d) =>
      if peek || d.readAt != 0 then Ok(db) else Ok(Stamped(Filed(db, id, r, d.(readAt := now)), id, now))
  }

  /** An acknowledgement is recorded unless the same one already is. */
  function Ack(env: Env, limits: Limits, db: Db, id: Id, r: PaneId, status: string, note: string, now: Time): Result<Db> {
    if env.byteLength(note) > limits.ackNoteBytes then Refused(NoteTooLong)
    else
      match Locate(db, id, r)
      case Refused(why) => Refused(why)
      case Ok(d) =>
        if d.ackedAt != 0 && d.ackStatus == status && d.ackNote == note then Ok(db)
        else Ok(Stamped(Filed(db, id, r, d.(ackedAt := now, ackStatus := status, ackNote := note)), id, now))
  }

  function SetLastEventSeq(db: Db, id: Id, r: PaneId, seqNo: nat): Result<Db> {
    match Locate(db, id, r)
    case Refused(why) => Refused(why)
    case Ok(d) => Ok(Filed(db, id, r, d.(lastEventSeq := seqNo)))
  }

  lemma {:induction false} FiledCoherent(env: Env, limits: Limits, db: Db, id: Id, r: PaneId, d: Delivery)
    requires Coherent(env, limits, db) && id in Box(db, r)
    requires d.messageId == Box(db, r)[id].messageId && d.recipient == Box(db, r)[id].recipient
    ensures Coherent(env, limits, Filed(db, id, r, d))
  {
    hide RepliesOk;
    hide IdsOk;
    hide LimitsOk;
    hide ThreadsOk;
    hide Names;
    var out := Filed(db, id, r, d);
    SameBut(env, limits, db, out);
    forall q, x
      ensures x in Box(out, q) <==> x in db.messages && Names(db.messages[x].content.recipients, q)
      ensures x in Box(out, q) ==> DeliveryOk(Box(out, q)[x], db.messages[x], q)
    {
      assert x in Box(db, q) <==> x in db.messages && Names(db.messages[x].content.recipients, q);
    }
  }

  lemma SameBut(env: Env, limits: Limits, db: Db, out: Db)
    requires out == db.(deliveries := out.deliveries)
    ensures IdsOk(out) == IdsOk(db) && ThreadsOk(out) == ThreadsOk(db)
    ensures RepliesOk(db) ==> RepliesOk(out)
    ensures LimitsOk(env, limits, out) == LimitsOk(env, limits, db)
  {
    hide AnswersExact;
    hide SeqOf;
    hide FormatId;
    hide SumOf;
    hide NoRepeats;
    if RepliesOk(db) {
      forall x | x in out.messages && out.messages[x].inReplyTo != "" ensures HasParent(out, x) {
        assert HasParent(db, x);
      }
    }
    assert forall t :: ThreadIds(out, t) == ThreadIds(db, t);
  }

  lemma {:induction false} StampedAnswers(db: Db, id: Id, now: Time)
    requires AnswersExact(db.messages) && id in db.messages
    ensures AnswersExact(Stamped(db, id, now).messages)
  {
    hide NoRepeats;
    var out := Stamped(db, id, now).messages;
    forall m, x | m in out && x in out[m].replies ensures x in out && out[x].inReplyTo == m {
      assert x in db.messages[m].replies;
    }
  }

  lemma {:induction false} StampedReplies(db: Db, id: Id, now: Time)
    requires RepliesOk(db) && id in db.messages
    ensures RepliesOk(Stamped(db, id, now))
  {
    hide SeqOf;
    hide AnswersExact;
    var out := Stamped(db, id, now);
    StampedAnswers(db, id, now);
    forall x | x in out.messages && out.messages[x].inReplyTo != "" ensures HasParent(out, x) {
      assert HasParent(db, x);
    }
  }

  lemma {:induction false} StampedDeliveries(db: Db, id: Id, now: Time)
    requires DeliveriesOk(db) && id in db.messages
    ensures DeliveriesOk(Stamped(db, id, now))
  {
    var out := Stamped(db, id, now);
    forall q, x
      ensures x in Box(out, q) <==> x in out.messages && Names(out.messages[x].content.recipients, q)
      ensures x in Box(out, q) ==> DeliveryOk(Box(out, q)[x], out.messages[x], q)
    {
      assert Box(out, q) == Box(db, q);
    }
  }

  lemma {:induction false} StampedRest(env: Env, limits: Limits, db: Db, id: Id, now: Time)
    requires IdsOk(db) && ThreadsOk(db) && LimitsOk(env, limits, db) && id in db.messages
    ensures var out := Stamped(db, id, now); IdsOk(out) && ThreadsOk(out) && LimitsOk(env, limits, out)
  {
    hide SeqOf;
    hide FormatId;
    hide SumOf;
    hide MessageBytes;
    var out := Stamped(db, id, now);
    SameBytes(env);
    assert Sizes(env, out.messages) == Sizes(env, db.messages);
    assert out.messages.Keys == db.messages.Keys;
    forall t, x ensures x in ThreadIds(out, t) <==> x in out.messages && out.messages[x].threadId == t {
      assert ThreadIds(out, t) == ThreadIds(db, t);
    }
    assert |out.messages| == |out.messages.Keys|;
  }

  lemma {:induction false} StampedCoherent(env: Env, limits: Limits, db: Db, id: Id, now: Time)
    requires Coherent(env, limits, db) && id in db.messages
    ensures Coherent(env, limits, Stamped(db, id, now))
  {
    hide IdsOk;
    hide DeliveriesOk;
    hide ThreadsOk;
    hide RepliesOk;
    hide LimitsOk;
    StampedReplies(db, id, now);
    StampedDeliveries(db, id, now);
    StampedRest(env, limits, db, id, now);
  }

  // ----- every run -----

  datatype Op =
    | DoSend(req: Request)
    | DoRead(id: Id, r: PaneId, peek: bool)
    | DoAck(id: Id, r: PaneId, status: string, note: string)
    | DoSetSeq(id: Id, r: PaneId, seqNo: nat)

  ghost function Apply(env: Env, limits: Limits, db: Db, op: Op, now: Time): Db {
    var r := match op
      case DoSend(req) => Send(env, limits, db, req, now)
      case DoRead(id, r, peek) => Read(db, id, r, peek, now)
      case DoAck(id, r, status, note) => Ack(env, limits, db, id, r, status, note, now)
      case DoSetSeq(id, r, seqNo) => SetLastEventSeq(db, id, r, seqNo);
    if r.Ok? then r.value else db
  }

  lemma {:induction false} UpdateCoherent(env: Env, limits: Limits, db: Db, op: Op, now: Time)
    requires Coherent(env, limits, db) && !op.DoSend?
    ensures Coherent(env, limits, Apply(env, limits, db, op, now))
    ensures Apply(env, limits, db, op, now).nextSeq == db.nextSeq
  {
    hide Coherent;
    var d := Locate(db, op.id, op.r);
    if d.Ok? {
      var next := match op
        case DoRead(_, _, _) => d.value.(readAt := now)
        case DoAck(_, _, status, note) => d.value.(ackedAt := now, ackStatus := status, ackNote := note)
        case DoSetSeq(_, _, seqNo) => d.value.(lastEventSeq := seqNo);
      FiledCoherent(env, limits, db, op.id, op.r, next);
      StampedCoherent(env, limits, Filed(db, op.id, op.r, next), op.id, now);
    }
  }

  /** What is fixed about a message once it is stored. */
  predicate Remembers(was: Db, now: Db) {
    forall id :: id in was.messages ==>
      && id in now.messages && now.messages[id].content == was.messages[id].content
      && now.messages[id].threadId == was.messages[id].threadId && now.messages[id].inReplyTo == was.messages[id].inReplyTo
      && was.messages[id].replies <= now.messages[id].replies
  }

  lemma {:induction false} UpdateRemembers(env: Env, limits: Limits, db: Db, op: Op, now: Time)
    requires !op.DoSend?
    ensures Remembers(db, Apply(env, limits, db, op, now))
  {
    hide Send;
    var d := Locate(db, op.id, op.r);
    if d.Ok? {
      assert op.id in db.messages;
    }
  }

  lemma {:induction false} SendRemembers(env: Env, limits: Limits, db: Db, req: Request, now: Time)
    requires Coherent(env, limits, db) && Send(env, limits, db, req, now).Ok?
    ensures Remembers(db, Send(env, limits, db, req, now).value)
    ensures Send(env, limits, db, req, now).value.nextSeq == if db.nextSeq < Uint64Max then db.nextSeq + 1 else 0
  {
    hide IdsOk;
    hide DeliveriesOk;
    hide ThreadsOk;
    hide RepliesOk;
    hide LimitsOk;
    hide Stored;
    hide FormatId;
    hide Delivered;
    hide Grown;
    hide Remembers;
    SendPlaced(env, limits, db, req, now);
    var thread := Resolve(db, req.replyTo, req.threadId).value;
    var out, msg := Stored(env, db, req, thread, now), NewMessage(env, req, FormatId(db.nextSeq), thread, now);
    StoredGrown(env, db, req, thread, now);
    GrownRemembers(db, out, msg, now);
  }

  lemma {:induction false} GrownRemembers(db: Db, out: Db, msg: Message, now: Time)
    requires Grown(db, out, msg, now)
    ensures Remembers(db, out)
  {
    hide Delivered;
    hide SeqOf;
  }

  ghost function RunFrom(env: Env, limits: Limits, db: Db, ops: seq<(Op, Time)>): Db
    decreases |ops|
  {
    if ops == [] then db
    else Apply(env, limits, RunFrom(env, limits, db, ops[..|ops| - 1]), ops[|ops| - 1].0, ops[|ops| - 1].1)
  }

  ghost function Run(env: Env, limits: Limits, ops: seq<(Op, Time)>): Db {
    RunFrom(env, limits, Empty, ops)
  }

  /** The operation is a send that goes through. */
  ghost predicate Stores(env: Env, limits: Limits, db: Db, op: Op, now: Time) {
    op.DoSend? && Send(env, limits, db, op.req, now).Ok?
  }

  /** How many sends of a run go through. */
  ghost function SendCount(env: Env, limits: Limits, db: Db, ops: seq<(Op, Time)>): nat
    decreases |ops|
  {
    if ops == [] then 0
    else
      var n := |ops| - 1;
      SendCount(env, limits, db, ops[..n]) +
      if Stores(env, limits, RunFrom(env, limits, db, ops[..n]), ops[n].0, ops[n].1) then 1 else 0
  }

  /** The identifiers k sends hand out, starting with number n. */
  function IdsFrom(n: nat, k: nat): set<Id> {
    if k == 0 then {} else IdsFrom(n, k - 1) + {FormatId(NthSeq(n, k - 1))}
  }

  lemma {:induction false} IdsFromHas(n: nat, k: nat, id: Id)
    ensures id in IdsFrom(n, k) <==> exists i: nat :: i < k && id == FormatId(NthSeq(n, i))
    decreases k
  {
    hide FormatId;
    hide NthSeq;
    if k > 0 {
      IdsFromHas(n, k - 1, id);
    }
  }

  /** A send that goes through adds one identifier and one number, any other operation none; no store need be coherent for that. */
  lemma {:induction false} ApplyNext(env: Env, limits: Limits, db: Db, op: Op, now: Time)
    requires db.nextSeq <= Uint64Max
    ensures var out := Apply(env, limits, db, op, now);
      if Stores(env, limits, db, op, now)
      then out.nextSeq == NthSeq(db.nextSeq, 1) && out.messages.Keys == db.messages.Keys + {FormatId(db.nextSeq)}
      else out.nextSeq == db.nextSeq && out.messages.Keys == db.messages.Keys
  {
    hide FormatId;
    hide Acceptable;
    hide Delivered;
    hide NewMessage;
    hide SumOf;
  }

  lemma {:induction false} RunNext(env: Env, limits: Limits, db: Db, ops: seq<(Op, Time)>)
    requires db.nextSeq <= Uint64Max
    ensures var out, k := RunFrom(env, limits, db, ops), SendCount(env, limits, db, ops);
      out.nextSeq == NthSeq(db.nextSeq, k) && out.messages.Keys == db.messages.Keys + IdsFrom(db.nextSeq, k)
    decreases |ops|
  {
    hide FormatId;
    hide Apply;
    hide Stores;
    if ops != [] {
      var n := |ops| - 1;
      RunNext(env, limits, db, ops[..n]);
      ApplyNext(env, limits, RunFrom(env, limits, db, ops[..n]), ops[n].0, ops[n].1);
      NthNext(db.nextSeq, SendCount(env, limits, db, ops[..n]));
    }
  }

  lemma NthNext(n: nat, k: nat)
    ensures NthSeq(NthSeq(n, k), 1) == NthSeq(n, k + 1) && NthSeq(n, k) <= Uint64Max
  {
    var m := Uint64Max + 1;
    var q, r := (n + k) / m, (n + k) % m;
    assert n + k == q * m + r;
    if r + 1 < m {
      assert n + (k + 1) == q * m + (r + 1);
      Remainder(q, r + 1);
    } else {
      assert n + (k + 1) == (q + 1) * m;
      Remainder(q + 1, 0);
    }
  }

  lemma Remainder(q: nat, r: nat)
    requires r <= Uint64Max
    ensures (q * (Uint64Max + 1) + r) % (Uint64Max + 1) == r
  {
  }

  lemma {:induction false} StillCoherent(env: Env, limits: Limits, db: Db, op: Op, now: Time)
    requires Coherent(env, limits, db) && (Stores(env, limits, db, op, now) ==> db.nextSeq < Uint64Max)
    ensures var out := Apply(env, limits, db, op, now);
      Coherent(env, limits, out) && out.nextSeq == db.nextSeq + if Stores(env, limits, db, op, now) then 1 else 0
  {
    hide Coherent;
    hide Send;
    if Stores(env, limits, db, op, now) {
      SendCoherent(env, limits, db, op.req, now);
      SendRemembers(env, limits, db, op.req, now);
    } else if !op.DoSend? {
      UpdateCoherent(env, limits, db, op, now);
    }
  }

  lemma {:induction false} RunsOn(env: Env, limits: Limits, ops: seq<(Op, Time)>)
    requires SendCount(env, limits, Empty, ops) < Uint64Max
    ensures Coherent(env, limits, Run(env, limits, ops))
    ensures Run(env, limits, ops).nextSeq == SendCount(env, limits, Empty, ops) + 1
    ensures |Run(env, limits, ops).messages| == SendCount(env, limits, Empty, ops)
    decreases |ops|
  {
    hide Coherent;
    hide Apply;
    hide Stores;
    hide FormatId;
    if ops == [] {
      EmptyCoherent(env, limits);
    } else {
      var n := |ops| - 1;
      RunsOn(env, limits, ops[..n]);
      var db := Run(env, limits, ops[..n]);
      StillCoherent(env, limits, db, ops[n].0, ops[n].1);
      ApplyNext(env, limits, db, ops[n].0, ops[n].1);
      OneMore(env, limits, db, Apply(env, limits, db, ops[n].0, ops[n].1));
    }
  }

  lemma {:induction false} OneMore(env: Env, limits: Limits, db: Db, out: Db)
    requires Coherent(env, limits, db)
    ensures out.messages.Keys == db.messages.Keys + {FormatId(db.nextSeq)} ==> |out.messages| == |db.messages| + 1
    ensures out.messages.Keys == db.messages.Keys ==> |out.messages| == |db.messages|
  {
    hide FormatId;
    hide Coherent;
    CoherentIds(env, limits, db);
    hide IdsOk;
    NextUnused(db);
    KeyCount(db.messages, out.messages, FormatId(db.nextSeq));
  }

  lemma CoherentIds(env: Env, limits: Limits, db: Db)
    requires Coherent(env, limits, db)
    ensures IdsOk(db)
  {
  }

  lemma KeyCount(was: map<Id, Message>, now: map<Id, Message>, id: Id)
    ensures now.Keys == was.Keys + {id} && id !in was ==> |now| == |was| + 1
    ensures now.Keys == was.Keys ==> |now| == |was|
  {
    assert |now| == |now.Keys| && |was| == |was.Keys|;
  }

  /** A store is coherent after a run exactly when fewer sends went through than there are sequence numbers. */
  lemma {:induction false} RunCoherent(env: Env, limits: Limits, ops: seq<(Op, Time)>)
    ensures Coherent(env, limits, Run(env, limits, ops)) <==> SendCount(env, limits, Empty, ops) < Uint64Max
  {
    hide SendCount;
    hide RunFrom;
    hide FormatId;
    var k := SendCount(env, limits, Empty, ops);
    if k < Uint64Max {
      RunsOn(env, limits, ops);
    } else {
      RunNext(env, limits, Empty, ops);
      var last := FormatId(NthSeq(1, Uint64Max - 1));
      IdsFromHas(1, k, last);
      LastNumber();
      assert last in Run(env, limits, ops).messages;
    }
  }

  lemma LastNumber()
    ensures NthSeq(1, Uint64Max - 1) == Uint64Max && SeqOf(FormatId(Uint64Max)) == Uint64Max
  {
    hide FormatId;
    hide ParseSeq;
    FormatParses(Uint64Max);
  }

  /** With a message limit below the number of sequence numbers, as by default, every run stays coherent. */
  lemma {:induction false} LimitedRunCoherent(env: Env, limits: Limits, ops: seq<(Op, Time)>)
    requires 0 < limits.storedMessages < Uint64Max
    ensures SendCount(env, limits, Empty, ops) <= limits.storedMessages && Coherent(env, limits, Run(env, limits, ops))
    decreases |ops|
  {
    hide Coherent;
    hide Acceptable;
    if ops != [] {
      var n := |ops| - 1;
      LimitedRunCoherent(env, limits, ops[..n]);
      RunsOn(env, limits, ops[..n]);
    }
    RunCoherent(env, limits, ops);
  }

  lemma {:induction false} RemembersTransitive(a: Db, b: Db, c: Db)
    requires Remembers(a, b) && Remembers(b, c)
    ensures Remembers(a, c)
  {
  }

  /**
   * As long as the numbers last no identifier is reused: what an earlier
   * store holds, every later one does, unchanged but for new replies.
   */
  lemma {:induction false} RunRemembers(env: Env, limits: Limits, ops: seq<(Op, Time)>, k: nat)
    requires k <= |ops| && SendCount(env, limits, Empty, ops) <= Uint64Max
    ensures Remembers(Run(env, limits, ops[..k]), Run(env, limits, ops))
    decreases |ops|
  {
    hide Remembers;
    hide Coherent;
    hide Apply;
    hide Stores;
    var n := |ops| - 1;
    if k == |ops| {
      assert ops[..k] == ops;
      RemembersSame(Run(env, limits, ops));
    } else {
      RunRemembers(env, limits, ops[..n], k);
      assert ops[..n][..k] == ops[..k];
      RunCoherent(env, limits, ops[..n]);
      StepRemembers(env, limits, Run(env, limits, ops[..n]), ops[n].0, ops[n].1);
      RemembersTransitive(Run(env, limits, ops[..k]), Run(env, limits, ops[..n]), Run(env, limits, ops));
    }
  }

  lemma {:induction false} StepRemembers(env: Env, limits: Limits, db: Db, op: Op, now: Time)
    requires Coherent(env, limits, db) || !Stores(env, limits, db, op, now)
    ensures Remembers(db, Apply(env, limits, db, op, now))
  {
    hide Coherent;
    hide Remembers;
    hide Send;
    RemembersSame(db);
    if Stores(env, limits, db, op, now) {
      SendRemembers(env, limits, db, op.req, now);
    } else if !op.DoSend? {
      UpdateRemembers(env, limits, db, op, now);
    }
  }

  lemma RemembersSame(db: Db)
    ensures Remembers(db, db)
  {
  }
}
