/**
 * The watchdog event loop: producers enqueue commands, one loop goroutine
 * takes them, and one handler goroutine runs them under a timer. One step is
 * one channel operation of one goroutine, or a choice of the environment.
 */
module EventLoop {
  import opened Numbers

  // ----- loop and handler -----

  /** The loop goroutine, with the queue position of the command in hand. */
  datatype LoopPc =
    | AwaitingReady
    | Selecting
    | Handing(p: nat)         // sends the request, unbuffered
    | AwaitingEntry(p: nat)
    | Watching(p: nat)        // timer armed, waits for finished
    | Hooking
    | Leaving                 // about to close the request channel
    | ClosingDone             // about to close the done channel
    | Ended

  datatype HandlerPc =
    | Starting
    | Idle
    | Entering(p: nat)        // reports entry
    | Deciding(p: nat)        // looks at the command's context
    | Handling(p: nat)
    | Replying(p: nat)        // a query's reply
    | Reporting(p: nat)       // reports completion
    | Exited

  /**
   * `taken` commands have left the queue; each is skipped, or handed over and
   * started, which the handler reports on entry. `entered` and `finished` are
   * the requests whose one-slot channels are full.
   */
  datatype Pipe = Pipe(
    loop: LoopPc,
    handler: HandlerPc,
    requestsOpen: bool,
    entered: set<nat>,
    finished: set<nat>,
    taken: nat,
    skipped: set<nat>,
    started: seq<nat>,
    timedOut: bool
  )

  datatype LoopOp =
    | SeeReady | SeeStop | SeeClosed | Take | Hand | SeeEntry | SeeFinished | TimeOut | HookContinue | HookStop
    | CloseRequests | CloseDone

  datatype HandlerOp = GetReady | Enter | SkipCancelled | Begin | End | SendReply | DropReply | Report | Exit

  /** `ready` says whether the next command can be handled, `length` how many were ever enqueued. */
  predicate LoopCan(x: Pipe, op: LoopOp, stop: bool, closed: bool, length: nat) {
    match op
    case SeeReady => x.loop == AwaitingReady && x.handler != Starting
    case SeeStop => x.loop == Selecting && stop
    case SeeClosed => x.loop == Selecting && closed && x.taken >= length
    case Take => x.loop == Selecting && x.taken < length
    case Hand => x.loop.Handing? && x.handler == Idle && x.requestsOpen
    case SeeEntry => x.loop.AwaitingEntry? && x.loop.p in x.entered
    case SeeFinished => x.loop.Watching? && x.loop.p in x.finished
    case TimeOut => x.loop.Watching?
    case HookContinue => x.loop == Hooking
    case HookStop => x.loop == Hooking
    case CloseRequests => x.loop == Leaving
    case CloseDone => x.loop == ClosingDone
  }

  function LoopNext(x: Pipe, op: LoopOp, ready: bool): Pipe
    requires op.Hand? ==> x.loop.Handing?
    requires op.SeeEntry? ==> x.loop.AwaitingEntry?
    requires op.SeeFinished? ==> x.loop.Watching?
  {
    match op
    case SeeReady => x.(loop := Selecting)
    case SeeStop => x.(loop := Leaving)
    case SeeClosed => x.(loop := Leaving)
    case Take =>
      if ready then x.(taken := x.taken + 1, loop := Handing(x.taken))
      else x.(taken := x.taken + 1, skipped := x.skipped + {x.taken})
    case Hand => x.(loop := AwaitingEntry(x.loop.p), handler := Entering(x.loop.p))
    case SeeEntry => x.(loop := Watching(x.loop.p), entered := x.entered - {x.loop.p})
    case SeeFinished => x.(loop := Hooking, finished := x.finished - {x.loop.p})
    case TimeOut => x.(loop := Leaving, timedOut := true)
    case HookContinue => x.(loop := Selecting)
    case HookStop => x.(loop := Leaving)
    case CloseRequests => x.(loop := ClosingDone, requestsOpen := false)
    case CloseDone => x.(loop := Ended)
  }

  predicate HandlerCan(x: Pipe, op: HandlerOp) {
    match op
    case GetReady => x.handler == Starting
    case Enter => x.handler.Entering? && x.handler.p !in x.entered
    case SkipCancelled => x.handler.Deciding?
    case Begin => x.handler.Deciding?
    case End => x.handler.Handling?
    case SendReply => x.handler.Replying?
    case DropReply => x.handler.Replying?
    case Report => x.handler.Reporting? && x.handler.p !in x.finished
    case Exit => x.handler == Idle && !x.requestsOpen
  }

  function HandlerNext(x: Pipe, op: HandlerOp, query: bool): Pipe
    requires HandlerCan(x, op)
  {
    match op
    case GetReady => x.(handler := Idle)
    case Enter =>
      x.(handler := Deciding(x.handler.p), entered := x.entered + {x.handler.p}, started := x.started + [x.handler.p])
    case SkipCancelled => x.(handler := Reporting(x.handler.p))
    case Begin => x.(handler := Handling(x.handler.p))
    case End => x.(handler := if query then Replying(x.handler.p) else Reporting(x.handler.p))
    case SendReply => x.(handler := Reporting(x.handler.p))
    case DropReply => x.(handler := Reporting(x.handler.p))
    case Report => x.(handler := Idle, finished := x.finished + {x.handler.p})
    case Exit => x.(handler := Exited)
  }

  /** The handler works on position p, past its entry report. */
  predicate WorksOn(h: HandlerPc, p: nat) {
    (h.Deciding? || h.Handling? || h.Replying? || h.Reporting?) && h.p == p
  }

  /** The handler is done with p: its completion is in the channel. */
  predicate HasReported(x: Pipe, p: nat) {
    x.handler == Idle && p in x.finished
  }

  /** How loop and handler may stand to each other. */
  ghost predicate Handshake(x: Pipe) {
    match x.loop
    case AwaitingReady => x.handler == Starting || x.handler == Idle
    case Selecting => x.handler == Idle
    case Hooking => x.handler == Idle
    case Handing(p) => x.handler == Idle
    case AwaitingEntry(p) =>
      if x.handler == Entering(p) then p !in x.entered
      else p in x.entered && (WorksOn(x.handler, p) || HasReported(x, p))
    case Watching(p) => WorksOn(x.handler, p) || HasReported(x, p)
    case _ =>
      || x.handler == Idle || x.handler == Exited
      || (x.timedOut && (x.handler.Deciding? || x.handler.Handling? || x.handler.Replying? || x.handler.Reporting?))
  }

  predicate InHand(x: Pipe, p: nat) {
    x.loop == Handing(p) || x.handler == Entering(p)
  }

  ghost predicate Increasing(xs: seq<nat>) {
    forall i, j :: 0 <= i < j < |xs| ==> xs[i] < xs[j]
  }

  /** Positions that left the channel are skipped, started, or in hand, and starts happen in queue order. */
  ghost predicate OrderOk(x: Pipe, length: nat) {
    && x.taken <= length
    && Increasing(x.started)
    && (forall p: nat :: p in x.started ==> p < x.taken)
    && (forall p: nat :: p < x.taken ==> p in x.started || p in x.skipped || InHand(x, p))
    && (forall p: nat :: InHand(x, p) ==> p + 1 == x.taken && p !in x.started && p !in x.skipped)
    && (forall p: nat :: p in x.skipped ==> p < x.taken && p !in x.started)
  }

  /** The one-slot channels hold at most what the request at hand put there. */
  ghost predicate SlotsOk(x: Pipe) {
    && (forall p: nat :: p in x.entered ==> x.loop == AwaitingEntry(p))
    && (forall p: nat :: p in x.finished ==> p in x.started)
    && (forall p: nat :: p in x.finished && !x.timedOut ==> x.loop == AwaitingEntry(p) || x.loop == Watching(p))
    && (forall p: nat :: WorksOn(x.handler, p) ==> p in x.started && p !in x.finished && p + 1 == x.taken)
    && (forall p: nat :: x.loop == AwaitingEntry(p) || x.loop == Watching(p) ==> p + 1 == x.taken)
    && (x.requestsOpen <==> x.loop != ClosingDone && x.loop != Ended)
    && (x.timedOut ==> x.loop == Leaving || x.loop == ClosingDone || x.loop == Ended)
  }

  ghost predicate PipeOk(x: Pipe, length: nat) {
    Handshake(x) && OrderOk(x, length) && SlotsOk(x)
  }

  lemma StartedAppend(xs: seq<nat>, p: nat)
    ensures forall q: nat :: q in xs + [p] <==> q in xs || q == p
  {
  }

  lemma {:induction false} LoopHandshake(x: Pipe, op: LoopOp, stop: bool, closed: bool, ready: bool, length: nat)
    requires PipeOk(x, length) && LoopCan(x, op, stop, closed, length)
    ensures Handshake(LoopNext(x, op, ready))
  {
    hide OrderOk;
  }

  lemma {:induction false} LoopOrder(x: Pipe, op: LoopOp, stop: bool, closed: bool, ready: bool, length: nat)
    requires PipeOk(x, length) && LoopCan(x, op, stop, closed, length)
    ensures OrderOk(LoopNext(x, op, ready), length)
  {
    hide SlotsOk;
    if op.Hand? {
      assert InHand(x, x.loop.p);
    }
  }

  lemma {:induction false} LoopSlots(x: Pipe, op: LoopOp, stop: bool, closed: bool, ready: bool, length: nat)
    requires PipeOk(x, length) && LoopCan(x, op, stop, closed, length)
    ensures SlotsOk(LoopNext(x, op, ready))
  {
    if op.Hand? {
      assert InHand(x, x.loop.p);
    }
  }

  lemma {:induction false} HandlerHandshake(x: Pipe, op: HandlerOp, query: bool, length: nat)
    requires PipeOk(x, length) && HandlerCan(x, op)
    ensures Handshake(HandlerNext(x, op, query))
  {
    hide OrderOk;
  }

  lemma {:induction false} HandlerOrder(x: Pipe, op: HandlerOp, query: bool, length: nat)
    requires PipeOk(x, length) && HandlerCan(x, op)
    ensures OrderOk(HandlerNext(x, op, query), length)
  {
    hide SlotsOk;
    hide Handshake;
    hide OrderOk;
    if op.Enter? {
      EnterOrder(x, query, length);
    } else {
      WorkOrder(x, op, query, length);
    }
  }

  lemma {:induction false} EnterOrder(x: Pipe, query: bool, length: nat)
    requires OrderOk(x, length) && Handshake(x) && HandlerCan(x, Enter)
    ensures OrderOk(HandlerNext(x, Enter, query), length)
  {
    hide Increasing;
    assert InHand(x, x.handler.p);
    StartedAppend(x.started, x.handler.p);
    EnterIncreasing(x.started, x.handler.p);
  }

  lemma {:induction false} WorkOrder(x: Pipe, op: HandlerOp, query: bool, length: nat)
    requires OrderOk(x, length) && HandlerCan(x, op) && !op.Enter?
    ensures OrderOk(HandlerNext(x, op, query), length)
  {
    hide Increasing;
    var y := HandlerNext(x, op, query);
    assert forall p: nat :: InHand(y, p) <==> InHand(x, p);
  }

  lemma EnterIncreasing(xs: seq<nat>, p: nat)
    requires Increasing(xs) && (forall q: nat :: q in xs ==> q < p + 1) && p !in xs
    ensures Increasing(xs + [p])
  {
    forall i | 0 <= i < |xs| ensures xs[i] < p {
      assert xs[i] in xs;
    }
  }

  lemma {:induction false} HandlerSlots(x: Pipe, op: HandlerOp, query: bool, length: nat)
    requires PipeOk(x, length) && HandlerCan(x, op)
    ensures SlotsOk(HandlerNext(x, op, query))
  {
    if op.Enter? {
      assert InHand(x, x.handler.p);
      StartedAppend(x.started, x.handler.p);
    } else if !op.GetReady? && !op.Exit? {
      assert WorksOn(x.handler, x.handler.p);
    }
  }

  lemma LoopKeeps(x: Pipe, op: LoopOp, stop: bool, closed: bool, ready: bool, length: nat)
    requires PipeOk(x, length) && LoopCan(x, op, stop, closed, length)
    ensures PipeOk(LoopNext(x, op, ready), length)
  {
    LoopHandshake(x, op, stop, closed, ready, length);
    LoopOrder(x, op, stop, closed, ready, length);
    LoopSlots(x, op, stop, closed, ready, length);
  }

  lemma HandlerKeeps(x: Pipe, op: HandlerOp, query: bool, length: nat)
    requires PipeOk(x, length) && HandlerCan(x, op)
    ensures PipeOk(HandlerNext(x, op, query), length)
  {
    HandlerHandshake(x, op, query, length);
    HandlerOrder(x, op, query, length);
    HandlerSlots(x, op, query, length);
  }

  // ----- producers -----

  /** How a call to Enqueue or EnqueueQuery ended. */
  datatype Outcome = Enqueued | Answer | ContextError | StoppedError

  datatype ClientPc =
    | Enqueuing
    | Waiting                 // enqueued a query: selects among reply, context and loop done
    | DoneSeen                // took the loop-done branch, looks for a reply once more
    | Returned(outcome: Outcome)

  /** A producer and its one command; `blank` marks a nil command or context. */
  datatype Client = Client(query: bool, blank: bool, pc: ClientPc)

  /**
   * `queue` lists every command ever accepted, by client, in order; `replies`
   * are the clients whose reply channel is full, `handled` the positions
   * whose Handle call has begun.
   */
  datatype State = State(
    clients: seq<Client>,
    cancelled: set<nat>,
    stop: bool,
    closed: bool,
    queue: seq<nat>,
    pipe: Pipe,
    handled: set<nat>,
    replies: set<nat>
  )

  datatype ClientOp = Accept | Reject | TakeReply | SeeCancel | SeeDone | TakeLate | GiveUp

  datatype Action =
    | Cancel(c: nat)
    | Stop
    | CloseQueue
    | OfClient(c: nat, op: ClientOp)
    | OfLoop(loopOp: LoopOp)
    | OfHandler(handlerOp: HandlerOp)

  ghost predicate Start(s: State) {
    && (forall c :: 0 <= c < |s.clients| ==> s.clients[c].pc == Enqueuing)
    && s.queue == [] && s.handled == {} && s.replies == {}
    && s.pipe == Pipe(AwaitingReady, Starting, true, {}, {}, 0, {}, [], false)
  }

  predicate At(s: State, c: nat, pc: ClientPc) {
    c < |s.clients| && s.clients[c].pc == pc
  }

  /** The client of a queue position; positions outside the queue belong to nobody. */
  function Owner(s: State, p: nat): nat {
    if p < |s.queue| then s.queue[p] else |s.clients|
  }

  predicate IsQuery(s: State, p: nat) {
    Owner(s, p) < |s.clients| && s.clients[Owner(s, p)].query
  }

  /** A command that can be handled: not blank, its context still live. */
  predicate IsReady(s: State, p: nat) {
    Owner(s, p) < |s.clients| && !s.clients[Owner(s, p)].blank && Owner(s, p) !in s.cancelled
  }

  predicate ClientCan(s: State, c: nat, op: ClientOp) {
    match op
    case Accept => At(s, c, Enqueuing) && !s.closed
    case Reject => At(s, c, Enqueuing) && (c in s.cancelled || s.stop)
    case TakeReply => At(s, c, Waiting) && c in s.replies
    case SeeCancel => At(s, c, Waiting) && c in s.cancelled
    case SeeDone => At(s, c, Waiting) && s.pipe.loop == Ended
    case TakeLate => At(s, c, DoneSeen) && c in s.replies
    case GiveUp => At(s, c, DoneSeen) && c !in s.replies
  }

  predicate Enabled(s: State, a: Action) {
    match a
    case Cancel(c) => c < |s.clients|
    case Stop => true
    case CloseQueue => true
    case OfClient(c, op) => ClientCan(s, c, op)
    case OfLoop(op) => LoopCan(s.pipe, op, s.stop, s.closed, |s.queue|)
    case OfHandler(op) =>
      && HandlerCan(s.pipe, op)
      && (op.SkipCancelled? || op.DropReply? ==> Owner(s, s.pipe.handler.p) in s.cancelled)
      && (op.Begin? ==> Owner(s, s.pipe.handler.p) !in s.cancelled)
      && (op.SendReply? ==> Owner(s, s.pipe.handler.p) !in s.replies)
  }

  function MoveClient(s: State, c: nat, pc: ClientPc): State
    requires c < |s.clients|
  {
    s.(clients := s.clients[c := s.clients[c].(pc := pc)])
  }

  function ClientNext(s: State, c: nat, op: ClientOp): State
    requires ClientCan(s, c, op)
  {
    match op
    case Accept =>
      MoveClient(s, c, if s.clients[c].query then Waiting else Returned(Enqueued)).(queue := s.queue + [c])
    case Reject => MoveClient(s, c, Returned(if c in s.cancelled then ContextError else StoppedError))
    case TakeReply => MoveClient(s, c, Returned(Answer)).(replies := s.replies - {c})
    case SeeCancel => MoveClient(s, c, Returned(ContextError))
    case SeeDone => MoveClient(s, c, DoneSeen)
    case TakeLate => MoveClient(s, c, Returned(Answer)).(replies := s.replies - {c})
    case GiveUp => MoveClient(s, c, Returned(StoppedError))
  }

  function Next(s: State, a: Action): State
    requires Enabled(s, a)
  {
    match a
    case Cancel(c) => s.(cancelled := s.cancelled + {c})
    case Stop => s.(stop := true)
    case CloseQueue => s.(closed := true)
    case OfClient(c, op) => ClientNext(s, c, op)
    case OfLoop(op) => s.(pipe := LoopNext(s.pipe, op, IsReady(s, s.pipe.taken)))
    case OfHandler(op) =>
      var pipe := HandlerNext(s.pipe, op, op.End? && IsQuery(s, s.pipe.handler.p));
      if op.Begin? then s.(pipe := pipe, handled := s.handled + {s.pipe.handler.p})
      else if op.SendReply? then s.(pipe := pipe, replies := s.replies + {Owner(s, s.pipe.handler.p)})
      else s.(pipe := pipe)
  }

  /** Each client enqueues once, and only queries wait. */
  ghost predicate ClientsOk(s: State) {
    && (forall p :: 0 <= p < |s.queue| ==> s.queue[p] < |s.clients| && s.clients[s.queue[p]].pc != Enqueuing)
    && (forall p, q :: 0 <= p < q < |s.queue| ==> s.queue[p] != s.queue[q])
    && (forall c :: 0 <= c < |s.clients| && s.clients[c].pc == DoneSeen ==> s.pipe.loop == Ended)
  }

  /** The handler is running the query at p or about to reply to it. */
  predicate AtWork(h: HandlerPc, p: nat) {
    h == Handling(p) || h == Replying(p)
  }

  /** A handled query has its reply in the channel, unless it is still at work, was answered, or was cancelled. */
  ghost predicate ReplyOk(s: State, p: nat)
    requires p < |s.queue|
  {
    var c, h := s.queue[p], s.pipe.handler;
    && (p in s.handled ==> p in s.pipe.started)
    && (AtWork(h, p) ==> p in s.handled)
    && (h == Deciding(p) ==> p !in s.handled)
    && (c in s.replies || At(s, c, Returned(Answer)) ==> p in s.handled && !AtWork(h, p))
    && (p in s.handled && c < |s.clients| && s.clients[c].query ==>
          AtWork(h, p) || c in s.replies || c in s.cancelled || At(s, c, Returned(Answer)))
  }

  ghost predicate RepliesOk(s: State) {
    && (forall p :: 0 <= p < |s.queue| ==> ReplyOk(s, p))
    && (forall p: nat :: p in s.handled ==> p < |s.queue|)
    && (forall c: nat :: c in s.replies ==> c in s.queue)
    && (forall c :: 0 <= c < |s.clients| && s.clients[c].pc == Returned(Answer) ==> c in s.queue)
  }

  ghost predicate Inv(s: State) {
    PipeOk(s.pipe, |s.queue|) && ClientsOk(s) && RepliesOk(s)
  }

  lemma {:induction false} StartInv(s: State)
    requires Start(s)
    ensures Inv(s)
  {
  }

  lemma {:induction false} HandlerWithinQueue(s: State)
    requires PipeOk(s.pipe, |s.queue|)
    ensures forall p: nat :: WorksOn(s.pipe.handler, p) ==> p < |s.queue| && p in s.pipe.started
    ensures s.pipe.handler.Entering? ==> s.pipe.handler.p !in s.pipe.started && s.pipe.handler.p < |s.queue|
  {
    assert s.pipe.handler.Entering? ==> InHand(s.pipe, s.pipe.handler.p);
  }

  // ----- client steps -----

  lemma {:induction false} ClientClients(s: State, c: nat, op: ClientOp)
    requires Inv(s) && ClientCan(s, c, op)
    ensures ClientsOk(ClientNext(s, c, op))
  {
    hide PipeOk;
    hide RepliesOk;
  }

  lemma {:induction false} ClientReply(s: State, c: nat, op: ClientOp, p: nat)
    requires Inv(s) && ClientCan(s, c, op) && p < |s.queue|
    ensures p < |ClientNext(s, c, op).queue| && ReplyOk(ClientNext(s, c, op), p)
  {
    hide PipeOk;
    assert ReplyOk(s, p);
  }

  lemma {:induction false} ClientAccepted(s: State, c: nat)
    requires Inv(s) && ClientCan(s, c, Accept)
    ensures ReplyOk(ClientNext(s, c, Accept), |s.queue|)
  {
    hide PipeOk;
    hide ReplyOk;
    NotQueued(s, c);
    HandlerWithinQueue(s);
    NewReplyOk(ClientNext(s, c, Accept), |s.queue|);
  }

  lemma {:induction false} NotQueued(s: State, c: nat)
    requires ClientsOk(s) && At(s, c, Enqueuing)
    ensures c !in s.queue
  {
  }

  lemma {:induction false} NewReplyOk(s: State, p: nat)
    requires p < |s.queue| && p !in s.handled && s.queue[p] !in s.replies && !At(s, s.queue[p], Returned(Answer))
    requires !WorksOn(s.pipe.handler, p)
    ensures ReplyOk(s, p)
  {
  }

  lemma {:induction false} ClientRest(s: State, c: nat, op: ClientOp)
    requires Inv(s) && ClientCan(s, c, op)
    ensures var t := ClientNext(s, c, op);
      && (forall p: nat :: p in t.handled ==> p < |t.queue|)
      && (forall d: nat :: d in t.replies ==> d in t.queue)
      && (forall d :: 0 <= d < |t.clients| && t.clients[d].pc == Returned(Answer) ==> d in t.queue)
  {
    hide PipeOk;
    hide ReplyOk;
  }

  lemma {:induction false} ClientKeeps(s: State, c: nat, op: ClientOp)
    requires Inv(s) && ClientCan(s, c, op)
    ensures Inv(ClientNext(s, c, op))
  {
    var t := ClientNext(s, c, op);
    ClientClients(s, c, op);
    ClientRest(s, c, op);
    hide ReplyOk;
    forall p | 0 <= p < |t.queue| ensures ReplyOk(t, p) {
      if p == |s.queue| {
        ClientAccepted(s, c);
      } else {
        ClientReply(s, c, op, p);
      }
    }
  }

  // ----- handler steps -----

  lemma {:induction false} BeginReply(s: State, p: nat)
    requires Inv(s) && Enabled(s, OfHandler(Begin)) && p < |s.queue|
    ensures ReplyOk(Next(s, OfHandler(Begin)), p)
  {
    hide PipeOk;
    assert ReplyOk(s, p);
    HandlerWithinQueue(s);
    assert WorksOn(s.pipe.handler, s.pipe.handler.p);
  }

  lemma {:induction false} SentReply(s: State, p: nat)
    requires Inv(s) && Enabled(s, OfHandler(SendReply)) && p < |s.queue|
    ensures ReplyOk(Next(s, OfHandler(SendReply)), p)
  {
    hide PipeOk;
    assert ReplyOk(s, p);
    HandlerWithinQueue(s);
    assert WorksOn(s.pipe.handler, s.pipe.handler.p);
  }

  lemma {:induction false} PlainReply(s: State, op: HandlerOp, p: nat)
    requires Inv(s) && Enabled(s, OfHandler(op)) && p < |s.queue| && !op.Begin? && !op.SendReply?
    ensures ReplyOk(Next(s, OfHandler(op)), p)
  {
    hide PipeOk;
    hide ClientsOk;
    assert ReplyOk(s, p);
    HandlerWithinQueue(s);
    if op.Enter? {
      StartedAppend(s.pipe.started, s.pipe.handler.p);
    }
  }

  lemma {:induction false} HandlerReply(s: State, op: HandlerOp, p: nat)
    requires Inv(s) && Enabled(s, OfHandler(op)) && p < |s.queue|
    ensures ReplyOk(Next(s, OfHandler(op)), p)
  {
    hide Inv;
    hide ReplyOk;
    hide Enabled;
    if op.Begin? {
      BeginReply(s, p);
    } else if op.SendReply? {
      SentReply(s, p);
    } else {
      PlainReply(s, op, p);
    }
  }

  lemma {:induction false} HandlerRest(s: State, op: HandlerOp)
    requires Inv(s) && Enabled(s, OfHandler(op))
    ensures var t := Next(s, OfHandler(op));
      && (forall p: nat :: p in t.handled ==> p < |t.queue|)
      && (forall d: nat :: d in t.replies ==> d in t.queue)
  {
    hide PipeOk;
    hide ReplyOk;
    HandlerWithinQueue(s);
    if op.Begin? || op.SendReply? {
      assert WorksOn(s.pipe.handler, s.pipe.handler.p);
      assert s.queue[s.pipe.handler.p] in s.queue;
    }
  }

  lemma {:induction false} HandlerStep(s: State, op: HandlerOp)
    requires Inv(s) && Enabled(s, OfHandler(op))
    ensures Inv(Next(s, OfHandler(op)))
  {
    hide PipeOk;
    hide ReplyOk;
    HandlerKeeps(s.pipe, op, op.End? && IsQuery(s, s.pipe.handler.p), |s.queue|);
    HandlerRest(s, op);
    HandlerLoop(s.pipe, op, op.End? && IsQuery(s, s.pipe.handler.p));
    forall p | 0 <= p < |s.queue| ensures ReplyOk(Next(s, OfHandler(op)), p) {
      HandlerReply(s, op, p);
    }
  }

  lemma HandlerLoop(x: Pipe, op: HandlerOp, query: bool)
    requires HandlerCan(x, op)
    ensures HandlerNext(x, op, query).loop == x.loop
  {
  }

  // ----- loop and environment steps -----

  /** ReplyOk reads the handler, not the loop. */
  lemma {:induction false} ReplyIgnoresLoop(s: State, t: State, p: nat)
    requires p < |s.queue| && ReplyOk(s, p)
    requires t == s.(pipe := t.pipe) && t.pipe.started == s.pipe.started
    requires t.pipe.handler == s.pipe.handler || (s.pipe.handler == Idle && t.pipe.handler.Entering?)
    ensures ReplyOk(t, p)
  {
  }

  lemma {:induction false} LoopFrame(x: Pipe, op: LoopOp, stop: bool, closed: bool, ready: bool, length: nat)
    requires LoopCan(x, op, stop, closed, length)
    ensures var y := LoopNext(x, op, ready);
      && y.started == x.started
      && (y.handler == x.handler || (x.handler == Idle && y.handler.Entering?))
      && x.loop != Ended
  {
  }

  lemma {:induction false} LoopStep(s: State, op: LoopOp)
    requires Inv(s) && Enabled(s, OfLoop(op))
    ensures Inv(Next(s, OfLoop(op)))
  {
    hide PipeOk;
    hide ReplyOk;
    hide LoopNext;
    hide LoopCan;
    var ready := IsReady(s, s.pipe.taken);
    LoopKeeps(s.pipe, op, s.stop, s.closed, ready, |s.queue|);
    LoopFrame(s.pipe, op, s.stop, s.closed, ready, |s.queue|);
    forall p | 0 <= p < |s.queue| ensures ReplyOk(Next(s, OfLoop(op)), p) {
      ReplyIgnoresLoop(s, Next(s, OfLoop(op)), p);
    }
  }

  lemma {:induction false} EnvStep(s: State, a: Action)
    requires Inv(s) && Enabled(s, a) && (a.Cancel? || a.Stop? || a.CloseQueue?)
    ensures Inv(Next(s, a))
  {
    hide PipeOk;
    forall p | 0 <= p < |s.queue| ensures ReplyOk(Next(s, a), p) {
      assert ReplyOk(s, p);
    }
  }

  lemma {:induction false} StepInv(s: State, a: Action)
    requires Inv(s) && Enabled(s, a)
    ensures Inv(Next(s, a))
  {
    hide Inv;
    match a
    case OfClient(c, op) => ClientKeeps(s, c, op);
    case OfLoop(op) => LoopStep(s, op);
    case OfHandler(op) => HandlerStep(s, op);
    case _ => EnvStep(s, a);
  }

  // ----- the stopped error -----

  /**
   * An enqueued query that came back with the stopped error did so after the
   * loop had ended, and was never handled unless the watchdog fired or the
   * caller's own context ended.
   */
  ghost predicate StoppedOk(s: State) {
    forall p :: 0 <= p < |s.queue| && At(s, s.queue[p], Returned(StoppedError)) ==>
      s.pipe.loop == Ended && (s.pipe.timedOut || p !in s.handled || s.queue[p] in s.cancelled)
  }

  lemma {:induction false} QuietAfterEnd(x: Pipe, length: nat)
    requires PipeOk(x, length) && x.loop == Ended && !x.timedOut
    ensures x.handler == Idle || x.handler == Exited
  {
  }

  /** Giving up: the loop is done, no reply waits, and none can be under way unless the watchdog fired. */
  lemma {:induction false} GiveUpHonest(s: State, c: nat, p: nat)
    requires Inv(s) && p < |s.queue| && s.queue[p] == c && s.clients[c].query
    requires ClientCan(s, c, GiveUp)
    ensures s.pipe.loop == Ended && c !in s.replies
    ensures p in s.handled && c !in s.cancelled ==> s.pipe.timedOut && AtWork(s.pipe.handler, p)
  {
    hide PipeOk;
    assert ReplyOk(s, p);
    if !s.pipe.timedOut {
      QuietAfterEnd(s.pipe, |s.queue|);
    }
  }

  ghost predicate QueriesWait(s: State) {
    forall c :: 0 <= c < |s.clients| && (s.clients[c].pc == Waiting || s.clients[c].pc == DoneSeen) ==> s.clients[c].query
  }

  lemma {:induction false} StepQueries(s: State, a: Action)
    requires QueriesWait(s) && Enabled(s, a)
    ensures QueriesWait(Next(s, a))
  {
    hide LoopNext;
    hide HandlerNext;
  }

  lemma {:induction false} ClientStopped(s: State, c: nat, op: ClientOp)
    requires Inv(s) && StoppedOk(s) && QueriesWait(s) && ClientCan(s, c, op)
    ensures StoppedOk(ClientNext(s, c, op))
  {
    hide PipeOk;
    hide ReplyOk;
    var t := ClientNext(s, c, op);
    forall p | 0 <= p < |t.queue| && At(t, t.queue[p], Returned(StoppedError))
      ensures t.pipe.loop == Ended && (t.pipe.timedOut || p !in t.handled || t.queue[p] in t.cancelled)
    {
      if p < |s.queue| && s.queue[p] == c && op == GiveUp {
        GiveUpHonest(s, c, p);
      }
    }
  }

  lemma {:induction false} HandlerStopped(s: State, op: HandlerOp)
    requires Inv(s) && StoppedOk(s) && Enabled(s, OfHandler(op))
    ensures StoppedOk(Next(s, OfHandler(op)))
  {
    hide PipeOk;
    hide ReplyOk;
    if s.pipe.loop == Ended && !s.pipe.timedOut {
      QuietAfterEnd(s.pipe, |s.queue|);
    }
  }

  lemma {:induction false} StepStopped(s: State, a: Action)
    requires Inv(s) && StoppedOk(s) && QueriesWait(s) && Enabled(s, a)
    ensures StoppedOk(Next(s, a))
  {
    hide Inv;
    hide ClientNext;
    hide HandlerNext;
    hide LoopNext;
    match a
    case OfClient(c, op) => ClientStopped(s, c, op);
    case OfHandler(op) => HandlerStopped(s, op);
    case OfLoop(op) => LoopFrame(s.pipe, op, s.stop, s.closed, IsReady(s, s.pipe.taken), |s.queue|);
    case _ =>
  }

  // ----- after a timeout -----

  /** Once the watchdog has fired nothing starts, and only the command already started may still be handled. */
  ghost predicate NothingNew(s: State, t: State) {
    && t.pipe.timedOut
    && t.pipe.started == s.pipe.started
    && (forall p :: p in t.handled && p !in s.handled ==> s.pipe.handler == Deciding(p))
    && (forall p: nat :: t.pipe.handler == Deciding(p) ==> s.pipe.handler == Deciding(p))
  }

  lemma {:induction false} TimedOutLoop(x: Pipe, op: LoopOp, stop: bool, closed: bool, ready: bool, length: nat)
    requires SlotsOk(x) && x.timedOut && LoopCan(x, op, stop, closed, length)
    ensures var y := LoopNext(x, op, ready); y.timedOut && y.started == x.started && y.handler == x.handler
  {
  }

  lemma {:induction false} TimedOutHandler(x: Pipe, op: HandlerOp, query: bool)
    requires Handshake(x) && SlotsOk(x) && x.timedOut && HandlerCan(x, op)
    ensures var y := HandlerNext(x, op, query); y.timedOut && y.started == x.started && !y.handler.Deciding?
  {
  }

  lemma {:induction false} TimedOutStep(s: State, a: Action)
    requires Inv(s) && s.pipe.timedOut && Enabled(s, a)
    ensures NothingNew(s, Next(s, a))
  {
    hide OrderOk;
    hide RepliesOk;
    hide ClientsOk;
    hide LoopNext;
    hide HandlerNext;
    hide Handshake;
    hide SlotsOk;
    match a
    case OfLoop(op) => TimedOutLoop(s.pipe, op, s.stop, s.closed, IsReady(s, s.pipe.taken), |s.queue|);
    case OfHandler(op) => TimedOutHandler(s.pipe, op, op.End? && IsQuery(s, s.pipe.handler.p));
    case _ =>
  }

  // ----- runs -----

  ghost predicate IsRun(states: seq<State>, actions: seq<Action>) {
    && |states| == |actions| + 1
    && Start(states[0])
    && forall i :: 0 <= i < |actions| ==> Enabled(states[i], actions[i]) && states[i + 1] == Next(states[i], actions[i])
  }

  ghost predicate Safe(s: State) {
    Inv(s) && QueriesWait(s) && StoppedOk(s)
  }

  lemma {:induction false} RunSafe(states: seq<State>, actions: seq<Action>, i: nat)
    requires IsRun(states, actions) && i < |states|
    ensures Safe(states[i])
  {
    hide Inv;
    hide QueriesWait;
    hide StoppedOk;
    if i == 0 {
      StartSafe(states[0]);
    } else {
      RunSafe(states, actions, i - 1);
      StepSafe(states[i - 1], actions[i - 1]);
    }
  }

  lemma {:induction false} StartSafe(s: State)
    requires Start(s)
    ensures Safe(s)
  {
    StartInv(s);
  }

  lemma {:induction false} StepSafe(s: State, a: Action)
    requires Safe(s) && Enabled(s, a)
    ensures Safe(Next(s, a))
  {
    hide Inv;
    hide QueriesWait;
    hide StoppedOk;
    hide Next;
    StepInv(s, a);
    StepQueries(s, a);
    StepStopped(s, a);
  }

  /**
   * In every reachable state: starts so far are in queue order, without
   * repetition; a position that left the queue was started, or skipped and
   * never started because it is blank or its context had ended, or is the one
   * in hand; and while the loop could take another
   * command the handler is idle, so at most one command is being handled.
   */
  lemma {:induction false} StartsInQueueOrder(states: seq<State>, actions: seq<Action>, i: nat)
    requires IsRun(states, actions) && i < |states|
    ensures forall p :: p in states[i].pipe.skipped ==> p < |states[i].queue| && IsDead(states[i], p)
    ensures var x := states[i].pipe;
      && Increasing(x.started)
      && (forall p: nat :: p < x.taken <==> p in x.started || p in x.skipped || InHand(x, p))
      && (forall p: nat :: p in x.skipped ==> p !in x.started)
      && (x.loop == Selecting ==> x.handler == Idle)
      && (forall p: nat :: WorksOn(x.handler, p) ==> p + 1 == x.taken)
  {
    hide RepliesOk;
    hide ClientsOk;
    RunSafe(states, actions, i);
    OnlyDeadSkipped(states, actions, i);
  }

  /** After a timeout no later state has a further start; at most the one command being looked at is still handled. */
  lemma {:induction false} NoStartAfterTimeout(states: seq<State>, actions: seq<Action>, i: nat, j: nat)
    requires IsRun(states, actions) && i <= j < |states| && states[i].pipe.timedOut
    ensures NothingNew(states[i], states[j])
    decreases j
  {
    hide Inv;
    hide QueriesWait;
    hide StoppedOk;
    hide NothingNew;
    hide Next;
    hide Enabled;
    hide Start;
    if i == j {
      NothingNewYet(states[i]);
    } else {
      NoStartAfterTimeout(states, actions, i, j - 1);
      RunSafe(states, actions, j - 1);
      StillTimedOut(states[i], states[j - 1]);
      TimedOutStep(states[j - 1], actions[j - 1]);
      NothingNewOn(states[i], states[j - 1], states[j]);
    }
  }

  lemma NothingNewYet(s: State)
    requires s.pipe.timedOut
    ensures NothingNew(s, s)
  {
  }

  lemma StillTimedOut(s: State, t: State)
    requires NothingNew(s, t)
    ensures t.pipe.timedOut
  {
  }

  lemma NothingNewOn(s: State, t: State, u: State)
    requires NothingNew(s, t) && NothingNew(t, u)
    ensures NothingNew(s, u)
  {
  }

  /**
   * An enqueued query returns the stopped error only after the loop is done,
   * with no reply waiting; if the watchdog has not fired and the caller's
   * context is live, its command was not and never will be handled.
   */
  lemma {:induction false} StoppedErrorHonest(states: seq<State>, actions: seq<Action>, i: nat)
    requires IsRun(states, actions) && i < |actions|
    ensures forall c :: actions[i] == OfClient(c, GiveUp) ==> states[i].pipe.loop == Ended && c !in states[i].replies
    ensures forall j :: 0 <= j < |states| ==> StoppedOk(states[j])
  {
    RunSafe(states, actions, i);
    assert Enabled(states[i], actions[i]);
    forall j | 0 <= j < |states| ensures StoppedOk(states[j]) {
      RunSafe(states, actions, j);
    }
  }

  // ----- nobody blocks -----

  predicate HandlerWaits(x: Pipe) {
    x.handler == Exited || (x.handler == Idle && x.requestsOpen)
  }

  /**
   * The handler never blocks on a report or a reply: away from waiting for a
   * request it always has a step, whatever loop and clients do.
   */
  lemma {:induction false} HandlerNeverBlocks(s: State)
    requires Inv(s) && !HandlerWaits(s.pipe)
    ensures exists op :: Enabled(s, OfHandler(op)) && (op.End? <==> s.pipe.handler.Handling?)
  {
    hide OrderOk;
    hide ClientsOk;
    var x := s.pipe;
    match x.handler
    case Starting => assert Enabled(s, OfHandler(GetReady));
    case Idle => assert Enabled(s, OfHandler(Exit));
    case Entering(p) => assert Enabled(s, OfHandler(Enter));
    case Deciding(p) =>
      assert Enabled(s, OfHandler(Begin)) || Enabled(s, OfHandler(SkipCancelled));
    case Handling(p) => assert Enabled(s, OfHandler(End));
    case Replying(p) =>
      ReplySlotFree(s, p);
      assert Enabled(s, OfHandler(SendReply));
    case Reporting(p) =>
      assert WorksOn(x.handler, p);
      assert Enabled(s, OfHandler(Report));
  }

  lemma {:induction false} ReplySlotFree(s: State, p: nat)
    requires Inv(s) && s.pipe.handler == Replying(p)
    ensures Owner(s, p) !in s.replies
  {
    assert WorksOn(s.pipe.handler, p);
    assert ReplyOk(s, p);
  }

  /** Loop and handler never deadlock: unless the loop has ended or waits for work, one of them has a step. */
  lemma {:induction false} LoopNeverStuck(s: State)
    requires Inv(s) && s.pipe.loop != Ended && s.pipe.loop != Selecting
    ensures (exists op :: Enabled(s, OfLoop(op))) || (exists op :: op != End && Enabled(s, OfHandler(op)))
  {
    hide OrderOk;
    hide ClientsOk;
    hide RepliesOk;
    var x := s.pipe;
    match x.loop
    case AwaitingReady => assert Enabled(s, OfLoop(SeeReady)) || Enabled(s, OfHandler(GetReady));
    case Handing(p) => assert Enabled(s, OfLoop(Hand));
    case AwaitingEntry(p) => assert Enabled(s, OfLoop(SeeEntry)) || Enabled(s, OfHandler(Enter));
    case Watching(p) => assert Enabled(s, OfLoop(TimeOut));
    case Hooking => assert Enabled(s, OfLoop(HookStop));
    case Leaving => assert Enabled(s, OfLoop(CloseRequests));
    case ClosingDone => assert Enabled(s, OfLoop(CloseDone));
    case _ =>
  }

  // ----- every run ends -----

  /** Choices made outside: contexts end, stop is called, the queue is closed. */
  predicate Outside(a: Action) {
    a.Cancel? || a.Stop? || a.CloseQueue?
  }

  /** How many steps producers, loop and handler take. */
  function Steps(actions: seq<Action>): nat {
    if actions == [] then 0
    else Steps(actions[..|actions| - 1]) + if Outside(actions[|actions| - 1]) then 0 else 1
  }

  /** Steps a producer has left; the ten that loop and handler take over its command included. */
  function ClientRank(c: Client): nat {
    match c.pc
    case Enqueuing => 13
    case Waiting => 2
    case DoneSeen => 1
    case Returned(_) => 0
  }

  function LoopRank(l: LoopPc): nat {
    match l
    case AwaitingReady => 4
    case Selecting => 3
    case Handing(_) => 12
    case AwaitingEntry(_) => 6
    case Watching(_) => 5
    case Hooking => 4
    case Leaving => 2
    case ClosingDone => 1
    case Ended => 0
  }

  function HandlerRank(h: HandlerPc): nat {
    match h
    case Starting => 2
    case Idle => 1
    case Entering(_) => 6
    case Deciding(_) => 5
    case Handling(_) => 4
    case Replying(_) => 3
    case Reporting(_) => 2
    case Exited => 0
  }

  function ClientRanks(cs: seq<Client>): (r: seq<int>)
    ensures |r| == |cs| && forall i :: 0 <= i < |cs| ==> r[i] == ClientRank(cs[i])
  {
    seq(|cs|, i requires 0 <= i < |cs| => ClientRank(cs[i]))
  }

  function PipeWork(x: Pipe, length: nat): int {
    10 * (length - x.taken) + LoopRank(x.loop) + HandlerRank(x.handler)
  }

  /** Steps still to be made, at most. */
  function Work(s: State): int {
    Sum(ClientRanks(s.clients)) + PipeWork(s.pipe, |s.queue|)
  }

  lemma {:induction false} MoveWork(s: State, c: nat, pc: ClientPc)
    requires c < |s.clients|
    ensures Sum(ClientRanks(MoveClient(s, c, pc).clients))
            == Sum(ClientRanks(s.clients)) - ClientRank(s.clients[c]) + ClientRank(s.clients[c].(pc := pc))
  {
    var r, after := ClientRanks(s.clients), s.clients[c].(pc := pc);
    assert ClientRanks(s.clients[c := after]) == r[c := ClientRank(after)];
    SumUpdate(r, c, ClientRank(after));
  }

  /** Whatever happens outside, every step of producers, loop and handler leaves less work. */
  lemma {:induction false} StepWork(s: State, a: Action)
    requires Inv(s) && Enabled(s, a)
    ensures if Outside(a) then Work(Next(s, a)) == Work(s) else Work(Next(s, a)) < Work(s)
    ensures |Next(s, a).clients| == |s.clients|
  {
    hide Inv;
    hide ClientRanks;
    hide PipeWork;
    hide LoopCan;
    hide LoopNext;
    hide HandlerNext;
    hide ClientCan;
    hide ClientNext;
    match a
    case OfClient(c, op) => ClientWork(s, c, op);
    case OfLoop(op) =>
      InvPipe(s);
      LoopWork(s.pipe, op, s.stop, s.closed, IsReady(s, s.pipe.taken), |s.queue|);
    case OfHandler(op) =>
      HandlerWork(s.pipe, op, op.End? && IsQuery(s, s.pipe.handler.p), |s.queue|);
    case _ =>
  }

  lemma InvPipe(s: State)
    requires Inv(s)
    ensures PipeOk(s.pipe, |s.queue|)
  {
  }

  lemma {:induction false} ClientWork(s: State, c: nat, op: ClientOp)
    requires ClientCan(s, c, op)
    ensures Work(ClientNext(s, c, op)) < Work(s) && |ClientNext(s, c, op).clients| == |s.clients|
  {
    hide Sum;
    hide ClientRanks;
    MoveWork(s, c, ClientNext(s, c, op).clients[c].pc);
  }

  lemma {:induction false} HandlerWork(x: Pipe, op: HandlerOp, query: bool, length: nat)
    requires HandlerCan(x, op)
    ensures PipeWork(HandlerNext(x, op, query), length) < PipeWork(x, length)
  {
  }

  lemma {:induction false} LoopWork(x: Pipe, op: LoopOp, stop: bool, closed: bool, ready: bool, length: nat)
    requires PipeOk(x, length) && LoopCan(x, op, stop, closed, length)
    ensures PipeWork(LoopNext(x, op, ready), length) < PipeWork(x, length)
  {
  }

  lemma {:induction false} WorkBounds(s: State)
    ensures 0 <= Sum(ClientRanks(s.clients)) <= 13 * |s.clients|
    ensures Inv(s) ==> Work(s) >= 0
  {
    hide Sum;
    SumBetween(ClientRanks(s.clients), 0, 13);
  }

  lemma {:induction false} RunWork(states: seq<State>, actions: seq<Action>, i: nat)
    requires IsRun(states, actions) && i < |states|
    ensures |states[i].clients| == |states[0].clients|
    ensures Work(states[i]) + Steps(actions[..i]) <= 13 * |states[0].clients| + 6
  {
    if i == 0 {
      WorkBounds(states[0]);
    } else {
      hide Inv;
      hide Next;
      hide Work;
      hide Enabled;
      hide Start;
      RunWork(states, actions, i - 1);
      RunSafe(states, actions, i - 1);
      StepWork(states[i - 1], actions[i - 1]);
      assert actions[..i][..i - 1] == actions[..i - 1];
    }
  }

  /** No producer has a step, nor the loop, nor the handler unless it is inside a Handle call. */
  ghost predicate AtRest(s: State) {
    forall a :: Enabled(s, a) ==> Outside(a) || a == OfHandler(End)
  }

  /** Loop and handler are done, or the handler was left behind inside a Handle call. */
  predicate Over(x: Pipe) {
    x.loop == Ended && (x.handler == Exited || (x.handler.Handling? && x.timedOut))
  }

  lemma {:induction false} NotOverSteps(s: State)
    requires Inv(s) && (s.stop || s.closed) && !Over(s.pipe)
    ensures (exists op :: Enabled(s, OfLoop(op))) || (exists op :: op != End && Enabled(s, OfHandler(op)))
  {
    hide OrderOk;
    hide ClientsOk;
    hide RepliesOk;
    if s.pipe.loop == Selecting {
      assert Enabled(s, OfLoop(SeeStop)) || Enabled(s, OfLoop(SeeClosed)) || Enabled(s, OfLoop(LoopOp.Take));
    } else if s.pipe.loop != Ended {
      LoopNeverStuck(s);
    } else {
      HandlerNeverBlocks(s);
    }
  }

  lemma {:induction false} ClientSteps(s: State, c: nat)
    requires s.pipe.loop == Ended && c < |s.clients| && !s.clients[c].pc.Returned?
    ensures (exists op :: ClientCan(s, c, op)) || (s.clients[c].pc == Enqueuing && s.closed && !s.stop)
  {
    match s.clients[c].pc
    case Enqueuing => assert ClientCan(s, c, Accept) || ClientCan(s, c, Reject) || (s.closed && !s.stop);
    case Waiting => assert ClientCan(s, c, SeeDone);
    case DoneSeen => assert ClientCan(s, c, TakeLate) || ClientCan(s, c, GiveUp);
  }

  lemma {:induction false} RestEnded(s: State)
    requires Inv(s) && AtRest(s) && (s.stop || s.closed)
    ensures Over(s.pipe)
  {
    if !Over(s.pipe) {
      NotOverSteps(s);
    }
  }

  lemma {:induction false} RestReturned(s: State, c: nat)
    requires s.pipe.loop == Ended && AtRest(s) && c < |s.clients|
    ensures s.clients[c].pc.Returned? || (s.clients[c].pc == Enqueuing && s.closed && !s.stop)
  {
    if !s.clients[c].pc.Returned? {
      ClientSteps(s, c);
      if op :| ClientCan(s, c, op) {
        assert Enabled(s, OfClient(c, op));
      }
    }
  }

  /**
   * In every run producers, loop and handler take a bounded number of steps
   * between them. Once stop is called and none is left, the loop has ended, the
   * handler is gone or was left behind by the watchdog inside a Handle call,
   * and every producer has returned; closing the queue does the same for all but
   * those not yet enqueued.
   */
  lemma {:induction false} RunsEnd(states: seq<State>, actions: seq<Action>)
    requires IsRun(states, actions)
    ensures Steps(actions) <= 13 * |states[0].clients| + 6
    ensures var s := states[|actions|];
      AtRest(s) && (s.stop || s.closed) ==>
        && Over(s.pipe)
        && |s.clients| == |states[0].clients|
        && forall c :: 0 <= c < |s.clients| ==>
             s.clients[c].pc.Returned? || (s.clients[c].pc == Enqueuing && s.closed && !s.stop)
  {
    hide Inv;
    hide AtRest;
    hide Work;
    var n := |actions|;
    var s := states[n];
    RunSafe(states, actions, n);
    RunWork(states, actions, n);
    WorkBounds(s);
    assert actions[..n] == actions;
    if AtRest(s) && (s.stop || s.closed) {
      RestEnded(s);
      forall c | 0 <= c < |s.clients|
        ensures s.clients[c].pc.Returned? || (s.clients[c].pc == Enqueuing && s.closed && !s.stop)
      {
        RestReturned(s, c);
      }
    }
  }

  // ----- what is handled -----

  /** The command at p cannot be handled any more: it is blank, or its context has ended. */
  predicate IsDead(s: State, p: nat)
    requires p < |s.queue|
  {
    s.queue[p] < |s.clients| ==> s.clients[s.queue[p]].blank || s.queue[p] in s.cancelled
  }

  /** Only dead commands are skipped, no blank one is started, and a started one is handled unless its context ended. */
  ghost predicate TriageOk(s: State) {
    && (forall p: nat :: p in s.pipe.skipped ==> p < |s.queue| && IsDead(s, p))
    && (forall p: nat :: p in s.pipe.started || InHand(s.pipe, p) ==>
          p < |s.queue| && s.queue[p] < |s.clients| && !s.clients[s.queue[p]].blank)
    && (forall p: nat :: p in s.pipe.started ==>
          p in s.handled || s.pipe.handler == Deciding(p) || Owner(s, p) in s.cancelled)
  }

  lemma {:induction false} ClientTriage(s: State, c: nat, op: ClientOp)
    requires Inv(s) && TriageOk(s) && ClientCan(s, c, op)
    ensures TriageOk(ClientNext(s, c, op))
  {
    hide Handshake;
    hide SlotsOk;
    hide RepliesOk;
  }

  lemma {:induction false} LoopTriage(s: State, op: LoopOp)
    requires Inv(s) && TriageOk(s) && Enabled(s, OfLoop(op))
    ensures TriageOk(Next(s, OfLoop(op)))
  {
    hide Inv;
    hide InHand;
    hide LoopNext;
    hide LoopCan;
    TakenFrame(s.pipe, op, s.stop, s.closed, IsReady(s, s.pipe.taken), |s.queue|);
  }

  /** A command just taken is in hand if it can be handled, and else skipped; nothing else of that changes. */
  lemma {:induction false} TakenFrame(x: Pipe, op: LoopOp, stop: bool, closed: bool, ready: bool, length: nat)
    requires LoopCan(x, op, stop, closed, length)
    ensures var y := LoopNext(x, op, ready);
      && y.started == x.started && (y.handler == x.handler || (x.handler == Idle && y.handler.Entering?))
      && (op.Take? ==> x.taken < length)
      && y.skipped == (if op.Take? && !ready then x.skipped + {x.taken} else x.skipped)
      && (forall p: nat :: InHand(y, p) ==> InHand(x, p) || (op.Take? && ready && p == x.taken))
  {
    if op.Hand? {
      assert InHand(x, x.loop.p);
    }
  }

  lemma {:induction false} HandlerTriage(s: State, op: HandlerOp)
    requires Inv(s) && TriageOk(s) && Enabled(s, OfHandler(op))
    ensures TriageOk(Next(s, OfHandler(op)))
  {
    hide Inv;
    hide TriageOk;
    hide Enabled;
    if op.Enter? {
      EnterTriage(s);
    } else {
      WorkTriage(s, op);
    }
  }

  lemma {:induction false} EnterTriage(s: State)
    requires TriageOk(s) && Enabled(s, OfHandler(Enter))
    ensures TriageOk(Next(s, OfHandler(Enter)))
  {
    assert InHand(s.pipe, s.pipe.handler.p);
    StartedAppend(s.pipe.started, s.pipe.handler.p);
  }

  lemma {:induction false} WorkTriage(s: State, op: HandlerOp)
    requires Inv(s) && TriageOk(s) && Enabled(s, OfHandler(op)) && !op.Enter?
    ensures TriageOk(Next(s, OfHandler(op)))
  {
    hide Inv;
    hide HandlerNext;
    WorkFrame(s.pipe, op, op.End? && IsQuery(s, s.pipe.handler.p));
  }

  /** Past the entry report the handler leaves starts alone, and moves on from the context check one way or the other. */
  lemma {:induction false} WorkFrame(x: Pipe, op: HandlerOp, query: bool)
    requires HandlerCan(x, op) && !op.Enter?
    ensures var y := HandlerNext(x, op, query);
      && y.started == x.started && y.skipped == x.skipped && y.loop == x.loop
      && !y.handler.Deciding? && !y.handler.Entering?
      && (x.handler.Deciding? ==> op.Begin? || op.SkipCancelled?)
  {
  }

  lemma {:induction false} StepTriage(s: State, a: Action)
    requires Inv(s) && TriageOk(s) && Enabled(s, a)
    ensures TriageOk(Next(s, a))
  {
    hide Inv;
    match a
    case OfClient(c, op) => ClientTriage(s, c, op);
    case OfLoop(op) => LoopTriage(s, op);
    case OfHandler(op) => HandlerTriage(s, op);
    case _ =>
  }

  /**
   * Over every run: a command was skipped only if it is blank or its context
   * has ended, a blank one is never started, and one that was started and whose
   * context is live is handled, or about to be.
   */
  lemma {:induction false} OnlyDeadSkipped(states: seq<State>, actions: seq<Action>, i: nat)
    requires IsRun(states, actions) && i < |states|
    ensures TriageOk(states[i])
  {
    if i > 0 {
      hide Inv;
      hide TriageOk;
      hide Next;
      hide Start;
      OnlyDeadSkipped(states, actions, i - 1);
      RunSafe(states, actions, i - 1);
      StepTriage(states[i - 1], actions[i - 1]);
    }
  }

  predicate HasLeft(l: LoopPc) {
    l == Leaving || l == ClosingDone || l == Ended
  }

  /** Why the loop left: it was stopped, the watchdog fired, the hook said so, or the closed queue is used up. */
  ghost predicate LeftFor(s: State, hooked: bool) {
    HasLeft(s.pipe.loop) ==> s.stop || s.pipe.timedOut || hooked || (s.closed && s.pipe.taken >= |s.queue|)
  }

  lemma {:induction false} StepLeft(s: State, a: Action, hooked: bool)
    requires Inv(s) && LeftFor(s, hooked) && Enabled(s, a)
    ensures LeftFor(Next(s, a), hooked || a == OfLoop(HookStop))
  {
    hide Handshake;
    hide OrderOk;
    hide SlotsOk;
    hide RepliesOk;
    hide ClientsOk;
  }

  lemma {:induction false} RunLeft(states: seq<State>, actions: seq<Action>, i: nat)
    requires IsRun(states, actions) && i < |states|
    ensures LeftFor(states[i], OfLoop(HookStop) in actions[..i])
  {
    if i > 0 {
      hide Inv;
      hide LeftFor;
      hide Next;
      hide Start;
      RunLeft(states, actions, i - 1);
      RunSafe(states, actions, i - 1);
      StepLeft(states[i - 1], actions[i - 1], OfLoop(HookStop) in actions[..i - 1]);
      assert actions[..i] == actions[..i - 1] + [actions[i - 1]];
    }
  }

  lemma {:induction false} RestTaken(s: State)
    requires Inv(s) && AtRest(s) && LeftFor(s, false) && !s.stop && !s.pipe.timedOut
    ensures s.pipe.taken == |s.queue| && (s.pipe.handler == Idle || s.pipe.handler == Exited)
    ensures forall p: nat :: !InHand(s.pipe, p)
    ensures s.pipe.loop == Selecting || s.pipe.loop == Ended
  {
    hide ClientsOk;
    hide RepliesOk;
    hide LeftFor;
    RestLoop(s);
    if s.pipe.loop == Selecting {
      assert s.pipe.taken < |s.queue| ==> Enabled(s, OfLoop(LoopOp.Take));
    } else {
      LeftTaken(s);
    }
  }

  lemma LeftTaken(s: State)
    requires LeftFor(s, false) && s.pipe.loop == Ended && !s.stop && !s.pipe.timedOut
    ensures s.pipe.taken >= |s.queue|
  {
  }

  lemma {:induction false} RestLoop(s: State)
    requires Inv(s) && AtRest(s)
    ensures s.pipe.loop == Selecting || s.pipe.loop == Ended
  {
    hide Inv;
    if s.pipe.loop != Selecting && s.pipe.loop != Ended {
      LoopNeverStuck(s);
    }
  }

  lemma {:induction false} LiveHandled(s: State, p: nat)
    requires Inv(s) && TriageOk(s) && p < |s.queue| && !IsDead(s, p)
    requires s.pipe.taken == |s.queue| && (s.pipe.handler == Idle || s.pipe.handler == Exited)
    requires forall q: nat :: !InHand(s.pipe, q)
    ensures p in s.handled
  {
    hide RepliesOk;
    hide Handshake;
    hide SlotsOk;
  }

  lemma {:induction false} LiveAnswered(s: State, p: nat)
    requires Inv(s) && QueriesWait(s) && StoppedOk(s) && AtRest(s) && p < |s.queue| && !IsDead(s, p) && p in s.handled
    requires !s.pipe.timedOut && (s.pipe.handler == Idle || s.pipe.handler == Exited)
    requires s.pipe.loop == Selecting || s.pipe.loop == Ended
    requires s.queue[p] < |s.clients| && s.clients[s.queue[p]].query && s.clients[s.queue[p]].pc != Returned(Enqueued)
    requires s.clients[s.queue[p]].pc != Returned(ContextError)
    ensures s.clients[s.queue[p]].pc == Returned(Answer)
  {
    hide PipeOk;
    var c := s.queue[p];
    assert ReplyOk(s, p);
    match s.clients[c].pc
    case Waiting => assert c in s.replies ==> Enabled(s, OfClient(c, TakeReply));
    case DoneSeen => assert c in s.replies ==> Enabled(s, OfClient(c, TakeLate));
    case Enqueuing =>
    case Returned(o) =>
      assert o.Enqueued? || o.Answer? || o.ContextError? || o.StoppedError?;
      assert !At(s, c, Returned(StoppedError));
  }

  /** An enqueued query returns an answer or an error: the context's only if that ended, the stopped one only after a stop or the loop's end. */
  ghost predicate OutcomesOk(s: State) {
    forall c :: 0 <= c < |s.clients| ==>
      && (s.clients[c].pc == Returned(Enqueued) ==> !s.clients[c].query)
      && (s.clients[c].pc == Returned(ContextError) ==> c in s.cancelled)
      && (s.clients[c].pc == Returned(StoppedError) || s.clients[c].pc == DoneSeen ==> s.stop || s.pipe.loop == Ended)
  }

  lemma {:induction false} StepOutcomes(s: State, a: Action)
    requires OutcomesOk(s) && Enabled(s, a)
    ensures OutcomesOk(Next(s, a))
  {
    hide LoopNext;
    hide LoopCan;
    hide HandlerNext;
    hide ClientNext;
    match a
    case OfLoop(op) => LoopFrame(s.pipe, op, s.stop, s.closed, IsReady(s, s.pipe.taken), |s.queue|);
    case OfHandler(op) => HandlerLoop(s.pipe, op, op.End? && IsQuery(s, s.pipe.handler.p));
    case OfClient(c, op) => ClientOutcomes(s, c, op);
    case _ =>
  }

  lemma {:induction false} ClientOutcomes(s: State, c: nat, op: ClientOp)
    requires OutcomesOk(s) && ClientCan(s, c, op)
    ensures OutcomesOk(ClientNext(s, c, op))
  {
  }

  /** Only queries are replied to. */
  ghost predicate AnswersOk(s: State) {
    && (s.pipe.handler.Replying? ==> IsQuery(s, s.pipe.handler.p))
    && (forall c: nat :: c in s.replies ==> c < |s.clients| && s.clients[c].query)
    && (forall c :: 0 <= c < |s.clients| && s.clients[c].pc == Returned(Answer) ==> s.clients[c].query)
  }

  lemma {:induction false} StepAnswers(s: State, a: Action)
    requires AnswersOk(s) && Enabled(s, a)
    ensures AnswersOk(Next(s, a))
  {
    hide LoopNext;
    hide LoopCan;
    hide ClientNext;
    match a
    case OfLoop(op) => LoopFrame(s.pipe, op, s.stop, s.closed, IsReady(s, s.pipe.taken), |s.queue|);
    case OfHandler(op) => HandlerAnswers(s, op);
    case OfClient(c, op) => ClientAnswers(s, c, op);
    case _ =>
  }

  lemma {:induction false} ClientAnswers(s: State, c: nat, op: ClientOp)
    requires AnswersOk(s) && ClientCan(s, c, op)
    ensures AnswersOk(ClientNext(s, c, op))
  {
  }

  lemma {:induction false} HandlerAnswers(s: State, op: HandlerOp)
    requires AnswersOk(s) && Enabled(s, OfHandler(op))
    ensures AnswersOk(Next(s, OfHandler(op)))
  {
  }

  /** Over every run only queries are replied to. */
  lemma {:induction false} RunAnswers(states: seq<State>, actions: seq<Action>, i: nat)
    requires IsRun(states, actions) && i < |states|
    ensures AnswersOk(states[i])
  {
    if i > 0 {
      hide AnswersOk;
      hide Next;
      hide Start;
      RunAnswers(states, actions, i - 1);
      StepAnswers(states[i - 1], actions[i - 1]);
    }
  }

  /** A command begins to be handled only while its context is live. */
  lemma {:induction false} BegunLive(states: seq<State>, actions: seq<Action>, i: nat, p: nat)
    requires IsRun(states, actions) && i < |actions| && p in states[i + 1].handled && p !in states[i].handled
    ensures p < |states[i].queue| && states[i].queue[p] !in states[i].cancelled
  {
    hide Inv;
    hide LoopNext;
    hide HandlerNext;
    RunSafe(states, actions, i);
    HandlesWithinQueue(states[i]);
    assert Enabled(states[i], actions[i]);
  }

  lemma HandlesWithinQueue(s: State)
    requires Inv(s)
    ensures s.pipe.handler.Deciding? ==> s.pipe.handler.p < |s.queue|
  {
    hide Inv;
    InvPipe(s);
    HandlerWithinQueue(s);
    assert s.pipe.handler.Deciding? ==> WorksOn(s.pipe.handler, s.pipe.handler.p);
  }

  /** Over every run producers return what they should. */
  lemma {:induction false} RunOutcomes(states: seq<State>, actions: seq<Action>, i: nat)
    requires IsRun(states, actions) && i < |states|
    ensures OutcomesOk(states[i])
  {
    if i > 0 {
      hide OutcomesOk;
      hide Next;
      hide Start;
      RunOutcomes(states, actions, i - 1);
      StepOutcomes(states[i - 1], actions[i - 1]);
    }
  }

  /**
   * A run that comes to rest without a stop, a timeout or a refusal of the hook
   * has handled every enqueued command whose context is live, and answered every
   * such query.
   */
  lemma {:induction false} LiveServed(states: seq<State>, actions: seq<Action>)
    requires IsRun(states, actions) && OfLoop(HookStop) !in actions
    ensures var s := states[|actions|];
      AtRest(s) && !s.stop && !s.pipe.timedOut ==>
        forall p :: 0 <= p < |s.queue| && !IsDead(s, p) ==>
          && p in s.handled
          && (s.queue[p] < |s.clients| && s.clients[s.queue[p]].query ==> s.clients[s.queue[p]].pc == Returned(Answer))
  {
    hide Inv;
    hide AtRest;
    hide TriageOk;
    hide QueriesWait;
    hide StoppedOk;
    hide LeftFor;
    var n := |actions|;
    var s := states[n];
    RunSafe(states, actions, n);
    RunLeft(states, actions, n);
    RunOutcomes(states, actions, n);
    OnlyDeadSkipped(states, actions, n);
    assert actions[..n] == actions;
    if AtRest(s) && !s.stop && !s.pipe.timedOut {
      RestTaken(s);
      forall p | 0 <= p < |s.queue| && !IsDead(s, p)
        ensures p in s.handled
        ensures s.queue[p] < |s.clients| && s.clients[s.queue[p]].query ==> s.clients[s.queue[p]].pc == Returned(Answer)
      {
        LiveHandled(s, p);
        if s.queue[p] < |s.clients| && s.clients[s.queue[p]].query {
          LiveAnswered(s, p);
        }
      }
    }
  }
}
