/**
 * The pane actor: callers hand closures to a serial loop over an unbuffered
 * channel, and concurrent stops race with them. One step is one channel or
 * atomic operation of one goroutine.
 */
module PaneActor {
  import opened Numbers

  /** A goroutine inside withActor (or paneActorValue), by the operation it does next. */
  datatype Caller =
    | Loading                 // loads the channel pair
    | Checking                // has the pair, loads the closing flag
    | Offering                // selects between handing over its command and the loop's done
    | Sent                    // command taken, its done channel still open
    | Answered                // its done channel is closed
    | AwaitingLoop            // saw closing, waits for the loop's done
    | Running                 // runs the closure itself
    | Returned

  /** A goroutine inside stopActor. */
  datatype Stopper =
    | StopLoading
    | Swapping                // compare-and-swap on the closing flag
    | OfferingStop            // won the swap, sends the stop command
    | AwaitingStop            // stop command taken, its done channel still open
    | StopAnswered
    | AwaitingExit            // waits for the loop's done
    | Clearing                // stores nil for the channel pair
    | Stopped

  datatype Loop =
    | Receiving
    | Serving(caller: nat)    // runs the caller's closure
    | Replying(caller: nat)   // closes the caller's done channel
    | Halting(stopper: nat)   // closes the stopper's done channel
    | Exiting                 // closes the loop's done channel
    | Gone

  /** `runs` counts how often each caller's closure has run; `winner` is who set the closing flag. */
  datatype State = State(
    callers: seq<Caller>,
    runs: seq<nat>,
    stoppers: seq<Stopper>,
    loop: Loop,
    channels: bool,
    winner: Winner
  )

  datatype Winner = Nobody | Won(stopper: nat)

  datatype Action =
    | Load(i: nat) | Check(i: nat) | Send(i: nat) | SeeDone(i: nat) | LoopEnded(i: nat) | RunSelf(i: nat) | Return(i: nat)
    | LoopRuns | LoopReplies | LoopHalts | LoopExits
    | StopLoad(k: nat) | Swap(k: nat) | SendStop(k: nat) | StopSeen(k: nat) | ExitSeen(k: nat) | Clear(k: nat)

  ghost predicate Start(s: State) {
    && |s.runs| == |s.callers|
    && (forall i :: 0 <= i < |s.callers| ==> s.callers[i] == Loading && s.runs[i] == 0)
    && (forall k :: 0 <= k < |s.stoppers| ==> s.stoppers[k] == StopLoading)
    && s.loop == Receiving && s.channels && s.winner == Nobody
  }

  predicate At(s: State, i: nat, c: Caller) {
    i < |s.callers| && s.callers[i] == c
  }

  predicate AtStop(s: State, k: nat, c: Stopper) {
    k < |s.stoppers| && s.stoppers[k] == c
  }

  predicate Enabled(s: State, a: Action) {
    && |s.runs| == |s.callers|
    && match a
       case Load(i) => At(s, i, Loading)
       case Check(i) => At(s, i, Checking)
       case Send(i) => At(s, i, Offering) && s.loop == Receiving
       case SeeDone(i) => At(s, i, Offering) && s.loop == Gone
       case LoopEnded(i) => At(s, i, AwaitingLoop) && s.loop == Gone
       case RunSelf(i) => At(s, i, Running)
       case Return(i) => At(s, i, Answered)
       case LoopRuns => s.loop.Serving? && s.loop.caller < |s.callers|
       case LoopReplies => s.loop.Replying? && s.loop.caller < |s.callers|
       case LoopHalts => s.loop.Halting? && s.loop.stopper < |s.stoppers|
       case LoopExits => s.loop == Exiting
       case StopLoad(k) => AtStop(s, k, StopLoading)
       case Swap(k) => AtStop(s, k, Swapping)
       case SendStop(k) => AtStop(s, k, OfferingStop) && s.loop == Receiving
       case StopSeen(k) => AtStop(s, k, StopAnswered)
       case ExitSeen(k) => AtStop(s, k, AwaitingExit) && s.loop == Gone
       case Clear(k) => AtStop(s, k, Clearing)
  }

  function Move(s: State, i: nat, c: Caller): State
    requires i < |s.callers|
  {
    s.(callers := s.callers[i := c])
  }

  function MoveStop(s: State, k: nat, c: Stopper): State
    requires k < |s.stoppers|
  {
    s.(stoppers := s.stoppers[k := c])
  }

  function CountRun(s: State, i: nat): State
    requires i < |s.runs|
  {
    s.(runs := s.runs[i := s.runs[i] + 1])
  }

  function Next(s: State, a: Action): State
    requires Enabled(s, a)
  {
    match a
    case Load(i) => Move(s, i, if s.channels then Checking else Running)
    case Check(i) => Move(s, i, if s.winner.Won? then AwaitingLoop else Offering)
    case Send(i) => Move(s, i, Sent).(loop := Serving(i))
    case SeeDone(i) => Move(s, i, Running)
    case LoopEnded(i) => Move(s, i, Running)
    case RunSelf(i) => CountRun(Move(s, i, Returned), i)
    case Return(i) => Move(s, i, Returned)
    case LoopRuns => CountRun(s, s.loop.caller).(loop := Replying(s.loop.caller))
    case LoopReplies => Move(s, s.loop.caller, Answered).(loop := Receiving)
    case LoopHalts => MoveStop(s, s.loop.stopper, StopAnswered).(loop := Exiting)
    case LoopExits => s.(loop := Gone)
    case StopLoad(k) => MoveStop(s, k, if s.channels then Swapping else Stopped)
    case Swap(k) =>
      if s.winner.Won? then MoveStop(s, k, AwaitingExit)
      else MoveStop(s, k, OfferingStop).(winner := Won(k))
    case SendStop(k) => MoveStop(s, k, AwaitingStop).(loop := Halting(k))
    case StopSeen(k) => MoveStop(s, k, AwaitingExit)
    case ExitSeen(k) => MoveStop(s, k, Clearing)
    case Clear(k) => MoveStop(s, k, Stopped).(channels := false)
  }

  // ----- what every step keeps -----

  /** The loop's view of caller i. */
  predicate ServedBy(loop: Loop, i: nat) {
    (loop.Serving? || loop.Replying?) && loop.caller == i
  }

  ghost predicate CallerOk(s: State, i: nat)
    requires i < |s.callers| && |s.runs| == |s.callers|
  {
    && (s.callers[i] == Sent <==> ServedBy(s.loop, i))
    && (s.callers[i] == Running ==> s.loop == Gone)
    && (s.callers[i] == AwaitingLoop ==> s.winner.Won?)
    && s.runs[i] == (if s.callers[i] == Returned || s.callers[i] == Answered || s.loop == Replying(i) then 1 else 0)
  }

  ghost predicate StopperOk(s: State, k: nat)
    requires k < |s.stoppers|
  {
    && (s.stoppers[k] == AwaitingStop <==> s.loop == Halting(k))
    && (s.stoppers[k] in {OfferingStop, AwaitingStop, StopAnswered} ==> s.winner == Won(k))
    && (s.stoppers[k] == AwaitingExit ==> s.winner.Won?)
    && (s.stoppers[k] == Clearing ==> s.loop == Gone)
  }

  ghost predicate SharedOk(s: State) {
    && (!s.channels ==> s.loop == Gone)
    && (s.loop.Serving? || s.loop.Replying? ==> s.loop.caller < |s.callers|)
    && (s.loop.Halting? ==> s.loop.stopper < |s.stoppers|)
    && (s.winner.Won? ==> s.winner.stopper < |s.stoppers|)
    && (s.winner.Won? ==>
          (s.stoppers[s.winner.stopper] == OfferingStop
           <==> s.loop == Receiving || s.loop.Serving? || s.loop.Replying?))
    && (s.loop.Halting? || s.loop == Exiting || s.loop == Gone ==> s.winner.Won?)
  }

  ghost predicate Inv(s: State) {
    && |s.runs| == |s.callers|
    && (forall i :: 0 <= i < |s.callers| ==> CallerOk(s, i))
    && (forall k :: 0 <= k < |s.stoppers| ==> StopperOk(s, k))
    && SharedOk(s)
  }

  lemma {:induction false} StartInv(s: State)
    requires Start(s)
    ensures Inv(s)
  {
  }

  /** The stopper an action moves, or the one the loop halts for. */
  function Mover(s: State, a: Action): nat {
    match a
    case StopLoad(k) => k
    case Swap(k) => k
    case SendStop(k) => k
    case StopSeen(k) => k
    case ExitSeen(k) => k
    case Clear(k) => k
    case LoopHalts => if s.loop.Halting? then s.loop.stopper else 0
    case _ => 0
  }

  lemma {:induction false} StepCaller(s: State, a: Action, i: nat)
    requires Inv(s) && Enabled(s, a) && i < |s.callers|
    ensures var t := Next(s, a); |t.runs| == |t.callers| == |s.callers| && CallerOk(t, i)
  {
    assert CallerOk(s, i);
    if s.loop.Serving? || s.loop.Replying? {
      assert CallerOk(s, s.loop.caller);
    }
  }

  lemma {:induction false} StepStopper(s: State, a: Action, k: nat)
    requires Inv(s) && Enabled(s, a) && k < |s.stoppers|
    ensures var t := Next(s, a); |t.stoppers| == |s.stoppers| && StopperOk(t, k)
  {
    assert StopperOk(s, k);
    if Mover(s, a) < |s.stoppers| {
      assert StopperOk(s, Mover(s, a));
    }
  }

  lemma {:induction false} StepShared(s: State, a: Action)
    requires Inv(s) && Enabled(s, a)
    ensures SharedOk(Next(s, a))
  {
    if Mover(s, a) < |s.stoppers| {
      assert StopperOk(s, Mover(s, a));
    }
    if s.winner.Won? {
      assert StopperOk(s, s.winner.stopper);
    }
  }

  lemma {:induction false} StepInv(s: State, a: Action)
    requires Inv(s) && Enabled(s, a)
    ensures Inv(Next(s, a))
  {
    hide Next;
    hide Enabled;
    hide CallerOk;
    hide StopperOk;
    hide SharedOk;
    NextSizes(s, a);
    forall i | 0 <= i < |s.callers| ensures CallerOk(Next(s, a), i) {
      StepCaller(s, a, i);
    }
    forall k | 0 <= k < |s.stoppers| ensures StopperOk(Next(s, a), k) {
      StepStopper(s, a, k);
    }
    StepShared(s, a);
  }

  // ----- every run ends -----

  function CallerRank(c: Caller): nat {
    match c
    case Loading => 8
    case Checking => 7
    case Offering => 6
    case AwaitingLoop => 6
    case Sent => 3
    case Answered => 2
    case Running => 1
    case Returned => 0
  }

  function StopperRank(c: Stopper): nat {
    match c
    case StopLoading => 11
    case Swapping => 10
    case OfferingStop => 9
    case AwaitingStop => 5
    case StopAnswered => 4
    case AwaitingExit => 3
    case Clearing => 2
    case Stopped => 0
  }

  function LoopRank(l: Loop): nat {
    match l
    case Receiving => 0
    case Serving(_) => 2
    case Replying(_) => 1
    case Halting(_) => 3
    case Exiting => 2
    case Gone => 0
  }

  function CallerRanks(cs: seq<Caller>): (r: seq<int>)
    ensures |r| == |cs| && forall i :: 0 <= i < |cs| ==> r[i] == CallerRank(cs[i])
  {
    seq(|cs|, i requires 0 <= i < |cs| => CallerRank(cs[i]))
  }

  function StopperRanks(cs: seq<Stopper>): (r: seq<int>)
    ensures |r| == |cs| && forall i :: 0 <= i < |cs| ==> r[i] == StopperRank(cs[i])
  {
    seq(|cs|, i requires 0 <= i < |cs| => StopperRank(cs[i]))
  }

  /** Operations still to be done. */
  function Work(s: State): int {
    Sum(CallerRanks(s.callers)) + Sum(StopperRanks(s.stoppers)) + LoopRank(s.loop)
  }

  lemma {:induction false} MoveWork(s: State, i: nat, c: Caller)
    requires i < |s.callers|
    ensures Sum(CallerRanks(s.callers[i := c]))
            == Sum(CallerRanks(s.callers)) - CallerRank(s.callers[i]) + CallerRank(c)
  {
    var r := CallerRanks(s.callers);
    assert CallerRanks(s.callers[i := c]) == r[i := CallerRank(c)];
    SumUpdate(r, i, CallerRank(c));
  }

  lemma {:induction false} MoveStopWork(s: State, k: nat, c: Stopper)
    requires k < |s.stoppers|
    ensures Sum(StopperRanks(s.stoppers[k := c]))
            == Sum(StopperRanks(s.stoppers)) - StopperRank(s.stoppers[k]) + StopperRank(c)
  {
    var r := StopperRanks(s.stoppers);
    assert StopperRanks(s.stoppers[k := c]) == r[k := StopperRank(c)];
    SumUpdate(r, k, StopperRank(c));
  }

  /** Every step leaves less work. */
  lemma {:induction false} StepWork(s: State, a: Action)
    requires Inv(s) && Enabled(s, a)
    ensures Work(Next(s, a)) < Work(s)
  {
    if a.Load? || a.Check? || a.Send? || a.SeeDone? || a.LoopEnded? || a.RunSelf? || a.Return? || a.LoopReplies? {
      CallerStepWork(s, a);
    } else {
      StopperStepWork(s, a);
    }
  }

  lemma {:induction false} CallerStepWork(s: State, a: Action)
    requires Inv(s) && Enabled(s, a)
    requires a.Load? || a.Check? || a.Send? || a.SeeDone? || a.LoopEnded? || a.RunSelf? || a.Return? || a.LoopReplies?
    ensures Work(Next(s, a)) < Work(s)
  {
    hide Sum;
    hide StopperOk;
    hide SharedOk;
    var i := if a.LoopReplies? then s.loop.caller else a.i;
    assert CallerOk(s, i);
    MoveWork(s, i, Next(s, a).callers[i]);
  }

  lemma {:induction false} StopperStepWork(s: State, a: Action)
    requires Inv(s) && Enabled(s, a)
    requires a.LoopRuns? || a.LoopHalts? || a.LoopExits?
      || a.StopLoad? || a.Swap? || a.SendStop? || a.StopSeen? || a.ExitSeen? || a.Clear?
    ensures Work(Next(s, a)) < Work(s)
  {
    hide Sum;
    hide CallerOk;
    hide SharedOk;
    if !a.LoopRuns? && !a.LoopExits? {
      var k := Mover(s, a);
      assert StopperOk(s, k);
      MoveStopWork(s, k, Next(s, a).stoppers[k]);
    }
  }

  ghost predicate AllDone(s: State) {
    && (forall i :: 0 <= i < |s.callers| ==> s.callers[i] == Returned)
    && (forall k :: 0 <= k < |s.stoppers| ==> s.stoppers[k] == Stopped)
  }

  /** No goroutine is ever stuck: while one has work left, some step is possible. */
  lemma {:induction false} Progress(s: State) returns (a: Action)
    requires Inv(s) && !AllDone(s)
    ensures Enabled(s, a)
  {
    if s.loop.Serving? {
      a := LoopRuns;
    } else if s.loop.Replying? {
      a := LoopReplies;
    } else if s.loop.Halting? {
      a := LoopHalts;
    } else if s.loop == Exiting {
      a := LoopExits;
    } else if s.loop == Receiving && s.winner.Won? {
      a := SendStop(s.winner.stopper);
    } else if i :| 0 <= i < |s.callers| && s.callers[i] != Returned {
      a := CallerStep(s, i);
    } else {
      var k :| 0 <= k < |s.stoppers| && s.stoppers[k] != Stopped;
      a := StopperStep(s, k);
    }
  }

  lemma {:induction false} CallerStep(s: State, i: nat) returns (a: Action)
    requires Inv(s) && i < |s.callers| && s.callers[i] != Returned
    requires s.loop == Gone || (s.loop == Receiving && s.winner == Nobody)
    ensures Enabled(s, a)
  {
    assert CallerOk(s, i);
    match s.callers[i]
    case Loading => a := Load(i);
    case Checking => a := Check(i);
    case Offering => a := if s.loop == Gone then SeeDone(i) else Send(i);
    case AwaitingLoop => a := LoopEnded(i);
    case Answered => a := Return(i);
    case Running => a := RunSelf(i);
  }

  lemma {:induction false} StopperStep(s: State, k: nat) returns (a: Action)
    requires Inv(s) && k < |s.stoppers| && s.stoppers[k] != Stopped
    requires s.loop == Gone || (s.loop == Receiving && s.winner == Nobody)
    ensures Enabled(s, a)
  {
    assert StopperOk(s, k);
    match s.stoppers[k]
    case StopLoading => a := StopLoad(k);
    case Swapping => a := Swap(k);
    case StopAnswered => a := StopSeen(k);
    case AwaitingExit => a := ExitSeen(k);
    case Clearing => a := Clear(k);
  }

  // ----- runs -----

  ghost predicate Run(states: seq<State>, actions: seq<Action>) {
    && |states| == |actions| + 1
    && Start(states[0])
    && forall n :: 0 <= n < |actions| ==> Enabled(states[n], actions[n]) && states[n + 1] == Next(states[n], actions[n])
  }

  lemma {:induction false} RunInv(states: seq<State>, actions: seq<Action>, n: nat)
    requires Run(states, actions) && n < |states|
    ensures Inv(states[n])
    ensures |states[n].callers| == |states[0].callers| && |states[n].stoppers| == |states[0].stoppers|
    ensures Work(states[n]) + n <= 8 * |states[0].callers| + 11 * |states[0].stoppers|
    decreases n
  {
    if n == 0 {
      StartInv(states[0]);
      SumBetween(CallerRanks(states[0].callers), 8, 8);
      SumBetween(StopperRanks(states[0].stoppers), 11, 11);
    } else {
      RunInv(states, actions, n - 1);
      hide Inv;
      hide Next;
      hide Work;
      StepInv(states[n - 1], actions[n - 1]);
      StepWork(states[n - 1], actions[n - 1]);
      NextSizes(states[n - 1], actions[n - 1]);
    }
  }

  lemma NextSizes(s: State, a: Action)
    requires Enabled(s, a)
    ensures |Next(s, a).callers| == |s.callers| && |Next(s, a).stoppers| == |s.stoppers|
    ensures |Next(s, a).runs| == |s.runs|
  {
  }

  /** Whose closure is executing now. */
  ghost predicate Executing(s: State, i: nat) {
    At(s, i, Running) || s.loop == Serving(i)
  }

  /**
   * In every state of every run: a closure has run at most once, and exactly
   * once when its caller returns; before the loop ends no two closures
   * execute at once and none executes outside the loop.
   */
  lemma {:induction false} RunsOnceInTurn(states: seq<State>, actions: seq<Action>, n: nat, i: nat, j: nat)
    requires Run(states, actions) && n < |states| && i < |states[0].callers| && j < |states[0].callers|
    ensures var s := states[n];
      && i < |s.callers| == |s.runs|
      && s.runs[i] <= 1 && (s.callers[i] == Returned ==> s.runs[i] == 1)
      && (s.loop != Gone && Executing(s, i) && Executing(s, j) ==> i == j && s.loop == Serving(i))
  {
    RunInv(states, actions, n);
    assert CallerOk(states[n], i) && CallerOk(states[n], j);
  }

  /**
   * Every run is short, and a run that cannot continue has every caller and
   * every stopper returned and every closure run exactly once.
   */
  lemma {:induction false} RunsEnd(states: seq<State>, actions: seq<Action>)
    requires Run(states, actions)
    ensures |actions| <= 8 * |states[0].callers| + 11 * |states[0].stoppers|
    ensures var s := states[|actions|];
      (forall a :: !Enabled(s, a)) ==>
        && AllDone(s)
        && forall i :: 0 <= i < |states[0].callers| ==> i < |s.runs| && s.runs[i] == 1
  {
    var s := states[|actions|];
    RunInv(states, actions, |actions|);
    WorkNonNegative(s);
    if forall a :: !Enabled(s, a) {
      if !AllDone(s) {
        var a := Progress(s);
      }
      forall i | 0 <= i < |s.callers| ensures s.runs[i] == 1 {
        assert CallerOk(s, i);
      }
    }
  }

  lemma WorkNonNegative(s: State)
    ensures Work(s) >= 0
  {
    SumBetween(CallerRanks(s.callers), 0, 8);
    SumBetween(StopperRanks(s.stoppers), 0, 11);
  }
}
