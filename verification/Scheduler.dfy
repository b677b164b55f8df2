/** The singleflight discovery scheduler as a transition system over callers, flights and detached tasks. */
module Scheduler {
  import opened Basics
  import opened Models
  import opened Snapshots

  type Caller = nat
  type FlightId = nat

  datatype GatewayError = InternalError | SourceError(code: nat)

  type Answer = Result<seq<Model>, GatewayError>

  /** What every waiter of one source call receives. */
  function Shared(answer: Answer): Answer {
    match answer
    case Ok(models) => Ok(Normalized(models))
    case Err(e) => Err(e)
  }

  /** An answer with its names sorted and freed of repetitions, or the same error. */
  ghost predicate Normalizes(result: Answer, answer: Answer) {
    match answer
    case Err(e) => result == Err(e)
    case Ok(models) => result.Ok? && StrictlySorted(result.value) && forall m :: m in result.value <==> m in models
  }

  lemma SharedNormalizes(answer: Answer)
    ensures Normalizes(Shared(answer), answer)
  {
    if answer.Ok? {
      var normal := Normalized(answer.value);
      forall m
        ensures m in normal <==> m in answer.value
      {
        assert m in ModelSet(normal) <==> m in ModelSet(answer.value);
      }
    }
  }

  /** Where a detached task stands. It owns the sender until it has finished. */
  datatype Task =
    | Spawned
    | Calling
    | Returned(result: Answer)
    | Unlisted(result: Answer)
    | Published
    | Finished

  /** `watch` is the channel's value. `answer` and `publishedAt` record the source's answer and the publication. */
  datatype Flight = Flight(
    target: Target,
    task: Task,
    watch: Option<Answer>,
    answer: Option<Answer>,
    publishedAt: Option<nat>
  )

  datatype Waiting = Waits | Done(result: Answer) | Cancelled

  datatype Call = Call(target: Target, flight: FlightId, joinedAt: nat, waiting: Waiting)

  datatype State = State(
    inFlight: map<Target, FlightId>,
    flights: seq<Flight>,
    calls: map<Caller, Call>,
    now: nat
  )

  const INITIAL := State(map[], [], map[], 0)

  datatype Step =
    | Join(c: Caller, t: Target)
    | StartCall(f: FlightId)
    | SourceReturns(f: FlightId, answer: Answer)
    | Unlist(f: FlightId)
    | Publish(f: FlightId)
    | Finish(f: FlightId)
    | Receive(c: Caller)
    | Cancel(c: Caller)
    | Idle

  predicate Awaiting(s: State, c: Caller) {
    c in s.calls && s.calls[c].waiting.Waits?
  }

  /** Somebody still holds the sender: the spawned task, or the in-flight map. */
  predicate SenderAlive(inFlight: map<Target, FlightId>, flights: seq<Flight>, f: FlightId) {
    f < |flights| && (!flights[f].task.Finished? || exists t :: t in inFlight && inFlight[t] == f)
  }

  function SetTask(s: State, f: FlightId, flight: Flight): State
    requires f < |s.flights|
  {
    s.(flights := s.flights[f := flight])
  }

  /** Starts or joins a flight under the lock. */
  function JoinOrStart(s: State, c: Caller, t: Target): State {
    if t in s.inFlight then
      s.(calls := s.calls[c := Call(t, s.inFlight[t], s.now, Waits)])
    else
      var f := |s.flights|;
      s.(inFlight := s.inFlight[t := f],
         flights := s.flights + [Flight(t, Spawned, None, None, None)],
         calls := s.calls[c := Call(t, f, s.now, Waits)])
  }

  /** Under the lock the spawned task removes its own entry, and only its own, from the in-flight map. */
  function RemoveOwn(s: State, f: FlightId): map<Target, FlightId>
    requires f < |s.flights|
  {
    var t := s.flights[f].target;
    if t in s.inFlight && s.inFlight[t] == f then s.inFlight - {t} else s.inFlight
  }

  /** A waiter looks at the channel: a value ends the wait, a closed channel without one is an internal error. */
  function Look(s: State, c: Caller): State
    requires Awaiting(s, c)
  {
    var call := s.calls[c];
    if call.flight < |s.flights| && s.flights[call.flight].watch.Some? then
      s.(calls := s.calls[c := call.(waiting := Done(s.flights[call.flight].watch.value))])
    else if !SenderAlive(s.inFlight, s.flights, call.flight) then
      s.(calls := s.calls[c := call.(waiting := Done(Err(InternalError)))])
    else s
  }

  function Perform(s: State, step: Step): State {
    match step
    case Join(c, t) => if c in s.calls then s else JoinOrStart(s, c, t)
    case StartCall(f) =>
      if f < |s.flights| && s.flights[f].task.Spawned? then SetTask(s, f, s.flights[f].(task := Calling)) else s
    case SourceReturns(f, answer) =>
      if f < |s.flights| && s.flights[f].task.Calling?
      then SetTask(s, f, s.flights[f].(task := Returned(Shared(answer)), answer := Some(answer))) else s
    case Unlist(f) =>
      if f < |s.flights| && s.flights[f].task.Returned?
      then SetTask(s, f, s.flights[f].(task := Unlisted(s.flights[f].task.result))).(inFlight := RemoveOwn(s, f)) else s
    case Publish(f) =>
      if f < |s.flights| && s.flights[f].task.Unlisted?
      then SetTask(s, f, s.flights[f].(task := Published, watch := Some(s.flights[f].task.result), publishedAt := Some(s.now)))
      else s
    case Finish(f) =>
      if f < |s.flights| && s.flights[f].task.Published? then SetTask(s, f, s.flights[f].(task := Finished)) else s
    case Receive(c) => if Awaiting(s, c) then Look(s, c) else s
    case Cancel(c) =>
      if Awaiting(s, c) then s.(calls := s.calls[c := s.calls[c].(waiting := Cancelled)]) else s
    case Idle => s
  }

  /** A step that is not enabled changes nothing; time passes either way. */
  function Do(s: State, step: Step): State {
    var after := Perform(s, step);
    after.(now := s.now + 1)
  }

  function Run(steps: seq<Step>): State {
    if steps == [] then INITIAL else Do(Run(steps[..|steps| - 1]), steps[|steps| - 1])
  }

  // ---- The invariant ----

  /** The spawned task has not yet taken itself out of the in-flight map. */
  predicate Listed(flight: Flight) {
    flight.task.Spawned? || flight.task.Calling? || flight.task.Returned?
  }

  predicate Consistent(flight: Flight, now: nat) {
    && (flight.answer.Some? <==> !(flight.task.Spawned? || flight.task.Calling?))
    && (flight.task.Returned? || flight.task.Unlisted? ==> flight.task.result == Shared(flight.answer.value))
    && (flight.watch.Some? <==> flight.task.Published? || flight.task.Finished?)
    && (flight.watch.Some? ==> flight.watch.value == Shared(flight.answer.value))
    && (flight.publishedAt.Some? <==> flight.watch.Some?)
    && (flight.publishedAt.Some? ==> flight.publishedAt.value < now)
  }

  predicate GoodCall(s: State, call: Call) {
    && call.flight < |s.flights|
    && s.flights[call.flight].target == call.target
    && call.joinedAt < s.now
    && (s.flights[call.flight].publishedAt.Some? ==> call.joinedAt < s.flights[call.flight].publishedAt.value)
    && (call.waiting.Done? ==> s.flights[call.flight].watch == Some(call.waiting.result))
  }

  /** The in-flight map lists exactly the flights that have not removed themselves, each under its target. */
  ghost predicate Listings(s: State) {
    && (forall t :: t in s.inFlight ==>
          s.inFlight[t] < |s.flights| && s.flights[s.inFlight[t]].target == t && Listed(s.flights[s.inFlight[t]]))
    && (forall f :: 0 <= f < |s.flights| && Listed(s.flights[f]) ==>
          s.flights[f].target in s.inFlight && s.inFlight[s.flights[f].target] == f)
  }

  ghost predicate Inv(s: State) {
    && Listings(s)
    && (forall f :: 0 <= f < |s.flights| ==> Consistent(s.flights[f], s.now))
    && (forall c :: c in s.calls ==> GoodCall(s, s.calls[c]))
  }

  function Tick(s: State): State {
    s.(now := s.now + 1)
  }

  /** One flight moves on; its target, its listing and anything already published stay. */
  lemma TaskKeepsInv(s: State, f: FlightId, next: Flight)
    requires Inv(s) && f < |s.flights|
    requires next.target == s.flights[f].target && Listed(next) == Listed(s.flights[f])
    requires Consistent(next, s.now + 1)
    requires || (next.watch == s.flights[f].watch && next.publishedAt == s.flights[f].publishedAt)
             || (s.flights[f].watch.None? && next.publishedAt == Some(s.now))
    ensures Inv(Tick(SetTask(s, f, next)))
  {
    hide Shared;
  }

  lemma UnlistKeepsInv(s: State, f: FlightId)
    requires Inv(s)
    ensures Inv(Do(s, Unlist(f)))
  {
    hide Shared;
    var tick := Tick(s);
    TickKeepsInv(s);
    var after := Do(s, Unlist(f));
    if after != tick {
      UnlistKeepsListings(s, f);
      hide Listings;
      assert forall g :: 0 <= g < |s.flights| && g != f ==> after.flights[g] == tick.flights[g];
      FlightConsistent(tick, f);
      forall d | d in after.calls
        ensures GoodCall(after, after.calls[d])
      {
        assert GoodCall(tick, tick.calls[d]);
      }
    }
  }

  lemma UnlistKeepsListings(s: State, f: FlightId)
    requires Listings(s)
    ensures Listings(Do(s, Unlist(f)))
  {
  }

  lemma SubscribeKeepsInv(s: State, c: Caller, t: Target)
    requires Inv(s) && t in s.inFlight && c !in s.calls
    ensures Inv(Do(s, Join(c, t)))
  {
    hide Shared;
    FlightConsistent(s, s.inFlight[t]);
    TickKeepsInv(s);
  }

  lemma StartKeepsInv(s: State, c: Caller, t: Target)
    requires Inv(s) && t !in s.inFlight && c !in s.calls
    ensures Inv(Do(s, Join(c, t)))
  {
    hide Shared;
    var tick := Tick(s);
    TickKeepsInv(s);
    var after := Do(s, Join(c, t));
    StartKeepsListings(s, c, t);
    hide Listings;
    assert forall f :: 0 <= f < |s.flights| ==> after.flights[f] == tick.flights[f];
    assert after.flights[|s.flights|] == Flight(t, Spawned, None, None, None);
    forall d | d in after.calls
      ensures GoodCall(after, after.calls[d])
    {
      if d != c { assert GoodCall(tick, tick.calls[d]); }
    }
  }

  lemma StartKeepsListings(s: State, c: Caller, t: Target)
    requires Listings(s) && t !in s.inFlight && c !in s.calls
    ensures Listings(Do(s, Join(c, t)))
  {
  }

  /** A caller's wait ends; only its own record changes. */
  lemma CallKeepsInv(s: State, c: Caller, next: Waiting)
    requires Inv(s) && Awaiting(s, c)
    requires next.Done? ==> s.flights[s.calls[c].flight].watch == Some(next.result)
    ensures Inv(Tick(s.(calls := s.calls[c := s.calls[c].(waiting := next)])))
  {
    hide Consistent;
    TickKeepsInv(s);
  }

  lemma TickKeepsInv(s: State)
    requires Inv(s)
    ensures Inv(Tick(s))
  {
    hide Shared;
  }

  /** A waiter never finds its channel closed without a value: the internal-error exit is dead. */
  lemma LookKeepsInv(s: State, c: Caller)
    requires Inv(s) && Awaiting(s, c)
    ensures Inv(Tick(Look(s, c)))
    ensures s.flights[s.calls[c].flight].watch.None? ==> Look(s, c) == s
  {
    hide Shared;
    assert GoodCall(s, s.calls[c]);
    var flight := s.flights[s.calls[c].flight];
    assert Consistent(flight, s.now);
    if flight.watch.Some? {
      CallKeepsInv(s, c, Done(flight.watch.value));
    } else {
      TickKeepsInv(s);
    }
  }

  lemma StepKeepsInv(s: State, step: Step)
    requires Inv(s)
    ensures Inv(Do(s, step))
  {
    hide Inv;
    TickKeepsInv(s);
    if Perform(s, step) != s {
      match step
      case Join(c, t) => if t in s.inFlight { SubscribeKeepsInv(s, c, t); } else { StartKeepsInv(s, c, t); }
      case Unlist(f) => UnlistKeepsInv(s, f);
      case StartCall(f) => FlightConsistent(s, f); TaskKeepsInv(s, f, Do(s, step).flights[f]);
      case SourceReturns(f, _) => FlightConsistent(s, f); TaskKeepsInv(s, f, Do(s, step).flights[f]);
      case Publish(f) => FlightConsistent(s, f); TaskKeepsInv(s, f, Do(s, step).flights[f]);
      case Finish(f) => FlightConsistent(s, f); TaskKeepsInv(s, f, Do(s, step).flights[f]);
      case Receive(c) => LookKeepsInv(s, c);
      case Cancel(c) => CallKeepsInv(s, c, Cancelled);
      case Idle =>
    }
  }

  lemma FlightConsistent(s: State, f: FlightId)
    requires Inv(s) && f < |s.flights|
    ensures Consistent(s.flights[f], s.now)
  {
  }

  lemma {:induction false} RunKeepsInv(steps: seq<Step>)
    ensures Inv(Run(steps))
  {
    hide Do, Inv;
    if steps == [] {
      InitialInv();
    } else {
      RunKeepsInv(steps[..|steps| - 1]);
      StepKeepsInv(Run(steps[..|steps| - 1]), steps[|steps| - 1]);
    }
  }

  lemma InitialInv()
    ensures Inv(INITIAL)
  {
  }

  // ---- The scheduler object: its lock sections and its publication ----

  /** The caller waits on a listed flight for its target: a flight that has not answered yet. */
  predicate Joined(s: State, c: Caller, t: Target) {
    && Awaiting(s, c)
    && t in s.inFlight && s.calls[c].flight == s.inFlight[t]
    && s.inFlight[t] < |s.flights|
    && s.flights[s.inFlight[t]].target == t && s.flights[s.inFlight[t]].watch.None?
  }

  lemma JoinJoins(s: State, c: Caller, t: Target)
    requires Inv(s) && c !in s.calls
    ensures Joined(Do(s, Join(c, t)), c, t)
  {
    if t in s.inFlight { FlightConsistent(s, s.inFlight[t]); }
  }

  lemma ListsItself(s: State, f: FlightId)
    requires Inv(s) && f < |s.flights| && s.flights[f].task.Returned?
    ensures s.flights[f].target in s.inFlight && s.inFlight[s.flights[f].target] == f
  {
  }

  class ModelCatalogScheduler {
    var inFlight: map<Target, FlightId>
    var flights: seq<Flight>
    var calls: map<Caller, Call>
    var now: nat

    function View(): State
      reads this
    {
      State(inFlight, flights, calls, now)
    }

    constructor ()
      ensures Inv(View()) && View() == INITIAL
    {
      inFlight, flights, calls, now := map[], [], map[], 0;
    }

    /** The lock section of a synchronize call: join the listed flight or list and spawn a new one. */
    method Synchronize(c: Caller, target: Target)
      requires Inv(View()) && c !in calls
      modifies this
      ensures Inv(View()) && View() == Do(old(View()), Join(c, target))
      ensures Joined(View(), c, target)
      ensures |flights| == old(|flights|) + if target in old(inFlight) then 0 else 1
    {
      hide Inv, Joined;
      StepKeepsInv(View(), Join(c, target));
      JoinJoins(View(), c, target);
      if target in inFlight {
        calls := calls[c := Call(target, inFlight[target], now, Waits)];
      } else {
        var flight := |flights|;
        inFlight := inFlight[target := flight];
        flights := flights + [Flight(target, Spawned, None, None, None)];
        calls := calls[c := Call(target, flight, now, Waits)];
      }
      now := now + 1;
    }

    /** The source answered: the spawned task keeps the normalized answer. */
    method KeepAnswer(f: FlightId, answer: Answer)
      requires Inv(View()) && f < |flights| && flights[f].task.Calling?
      modifies this
      ensures Inv(View()) && View() == Do(old(View()), SourceReturns(f, answer))
      ensures flights[f].task.Returned? && Normalizes(flights[f].task.result, answer)
    {
      hide Inv;
      StepKeepsInv(View(), SourceReturns(f, answer));
      SharedNormalizes(answer);
      hide Normalizes;
      var result := answer;
      if answer.Ok? {
        var models := NormalizeModels(answer.value);
        result := Ok(models);
      }
      flights := flights[f := flights[f].(task := Returned(result), answer := Some(answer))];
      now := now + 1;
    }

    /** The spawned task's lock section: it takes out its own entry if the entry is still its own. */
    method RemoveFlight(f: FlightId)
      requires Inv(View()) && f < |flights| && flights[f].task.Returned?
      modifies this
      ensures Inv(View()) && View() == Do(old(View()), Unlist(f))
      ensures old(flights[f].target) !in inFlight
    {
      hide Inv;
      StepKeepsInv(View(), Unlist(f));
      ListsItself(View(), f);
      var target := flights[f].target;
      if target in inFlight && inFlight[target] == f {
        inFlight := inFlight - {target};
      }
      flights := flights[f := flights[f].(task := Unlisted(flights[f].task.result))];
      now := now + 1;
    }

    method SendResult(f: FlightId)
      requires Inv(View()) && f < |flights| && flights[f].task.Unlisted?
      modifies this
      ensures Inv(View()) && View() == Do(old(View()), Publish(f))
      ensures flights[f].answer.Some? && flights[f].watch.Some? && Normalizes(flights[f].watch.value, flights[f].answer.value)
    {
      hide Inv;
      StepKeepsInv(View(), Publish(f));
      FlightConsistent(View(), f);
      SharedNormalizes(flights[f].answer.value);
      var result := flights[f].task.result;
      flights := flights[f := flights[f].(task := Published, watch := Some(result), publishedAt := Some(now))];
      now := now + 1;
    }
  }

  // ---- Safety over every run ----

  /** A target is in the in-flight map exactly when one task for it has not removed itself, so at most one source
      call per target is ever open and the identity check before removal always succeeds. */
  lemma SingleFlight(steps: seq<Step>)
    ensures var s := Run(steps);
            && (forall t :: t in s.inFlight <==> exists f :: 0 <= f < |s.flights| && s.flights[f].target == t && Listed(s.flights[f]))
            && (forall f, g :: 0 <= f < g < |s.flights| && Listed(s.flights[f]) && Listed(s.flights[g]) ==>
                  s.flights[f].target != s.flights[g].target)
            && (forall f :: 0 <= f < |s.flights| && s.flights[f].task.Returned? ==>
                  s.flights[f].target in s.inFlight && s.inFlight[s.flights[f].target] == f)
  {
    hide Run, Consistent, GoodCall;
    RunKeepsInv(steps);
  }

  /** Calls and answers come from the run's own steps. */
  ghost predicate FromSteps(s: State, steps: seq<Step>) {
    && (forall c :: c in s.calls ==> Join(c, s.calls[c].target) in steps)
    && (forall f :: 0 <= f < |s.flights| && s.flights[f].answer.Some? ==> SourceReturns(f, s.flights[f].answer.value) in steps)
  }

  lemma FromStepsNext(s: State, steps: seq<Step>, step: Step)
    requires FromSteps(s, steps)
    ensures FromSteps(Do(s, step), steps + [step])
  {
    hide Shared, SenderAlive;
    var after := Do(s, step);
    forall c | c in after.calls
      ensures Join(c, after.calls[c].target) in steps + [step]
    {
      if c in s.calls { assert after.calls[c].target == s.calls[c].target; }
    }
    forall f | 0 <= f < |after.flights| && after.flights[f].answer.Some?
      ensures SourceReturns(f, after.flights[f].answer.value) in steps + [step]
    {
      if f < |s.flights| && s.flights[f].answer.Some? && after.flights[f].answer == s.flights[f].answer {
        assert SourceReturns(f, s.flights[f].answer.value) in steps;
      }
    }
  }

  lemma {:induction false} RunFromSteps(steps: seq<Step>)
    ensures FromSteps(Run(steps), steps)
  {
    hide Do, FromSteps;
    if steps == [] {
      assert FromSteps(INITIAL, []) by { NothingFromSteps(); }
    } else {
      var front := steps[..|steps| - 1];
      RunFromSteps(front);
      FromStepsNext(Run(front), front, steps[|steps| - 1]);
      assert front + [steps[|steps| - 1]] == steps;
    }
  }

  lemma NothingFromSteps()
    ensures FromSteps(INITIAL, [])
  {
  }

  /** Every completed caller holds the sorted, duplicate-free answer, or the error, that the source returned to one
      flight for the very target the caller asked for, published after it joined. The internal-error exit of a dropped
      channel is never taken. */
  lemma DeliveredAnswer(steps: seq<Step>, c: Caller)
    requires c in Run(steps).calls && Run(steps).calls[c].waiting.Done?
    ensures var call := Run(steps).calls[c];
            && call.flight < |Run(steps).flights|
            && var flight := Run(steps).flights[call.flight];
               && flight.target == call.target
               && Join(c, flight.target) in steps
               && flight.answer.Some?
               && SourceReturns(call.flight, flight.answer.value) in steps
               && Normalizes(call.waiting.result, flight.answer.value)
               && flight.publishedAt.Some?
               && call.joinedAt < flight.publishedAt.value
  {
    hide Run, Shared;
    RunKeepsInv(steps);
    RunFromSteps(steps);
    var s := Run(steps);
    assert GoodCall(s, s.calls[c]);
    assert Consistent(s.flights[s.calls[c].flight], s.now);
    SharedNormalizes(s.flights[s.calls[c].flight].answer.value);
  }

  /** All completed callers of one flight hold the same value. */
  lemma SharersAgree(steps: seq<Step>, c: Caller, d: Caller)
    requires c in Run(steps).calls && Run(steps).calls[c].waiting.Done?
    requires d in Run(steps).calls && Run(steps).calls[d].waiting.Done?
    requires Run(steps).calls[c].flight == Run(steps).calls[d].flight
    ensures Run(steps).calls[c].waiting.result == Run(steps).calls[d].waiting.result
  {
    hide Run;
    RunKeepsInv(steps);
    assert GoodCall(Run(steps), Run(steps).calls[c]) && GoodCall(Run(steps), Run(steps).calls[d]);
  }

  // ---- Settled calls stay settled ----

  predicate Settled(s: State, c: Caller, call: Call) {
    c in s.calls && s.calls[c] == call && !call.waiting.Waits?
  }

  lemma StepKeepsSettled(s: State, step: Step, c: Caller, call: Call)
    requires Settled(s, c, call)
    ensures Settled(Do(s, step), c, call)
  {
    hide Shared, SenderAlive;
  }

  lemma CancelSettles(s: State, c: Caller)
    requires Awaiting(s, c)
    ensures Settled(Do(s, Cancel(c)), c, s.calls[c].(waiting := Cancelled))
  {
  }

  /** A delivered answer is never replaced, and a cancelled caller never receives one. */
  lemma {:induction false} SettledStays(steps: seq<Step>, more: seq<Step>, c: Caller, call: Call)
    requires || Settled(Run(steps), c, call)
             || (Awaiting(Run(steps), c) && more != [] && more[0] == Cancel(c) && call == Run(steps).calls[c].(waiting := Cancelled))
    ensures Settled(Run(steps + more), c, call)
  {
    hide Do, Settled;
    if more == [] {
      assert steps + more == steps;
    } else {
      var last := |more| - 1;
      var before := steps + more[..last];
      assert (steps + more)[..|steps + more| - 1] == before;
      if last == 0 && Awaiting(Run(steps), c) && more[0] == Cancel(c) && call == Run(steps).calls[c].(waiting := Cancelled) {
        assert before == steps;
        CancelSettles(Run(steps), c);
      } else {
        SettledStays(steps, more[..last], c, call);
        StepKeepsSettled(Run(before), more[last], c, call);
      }
    }
  }

  // ---- Nobody is stranded ----

  function Rank(task: Task): nat {
    match task
    case Spawned => 4
    case Calling => 3
    case Returned(_) => 2
    case Unlisted(_) => 1
    case _ => 0
  }

  predicate AtMost(s: State, f: FlightId, k: nat) {
    f < |s.flights| && Rank(s.flights[f].task) <= k
  }

  lemma StepNeverRegresses(s: State, step: Step, f: FlightId, k: nat)
    requires AtMost(s, f, k)
    ensures AtMost(Do(s, step), f, k)
  {
  }

  lemma {:induction false} NeverRegresses(steps: seq<Step>, more: seq<Step>, f: FlightId, k: nat)
    requires AtMost(Run(steps), f, k)
    ensures AtMost(Run(steps + more), f, k)
  {
    hide Do, AtMost;
    if more == [] {
      assert steps + more == steps;
    } else {
      var last := |more| - 1;
      NeverRegresses(steps, more[..last], f, k);
      assert (steps + more)[..|steps + more| - 1] == steps + more[..last];
      StepNeverRegresses(Run(steps + more[..last]), more[last], f, k);
    }
  }

  /** The step a task at each rank takes next. */
  predicate Drives(step: Step, f: FlightId, k: nat) {
    match k
    case 4 => step == StartCall(f)
    case 3 => step.SourceReturns? && step.f == f
    case 2 => step == Unlist(f)
    case 1 => step == Publish(f)
    case _ => false
  }

  lemma BlockThenDrive(steps: seq<Step>, block: seq<Step>, step: Step, f: FlightId, k: nat)
    requires AtMost(Run(steps), f, k + 1) && Drives(step, f, k + 1)
    ensures AtMost(Run(steps + block + [step]), f, k)
  {
    hide Do, AtMost;
    NeverRegresses(steps, block, f, k + 1);
    var all := steps + block + [step];
    assert all[..|all| - 1] == steps + block;
    DriveAdvances(Run(steps + block), step, f, k);
  }

  lemma DriveAdvances(s: State, step: Step, f: FlightId, k: nat)
    requires AtMost(s, f, k + 1) && Drives(step, f, k + 1)
    ensures AtMost(Do(s, step), f, k)
  {
  }

  predicate StillIn(s: State, c: Caller, f: FlightId) {
    c in s.calls && s.calls[c].flight == f && !s.calls[c].waiting.Cancelled?
  }

  lemma StepKeepsCaller(s: State, step: Step, c: Caller, f: FlightId)
    requires StillIn(s, c, f) && step != Cancel(c)
    ensures StillIn(Do(s, step), c, f)
  {
    hide SenderAlive;
  }

  lemma {:induction false} StaysUnlessCancelled(steps: seq<Step>, more: seq<Step>, c: Caller, f: FlightId)
    requires StillIn(Run(steps), c, f) && Cancel(c) !in more
    ensures StillIn(Run(steps + more), c, f)
  {
    hide Do, StillIn;
    if more == [] {
      assert steps + more == steps;
    } else {
      var last := |more| - 1;
      StaysUnlessCancelled(steps, more[..last], c, f);
      assert (steps + more)[..|steps + more| - 1] == steps + more[..last];
      StepKeepsCaller(Run(steps + more[..last]), more[last], c, f);
    }
  }

  lemma PublishedIsReceived(s: State, c: Caller, f: FlightId)
    requires Inv(s) && StillIn(s, c, f) && AtMost(s, f, 0)
    ensures c in Do(s, Receive(c)).calls && Do(s, Receive(c)).calls[c].waiting.Done?
  {
    hide Shared;
    FlightConsistent(s, f);
  }

  /** From every reachable state a waiting caller is served once its task takes its steps and the caller looks,
      whatever anyone else does in between: other joins, other tasks, and the cancellation of any other callers,
      including the one that started the flight. */
  lemma WaiterIsServed(steps: seq<Step>, c: Caller, answer: Answer,
                       b0: seq<Step>, b1: seq<Step>, b2: seq<Step>, b3: seq<Step>, b4: seq<Step>)
    requires Awaiting(Run(steps), c) && Cancel(c) !in b0 + b1 + b2 + b3 + b4
    ensures var f := Run(steps).calls[c].flight;
            var all := steps + b0 + [StartCall(f)] + b1 + [SourceReturns(f, answer)] + b2 + [Unlist(f)]
                       + b3 + [Publish(f)] + b4 + [Receive(c)];
            c in Run(all).calls && Run(all).calls[c].waiting.Done?
  {
    hide Do, Inv, AtMost, StillIn;
    var f := Run(steps).calls[c].flight;
    var s0 := steps + b0 + [StartCall(f)];
    var s1 := s0 + b1 + [SourceReturns(f, answer)];
    var s2 := s1 + b2 + [Unlist(f)];
    var s3 := s2 + b3 + [Publish(f)];
    var all := s3 + b4 + [Receive(c)];
    ServedPath(steps, c, answer, b0, b1, b2, b3, b4);
    RunKeepsInv(s3 + b4);
    FlightInRange(Run(steps), steps, c);
    BlockThenDrive(steps, b0, StartCall(f), f, 3);
    BlockThenDrive(s0, b1, SourceReturns(f, answer), f, 2);
    BlockThenDrive(s1, b2, Unlist(f), f, 1);
    BlockThenDrive(s2, b3, Publish(f), f, 0);
    NeverRegresses(s3, b4, f, 0);
    assert all[..|all| - 1] == s3 + b4;
    PublishedIsReceived(Run(s3 + b4), c, f);
  }

  lemma FlightInRange(s: State, steps: seq<Step>, c: Caller)
    requires s == Run(steps) && c in s.calls
    ensures AtMost(s, s.calls[c].flight, 4)
  {
    RunKeepsInv(steps);
    assert GoodCall(s, s.calls[c]);
  }

  lemma ServedPath(steps: seq<Step>, c: Caller, answer: Answer,
                   b0: seq<Step>, b1: seq<Step>, b2: seq<Step>, b3: seq<Step>, b4: seq<Step>)
    requires Awaiting(Run(steps), c) && Cancel(c) !in b0 + b1 + b2 + b3 + b4
    ensures var f := Run(steps).calls[c].flight;
            StillIn(Run(steps + b0 + [StartCall(f)] + b1 + [SourceReturns(f, answer)] + b2 + [Unlist(f)]
                        + b3 + [Publish(f)] + b4), c, f)
  {
    hide Do, Run;
    var f := Run(steps).calls[c].flight;
    var more := b0 + [StartCall(f)] + b1 + [SourceReturns(f, answer)] + b2 + [Unlist(f)] + b3 + [Publish(f)] + b4;
    var blocks := b0 + b1 + b2 + b3 + b4;
    assert Cancel(c) in more ==> Cancel(c) in blocks;
    StaysUnlessCancelled(steps, more, c, f);
    assert steps + more == steps + b0 + [StartCall(f)] + b1 + [SourceReturns(f, answer)] + b2 + [Unlist(f)]
                           + b3 + [Publish(f)] + b4;
  }

  // ---- Cancellation leaves no trace ----

  /** The same run with the cancellations of the given callers replaced by nothing happening. */
  function Silenced(steps: seq<Step>, gone: set<Caller>): seq<Step> {
    if steps == [] then []
    else
      var last := steps[|steps| - 1];
      Silenced(steps[..|steps| - 1], gone) + [if last.Cancel? && last.c in gone then Idle else last]
  }

  ghost predicate SameBut(a: State, b: State, gone: set<Caller>) {
    && a.inFlight == b.inFlight
    && a.flights == b.flights
    && a.now == b.now
    && a.calls.Keys == b.calls.Keys
    && forall c :: c in a.calls && c !in gone ==> a.calls[c] == b.calls[c]
  }

  /** The two runs agree on which flight each caller joined, cancelled or not. */
  ghost predicate SameFlights(a: State, b: State) {
    a.calls.Keys == b.calls.Keys && forall c :: c in a.calls ==> a.calls[c].flight == b.calls[c].flight
  }

  lemma ReceiveKeepsSame(a: State, b: State, c: Caller, gone: set<Caller>)
    requires SameBut(a, b, gone) && SameFlights(a, b)
    ensures SameBut(Do(a, Receive(c)), Do(b, Receive(c)), gone) && SameFlights(Do(a, Receive(c)), Do(b, Receive(c)))
  {
    ReceiveIsLocal(a, c);
    ReceiveIsLocal(b, c);
    if c in a.calls && c !in gone { ReceiveIsDetermined(a, b, c); }
    hide Do;
  }

  /** Looking changes at most the caller's own record, and never its flight. */
  lemma ReceiveIsLocal(s: State, c: Caller)
    ensures var after := Do(s, Receive(c));
            && after.inFlight == s.inFlight && after.flights == s.flights && after.now == s.now + 1
            && after.calls.Keys == s.calls.Keys
            && (forall d :: d in s.calls && d != c ==> after.calls[d] == s.calls[d])
            && (c in s.calls ==> after.calls[c].flight == s.calls[c].flight)
  {
    hide SenderAlive;
  }

  lemma ReceiveIsDetermined(a: State, b: State, c: Caller)
    requires a.inFlight == b.inFlight && a.flights == b.flights
    requires c in a.calls && c in b.calls && a.calls[c] == b.calls[c]
    ensures var x, y := Do(a, Receive(c)), Do(b, Receive(c));
            c in x.calls && c in y.calls && x.calls[c] == y.calls[c]
  {
    hide SenderAlive;
  }

  lemma CancelKeepsSame(a: State, b: State, c: Caller, gone: set<Caller>)
    requires SameBut(a, b, gone) && SameFlights(a, b)
    ensures var quiet := if c in gone then Idle else Cancel(c);
            SameBut(Do(a, Cancel(c)), Do(b, quiet), gone) && SameFlights(Do(a, Cancel(c)), Do(b, quiet))
  {
  }

  lemma JoinKeepsSame(a: State, b: State, c: Caller, t: Target, gone: set<Caller>)
    requires SameBut(a, b, gone) && SameFlights(a, b)
    ensures SameBut(Do(a, Join(c, t)), Do(b, Join(c, t)), gone) && SameFlights(Do(a, Join(c, t)), Do(b, Join(c, t)))
  {
  }

  lemma TaskKeepsSame(a: State, b: State, step: Step, gone: set<Caller>)
    requires SameBut(a, b, gone) && SameFlights(a, b)
    requires !step.Receive? && !step.Cancel? && !step.Join?
    ensures SameBut(Do(a, step), Do(b, step), gone) && SameFlights(Do(a, step), Do(b, step))
  {
    TaskIsDetermined(a, b, step);
    hide Do;
  }

  lemma TaskIsDetermined(a: State, b: State, step: Step)
    requires a.inFlight == b.inFlight && a.flights == b.flights && a.now == b.now
    requires !step.Receive? && !step.Cancel? && !step.Join?
    ensures var x, y := Do(a, step), Do(b, step);
            && x.inFlight == y.inFlight && x.flights == y.flights && x.now == y.now
            && x.calls == a.calls && y.calls == b.calls
  {
    assert b == a.(calls := b.calls);
    TaskIgnoresCalls(a, step, b.calls);
    TaskIgnoresCalls(a, step, a.calls);
    assert a == a.(calls := a.calls);
    hide Do;
  }

  lemma TaskIgnoresCalls(s: State, step: Step, calls: map<Caller, Call>)
    requires !step.Receive? && !step.Cancel? && !step.Join?
    ensures Do(s.(calls := calls), step) == Do(s, step).(calls := calls)
  {
    hide Shared;
  }

  lemma NothingIsSame(gone: set<Caller>)
    ensures SameBut(INITIAL, INITIAL, gone) && SameFlights(INITIAL, INITIAL)
  {
  }

  /** Cancelling any set of callers changes no flight, adds or removes no source call, and alters nothing that any
      other caller sees. */
  lemma {:induction false} CancellationIsInvisible(steps: seq<Step>, gone: set<Caller>)
    ensures SameBut(Run(steps), Run(Silenced(steps, gone)), gone)
    ensures SameFlights(Run(steps), Run(Silenced(steps, gone)))
  {
    hide Do, SameBut, SameFlights;
    if steps == [] {
      NothingIsSame(gone);
    } else {
      var front, last := steps[..|steps| - 1], steps[|steps| - 1];
      CancellationIsInvisible(front, gone);
      var silenced := Silenced(steps, gone);
      assert silenced[..|silenced| - 1] == Silenced(front, gone);
      match last {
        case Join(c, t) => JoinKeepsSame(Run(front), Run(Silenced(front, gone)), c, t, gone);
        case Receive(c) => ReceiveKeepsSame(Run(front), Run(Silenced(front, gone)), c, gone);
        case Cancel(c) => CancelKeepsSame(Run(front), Run(Silenced(front, gone)), c, gone);
        case _ => TaskKeepsSame(Run(front), Run(Silenced(front, gone)), last, gone);
      }
    }
  }
}
