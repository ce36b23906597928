/** The slot-availability tracker of the Wedemark Team Open front-end
    (src/composables/useTeamSlots.ts).

    The source keeps two pieces of module-level state, the number of slots
    left (absent until the first successful count request) and a loading
    flag, and one operation, `fetchSlotsLeft(force)`.  That operation has a
    single suspension point, the `await` on the count request, so it is
    split here into the two steps that run without interruption:

      - `Begin(force)`: the two guards and the setting of the loading flag;
      - `Complete(outcome)`: what happens when the request settles.

    A trace of `Call` and `Arrive` events is any sequential interleaving of
    those steps.  The pure functions below give the meaning of each step and
    of a whole trace; the class `SlotTracker` is the imperative state, proved
    to follow them. */
module TeamSlots {

  datatype Option<T> = None | Some(value: T)

  /** Fixed capacity of the tournament: the number of team slots. */
  const TotalSlots: int := 8

  /** How the count request settled: the number of registered teams, or a
      failure (network error, timeout, error status, missing body). */
  datatype Outcome = Success(total: int) | Failure

  /** The tracker's shared state. */
  datatype SlotState = SlotState(slotsLeft: Option<int>, loading: bool)

  /** The result of the synchronous part of a call: the new state and
      whether a count request was sent. */
  datatype Started = Started(next: SlotState, issued: bool)

  /** One uninterrupted step: a call of `fetchSlotsLeft`, or the arrival of
      the outcome of the pending count request. */
  datatype Event = Call(force: bool) | Arrive(outcome: Outcome)

  /** The state at program start. */
  function Init(): SlotState
  {
    SlotState(None, false)
  }

  /** The guards of `fetchSlotsLeft` and the setting of the loading flag:
      a call in flight, or a cached value without `force`, stops the call. */
  function BeginStep(s: SlotState, force: bool): (r: Started)
    ensures r.issued <==> !s.loading && (force || s.slotsLeft.None?)
    ensures r.next.slotsLeft == s.slotsLeft
    ensures r.next.loading <==> s.loading || r.issued
  {
    if s.loading then Started(s, false)
    else if !force && s.slotsLeft.Some? then Started(s, false)
    else Started(s.(loading := true), true)
  }

  /** The continuation after the `await`: a success stores the slots left,
      a failure keeps the stale value, and the loading flag is cleared in
      every case. */
  function CompleteStep(s: SlotState, outcome: Outcome): (r: SlotState)
    ensures !r.loading
    ensures outcome.Failure? ==> r.slotsLeft == s.slotsLeft
    ensures outcome.Success? ==> r.slotsLeft == Some(TotalSlots - outcome.total)
  {
    match outcome
    case Success(total) => SlotState(Some(TotalSlots - total), false)
    case Failure => s.(loading := false)
  }

  function Step(s: SlotState, e: Event): SlotState
  {
    match e
    case Call(force) => BeginStep(s, force).next
    case Arrive(outcome) => CompleteStep(s, outcome)
  }

  /** The state after running `trace` from `s`. */
  function Run(s: SlotState, trace: seq<Event>): SlotState
  {
    if trace == [] then s
    else Step(Run(s, trace[..|trace| - 1]), trace[|trace| - 1])
  }

  /** The number of count requests sent while running `trace` from `s`. */
  function Issued(s: SlotState, trace: seq<Event>): nat
  {
    if trace == [] then 0
    else
      var before, e := trace[..|trace| - 1], trace[|trace| - 1];
      Issued(s, before) + (if e.Call? && BeginStep(Run(s, before), e.force).issued then 1 else 0)
  }

  /** The number of request outcomes that arrived in `trace`. */
  function Arrivals(trace: seq<Event>): nat
  {
    if trace == [] then 0
    else Arrivals(trace[..|trace| - 1]) + (if trace[|trace| - 1].Arrive? then 1 else 0)
  }

  /** An outcome only ever arrives for a request that is pending. */
  predicate WellFormed(s: SlotState, trace: seq<Event>)
  {
    trace == [] ||
    (WellFormed(s, trace[..|trace| - 1]) &&
     (trace[|trace| - 1].Arrive? ==> Run(s, trace[..|trace| - 1]).loading))
  }

  /** The team count of the last successful outcome in `trace`, if any. */
  function LastSuccess(trace: seq<Event>): Option<int>
  {
    if trace == [] then None
    else
      match trace[|trace| - 1]
      case Arrive(Success(total)) => Some(total)
      case _ => LastSuccess(trace[..|trace| - 1])
  }

  predicate OnlyCalls(trace: seq<Event>)
  {
    forall i :: 0 <= i < |trace| ==> trace[i].Call?
  }

  /** At every point of a well-formed trace, every request sent has either
      arrived or is the one pending request that `loading` stands for.
      Because the guard and the setting of the flag happen in one step, two
      requests are never in flight at once. */
  lemma {:induction false} InFlightBalance(s: SlotState, trace: seq<Event>)
    requires WellFormed(s, trace)
    ensures Issued(s, trace) + (if s.loading then 1 else 0)
         == Arrivals(trace) + (if Run(s, trace).loading then 1 else 0)
  {
    if trace != [] {
      InFlightBalance(s, trace[..|trace| - 1]);
    }
  }

  /** From program start, at most one request is outstanding at any time. */
  lemma AtMostOneInFlight(trace: seq<Event>)
    requires WellFormed(Init(), trace)
    ensures Arrivals(trace) <= Issued(Init(), trace) <= Arrivals(trace) + 1
    ensures Run(Init(), trace).loading <==> Issued(Init(), trace) == Arrivals(trace) + 1
  {
  }

  /** Running one more step extends the run, the request count, the arrival
      count and well-formedness by that step alone. */
  lemma Extend(s: SlotState, trace: seq<Event>, e: Event)
    ensures Run(s, trace + [e]) == Step(Run(s, trace), e)
    ensures Issued(s, trace + [e])
         == Issued(s, trace) + (if e.Call? && BeginStep(Run(s, trace), e.force).issued then 1 else 0)
    ensures Arrivals(trace + [e]) == Arrivals(trace) + (if e.Arrive? then 1 else 0)
    ensures WellFormed(s, trace + [e]) <==> WellFormed(s, trace) && (e.Arrive? ==> Run(s, trace).loading)
  {
  }

  /** Any run of calls with no arrival in between sends at most one request:
      exactly one when nothing was in flight and some call either was forced
      or found no cached value.  Calls never touch `slotsLeft`. */
  lemma {:induction false} CallsCoalesce(s: SlotState, trace: seq<Event>)
    requires OnlyCalls(trace)
    ensures Issued(s, trace) <= 1
    ensures Issued(s, trace) == 1 <==>
              !s.loading && ((s.slotsLeft.None? && trace != []) || exists i :: 0 <= i < |trace| && trace[i].force)
    ensures Run(s, trace).loading <==> s.loading || Issued(s, trace) == 1
    ensures Run(s, trace).slotsLeft == s.slotsLeft
  {
    if trace != [] {
      var n := |trace|;
      var before := trace[..n - 1];
      assert forall i :: 0 <= i < n - 1 ==> before[i] == trace[i];
      CallsCoalesce(s, before);
    }
  }

  /** Coalescing: while a request is in flight, every further call returns
      at once, changes nothing and sends nothing. */
  lemma CallsWhileLoadingAreNoOps(s: SlotState, trace: seq<Event>)
    requires s.loading
    requires OnlyCalls(trace)
    ensures Run(s, trace) == s
    ensures Issued(s, trace) == 0
  {
  }

  /** Cache hit: once a value is present, any number of unforced calls send
      no request and leave the state as it was. */
  lemma UnforcedCallsHitCache(s: SlotState, trace: seq<Event>)
    requires s.slotsLeft.Some?
    requires forall i :: 0 <= i < |trace| ==> trace[i] == Call(false)
    ensures Run(s, trace) == s
    ensures Issued(s, trace) == 0
  {
  }

  /** `slotsLeft` is written only by a successful outcome: after any trace it
      is derived from the last success, or it is still the initial value. */
  lemma {:induction false} SlotsLeftFollowsLastSuccess(s: SlotState, trace: seq<Event>)
    ensures Run(s, trace).slotsLeft ==
              match LastSuccess(trace)
              case Some(total) => Some(TotalSlots - total)
              case None => s.slotsLeft
  {
    if trace != [] {
      SlotsLeftFollowsLastSuccess(s, trace[..|trace| - 1]);
    }
  }

  /** Stale-on-error: a trace in which no request succeeds leaves
      `slotsLeft` exactly as it was, present or absent. */
  lemma {:induction false} FailuresKeepStaleValue(s: SlotState, trace: seq<Event>)
    requires forall i :: 0 <= i < |trace| ==> !(trace[i].Arrive? && trace[i].outcome.Success?)
    ensures Run(s, trace).slotsLeft == s.slotsLeft
  {
    if trace != [] {
      var before := trace[..|trace| - 1];
      assert forall i :: 0 <= i < |before| ==> before[i] == trace[i];
      FailuresKeepStaleValue(s, before);
    }
  }

  /** A call that passes the guards raises the loading flag, and the
      arrival of its outcome, success or failure, lowers it again. */
  lemma LoadingLifecycle(s: SlotState, force: bool, outcome: Outcome)
    requires !s.loading
    requires force || s.slotsLeft.None?
    ensures Issued(s, [Call(force)]) == 1
    ensures Run(s, [Call(force)]).loading
    ensures WellFormed(s, [Call(force), Arrive(outcome)])
    ensures !Run(s, [Call(force), Arrive(outcome)]).loading
  {
  }

  /** A count of 3 leaves 5 slots; a forced refresh that then fails keeps
      the 5 and ends with the flag lowered, after two requests in all. */
  lemma RefreshExample()
    ensures Run(Init(), [Call(false), Arrive(Success(3))]) == SlotState(Some(5), false)
    ensures Run(Init(), [Call(false), Arrive(Success(3)), Call(true), Arrive(Failure)])
         == SlotState(Some(5), false)
    ensures Issued(Init(), [Call(false), Arrive(Success(3)), Call(true), Arrive(Failure)]) == 2
  {
    var t1, t2, t3 := [Call(false)], [Call(false), Arrive(Success(3))], [Call(false), Arrive(Success(3)), Call(true)];
    Extend(Init(), [], Call(false));
    assert [] + [Call(false)] == t1;
    Extend(Init(), t1, Arrive(Success(3)));
    assert t1 + [Arrive(Success(3))] == t2;
    Extend(Init(), t2, Call(true));
    assert t2 + [Call(true)] == t3;
    Extend(Init(), t3, Arrive(Failure));
    assert t3 + [Arrive(Failure)] == [Call(false), Arrive(Success(3)), Call(true), Arrive(Failure)];
  }

  /** The result is not clamped: more teams than slots gives a negative
      number of slots left. */
  lemma OverbookedGoesNegative(s: SlotState, total: int)
    requires total > TotalSlots
    ensures CompleteStep(s, Success(total)).slotsLeft.value < 0
  {
  }

  /** The module-level state of useTeamSlots.ts as an object.  `history` is
      the ghost record of every step taken, which the real fields follow. */
  class SlotTracker {
    var slotsLeft: Option<int>
    var loading: bool
    ghost var history: seq<Event>

    function State(): SlotState
      reads this
    {
      SlotState(slotsLeft, loading)
    }

    ghost predicate Valid()
      reads this
    {
      WellFormed(Init(), history) && State() == Run(Init(), history)
    }

    /** The number of count requests sent so far. */
    ghost function FetchesIssued(): nat
      reads this
    {
      Issued(Init(), history)
    }

    constructor ()
      ensures Valid()
      ensures slotsLeft == None && !loading
      ensures history == [] && FetchesIssued() == 0
    {
      slotsLeft := None;
      loading := false;
      history := [];
    }

    /** The part of `fetchSlotsLeft(force)` before the `await`. */
    method Begin(force: bool) returns (issued: bool)
      requires Valid()
      modifies this
      ensures Valid()
      ensures history == old(history) + [Call(force)]
      ensures issued <==> !old(loading) && (force || old(slotsLeft).None?)
      ensures slotsLeft == old(slotsLeft)
      ensures loading <==> old(loading) || issued
      ensures FetchesIssued() == old(FetchesIssued()) + (if issued then 1 else 0)
    {
      if loading {
        issued := false;
      } else if !force && slotsLeft.Some? {
        issued := false;
      } else {
        loading := true;
        issued := true;
      }
      Extend(Init(), history, Call(force));
      history := history + [Call(force)];
    }

    /** The part of `fetchSlotsLeft` after the `await`, run when the
        pending request settles. */
    method Complete(outcome: Outcome)
      requires Valid() && loading
      modifies this
      ensures Valid()
      ensures history == old(history) + [Arrive(outcome)]
      ensures !loading
      ensures slotsLeft == if outcome.Success? then Some(TotalSlots - outcome.total) else old(slotsLeft)
      ensures FetchesIssued() == old(FetchesIssued())
    {
      match outcome {
        case Success(total) =>
          slotsLeft := Some(TotalSlots - total);
        case Failure =>
      }
      loading := false;
      Extend(Init(), history, Arrive(outcome));
      history := history + [Arrive(outcome)];
    }

    /** A whole call of `fetchSlotsLeft(force)` with no other step in
        between, the request (if one is sent) settling with `outcome`. */
    method FetchSlotsLeft(force: bool, outcome: Outcome) returns (issued: bool)
      requires Valid()
      modifies this
      ensures Valid()
      ensures issued <==> !old(loading) && (force || old(slotsLeft).None?)
      ensures loading == old(loading)
      ensures slotsLeft == if issued && outcome.Success? then Some(TotalSlots - outcome.total) else old(slotsLeft)
      ensures FetchesIssued() == old(FetchesIssued()) + (if issued then 1 else 0)
      ensures history == old(history) + [Call(force)] + (if issued then [Arrive(outcome)] else [])
    {
      issued := Begin(force);
      if issued {
        Complete(outcome);
      }
    }

    /** The object's form of AtMostOneInFlight. */
    lemma OneRequestInFlight()
      requires Valid()
      ensures FetchesIssued() == Arrivals(history) + (if loading then 1 else 0)
    {
      InFlightBalance(Init(), history);
    }
  }
}
