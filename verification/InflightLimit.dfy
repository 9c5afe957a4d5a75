/**
 The in-flight limiter as interleaved atomic steps of any number of requests.  A request
 increments the shared counter and receives a guard with the new count, then decides; a
 rejected request keeps its guard alive while the 429 is written, an admitted one until its
 context is dropped.  Dropping a guard decrements the counter.
 */
module InflightLimit {
  /** The limit the program is compiled with. */
  const MAX_CONCURRENT_REQ: nat := 2

  type Id = nat

  /** A request that has incremented; `count` is the value the increment returned. */
  datatype Phase = Counted(count: int) | Rejecting(count: int) | Admitted(count: int) | Ended

  datatype State = State(counter: int, requests: map<Id, Phase>)

  datatype Event = Increment(r: Id) | Decide(r: Id) | DropGuard(r: Id)

  const INITIAL := State(0, map[])

  predicate Enabled(s: State, e: Event) {
    match e
    case Increment(r) => r !in s.requests
    case Decide(r) => r in s.requests && s.requests[r].Counted?
    case DropGuard(r) => r in s.requests && !s.requests[r].Ended?
  }

  function Step(limit: nat, s: State, e: Event): State
    requires Enabled(s, e)
  {
    match e
    case Increment(r) => State(s.counter + 1, s.requests[r := Counted(s.counter + 1)])
    case Decide(r) =>
      var count := s.requests[r].count;
      s.(requests := s.requests[r := if count > limit then Rejecting(count) else Admitted(count)])
    case DropGuard(r) => State(s.counter - 1, s.requests[r := Ended])
  }

  /** The shared counter and the per-request contexts, updated in place. */
  class Limiter {
    const limit: nat
    var counter: int
    var requests: map<Id, Phase>

    ghost function View(): State
      reads this
    {
      State(counter, requests)
    }

    /** The counter is the number of live guards, and no more than `limit` live requests drew a
        ticket within the limit. */
    ghost predicate Valid()
      reads this
    {
      Inv(limit, View())
    }

    constructor ()
      ensures limit == MAX_CONCURRENT_REQ && View() == INITIAL && Valid()
    {
      limit := MAX_CONCURRENT_REQ;
      counter, requests := 0, map[];
      new;
      InitialInv(limit);
    }

    method Advance(e: Event)
      requires Valid() && Enabled(View(), e)
      modifies this
      ensures Valid() && View() == Step(limit, old(View()), e)
      ensures counter == |Live(View())| && |PastFilter(View())| <= limit
    {
      StepKeepsInv(limit, View(), e);
      InvMeansLimit(limit, Step(limit, View(), e));
      match e {
        case Increment(r) =>
          counter := counter + 1;
          requests := requests[r := Counted(counter)];
        case Decide(r) =>
          var count := requests[r].count;
          if count > limit {
            requests := requests[r := Rejecting(count)];
          } else {
            requests := requests[r := Admitted(count)];
          }
        case DropGuard(r) =>
          counter := counter - 1;
          requests := requests[r := Ended];
      }
    }
  }

  // ---------- what is observed ----------

  /** Requests whose guard is alive. */
  function Live(s: State): set<Id> {
    set r | r in s.requests && !s.requests[r].Ended?
  }

  /** Requests the filter has let through and that have not ended. */
  function PastFilter(s: State): set<Id> {
    set r | r in s.requests && s.requests[r].Admitted?
  }

  ghost predicate IsRun(limit: nat, run: seq<State>, events: seq<Event>) {
    && |run| == |events| + 1
    && run[0] == INITIAL
    && forall i :: 0 <= i < |events| ==> Enabled(run[i], events[i]) && run[i + 1] == Step(limit, run[i], events[i])
  }

  // ---------- the invariant ----------

  /** Live requests that drew a ticket within the limit. */
  function Ticketed(limit: nat, s: State): set<Id> {
    set r | r in s.requests && !s.requests[r].Ended? && s.requests[r].count <= limit
  }

  ghost predicate Inv(limit: nat, s: State) {
    && s.counter == |Live(s)|
    && |Ticketed(limit, s)| <= limit
    && (forall r :: r in s.requests && s.requests[r].Admitted? ==> s.requests[r].count <= limit)
    && (forall r :: r in s.requests && s.requests[r].Rejecting? ==> s.requests[r].count > limit)
  }

  lemma IncrementKeepsInv(limit: nat, s: State, r: Id)
    requires Inv(limit, s) && Enabled(s, Increment(r))
    ensures Inv(limit, Step(limit, s, Increment(r)))
  {
    var s' := Step(limit, s, Increment(r));
    assert Live(s') == Live(s) + {r};
    if s'.counter <= limit {
      SubsetSize(Ticketed(limit, s'), Live(s'));
    } else {
      assert Ticketed(limit, s') == Ticketed(limit, s);
    }
  }

  lemma DecideKeepsInv(limit: nat, s: State, r: Id)
    requires Inv(limit, s) && Enabled(s, Decide(r))
    ensures Inv(limit, Step(limit, s, Decide(r)))
  {
    var s' := Step(limit, s, Decide(r));
    assert Live(s') == Live(s);
    assert Ticketed(limit, s') == Ticketed(limit, s);
  }

  lemma DropKeepsInv(limit: nat, s: State, r: Id)
    requires Inv(limit, s) && Enabled(s, DropGuard(r))
    ensures Inv(limit, Step(limit, s, DropGuard(r)))
  {
    var s' := Step(limit, s, DropGuard(r));
    assert Live(s') == Live(s) - {r};
    assert Ticketed(limit, s') == Ticketed(limit, s) - {r};
  }

  lemma StepKeepsInv(limit: nat, s: State, e: Event)
    requires Inv(limit, s) && Enabled(s, e)
    ensures Inv(limit, Step(limit, s, e))
  {
    match e {
      case Increment(r) => IncrementKeepsInv(limit, s, r);
      case Decide(r) => DecideKeepsInv(limit, s, r);
      case DropGuard(r) => DropKeepsInv(limit, s, r);
    }
  }

  lemma {:induction false} SubsetSize(a: set<Id>, b: set<Id>)
    requires a <= b
    ensures |a| <= |b|
  {
    if a != {} {
      var x :| x in a;
      SubsetSize(a - {x}, b - {x});
    }
  }

  lemma InitialInv(limit: nat)
    ensures Inv(limit, INITIAL)
  {
    assert Live(INITIAL) == {} && Ticketed(limit, INITIAL) == {};
  }

  /** What the invariant says of an observer's view. */
  lemma InvMeansLimit(limit: nat, s: State)
    requires Inv(limit, s)
    ensures s.counter == |Live(s)| && |PastFilter(s)| <= limit
    ensures (forall r :: r in s.requests ==> s.requests[r].Ended?) ==> s.counter == 0
  {
    SubsetSize(PastFilter(s), Ticketed(limit, s));
    if forall r :: r in s.requests ==> s.requests[r].Ended? {
      assert Live(s) == {};
    }
  }

  lemma {:induction false} RunKeepsInv(limit: nat, run: seq<State>, events: seq<Event>, i: nat)
    requires IsRun(limit, run, events) && i < |run|
    ensures Inv(limit, run[i])
  {
    if i == 0 {
      InitialInv(limit);
    } else {
      RunKeepsInv(limit, run, events, i - 1);
      StepKeepsInv(limit, run[i - 1], events[i - 1]);
    }
  }

  // ---------- the events alone ----------

  /** The event happened before step `i`. */
  predicate Happened(events: seq<Event>, i: nat, e: Event)
    requires i <= |events|
  {
    e in events[..i]
  }

  lemma HappenedNext(events: seq<Event>, i: nat, e: Event)
    requires i < |events|
    ensures Happened(events, i + 1, e) <==> Happened(events, i, e) || events[i] == e
  {
    assert events[..i + 1] == events[..i] + [events[i]];
  }

  /** How far a request has come. */
  function Stage(s: State, r: Id): nat {
    if r !in s.requests then 0
    else if s.requests[r].Counted? then 1
    else if s.requests[r].Ended? then 3
    else 2
  }

  /** The event that brings request `r` to stage `k`. */
  function OwnEvent(r: Id, k: nat): Event
    requires 1 <= k <= 3
  {
    if k == 1 then Increment(r) else if k == 2 then Decide(r) else DropGuard(r)
  }

  lemma StageStep(limit: nat, s: State, e: Event, r: Id, k: nat)
    requires Enabled(s, e) && 1 <= k <= 3
    ensures Stage(s, r) <= Stage(Step(limit, s, e), r)
    ensures k != 2 || Stage(Step(limit, s, e), r) < 3 ==>
      (Stage(Step(limit, s, e), r) >= k <==> Stage(s, r) >= k || e == OwnEvent(r, k))
  {
  }

  /** A request is where its own events have brought it, whatever the others did; it may end
      undecided. */
  lemma {:induction false} RequestFollowsItsEvents(
    limit: nat, run: seq<State>, events: seq<Event>, i: nat, r: Id, k: nat)
    requires IsRun(limit, run, events) && i < |run| && 1 <= k <= 3
    ensures k != 2 || Stage(run[i], r) < 3 ==> (Happened(events, i, OwnEvent(r, k)) <==> Stage(run[i], r) >= k)
  {
    if i > 0 {
      RequestFollowsItsEvents(limit, run, events, i - 1, r, k);
      StageStep(limit, run[i - 1], events[i - 1], r, k);
      HappenedNext(events, i - 1, OwnEvent(r, k));
    }
  }

  /** The requests that have incremented and whose guard has not been dropped. */
  function Holders(events: seq<Event>, i: nat): set<Id>
    requires i <= |events|
  {
    set k | 0 <= k < i && events[k].Increment? && !Happened(events, i, DropGuard(events[k].r)) :: events[k].r
  }

  lemma LiveAreHolders(limit: nat, run: seq<State>, events: seq<Event>, i: nat)
    requires IsRun(limit, run, events) && i < |run|
    ensures Live(run[i]) == Holders(events, i)
  {
    forall r ensures r in Live(run[i]) <==> r in Holders(events, i) {
      RequestFollowsItsEvents(limit, run, events, i, r, 1);
      RequestFollowsItsEvents(limit, run, events, i, r, 3);
      if Happened(events, i, Increment(r)) {
        var k :| 0 <= k < i && events[..i][k] == Increment(r);
        assert events[k].Increment?;
      }
    }
  }

  // ---------- theorems over every run ----------

  /** At every point of every interleaving the counter is the number of requests that have
      incremented and still hold their guard, at most `limit` requests are past the filter, and
      the counter is zero once all have ended. */
  lemma LimitIsKept(limit: nat, run: seq<State>, events: seq<Event>, i: nat)
    requires IsRun(limit, run, events) && i < |run|
    ensures run[i].counter == |Holders(events, i)| && PastFilter(run[i]) <= Holders(events, i)
    ensures |PastFilter(run[i])| <= limit
    ensures (forall r :: r in run[i].requests ==> run[i].requests[r].Ended?) ==> run[i].counter == 0
  {
    RunKeepsInv(limit, run, events, i);
    InvMeansLimit(limit, run[i]);
    LiveAreHolders(limit, run, events, i);
  }

  /** The increment of a request that is alive, and what it saw. */
  lemma {:induction false} IncrementOf(limit: nat, run: seq<State>, events: seq<Event>, i: nat, r: Id) returns (j: nat)
    requires IsRun(limit, run, events) && i < |run|
    requires r in run[i].requests && !run[i].requests[r].Ended?
    ensures j < i && events[j] == Increment(r) && r !in run[j].requests
    ensures run[i].requests[r].count == |Live(run[j])| + 1
  {
    if events[i - 1] == Increment(r) {
      j := i - 1;
      RunKeepsInv(limit, run, events, j);
    } else {
      j := IncrementOf(limit, run, events, i - 1, r);
    }
  }

  /** From its decision until its guard is dropped a request is rejected exactly when, at its own
      increment, at least `limit` others held a guard, and let through otherwise. */
  lemma RejectionIsJustified(limit: nat, run: seq<State>, events: seq<Event>, d: nat, i: nat, r: Id) returns (j: nat)
    requires IsRun(limit, run, events) && d < i < |run| && events[d] == Decide(r)
    requires !Happened(events, i, DropGuard(r))
    ensures j < d && events[j] == Increment(r) && r !in Holders(events, j)
    ensures r in run[i].requests
    ensures run[i].requests[r].Rejecting? <==> |Holders(events, j)| >= limit
    ensures run[i].requests[r].Admitted? <==> |Holders(events, j)| < limit
  {
    assert events[..i][d] == Decide(r);
    RequestFollowsItsEvents(limit, run, events, i, r, 3);
    RequestFollowsItsEvents(limit, run, events, i, r, 2);
    j := IncrementOf(limit, run, events, i, r);
    DecidesAfterIncrement(limit, run, events, j, d, r);
    LiveAreHolders(limit, run, events, j);
    RunKeepsInv(limit, run, events, i);
  }

  lemma {:induction false} StageGrows(limit: nat, run: seq<State>, events: seq<Event>, i: nat, j: nat, r: Id)
    requires IsRun(limit, run, events) && i <= j < |run|
    ensures Stage(run[i], r) <= Stage(run[j], r)
  {
    if i < j {
      StageGrows(limit, run, events, i, j - 1, r);
      StageStep(limit, run[j - 1], events[j - 1], r, 1);
    }
  }

  lemma DecidesAfterIncrement(limit: nat, run: seq<State>, events: seq<Event>, j: nat, d: nat, r: Id)
    requires IsRun(limit, run, events) && d < |events| && j < |events|
    requires events[d] == Decide(r) && r !in run[j].requests
    ensures j < d
  {
    if d <= j {
      StageGrows(limit, run, events, d, j, r);
    }
  }

  /** Nobody waits, however many are in flight: a request can always arrive once, be decided
      once, and drop its guard once. */
  lemma NobodyWaits(limit: nat, run: seq<State>, events: seq<Event>, i: nat, r: Id)
    requires IsRun(limit, run, events) && i < |run|
    ensures Enabled(run[i], Increment(r)) <==> !Happened(events, i, Increment(r))
    ensures Enabled(run[i], DropGuard(r)) <==>
            Happened(events, i, Increment(r)) && !Happened(events, i, DropGuard(r))
    ensures Enabled(run[i], Decide(r)) <==>
            Enabled(run[i], DropGuard(r)) && !Happened(events, i, Decide(r))
  {
    RequestFollowsItsEvents(limit, run, events, i, r, 1);
    RequestFollowsItsEvents(limit, run, events, i, r, 2);
    RequestFollowsItsEvents(limit, run, events, i, r, 3);
  }
}
