/**
 The hot-swap admin API: one backend set behind a read/write lock.  Admin tasks take the
 write lock, clear the set, insert the posted backend and acknowledge while still holding
 the lock; discover tasks take the read lock and clone the set.  Steps of all tasks
 interleave freely, subject only to the lock.
 */
module HotSwap {
  import opened Wrappers

  type Id = nat
  type Backend = nat

  /** An admin task; `at` is the position of its backend in the history. */
  datatype Admin =
    | Waiting(posted: Backend) | Locked(posted: Backend) | Cleared(posted: Backend)
    | Inserted(posted: Backend, at: int) | Acknowledged(posted: Backend, at: int) | Closed

  /** A discover task; `floor` is the newest history position when it began, and `seen` the
      position of the backend it cloned. */
  datatype Discover =
    | Asking(floor: int) | Reading(floor: int)
    | Cloned(floor: int, result: set<Backend>, seen: int)
    | Returned(floor: int, result: set<Backend>, seen: int)

  /** `history` lists the initial backend and every backend inserted since, in order. */
  datatype State = State(
    upstreams: set<Backend>, writer: Option<Id>, readers: set<Id>,
    admins: map<Id, Admin>, discovers: map<Id, Discover>, history: seq<Backend>)

  datatype Event =
    | Post(t: Id, b: Backend) | LockWrite(t: Id) | Clear(t: Id)
    | Insert(t: Id) | Acknowledge(t: Id) | UnlockWrite(t: Id)
    | Begin(t: Id) | LockRead(t: Id) | Clone(t: Id) | Return(t: Id)

  function Initial(b: Backend): State {
    State({b}, None, {}, map[], map[], [b])
  }

  predicate Enabled(s: State, e: Event) {
    match e
    case Post(t, _) => t !in s.admins
    case LockWrite(t) => t in s.admins && s.admins[t].Waiting? && s.writer.None? && s.readers == {}
    case Clear(t) => t in s.admins && s.admins[t].Locked?
    case Insert(t) => t in s.admins && s.admins[t].Cleared?
    case Acknowledge(t) => t in s.admins && s.admins[t].Inserted?
    case UnlockWrite(t) => t in s.admins && (s.admins[t].Inserted? || s.admins[t].Acknowledged?)
    case Begin(t) => t !in s.discovers
    case LockRead(t) => t in s.discovers && s.discovers[t].Asking? && s.writer.None?
    case Clone(t) => t in s.discovers && s.discovers[t].Reading?
    case Return(t) => t in s.discovers && s.discovers[t].Cloned?
  }

  function Step(s: State, e: Event): State
    requires Enabled(s, e)
  {
    match e
    case Post(t, b) => s.(admins := s.admins[t := Waiting(b)])
    case LockWrite(t) => s.(writer := Some(t), admins := s.admins[t := Locked(s.admins[t].posted)])
    case Clear(t) => s.(upstreams := {}, admins := s.admins[t := Cleared(s.admins[t].posted)])
    case Insert(t) =>
      var b := s.admins[t].posted;
      s.(upstreams := s.upstreams + {b}, history := s.history + [b],
         admins := s.admins[t := Inserted(b, |s.history|)])
    case Acknowledge(t) => s.(admins := s.admins[t := Acknowledged(s.admins[t].posted, s.admins[t].at)])
    case UnlockWrite(t) => s.(writer := None, admins := s.admins[t := Closed])
    case Begin(t) => s.(discovers := s.discovers[t := Asking(|s.history| - 1)])
    case LockRead(t) => s.(readers := s.readers + {t}, discovers := s.discovers[t := Reading(s.discovers[t].floor)])
    case Clone(t) => s.(discovers := s.discovers[t := Cloned(s.discovers[t].floor, s.upstreams, |s.history| - 1)])
    case Return(t) =>
      var d := s.discovers[t];
      s.(readers := s.readers - {t}, discovers := s.discovers[t := Returned(d.floor, d.result, d.seen)])
  }

  // ---------- the invariant ----------

  predicate HoldsWrite(a: Admin) {
    !a.Waiting? && !a.Closed?
  }

  predicate HoldsRead(d: Discover) {
    d.Reading? || d.Cloned?
  }

  ghost predicate LockInv(s: State) {
    && (forall t :: t in s.admins && HoldsWrite(s.admins[t]) ==> s.writer == Some(t))
    && (s.writer.Some? ==> s.writer.value in s.admins && HoldsWrite(s.admins[s.writer.value]) && s.readers == {})
    && (forall t :: t in s.readers <==> t in s.discovers && HoldsRead(s.discovers[t]))
  }

  ghost predicate DataInv(s: State) {
    && s.history != []
    && s.upstreams == (if s.writer.Some? && s.writer.value in s.admins && s.admins[s.writer.value].Cleared?
                       then {} else {s.history[|s.history| - 1]})
    && (forall t :: t in s.admins && (s.admins[t].Inserted? || s.admins[t].Acknowledged?) ==>
          0 <= s.admins[t].at < |s.history| && s.history[s.admins[t].at] == s.admins[t].posted)
  }

  ghost predicate DiscoverInv(s: State) {
    forall t :: t in s.discovers ==>
      var d := s.discovers[t];
      && 0 <= d.floor < |s.history|
      && (d.Cloned? || d.Returned? ==> d.floor <= d.seen < |s.history| && d.result == {s.history[d.seen]})
  }

  ghost predicate Inv(s: State) {
    LockInv(s) && DataInv(s) && DiscoverInv(s)
  }

  lemma StepKeepsLockInv(s: State, e: Event)
    requires Inv(s) && Enabled(s, e)
    ensures LockInv(Step(s, e))
  {
  }

  lemma StepKeepsDataInv(s: State, e: Event)
    requires Inv(s) && Enabled(s, e)
    ensures DataInv(Step(s, e))
  {
  }

  lemma StepKeepsDiscoverInv(s: State, e: Event)
    requires Inv(s) && Enabled(s, e)
    ensures DiscoverInv(Step(s, e))
  {
  }

  lemma StepKeepsInv(s: State, e: Event)
    requires Inv(s) && Enabled(s, e)
    ensures Inv(Step(s, e))
  {
    StepKeepsLockInv(s, e);
    StepKeepsDataInv(s, e);
    StepKeepsDiscoverInv(s, e);
  }

  lemma InvMeans(s: State)
    requires Inv(s)
    ensures s.writer.None? ==> s.history != [] && s.upstreams == {s.history[|s.history| - 1]}
    ensures forall t :: t in s.discovers && s.discovers[t].Returned? ==>
      && 0 <= s.discovers[t].floor <= s.discovers[t].seen < |s.history|
      && s.discovers[t].result == {s.history[s.discovers[t].seen]}
  {
  }

  // ---------- runs ----------

  ghost predicate IsRun(initial: Backend, run: seq<State>, events: seq<Event>) {
    && |run| == |events| + 1
    && run[0] == Initial(initial)
    && forall i :: 0 <= i < |events| ==> Enabled(run[i], events[i]) && run[i + 1] == Step(run[i], events[i])
  }

  lemma {:induction false} RunKeepsInv(initial: Backend, run: seq<State>, events: seq<Event>, i: nat)
    requires IsRun(initial, run, events) && i < |run|
    ensures Inv(run[i])
  {
    if i > 0 {
      RunKeepsInv(initial, run, events, i - 1);
      StepKeepsInv(run[i - 1], events[i - 1]);
    }
  }

  lemma {:induction false} HistoryGrows(initial: Backend, run: seq<State>, events: seq<Event>, i: nat, j: nat)
    requires IsRun(initial, run, events) && i <= j < |run|
    ensures run[i].history <= run[j].history
  {
    if i < j {
      HistoryGrows(initial, run, events, i, j - 1);
    }
  }

  /** The event happened before step `i`. */
  predicate Happened(events: seq<Event>, i: nat, e: Event)
    requires i <= |events|
  {
    e in events[..i]
  }

  lemma HappenedNext(events: seq<Event>, i: nat, e: Event)
    requires i < |events|
    ensures Happened(events, i + 1, e) <==> Happened(events, i, e) || events[i] == e
  {
    assert events[..i + 1] == events[..i] + [events[i]];
  }

  lemma AdminStep(s: State, e: Event, t: Id)
    requires Enabled(s, e)
    ensures t in s.admins ==>
      && t in Step(s, e).admins
      && (!Step(s, e).admins[t].Closed? ==> !s.admins[t].Closed? && Step(s, e).admins[t].posted == s.admins[t].posted)
    ensures t !in s.admins && t in Step(s, e).admins ==> e == Post(t, Step(s, e).admins[t].posted)
    ensures e.Post? && e.t == t ==> t !in s.admins && Step(s, e).admins[t] == Waiting(e.b)
  {
  }

  /** What an admin task will insert is what its own request posted, and nothing else. */
  lemma {:induction false} AdminKeepsItsPost(
    initial: Backend, run: seq<State>, events: seq<Event>, i: nat, t: Id, b: Backend)
    requires IsRun(initial, run, events) && i < |run|
    ensures t !in run[i].admins ==> !Happened(events, i, Post(t, b))
    ensures t in run[i].admins && !run[i].admins[t].Closed? ==>
      (Happened(events, i, Post(t, b)) <==> run[i].admins[t].posted == b)
  {
    if i > 0 {
      AdminKeepsItsPost(initial, run, events, i - 1, t, b);
      HappenedNext(events, i - 1, Post(t, b));
      AdminStep(run[i - 1], events[i - 1], t);
    }
  }

  function Stage(a: Admin): nat {
    match a
    case Waiting(_) => 0
    case Locked(_) => 1
    case Cleared(_) => 2
    case Inserted(_, _) => 3
    case Acknowledged(_, _) => 4
    case Closed => 5
  }

  /** The event that brings task `t` to stage `k`. */
  function OwnEvent(t: Id, k: nat): Event
    requires 1 <= k <= 5
  {
    match k
    case 1 => LockWrite(t)
    case 2 => Clear(t)
    case 3 => Insert(t)
    case 4 => Acknowledge(t)
    case _ => UnlockWrite(t)
  }

  lemma StageStep(s: State, e: Event, t: Id, k: nat)
    requires Enabled(s, e) && t in s.admins && 1 <= k <= 5
    ensures t in Step(s, e).admins
    ensures Stage(Step(s, e).admins[t]) < 5 || k == 5 ==>
      && (Stage(s.admins[t]) < 5 || k == 5)
      && (Stage(Step(s, e).admins[t]) >= k <==> Stage(s.admins[t]) >= k || e == OwnEvent(t, k))
  {
  }

  /** An admin task is where its own events have brought it, whatever the others did. */
  lemma {:induction false} AdminFollowsItsEvents(
    initial: Backend, run: seq<State>, events: seq<Event>, i: nat, t: Id, k: nat)
    requires IsRun(initial, run, events) && i < |run| && t in run[i].admins && 1 <= k <= 5
    ensures Stage(run[i].admins[t]) < 5 || k == 5 ==>
      (Happened(events, i, OwnEvent(t, k)) <==> Stage(run[i].admins[t]) >= k)
  {
    if i > 0 {
      if t in run[i - 1].admins {
        AdminFollowsItsEvents(initial, run, events, i - 1, t, k);
        StageStep(run[i - 1], events[i - 1], t, k);
      } else {
        NothingBeforeThePost(initial, run, events, i - 1, t, k);
      }
      HappenedNext(events, i - 1, OwnEvent(t, k));
    }
  }

  lemma {:induction false} AdminsOnlyAdvance(
    initial: Backend, run: seq<State>, events: seq<Event>, j: nat, i: nat, t: Id)
    requires IsRun(initial, run, events) && j <= i < |run| && t in run[j].admins
    ensures t in run[i].admins && Stage(run[j].admins[t]) <= Stage(run[i].admins[t])
  {
    if j < i {
      AdminsOnlyAdvance(initial, run, events, j, i - 1, t);
    }
  }

  lemma NothingBeforeThePost(initial: Backend, run: seq<State>, events: seq<Event>, i: nat, t: Id, k: nat)
    requires IsRun(initial, run, events) && i < |run| && t !in run[i].admins && 1 <= k <= 5
    ensures !Happened(events, i, OwnEvent(t, k))
  {
    forall n: nat | n < i && t in run[n].admins ensures false {
      AdminsOnlyAdvance(initial, run, events, n, i, t);
    }
    assert forall n :: 0 <= n < i ==> events[..i][n] == events[n] && Enabled(run[n], events[n]);
  }

  /** From a task's insertion to its acknowledgement no other task inserts. */
  lemma InsertsExcludeEachOther(initial: Backend, run: seq<State>, events: seq<Event>, m: nat, l: nat, a: nat, t: Id)
    requires IsRun(initial, run, events) && m < l < a < |events|
    requires events[m] == Insert(t) && events[a] == Acknowledge(t)
    ensures !events[l].Insert?
  {
    AdminsOnlyAdvance(initial, run, events, m + 1, l, t);
    AdminsOnlyAdvance(initial, run, events, l, a, t);
    assert run[l].admins[t].Inserted?;
    RunKeepsInv(initial, run, events, l);
  }

  /** A task inserts what it posted. */
  lemma InsertsItsPost(
    initial: Backend, run: seq<State>, events: seq<Event>, p: nat, m: nat, t: Id, b: Backend, c: Backend)
    requires IsRun(initial, run, events) && p < |events| && m < |events|
    requires events[p] == Post(t, b) && events[m] == Insert(t) && Happened(events, m, Post(t, c))
    ensures b == c
  {
    if m <= p {
      AdminsOnlyAdvance(initial, run, events, m, p, t);
      assert false;
    }
    assert events[..m][p] == Post(t, b);
    AdminKeepsItsPost(initial, run, events, m, t, b);
    AdminKeepsItsPost(initial, run, events, m, t, c);
  }

  /** Task `t` inserts at step `k` what it posted, `b`, and no task inserts from then to `i`. */
  predicate LastInsert(events: seq<Event>, k: nat, i: nat, b: Backend) {
    && k < i <= |events| && events[k].Insert? && Happened(events, k, Post(events[k].t, b))
    && forall l :: k < l < i ==> !events[l].Insert?
  }

  /** The backend in force before step `i`: the last one inserted, or else the initial one. */
  ghost predicate InForce(initial: Backend, events: seq<Event>, i: nat, b: Backend) {
    || (b == initial && forall l :: 0 <= l < i && l < |events| ==> !events[l].Insert?)
    || exists k: nat :: LastInsert(events, k, i, b)
  }

  lemma StaysInForce(initial: Backend, events: seq<Event>, i: nat, b: Backend)
    requires i < |events| && InForce(initial, events, i, b) && !events[i].Insert?
    ensures InForce(initial, events, i + 1, b)
  {
    if exists k: nat :: LastInsert(events, k, i, b) {
      var k: nat :| LastInsert(events, k, i, b);
      assert LastInsert(events, k, i + 1, b);
    }
  }

  lemma {:induction false} NewestIsInForce(initial: Backend, run: seq<State>, events: seq<Event>, i: nat)
    requires IsRun(initial, run, events) && i < |run|
    ensures run[i].history != [] && InForce(initial, events, i, run[i].history[|run[i].history| - 1])
  {
    if i > 0 {
      NewestIsInForce(initial, run, events, i - 1);
      var e := events[i - 1];
      var b := run[i].history[|run[i].history| - 1];
      if e.Insert? {
        AdminKeepsItsPost(initial, run, events, i - 1, e.t, b);
        assert LastInsert(events, i - 1, i, b);
      } else {
        StaysInForce(initial, events, i - 1, b);
      }
    }
  }

  // ---------- theorems over every run ----------

  lemma {:induction false} CloneOf(initial: Backend, run: seq<State>, events: seq<Event>, j: nat, i: nat, d: Id)
    returns (c: nat)
    requires IsRun(initial, run, events) && j < i < |run| && events[j] == Begin(d)
    requires d in run[i].discovers && (run[i].discovers[d].Cloned? || run[i].discovers[d].Returned?)
    ensures j < c < i && events[c] == Clone(d)
    ensures run[c].history != [] && run[i].discovers[d].result == {run[c].history[|run[c].history| - 1]}
  {
    if events[i - 1] == Clone(d) {
      c := i - 1;
      RunKeepsInv(initial, run, events, c);
      FloorIsKept(initial, run, events, j, i, d);
    } else {
      c := CloneOf(initial, run, events, j, i - 1, d);
    }
  }

  lemma {:induction false} BeginOf(initial: Backend, run: seq<State>, events: seq<Event>, i: nat, d: Id)
    returns (j: nat)
    requires IsRun(initial, run, events) && i < |run| && d in run[i].discovers
    ensures j < i && events[j] == Begin(d)
  {
    j := i - 1;
    if events[i - 1] != Begin(d) {
      j := BeginOf(initial, run, events, i - 1, d);
    }
  }

  /** The set behaves as one register: every discover sees exactly one backend, the one in force
      at a step between its beginning and its return. */
  lemma DiscoverSeesOneBackend(initial: Backend, run: seq<State>, events: seq<Event>, i: nat, d: Id)
    returns (j: nat, c: nat, b: Backend)
    requires IsRun(initial, run, events) && i < |run|
    requires d in run[i].discovers && run[i].discovers[d].Returned?
    ensures j < c < i && events[j] == Begin(d) && events[c] == Clone(d)
    ensures run[i].discovers[d].result == {b} && InForce(initial, events, c, b)
  {
    j := BeginOf(initial, run, events, i, d);
    c := CloneOf(initial, run, events, j, i, d);
    NewestIsInForce(initial, run, events, c);
    b := run[c].history[|run[c].history| - 1];
  }

  /** A begun discover keeps the floor it began with. */
  lemma {:induction false} FloorIsKept(initial: Backend, run: seq<State>, events: seq<Event>, j: nat, i: nat, d: Id)
    requires IsRun(initial, run, events) && j < i < |run| && events[j] == Begin(d)
    ensures d in run[i].discovers && run[i].discovers[d].floor == |run[j].history| - 1
  {
    if j + 1 < i {
      FloorIsKept(initial, run, events, j, i - 1, d);
    }
  }

  /** The last insertion up to an acknowledgement is the acknowledging task's. */
  lemma InsertBehind(initial: Backend, run: seq<State>, events: seq<Event>, a: nat, t: Id) returns (m: nat)
    requires IsRun(initial, run, events) && a < |events| && events[a] == Acknowledge(t)
    ensures m < a && events[m] == Insert(t)
    ensures forall l :: m < l <= a ==> !events[l].Insert?
  {
    AdminFollowsItsEvents(initial, run, events, a, t, 3);
    m :| 0 <= m < a && events[..a][m] == Insert(t);
    forall l | m < l < a ensures !events[l].Insert? {
      InsertsExcludeEachOther(initial, run, events, m, l, a, t);
    }
  }

  lemma InForceAfterAcknowledge(
    initial: Backend, run: seq<State>, events: seq<Event>, p: nat, a: nat, c: nat, t: Id, b: Backend, seen: Backend)
    requires IsRun(initial, run, events) && p < |events| && a < c < |run|
    requires events[p] == Post(t, b) && events[a] == Acknowledge(t) && InForce(initial, events, c, seen)
    ensures seen == b || exists k :: a < k < c && events[k].Insert? && Happened(events, k, Post(events[k].t, seen))
  {
    var m := InsertBehind(initial, run, events, a, t);
    var k: nat :| LastInsert(events, k, c, seen);
    if k <= a {
      assert k == m;
      InsertsItsPost(initial, run, events, p, m, t, b, seen);
    }
  }

  /** A discover begun after the 200 for a posted backend was sent sees that backend, or one that
      another task posted and inserted after the 200. */
  lemma AcknowledgedIsVisible(
    initial: Backend, run: seq<State>, events: seq<Event>, p: nat, a: nat, j: nat, i: nat, t: Id, b: Backend, d: Id)
    returns (seen: Backend)
    requires IsRun(initial, run, events) && p < |events| && a < j < i < |run|
    requires events[p] == Post(t, b) && events[a] == Acknowledge(t) && events[j] == Begin(d)
    requires d in run[i].discovers && run[i].discovers[d].Returned?
    ensures run[i].discovers[d].result == {seen}
    ensures seen == b || exists k :: a < k < i && events[k].Insert? && Happened(events, k, Post(events[k].t, seen))
  {
    var c := CloneOf(initial, run, events, j, i, d);
    NewestIsInForce(initial, run, events, c);
    seen := run[c].history[|run[c].history| - 1];
    InForceAfterAcknowledge(initial, run, events, p, a, c, t, b, seen);
    assert c < i;
  }

  lemma {:induction false} ReturnIsFinal(initial: Backend, run: seq<State>, events: seq<Event>, j: nat, i: nat, d: Id)
    requires IsRun(initial, run, events) && j <= i < |run|
    requires d in run[j].discovers && run[j].discovers[d].Returned?
    ensures d in run[i].discovers && run[i].discovers[d] == run[j].discovers[d]
  {
    if j < i {
      ReturnIsFinal(initial, run, events, j, i - 1, d);
    }
  }

  /** Real-time order: a discover that begins after another returned never sees an older
      backend. */
  lemma DiscoversAreOrdered(initial: Backend, run: seq<State>, events: seq<Event>, j: nat, i: nat, first: Id)
    requires IsRun(initial, run, events) && j < i < |run| && events[j].Begin?
    requires first in run[j].discovers && run[j].discovers[first].Returned?
    requires events[j].t in run[i].discovers && run[i].discovers[events[j].t].Returned?
    ensures first in run[i].discovers && run[i].discovers[first].Returned?
    ensures run[i].discovers[first].seen <= run[i].discovers[events[j].t].seen
  {
    RunKeepsInv(initial, run, events, j);
    RunKeepsInv(initial, run, events, i);
    FloorIsKept(initial, run, events, j, i, events[j].t);
    ReturnIsFinal(initial, run, events, j, i, first);
  }

  /** No deadlock: while any task is unfinished, some task can take its next step. */
  lemma SomeTaskCanStep(initial: Backend, run: seq<State>, events: seq<Event>, i: nat) returns (e: Event)
    requires IsRun(initial, run, events) && i < |run|
    requires (exists t :: t in run[i].admins && !run[i].admins[t].Closed?)
             || (exists t :: t in run[i].discovers && !run[i].discovers[t].Returned?)
    ensures Enabled(run[i], e) && !e.Post? && !e.Begin?
  {
    RunKeepsInv(initial, run, events, i);
    var s := run[i];
    if s.writer.Some? {
      var t := s.writer.value;
      e := if s.admins[t].Locked? then Clear(t) else if s.admins[t].Cleared? then Insert(t) else UnlockWrite(t);
    } else if t :| t in s.readers {
      e := if s.discovers[t].Reading? then Clone(t) else Return(t);
    } else if t :| t in s.admins && !s.admins[t].Closed? {
      e := LockWrite(t);
    } else {
      var t :| t in s.discovers && !s.discovers[t].Returned?;
      e := LockRead(t);
    }
  }

  // ---------- the shared state, updated in place ----------

  class UpstreamState {
    var upstreams: set<Backend>
    var writer: Option<Id>
    var readers: set<Id>
    var admins: map<Id, Admin>
    var discovers: map<Id, Discover>
    var history: seq<Backend>

    ghost function View(): State
      reads this
    {
      State(upstreams, writer, readers, admins, discovers, history)
    }

    /** The lock is exclusive, the set is the newest backend unless its writer has just cleared
        it, and every finished clone is one backend of the history. */
    ghost predicate Valid()
      reads this
    {
      Inv(View())
    }

    constructor (initial: Backend)
      ensures View() == Initial(initial) && Valid()
    {
      upstreams, writer, readers := {initial}, None, {};
      admins, discovers, history := map[], map[], [initial];
    }

    method Advance(e: Event)
      requires Valid() && Enabled(View(), e)
      modifies this
      ensures Valid() && View() == Step(old(View()), e)
      ensures writer.None? ==> history != [] && upstreams == {history[|history| - 1]}
      ensures forall t :: t in discovers && discovers[t].Returned? ==>
        0 <= discovers[t].floor <= discovers[t].seen < |history| && discovers[t].result == {history[discovers[t].seen]}
    {
      ghost var before := View();
      match e {
        case Post(t, b) => admins := admins[t := Waiting(b)];
        case LockWrite(t) =>
          writer := Some(t);
          admins := admins[t := Locked(admins[t].posted)];
        case Clear(t) =>
          upstreams := {};
          admins := admins[t := Cleared(admins[t].posted)];
        case Insert(t) =>
          var b := admins[t].posted;
          upstreams := upstreams + {b};
          admins := admins[t := Inserted(b, |history|)];
          history := history + [b];
        case Acknowledge(t) => admins := admins[t := Acknowledged(admins[t].posted, admins[t].at)];
        case UnlockWrite(t) =>
          writer := None;
          admins := admins[t := Closed];
        case Begin(t) => discovers := discovers[t := Asking(|history| - 1)];
        case LockRead(t) =>
          readers := readers + {t};
          discovers := discovers[t := Reading(discovers[t].floor)];
        case Clone(t) => discovers := discovers[t := Cloned(discovers[t].floor, upstreams, |history| - 1)];
        case Return(t) =>
          var d := discovers[t];
          readers := readers - {t};
          discovers := discovers[t := Returned(d.floor, d.result, d.seen)];
      }
      assert View() == Step(before, e);
      StepKeepsInv(before, e);
      InvMeans(View());
    }
  }
}
