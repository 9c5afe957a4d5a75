/**
 The batch-job loop under graceful shutdown.  The loop's own steps interleave with the
 shutdown watch; when a job finishes and the watch fires together either branch of the
 `select!` may win.  Losing the watch's sender resolves `changed()` as well.
 */
module GracefulShutdown {
  /** Where the loop stands. */
  datatype Point = Checking | Starting | Running | Draining | Pausing | Exited

  /** `completedAtSignal` records how many jobs had completed when the signal was raised. */
  datatype State = State(
    point: Point, jobId: nat, started: seq<nat>, completed: seq<nat>,
    signalled: bool, senderGone: bool, completedAtSignal: nat)

  datatype Event =
    | Check | StartJob | JobElapsed | NoticeChange | DrainElapsed | PauseElapsed  // the loop
    | Signal | SenderDropped                                                     // the watch

  const INITIAL := State(Checking, 0, [], [], false, false, 0)

  predicate Enabled(s: State, e: Event) {
    match e
    case Check => s.point.Checking?
    case StartJob => s.point.Starting?
    case JobElapsed => s.point.Running?
    case NoticeChange => s.point.Running? && (s.signalled || s.senderGone)
    case DrainElapsed => s.point.Draining?
    case PauseElapsed => s.point.Pausing?
    case Signal => !s.signalled && !s.senderGone
    case SenderDropped => !s.senderGone
  }

  function Step(s: State, e: Event): State
    requires Enabled(s, e)
  {
    match e
    case Check => s.(point := if s.signalled then Exited else Starting)
    case StartJob => s.(point := Running, jobId := s.jobId + 1, started := s.started + [s.jobId + 1])
    case JobElapsed => s.(point := Pausing, completed := s.completed + [s.jobId])
    case NoticeChange => s.(point := Draining)
    case DrainElapsed => s.(point := Exited, completed := s.completed + [s.jobId])
    case PauseElapsed => s.(point := Checking)
    case Signal => s.(signalled := true, completedAtSignal := |s.completed|)
    case SenderDropped => s.(senderGone := true)
  }

  /** The service's loop variables and its watch, updated in place. */
  class BatchJobService {
    var point: Point
    var jobId: nat
    var started: seq<nat>
    var completed: seq<nat>
    var signalled: bool
    var senderGone: bool
    var completedAtSignal: nat

    ghost function View(): State
      reads this
    {
      State(point, jobId, started, completed, signalled, senderGone, completedAtSignal)
    }

    /** Jobs are numbered without gaps, all but the one in progress have completed, at most one
        has completed since the signal, and the loop does not stop by itself. */
    ghost predicate Valid()
      reads this
    {
      Inv(View())
    }

    constructor ()
      ensures View() == INITIAL && Valid()
    {
      point, jobId, started, completed := Checking, 0, [], [];
      signalled, senderGone, completedAtSignal := false, false, 0;
    }

    method Advance(e: Event)
      requires Valid() && Enabled(View(), e)
      modifies this
      ensures Valid() && View() == Step(old(View()), e)
      ensures started == Upto(|started|) && completed <= started
      ensures point.Exited? ==> completed == started && (signalled || senderGone)
      ensures signalled ==> |completed| <= completedAtSignal + 1
    {
      ghost var before := View();
      match e {
        case Check =>
          if signalled {
            point := Exited;
          } else {
            point := Starting;
          }
        case StartJob =>
          jobId := jobId + 1;
          started := started + [jobId];
          point := Running;
        case JobElapsed =>
          completed := completed + [jobId];
          point := Pausing;
        case NoticeChange => point := Draining;
        case DrainElapsed =>
          completed := completed + [jobId];
          point := Exited;
        case PauseElapsed => point := Checking;
        case Signal => signalled, completedAtSignal := true, |completed|;
        case SenderDropped => senderGone := true;
      }
      assert View() == Step(before, e);
      StepKeepsInv(before, e);
      InvMeans(View());
    }
  }

  // ---------- runs ----------

  ghost predicate IsRun(run: seq<State>, events: seq<Event>) {
    && |run| == |events| + 1
    && run[0] == INITIAL
    && forall i :: 0 <= i < |events| ==> Enabled(run[i], events[i]) && run[i + 1] == Step(run[i], events[i])
  }

  function Upto(n: nat): seq<nat> {
    seq(n, i => i + 1)
  }

  /** 1 while a job is in progress. */
  function InProgress(p: Point): nat {
    if p.Running? || p.Draining? then 1 else 0
  }

  /** Loop steps left once the signal is up. */
  function StepsLeft(p: Point): nat {
    match p
    case Starting => 4
    case Running => 3
    case Pausing => 2
    case Checking => 1
    case Draining => 1
    case Exited => 0
  }

  ghost predicate Inv(s: State) {
    && s.started == Upto(s.jobId)
    && s.jobId >= InProgress(s.point)
    && s.completed == Upto(s.jobId - InProgress(s.point))
    && (s.signalled ==> s.completedAtSignal <= |s.completed| <= s.completedAtSignal + 1)
    && (s.signalled && s.point in {Starting, Running, Draining} ==> |s.completed| == s.completedAtSignal)
    && (s.point in {Draining, Exited} ==> s.signalled || s.senderGone)
  }

  lemma StepKeepsInv(s: State, e: Event)
    requires Inv(s) && Enabled(s, e)
    ensures Inv(Step(s, e))
  {
  }

  lemma InvMeans(s: State)
    requires Inv(s)
    ensures s.started == Upto(|s.started|) && s.completed <= s.started
    ensures s.point.Exited? ==> s.completed == s.started && (s.signalled || s.senderGone)
    ensures s.signalled ==> |s.completed| <= s.completedAtSignal + 1
  {
  }

  lemma {:induction false} RunKeepsInv(run: seq<State>, events: seq<Event>, i: nat)
    requires IsRun(run, events) && i < |run|
    ensures Inv(run[i])
  {
    if i > 0 {
      RunKeepsInv(run, events, i - 1);
      StepKeepsInv(run[i - 1], events[i - 1]);
    }
  }

  lemma {:induction false} SignalIsRemembered(run: seq<State>, events: seq<Event>, k: nat, i: nat)
    requires IsRun(run, events) && k < i < |run| && events[k].Signal?
    ensures run[i].signalled && run[i].completedAtSignal == |run[k].completed|
  {
    if k + 1 < i {
      SignalIsRemembered(run, events, k, i - 1);
    }
  }

  /** In every run: ids are 1, 2, .. without gaps, no job completes twice or out of order, a
      stopped loop has completed every job it started, and at most one job completes after
      the signal. */
  lemma NoJobIsLost(run: seq<State>, events: seq<Event>, i: nat)
    requires IsRun(run, events) && i < |run|
    ensures run[i].started == Upto(|run[i].started|)
    ensures run[i].completed <= run[i].started
    ensures run[i].point.Exited? ==> run[i].completed == run[i].started
    ensures forall k :: 0 <= k < i && events[k].Signal? ==> |run[i].completed| <= |run[k].completed| + 1
  {
    RunKeepsInv(run, events, i);
    InvMeans(run[i]);
    forall k | 0 <= k < i && events[k].Signal? ensures |run[i].completed| <= |run[k].completed| + 1 {
      SignalIsRemembered(run, events, k, i);
    }
  }

  predicate OwnStep(e: Event) {
    !e.Signal? && !e.SenderDropped?
  }

  function OwnSteps(events: seq<Event>): nat {
    if events == [] then 0
    else OwnSteps(events[..|events| - 1]) + if OwnStep(events[|events| - 1]) then 1 else 0
  }

  /** Until it has stopped, the loop always has a step of its own to take: with the bound below
      it does stop. */
  lemma LoopIsNeverStuck(s: State) returns (e: Event)
    requires !s.point.Exited?
    ensures OwnStep(e) && Enabled(s, e)
  {
    match s.point {
      case Checking => e := Check;
      case Starting => e := StartJob;
      case Running => e := JobElapsed;
      case Draining => e := DrainElapsed;
      case Pausing => e := PauseElapsed;
    }
  }

  /** Own steps since the last job completed, counting from its pause. */
  function StepsIntoJob(p: Point): int {
    match p
    case Pausing => -1
    case Checking => 0
    case Starting => 1
    case _ => 2
  }

  lemma {:induction false} WorkDone(run: seq<State>, events: seq<Event>, i: nat)
    requires IsRun(run, events) && i < |run| && !run[i].signalled && !run[i].senderGone
    ensures !run[i].point.Draining? && !run[i].point.Exited?
    ensures OwnSteps(events[..i]) == 4 * |run[i].completed| + StepsIntoJob(run[i].point)
    ensures |run[i].started| == |run[i].completed| + InProgress(run[i].point)
  {
    if i > 0 {
      WorkDone(run, events, i - 1);
      assert events[..i][..i - 1] == events[..i - 1];
    }
  }

  /** Without a signal, and while the watch has a sender, the loop never stops: it completes one
      job with every four of its own steps, whatever else happens in between. */
  lemma UndisturbedLoopKeepsWorking(run: seq<State>, events: seq<Event>, i: nat)
    requires IsRun(run, events) && i < |run| && !run[i].signalled && !run[i].senderGone
    ensures run[i].point == [Checking, Starting, Running, Pausing][OwnSteps(events[..i]) % 4]
    ensures |run[i].completed| == (OwnSteps(events[..i]) + 1) / 4
    ensures |run[i].started| == (OwnSteps(events[..i]) + 2) / 4
  {
    WorkDone(run, events, i);
  }

  /** A loop that is draining or has stopped was told to, or lost its watch. */
  lemma LoopStopsForAReason(run: seq<State>, events: seq<Event>, i: nat)
    requires IsRun(run, events) && i < |run| && (run[i].point.Draining? || run[i].point.Exited?)
    ensures exists k :: 0 <= k < i && (events[k].Signal? || events[k].SenderDropped?)
  {
    RunKeepsInv(run, events, i);
    FlagsHaveEvents(run, events, i);
  }

  lemma {:induction false} FlagsHaveEvents(run: seq<State>, events: seq<Event>, i: nat)
    requires IsRun(run, events) && i < |run|
    ensures run[i].signalled <==> exists k :: 0 <= k < i && events[k].Signal?
    ensures run[i].senderGone <==> exists k :: 0 <= k < i && events[k].SenderDropped?
  {
    if i > 0 {
      FlagsHaveEvents(run, events, i - 1);
    }
  }

  /** The watch can cut into a running job exactly when it has something to tell, and the job
      is then still completed before the loop stops. */
  lemma NoticedJobIsFinished(s: State)
    requires s.point.Running?
    ensures Enabled(s, NoticeChange) <==> s.signalled || s.senderGone
    ensures Enabled(s, NoticeChange) ==>
      && Enabled(Step(s, NoticeChange), DrainElapsed)
      && Step(Step(s, NoticeChange), DrainElapsed) == s.(point := Exited, completed := s.completed + [s.jobId])
  {
  }

  /** Once the signal is up the loop takes at most four more steps of its own. */
  lemma {:induction false} SignalEndsTheLoop(run: seq<State>, events: seq<Event>, i: nat, j: nat)
    requires IsRun(run, events) && i <= j < |run| && run[i].signalled
    ensures run[j].signalled
    ensures OwnSteps(events[i..j]) + StepsLeft(run[j].point) <= StepsLeft(run[i].point) <= 4
    ensures OwnSteps(events[i..j]) == 4 ==> run[j].point.Exited?
  {
    if i < j {
      SignalEndsTheLoop(run, events, i, j - 1);
      assert events[i..j][..j - 1 - i] == events[i..j - 1];
      assert events[i..j][j - 1 - i] == events[j - 1];
    }
  }
}
