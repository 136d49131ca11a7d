/** Rejected cameras that nobody wants any more: when a mark can outlive the last
    worker, so that the early return of the reconcile pass keeps it. */
module SupervisorMarks {
  import opened Common
  import opened Supervisor
  import opened SupervisorProtocol
  import C = Capacity

  /** Nothing runs, and a camera is marked rejected. */
  predicate Stale(f: Fleet) {
    f.workers == map[] && f.rejected != {}
  }

  /** No start fails, no pass is abandoned, and passes start from the true difference. */
  ghost predicate Smooth(s: State, a: Action) {
    && (a.ColdStart? || a.StartOne? || a.RestartOne? ==> a.outcome == Started)
    && !a.Abandon?
    && (a.Begin? ==> WellKeyed(a.desired) && IsDiff(a.diff, Signatures(s.fleet.workers), a.desired))
  }

  /** Whatever is rejected while nothing runs is still to be started by the pass
      under way, if it is wanted. */
  ghost predicate MarksPending(f: Fleet, rec: Reconciling) {
    match rec
    case NotStarted => !Stale(f)
    case Resting => !Stale(f)
    case Stopping(_, _, toStart, desired) =>
      && (forall id :: id in toStart ==> id in desired)
      && (forall id :: id in f.rejected && id in desired ==> id in toStart)
    case Starting(toStart, desired) =>
      && (forall id :: id in toStart ==> id in desired)
      && (f.workers == map[] ==> forall id :: id in f.rejected ==> id in toStart)
  }

  /** The reconcile task exists once the cold start is over, and not before. */
  predicate ColdFirst(s: State) {
    s.check.ColdStarting? ==> s.rec.NotStarted?
  }

  lemma StartMarks(f: Fleet, c: CameraConfig, hardCeiling: int)
    requires hardCeiling >= 1
    ensures Start(f, c, hardCeiling, Started).workers != map[]
  {
    var f' := Start(f, c, hardCeiling, Started);
    if c.id !in f.workers && |f.workers| < hardCeiling {
      assert c.id in f'.workers;
    }
  }

  lemma ColdStartMarks(s: State, a: Action)
    requires Inv(s) && ColdFirst(s) && MarksPending(s.fleet, s.rec) && a == ColdStart(Started)
    ensures var s' := Step(s, a); ColdFirst(s') && MarksPending(s'.fleet, s'.rec)
  {
    hide Start;
    if s.check.ColdStarting? && s.check.todo != [] {
      StartMarks(s.fleet, s.check.todo[0], HardCeiling(s));
    }
  }

  lemma BeginMarks(s: State, a: Action)
    requires Inv(s) && ColdFirst(s) && MarksPending(s.fleet, s.rec) && a.Begin? && Smooth(s, a)
    ensures var s' := Step(s, a); ColdFirst(s') && MarksPending(s'.fleet, s'.rec)
  {
    hide Lists, Keys, Distinct, IsDiff;
    StartList(a.diff, Signatures(s.fleet.workers), a.desired);
  }

  lemma StopMarks(s: State, a: Action)
    requires Inv(s) && ColdFirst(s) && MarksPending(s.fleet, s.rec) && (a.StopOne? || a.UpdateAll?)
    ensures var s' := Step(s, a); ColdFirst(s') && MarksPending(s'.fleet, s'.rec)
  {
    hide Updated;
  }

  lemma StartOneMarks(s: State, a: Action)
    requires Inv(s) && ColdFirst(s) && MarksPending(s.fleet, s.rec) && a == StartOne(Started)
    ensures var s' := Step(s, a); ColdFirst(s') && MarksPending(s'.fleet, s'.rec)
  {
    hide Start;
    if s.rec.Starting? && s.rec.toStart != [] {
      assert s.rec.toStart[0] in s.rec.toStart;
      StartMarks(s.fleet, s.rec.desired[s.rec.toStart[0]], HardCeiling(s));
    }
  }

  lemma RestartMarks(s: State, a: Action)
    requires Inv(s) && ColdFirst(s) && MarksPending(s.fleet, s.rec) && a == RestartOne(Started)
    ensures var s' := Step(s, a); ColdFirst(s') && MarksPending(s'.fleet, s'.rec)
  {
    hide Start, Popped;
    if s.check.Restarting? && s.check.dead != [] && s.check.dead[0] in s.fleet.workers {
      RestartNeverRefused(s, Started);
      assert s.check.dead[0] in Step(s, a).fleet.workers;
    }
  }

  lemma OtherMarks(s: State, a: Action)
    requires Inv(s) && ColdFirst(s) && MarksPending(s.fleet, s.rec) && (a.Die? || a.Check?)
    ensures var s' := Step(s, a); ColdFirst(s') && MarksPending(s'.fleet, s'.rec)
  {
    if a.Die? && a.id in s.fleet.workers {
      assert a.id in Step(s, a).fleet.workers;
    }
  }

  lemma StepMarks(s: State, a: Action)
    requires Inv(s) && ColdFirst(s) && MarksPending(s.fleet, s.rec) && Smooth(s, a)
    ensures var s' := Step(s, a); Inv(s') && ColdFirst(s') && MarksPending(s'.fleet, s'.rec)
  {
    hide Step, Inv, ColdFirst, MarksPending, IsDiff;
    StepInv(s, a);
    match a {
      case ColdStart(_) => ColdStartMarks(s, a);
      case Begin(_, _) => BeginMarks(s, a);
      case StopOne => StopMarks(s, a);
      case UpdateAll => StopMarks(s, a);
      case StartOne(_) => StartOneMarks(s, a);
      case RestartOne(_) => RestartMarks(s, a);
      case _ => OtherMarks(s, a);
    }
  }

  ghost predicate SmoothRun(s: State, acts: seq<Action>) {
    acts == [] ||
    (SmoothRun(s, acts[..|acts| - 1]) && Smooth(Run(s, acts[..|acts| - 1]), acts[|acts| - 1]))
  }

  lemma {:induction false} RunMarks(s: State, acts: seq<Action>)
    requires Inv(s) && ColdFirst(s) && MarksPending(s.fleet, s.rec) && SmoothRun(s, acts)
    ensures var s' := Run(s, acts); Inv(s') && ColdFirst(s') && MarksPending(s'.fleet, s'.rec)
  {
    hide Step, Inv, ColdFirst, MarksPending, Smooth;
    if acts != [] {
      RunMarks(s, acts[..|acts| - 1]);
      StepMarks(Run(s, acts[..|acts| - 1]), acts[|acts| - 1]);
    }
  }

  /** While no start fails and no pass is abandoned, a pass never begins with nothing
      running and a camera marked rejected: the early return is then harmless. */
  lemma NeverStaleWhileStartsSucceed(maxCameras: int, cores: int, availableMb: Option<int>,
                                     assignments: seq<Assignment>, acts: seq<Action>)
    requires maxCameras >= 1 && SmoothRun(Startup(maxCameras, cores, availableMb, assignments), acts)
    ensures var s := Run(Startup(maxCameras, cores, availableMb, assignments), acts); s.rec.Resting? ==> !Stale(s.fleet)
  {
    hide Run, Inv, SmoothRun;
    var s0 := Startup(maxCameras, cores, availableMb, assignments);
    StartupInv(maxCameras, cores, availableMb, assignments);
    RunMarks(s0, acts);
  }

  // ---- A failed start does leave such a mark ----

  const A: CameraId := CameraId(1)
  const B: CameraId := CameraId(2)

  function Cfg(id: CameraId): CameraConfig {
    CameraConfig(id, Signature("rtsp_pull", None, None, 1.0, 5.0), "")
  }

  const ONLY_B: Desired := map[B := Cfg(B)]
  const SWAP: Diff := Diff([B], [A], [], [])

  const SWAPPING: seq<Action> :=
    [ColdStart(Started), ColdStart(Started), ColdStart(Started), Begin(SWAP, ONLY_B), StopOne, UpdateAll,
     StartOne(Failed), StartOne(Started)]

  /** The states of a box with room for one camera that is to swap A for B, when B
      fails to start. */
  function Swapped(s0: State, n: nat): State {
    var a := map[A := CameraWorker(Cfg(A), true)];
    var up := s0.(fleet := Fleet(a, {B}), check := Waiting, rec := Resting);
    var down := up.(fleet := Fleet(map[], {B}));
    match n
    case 0 => s0
    case 1 => s0.(fleet := Fleet(a, {}), check := ColdStarting([Cfg(B)]))
    case 2 => s0.(fleet := Fleet(a, {B}), check := ColdStarting([]))
    case 3 => up
    case 4 => up.(rec := Stopping([A], [], [B], ONLY_B))
    case 5 => down.(rec := Stopping([], [], [B], ONLY_B))
    case 6 => down.(rec := Starting([B], ONLY_B))
    case 7 => down.(rec := Starting([], ONLY_B))
    case _ => down
  }

  ghost predicate Fresh(s0: State) {
    && s0.fleet == Fleet(map[], {}) && s0.rec == NotStarted && s0.check == ColdStarting([Cfg(A), Cfg(B)])
    && HardCeiling(s0) == 1
  }

  lemma ColdStarts(s0: State)
    requires Fresh(s0)
    ensures Step(s0, ColdStart(Started)) == Swapped(s0, 1)
    ensures Step(Swapped(s0, 1), ColdStart(Started)) == Swapped(s0, 2)
    ensures Step(Swapped(s0, 2), ColdStart(Started)) == Swapped(s0, 3)
  {
    var todo, rest := [Cfg(A), Cfg(B)], [Cfg(B)];
    assert todo[0] == Cfg(A) && todo[1..] == rest && rest[0] == Cfg(B) && rest[1..] == [];
    assert {} + {B} == {B};
  }

  lemma PassBegins(s0: State)
    requires Fresh(s0)
    ensures Step(Swapped(s0, 3), Begin(SWAP, ONLY_B)) == Swapped(s0, 4)
    ensures Step(Swapped(s0, 4), StopOne) == Swapped(s0, 5)
  {
    assert SWAP.toStop + SWAP.toRestart == [A] && SWAP.toStart + SWAP.toRestart == [B];
    var toStop := [A];
    assert toStop[0] == A && toStop[1..] == [];
    var a := map[A := CameraWorker(Cfg(A), true)];
    assert a - {A} == map[];
  }

  lemma PassFails(s0: State)
    requires Fresh(s0)
    ensures Step(Swapped(s0, 5), UpdateAll) == Swapped(s0, 6)
    ensures Step(Swapped(s0, 6), StartOne(Failed)) == Swapped(s0, 7)
    ensures Step(Swapped(s0, 7), StartOne(Started)) == Swapped(s0, 8)
  {
    assert Updated(map[], [], ONLY_B) == map[];
    assert {B} * ONLY_B.Keys == {B};
    var toStart := [B];
    assert toStart[0] == B && toStart[1..] == [];
  }

  lemma TwoParsed()
    ensures Parsed([Some(Cfg(A)), Some(Cfg(B))]) == Some([Cfg(A), Cfg(B)])
  {
    var one: seq<Assignment> := [Some(Cfg(A))];
    var two: seq<Assignment> := [Some(Cfg(A)), Some(Cfg(B))];
    assert one[..0] == [] && [] + [Cfg(A)] == [Cfg(A)];
    assert Parsed(one) == Some([Cfg(A)]);
    assert two[..1] == one && two[1] == Some(Cfg(B)) && [Cfg(A)] + [Cfg(B)] == [Cfg(A), Cfg(B)];
  }

  /** A box with room for one camera runs A and has rejected B; B is wanted instead
      of A, A is stopped, and B fails to start.  If then nothing is wanted any more,
      the pass returns early and B stays marked rejected. */
  lemma StaleMarkReached(cores: int, availableMb: Option<int>, outcomes: CameraId -> Outcome)
    ensures var s := Run(Startup(1, cores, availableMb, [Some(Cfg(A)), Some(Cfg(B))]), SWAPPING);
      && s.rec.Resting? && Stale(s.fleet)
      && (forall d :: IsDiff(d, Signatures(s.fleet.workers), map[]) ==>
            Nothing(d) && Pass(d, s.fleet, map[], 1, outcomes) == Attempt(s.fleet, false))
  {
    hide Run, Step, Swapped, Pass, IsDiff;
    var s0 := Startup(1, cores, availableMb, [Some(Cfg(A)), Some(Cfg(B))]);
    TwoParsed();
    ColdStarts(s0);
    PassBegins(s0);
    PassFails(s0);
    SwapEnds(s0);
    PathRuns((n: nat) => Swapped(s0, n), SWAPPING);
    forall d | IsDiff(d, Signatures(map[]), map[])
      ensures Nothing(d) && Pass(d, Swapped(s0, 8).fleet, map[], 1, outcomes) == Attempt(Swapped(s0, 8).fleet, false)
    {
      EmptyDiff(d, Swapped(s0, 8).fleet, outcomes);
    }
  }

  lemma SwapEnds(s0: State)
    ensures Swapped(s0, 0) == s0
    ensures Swapped(s0, 8).rec.Resting? && Swapped(s0, 8).fleet == Fleet(map[], {B}) && Stale(Swapped(s0, 8).fleet)
  {
  }

  lemma EmptyDiff(d: Diff, f: Fleet, outcomes: CameraId -> Outcome)
    requires IsDiff(d, Signatures(map[]), map[])
    ensures Nothing(d) && Pass(d, f, map[], 1, outcomes) == Attempt(f, false)
  {
    if !Nothing(d) {
      SomethingMeans(d, Fleet(map[], {}), map[]);
    }
  }
}
