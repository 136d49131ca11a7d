/** The supervisor's tasks interleaved at their suspension points: cold start, the
    reconcile pass, and the health check that revises capacity and restarts dead
    workers after its heartbeat. */
module SupervisorProtocol {
  import opened Common
  import opened Supervisor
  import C = Capacity

  /** The reconcile task: not yet created, between passes, stopping one worker after
      another, or starting one after another. */
  datatype Reconciling =
    | NotStarted
    | Resting
    | Stopping(toStop: seq<CameraId>, toUpdate: seq<CameraId>, toStart: seq<CameraId>, desired: Desired)
    | Starting(toStart: seq<CameraId>, desired: Desired)

  /** The main task: the cold start; then between health checks, or past the
      heartbeat of one with the workers it found dead.  An exception ends it. */
  datatype Checking =
    | ColdStarting(todo: seq<CameraConfig>)
    | Waiting
    | Restarting(dead: seq<CameraId>)
    | Ended

  /** `leaked` counts live workers that a restart took out of the fleet, to replace
      them, without stopping them. */
  datatype State = State(fleet: Fleet, load: C.Load, maxCameras: int, rec: Reconciling, check: Checking, leaked: nat)

  datatype Action =
    | ColdStart(outcome: Outcome)           // the next camera of the cold start, or its end
    | Begin(diff: Diff, desired: Desired)   // a pass has computed its difference
    | StopOne
    | UpdateAll
    | StartOne(outcome: Outcome)
    | Abandon                               // stopping a worker raises: the pass ends early
    | Die(id: CameraId)                     // a worker's task ends
    | Check(round: C.Round, dead: seq<CameraId>) // a health check, up to its heartbeat
    | RestartOne(outcome: Outcome)

  function HardCeiling(s: State): int {
    C.Max(s.load.capacity, s.maxCameras)
  }

  /** The configurations of the cold start; one assignment that does not parse fails
      them all. */
  function Parsed(assignments: seq<Assignment>): Option<seq<CameraConfig>> {
    if assignments == [] then Some([])
    else
      var before, a := Parsed(assignments[..|assignments| - 1]), assignments[|assignments| - 1];
      if before.None? || a.None? then None else Some(before.value + [a.value])
  }

  function Startup(maxCameras: int, cores: int, availableMb: Option<int>, assignments: seq<Assignment>): State {
    State(Fleet(map[], {}), C.Load(maxCameras, C.DeclaredCapacity(cores, availableMb, maxCameras), C.Declared, 0, 0),
          maxCameras, NotStarted,
          if Parsed(assignments).None? then Ended else ColdStarting(Parsed(assignments).value), 0)
  }

  function Step(s: State, a: Action): State {
    match a
    case ColdStart(o) =>
      if !s.check.ColdStarting? then s
      else if s.check.todo == [] then s.(check := Waiting, rec := Resting)
      else
        var c := s.check.todo[0];
        s.(fleet := Start(s.fleet, c, HardCeiling(s), o),
           check := if Raises(s.fleet, c, HardCeiling(s), o) then Ended else ColdStarting(s.check.todo[1..]))
    case Begin(d, desired) =>
      if s.rec.Resting? && !Nothing(d) then
        s.(rec := Stopping(d.toStop + d.toRestart, d.toUpdate, d.toStart + d.toRestart, desired))
      else s
    case StopOne =>
      if s.rec.Stopping? && s.rec.toStop != [] then
        s.(fleet := Popped(s.fleet, s.rec.toStop[0]), rec := s.rec.(toStop := s.rec.toStop[1..]))
      else s
    case UpdateAll =>
      if s.rec.Stopping? && s.rec.toStop == [] then
        s.(fleet := Fleet(Updated(s.fleet.workers, s.rec.toUpdate, s.rec.desired),
                          s.fleet.rejected * s.rec.desired.Keys),
           rec := Starting(s.rec.toStart, s.rec.desired))
      else s
    case StartOne(o) =>
      if !s.rec.Starting? then s
      else if s.rec.toStart == [] || s.rec.toStart[0] !in s.rec.desired then s.(rec := Resting)
      else
        var c := s.rec.desired[s.rec.toStart[0]];
        s.(fleet := Start(s.fleet, c, HardCeiling(s), o),
           rec := if Raises(s.fleet, c, HardCeiling(s), o) then Resting
                  else Starting(s.rec.toStart[1..], s.rec.desired))
    case Abandon => if s.rec.NotStarted? then s else s.(rec := Resting)
    case Die(id) =>
      if id in s.fleet.workers then
        s.(fleet := s.fleet.(workers := s.fleet.workers[id := s.fleet.workers[id].(alive := false)]))
      else s
    case Check(round, dead) =>
      if s.check.Waiting? then s.(load := C.Observed(s.load, round), check := Restarting(dead)) else s
    case RestartOne(o) =>
      if !s.check.Restarting? then s
      else if s.check.dead == [] then s.(check := Waiting)
      else if s.check.dead[0] !in s.fleet.workers then s.(check := Ended)
      else
        var id := s.check.dead[0];
        var w, popped := s.fleet.workers[id], Popped(s.fleet, id);
        s.(fleet := Start(popped, w.config, HardCeiling(s), o),
           check := if Raises(popped, w.config, HardCeiling(s), o) then Ended else Restarting(s.check.dead[1..]),
           leaked := if w.alive then s.leaked + 1 else s.leaked)
  }

  /** The fleet after `self.workers.pop(camera_id)`. */
  function Popped(f: Fleet, id: CameraId): Fleet {
    f.(workers := f.workers - {id})
  }

  /** Workers are filed under their own camera. */
  ghost predicate Filed(w: Workers) {
    forall id :: id in w ==> w[id].config.id == id
  }

  ghost predicate Inv(s: State) {
    && C.Sound(s.load) && s.load.ceiling == s.maxCameras
    && |s.fleet.workers| <= s.maxCameras
    && s.fleet.workers.Keys !! s.fleet.rejected
    && Filed(s.fleet.workers)
    && (s.rec.Stopping? || s.rec.Starting? ==> WellKeyed(s.rec.desired))
  }

  /** What a caller of `Begin` hands over comes from a dictionary keyed by id. */
  ghost predicate Proper(a: Action) {
    a.Begin? ==> WellKeyed(a.desired)
  }

  /** The measured capacity never exceeds the operator's ceiling, so the ceiling is
      the admission limit. */
  lemma CeilingIsLimit(s: State)
    requires Inv(s)
    ensures HardCeiling(s) == s.maxCameras
  {
  }

  lemma StartInv(f: Fleet, c: CameraConfig, limit: int, o: Outcome)
    requires |f.workers| <= limit && f.workers.Keys !! f.rejected && Filed(f.workers)
    ensures var f' := Start(f, c, limit, o);
      |f'.workers| <= limit && f'.workers.Keys !! f'.rejected && Filed(f'.workers)
  {
  }

  lemma PopInv(f: Fleet, id: CameraId)
    requires f.workers.Keys !! f.rejected && Filed(f.workers)
    ensures var f' := Popped(f, id);
      && |f'.workers| == (if id in f.workers then |f.workers| - 1 else |f.workers|)
      && f'.workers.Keys !! f'.rejected && Filed(f'.workers) && id !in f'.workers
  {
    var f' := Popped(f, id);
    if id in f.workers {
      assert f'.workers.Keys == f.workers.Keys - {id};
    } else {
      assert f'.workers == f.workers;
    }
  }

  lemma UpdateInv(f: Fleet, ids: seq<CameraId>, desired: Desired)
    requires f.workers.Keys !! f.rejected && Filed(f.workers) && WellKeyed(desired)
    ensures var f' := Fleet(Updated(f.workers, ids, desired), f.rejected * desired.Keys);
      |f'.workers| == |f.workers| && f'.workers.Keys !! f'.rejected && Filed(f'.workers)
  {
    assert Updated(f.workers, ids, desired).Keys == f.workers.Keys;
  }

  lemma StepInv(s: State, a: Action)
    requires Inv(s) && Proper(a)
    ensures Inv(Step(s, a)) && Step(s, a).maxCameras == s.maxCameras
  {
    hide Start, Updated, Popped, Filed, C.Observed, C.Sound;
    CeilingIsLimit(s);
    match a {
      case ColdStart(o) =>
        if s.check.ColdStarting? && s.check.todo != [] {
          StartInv(s.fleet, s.check.todo[0], s.maxCameras, o);
        }
      case StopOne =>
        if s.rec.Stopping? && s.rec.toStop != [] {
          PopInv(s.fleet, s.rec.toStop[0]);
        }
      case UpdateAll =>
        if s.rec.Stopping? {
          UpdateInv(s.fleet, s.rec.toUpdate, s.rec.desired);
        }
      case StartOne(o) =>
        if s.rec.Starting? && s.rec.toStart != [] && s.rec.toStart[0] in s.rec.desired {
          StartInv(s.fleet, s.rec.desired[s.rec.toStart[0]], s.maxCameras, o);
        }
      case Die(id) =>
        if id in s.fleet.workers {
          DieInv(s.fleet, id);
        }
      case Check(round, dead) => C.ObservedSound(s.load, round);
      case RestartOne(o) =>
        if s.check.Restarting? && s.check.dead != [] && s.check.dead[0] in s.fleet.workers {
          PopInv(s.fleet, s.check.dead[0]);
          StartInv(Popped(s.fleet, s.check.dead[0]), s.fleet.workers[s.check.dead[0]].config, s.maxCameras, o);
        }
      case _ =>
    }
  }

  lemma DieInv(f: Fleet, id: CameraId)
    requires id in f.workers && f.workers.Keys !! f.rejected && Filed(f.workers)
    ensures var w := f.workers[id := f.workers[id].(alive := false)];
      |w| == |f.workers| && w.Keys !! f.rejected && Filed(w)
  {
    assert f.workers[id := f.workers[id].(alive := false)].Keys == f.workers.Keys;
  }

  // ---- Whole runs ----

  function Run(s: State, acts: seq<Action>): State {
    if acts == [] then s else Step(Run(s, acts[..|acts| - 1]), acts[|acts| - 1])
  }

  lemma RunNone(s: State)
    ensures Run(s, []) == s
  {
  }

  lemma RunOne(s: State, a: Action)
    ensures Run(s, [a]) == Step(s, a)
  {
    hide Step;
    assert [a][..0] == [];
  }

  lemma {:induction false} RunConcat(s: State, a: seq<Action>, b: seq<Action>)
    ensures Run(s, a + b) == Run(Run(s, a), b)
  {
    hide Step;
    if b == [] {
      assert a + b == a;
    } else {
      RunConcat(s, a, b[..|b| - 1]);
      assert (a + b)[..|a + b| - 1] == a + b[..|b| - 1];
    }
  }

  lemma {:induction false} RunInv(s: State, acts: seq<Action>)
    requires Inv(s) && forall i :: 0 <= i < |acts| ==> Proper(acts[i])
    ensures Inv(Run(s, acts)) && Run(s, acts).maxCameras == s.maxCameras
  {
    hide Step, Inv, Proper;
    if acts != [] {
      RunInv(s, acts[..|acts| - 1]);
      StepInv(Run(s, acts[..|acts| - 1]), acts[|acts| - 1]);
    }
  }

  lemma StartupInv(maxCameras: int, cores: int, availableMb: Option<int>, assignments: seq<Assignment>)
    requires maxCameras >= 1
    ensures Inv(Startup(maxCameras, cores, availableMb, assignments))
  {
  }

  /** In every interleaving: the admission limit is the operator's ceiling, no more
      cameras run than it allows, and no camera is both running and rejected. */
  lemma AdmissionHolds(maxCameras: int, cores: int, availableMb: Option<int>, assignments: seq<Assignment>,
                       acts: seq<Action>)
    requires maxCameras >= 1 && forall i :: 0 <= i < |acts| ==> Proper(acts[i])
    ensures var s := Run(Startup(maxCameras, cores, availableMb, assignments), acts);
      && 1 <= s.load.capacity <= maxCameras && HardCeiling(s) == maxCameras
      && |s.fleet.workers| <= maxCameras
      && s.fleet.workers.Keys !! s.fleet.rejected
  {
    hide Run, Startup;
    var s0 := Startup(maxCameras, cores, availableMb, assignments);
    StartupInv(maxCameras, cores, availableMb, assignments);
    assert s0.maxCameras == maxCameras by { StartupCeiling(maxCameras, cores, availableMb, assignments); }
    RunInv(s0, acts);
    CeilingIsLimit(Run(s0, acts));
  }

  lemma StartupCeiling(maxCameras: int, cores: int, availableMb: Option<int>, assignments: seq<Assignment>)
    ensures Startup(maxCameras, cores, availableMb, assignments).maxCameras == maxCameras
  {
  }

  /** Restarting a worker is never refused: its own slot has just become free. */
  lemma RestartNeverRefused(s: State, o: Outcome)
    requires Inv(s) && s.check.Restarting? && s.check.dead != [] && s.check.dead[0] in s.fleet.workers
    ensures var id := s.check.dead[0]; var s' := Step(s, RestartOne(o));
      && s'.fleet.rejected == s.fleet.rejected && id !in s'.fleet.rejected
      && (if o == Started then
            id in s'.fleet.workers && s'.fleet.workers[id] == CameraWorker(s.fleet.workers[id].config, true) &&
            s'.fleet.workers.Keys == s.fleet.workers.Keys
          else s'.fleet == Popped(s.fleet, id))
      && (s'.check.Ended? <==> o == Raised)
  {
    CeilingIsLimit(s);
    PopInv(s.fleet, s.check.dead[0]);
    assert s.fleet.rejected - {s.check.dead[0]} == s.fleet.rejected;
  }

  // ---- When the main task ends ----

  /** An exception leaves the main task: while the next camera of the cold start is
      built; or past a heartbeat, because a flagged camera is no longer there, or its
      worker cannot be built again. */
  predicate EndsMain(s: State, a: Action) {
    || (s.check.ColdStarting? && a == ColdStart(Raised) && s.check.todo != [] &&
        s.check.todo[0].id !in s.fleet.workers && |s.fleet.workers| < s.maxCameras)
    || (s.check.Restarting? && a.RestartOne? && s.check.dead != [] &&
        (s.check.dead[0] !in s.fleet.workers || a.outcome == Raised))
  }

  lemma MainEndsExactly(s: State, a: Action)
    requires Inv(s)
    ensures Step(s, a).check.Ended? <==> s.check.Ended? || EndsMain(s, a)
  {
    CeilingIsLimit(s);
    if s.check.Restarting? && a.RestartOne? && s.check.dead != [] && s.check.dead[0] in s.fleet.workers {
      RestartNeverRefused(s, a.outcome);
    }
  }

  /** What is left once the main task has ended. */
  ghost predicate Unattended(s: State, s': State) {
    && s'.check.Ended? && s'.load == s.load && s'.leaked == s.leaked
    && (s.rec.NotStarted? ==>
          s'.rec.NotStarted? && s'.fleet.rejected == s.fleet.rejected && s'.fleet.workers.Keys == s.fleet.workers.Keys)
  }

  /** From then on nothing is measured and no dead worker is restarted by a health
      check, in any run; and if it ended during the cold start, no pass ever runs, so
      the cameras stay as they are. */
  lemma {:induction false} EndedForGood(s: State, acts: seq<Action>)
    requires s.check.Ended?
    ensures Unattended(s, Run(s, acts))
  {
    if acts != [] {
      EndedForGood(s, acts[..|acts| - 1]);
    }
  }

  lemma {:induction false} ParsedExactly(assignments: seq<Assignment>)
    ensures Parsed(assignments).None? <==> None in assignments
  {
    if assignments != [] {
      var front, last := assignments[..|assignments| - 1], assignments[|assignments| - 1];
      ParsedExactly(front);
      assert assignments == front + [last];
    }
  }

  /** One assignment that does not parse at the cold start, which a later pass would
      skip, and no camera ever runs. */
  lemma MalformedColdStart(maxCameras: int, cores: int, availableMb: Option<int>, assignments: seq<Assignment>,
                           acts: seq<Action>)
    requires None in assignments
    ensures Run(Startup(maxCameras, cores, availableMb, assignments), acts).fleet.workers == map[]
  {
    hide Run;
    var s := Startup(maxCameras, cores, availableMb, assignments);
    ParsedExactly(assignments);
    EndedForGood(s, acts);
    assert Run(s, acts).fleet.workers.Keys == {};
  }

  // ---- Who is restarted ----

  /** The health check flags workers it finds dead, each once. */
  ghost predicate FlagsDead(s: State, a: Action) {
    a.Check? ==> Distinct(a.dead) && forall i :: 0 <= i < |a.dead| ==>
      a.dead[i] in s.fleet.workers ==> !s.fleet.workers[a.dead[i]].alive
  }

  /** Every flagged camera that still has a worker has a dead one. */
  ghost predicate StillDead(s: State) {
    s.check.Restarting? ==> Distinct(s.check.dead) && forall i :: 0 <= i < |s.check.dead| ==>
      s.check.dead[i] in s.fleet.workers ==> !s.fleet.workers[s.check.dead[i]].alive
  }

  /** The reconcile task starts a camera that is missing and flagged, and there is
      room for it. */
  predicate StartsFlagged(s: State, a: Action) {
    && s.check.Restarting? && s.rec.Starting? && a == StartOne(Started)
    && s.rec.toStart != [] && s.rec.toStart[0] in s.rec.desired
    && s.rec.toStart[0] in s.check.dead && s.rec.toStart[0] !in s.fleet.workers
    && |s.fleet.workers| < s.maxCameras
  }

  /** The step itself replaces only a dead worker, and what a health check has flagged
      stays dead, unless the reconcile task starts a flagged camera: exactly such a
      start ends the guarantee. */
  lemma RestartsOnlyDead(s: State, a: Action)
    requires Inv(s) && StillDead(s) && FlagsDead(s, a)
    ensures Step(s, a).leaked == s.leaked
    ensures StillDead(Step(s, a)) <==> !StartsFlagged(s, a)
  {
    CeilingIsLimit(s);
    if a.RestartOne? {
      RestartKeepsDead(s, a.outcome);
    } else if StartsFlagged(s, a) {
      FlaggedStarts(s, a);
    } else {
      OthersKeepDead(s, a);
    }
  }

  /** The flagged camera is alive after such a start. */
  lemma FlaggedStarts(s: State, a: Action)
    requires Inv(s) && StartsFlagged(s, a)
    ensures var id := s.rec.toStart[0]; var s' := Step(s, a);
      && s'.check == s.check && s'.leaked == s.leaked && s'.maxCameras == s.maxCameras
      && s'.fleet.workers == s.fleet.workers[id := CameraWorker(s.rec.desired[id], true)]
      && !StillDead(s')
  {
    CeilingIsLimit(s);
    var i :| 0 <= i < |s.check.dead| && s.check.dead[i] == s.rec.toStart[0];
    assert Step(s, a).fleet.workers[s.check.dead[i]].alive;
  }

  lemma RestartKeepsDead(s: State, o: Outcome)
    requires Inv(s) && StillDead(s)
    ensures StillDead(Step(s, RestartOne(o))) && Step(s, RestartOne(o)).leaked == s.leaked
  {
    if s.check.Restarting? && s.check.dead != [] {
      assert forall i :: 0 <= i < |s.check.dead[1..]| ==> s.check.dead[1..][i] == s.check.dead[i + 1];
    }
  }

  /** Steps other than a restart leave a camera's liveness alone, kill it, or start it. */
  lemma Liveness(s: State, a: Action, id: CameraId)
    requires Inv(s) && s.check.Restarting? && !a.RestartOne? && id in Step(s, a).fleet.workers
    ensures id in s.fleet.workers && !s.fleet.workers[id].alive ==> !Step(s, a).fleet.workers[id].alive
    ensures id !in s.fleet.workers && id in s.check.dead ==> StartsFlagged(s, a)
  {
    CeilingIsLimit(s);
  }

  lemma OthersKeepDead(s: State, a: Action)
    requires Inv(s) && StillDead(s) && FlagsDead(s, a) && !a.RestartOne? && !StartsFlagged(s, a)
    ensures StillDead(Step(s, a)) && Step(s, a).leaked == s.leaked
  {
    hide Step, Inv, StartsFlagged;
    CheckChange(s, a);
    var s' := Step(s, a);
    if s.check.Restarting? && s'.check.Restarting? {
      forall i | 0 <= i < |s'.check.dead| && s'.check.dead[i] in s'.fleet.workers
        ensures !s'.fleet.workers[s'.check.dead[i]].alive
      {
        assert s'.check.dead[i] in s.check.dead;
        Liveness(s, a, s'.check.dead[i]);
      }
    }
  }

  lemma CheckChange(s: State, a: Action)
    requires Inv(s) && !a.RestartOne?
    ensures Step(s, a).leaked == s.leaked
    ensures s.check.Restarting? ==> Step(s, a).check == s.check
    ensures !s.check.Restarting? && Step(s, a).check.Restarting? ==>
      a.Check? && Step(s, a).check == Restarting(a.dead) && Step(s, a).fleet == s.fleet
  {
  }

  /** Every step flags only dead workers and starts no camera flagged before. */
  ghost predicate NoRace(s: State, acts: seq<Action>) {
    acts == [] ||
    (var front, last := acts[..|acts| - 1], acts[|acts| - 1];
     NoRace(s, front) && Proper(last) && FlagsDead(Run(s, front), last) && !StartsFlagged(Run(s, front), last))
  }

  /** Without such a start no live worker is ever replaced, in any run. */
  lemma {:induction false} NothingLeaks(s: State, acts: seq<Action>)
    requires Inv(s) && StillDead(s) && NoRace(s, acts)
    ensures Inv(Run(s, acts)) && StillDead(Run(s, acts)) && Run(s, acts).leaked == s.leaked
  {
    hide Step, Inv, StillDead, FlagsDead, StartsFlagged, Proper;
    if acts != [] {
      var front, last := acts[..|acts| - 1], acts[|acts| - 1];
      NothingLeaks(s, front);
      StepInv(Run(s, front), last);
      RestartsOnlyDead(Run(s, front), last);
    }
  }

  // ---- When a live worker is replaced ----

  /** The restarts of one health check. */
  function Restarts(outcomes: seq<Outcome>): seq<Action> {
    if outcomes == [] then [] else [RestartOne(outcomes[0])] + Restarts(outcomes[1..])
  }

  /** A flagged camera has a live worker, and the flagged cameras before it are still
      there and can be built again. */
  ghost predicate LiveAhead(w: Workers, dead: seq<CameraId>, outcomes: seq<Outcome>, i: int)
    requires |outcomes| == |dead|
  {
    && 0 <= i < |dead| && dead[i] in w && w[dead[i]].alive
    && forall j :: 0 <= j < i ==> dead[j] in w && outcomes[j] != Raised
  }

  ghost predicate Reaches(w: Workers, dead: seq<CameraId>, outcomes: seq<Outcome>)
    requires |outcomes| == |dead|
  {
    exists i :: LiveAhead(w, dead, outcomes, i)
  }

  lemma RunCons(s: State, a: Action, rest: seq<Action>)
    ensures Run(s, [a] + rest) == Run(Step(s, a), rest)
  {
    RunConcat(s, [a], rest);
    RunOne(s, a);
  }

  lemma {:induction false} LeaksOnlyGrow(s: State, acts: seq<Action>)
    ensures Run(s, acts).leaked >= s.leaked
  {
    if acts != [] {
      LeaksOnlyGrow(s, acts[..|acts| - 1]);
    }
  }

  /** One restart tells nothing new about the other flagged cameras. */
  lemma RestartLeavesOthers(s: State, outcomes: seq<Outcome>)
    requires Inv(s) && s.check.Restarting? && s.check.dead != [] && s.check.dead[0] in s.fleet.workers
    requires |outcomes| == |s.check.dead| && outcomes[0] != Raised
    requires Distinct(s.check.dead) && !s.fleet.workers[s.check.dead[0]].alive
    ensures var s' := Step(s, RestartOne(outcomes[0])); var rest := s.check.dead[1..];
      && s'.check == Restarting(rest) && s'.leaked == s.leaked && Distinct(rest)
      && (Reaches(s'.fleet.workers, rest, outcomes[1..]) <==> Reaches(s.fleet.workers, s.check.dead, outcomes))
  {
    hide Reaches;
    RestartNeverRefused(s, outcomes[0]);
    RestartElsewhere(s, outcomes[0]);
    ReachesRest(s.fleet.workers, Step(s, RestartOne(outcomes[0])).fleet.workers, s.check.dead, outcomes);
  }

  lemma ReachesRest(w: Workers, w': Workers, dead: seq<CameraId>, outcomes: seq<Outcome>)
    requires |outcomes| == |dead| > 0 && Distinct(dead) && outcomes[0] != Raised
    requires dead[0] in w && !w[dead[0]].alive
    requires forall id :: id != dead[0] ==> (id in w' <==> id in w) && (id in w ==> w'[id] == w[id])
    ensures Reaches(w', dead[1..], outcomes[1..]) <==> Reaches(w, dead, outcomes)
  {
    var rest, later := dead[1..], outcomes[1..];
    assert forall i :: 0 <= i < |rest| ==> rest[i] == dead[i + 1] && rest[i] != dead[0] && later[i] == outcomes[i + 1];
    if i :| LiveAhead(w, dead, outcomes, i) {
      assert LiveAhead(w', rest, later, i - 1);
    }
    if i :| LiveAhead(w', rest, later, i) {
      assert LiveAhead(w, dead, outcomes, i + 1);
    }
  }

  lemma RestartElsewhere(s: State, o: Outcome)
    requires Inv(s) && s.check.Restarting? && s.check.dead != [] && s.check.dead[0] in s.fleet.workers
    ensures var w, w' := s.fleet.workers, Step(s, RestartOne(o)).fleet.workers;
      forall id :: id != s.check.dead[0] ==> (id in w' <==> id in w) && (id in w ==> w'[id] == w[id])
  {
  }

  /** The restarts of a health check, with nothing in between, replace a live worker if
      and only if a flagged camera has one, and the flagged cameras before it are still
      there and can be built again; otherwise the first that is missing or cannot be
      built ends the health check. */
  lemma {:induction false} RestartsReplaceLiveIff(s: State, outcomes: seq<Outcome>)
    requires Inv(s) && s.check.Restarting? && Distinct(s.check.dead)
    requires |outcomes| == |s.check.dead|
    ensures Run(s, Restarts(outcomes)).leaked > s.leaked <==> Reaches(s.fleet.workers, s.check.dead, outcomes)
    decreases |outcomes|
  {
    hide Step, Inv, Reaches;
    var dead, w := s.check.dead, s.fleet.workers;
    if dead == [] {
      RunNone(s);
      NoneReached(w, dead, outcomes);
    } else {
      var a, rest := RestartOne(outcomes[0]), Restarts(outcomes[1..]);
      RunCons(s, a, rest);
      var s' := Step(s, a);
      if dead[0] in w && w[dead[0]].alive {
        FirstLive(s, outcomes);
        LeaksOnlyGrow(s', rest);
      } else if dead[0] !in w || outcomes[0] == Raised {
        MainEndsExactly(s, a);
        EndedForGood(s', rest);
        FirstEnds(s, outcomes);
      } else {
        StepInv(s, a);
        RestartLeavesOthers(s, outcomes);
        RestartsReplaceLiveIff(s', outcomes[1..]);
      }
    }
  }

  lemma NoneReached(w: Workers, dead: seq<CameraId>, outcomes: seq<Outcome>)
    requires |outcomes| == |dead|
    requires dead == [] || dead[0] !in w || (!w[dead[0]].alive && outcomes[0] == Raised)
    ensures !Reaches(w, dead, outcomes)
  {
    forall i ensures !LiveAhead(w, dead, outcomes, i) {
    }
  }

  lemma FirstEnds(s: State, outcomes: seq<Outcome>)
    requires s.check.Restarting? && |outcomes| == |s.check.dead| > 0
    requires s.check.dead[0] in s.fleet.workers ==>
      !s.fleet.workers[s.check.dead[0]].alive && outcomes[0] == Raised
    ensures Step(s, RestartOne(outcomes[0])).leaked == s.leaked
    ensures !Reaches(s.fleet.workers, s.check.dead, outcomes)
  {
    NoneReached(s.fleet.workers, s.check.dead, outcomes);
  }

  lemma FirstLive(s: State, outcomes: seq<Outcome>)
    requires s.check.Restarting? && |outcomes| == |s.check.dead| > 0 && s.check.dead[0] in s.fleet.workers
    requires s.fleet.workers[s.check.dead[0]].alive
    ensures Step(s, RestartOne(outcomes[0])).leaked == s.leaked + 1
    ensures Reaches(s.fleet.workers, s.check.dead, outcomes)
  {
    assert LiveAhead(s.fleet.workers, s.check.dead, outcomes, 0);
  }

  /** When the reconcile task starts the flagged camera at place `i`, the restarts
      that follow replace its new, live worker if and only if the flagged cameras
      before it are still there and can be built again. */
  lemma FlaggedStartLeaksIff(s: State, a: Action, i: nat, outcomes: seq<Outcome>)
    requires Inv(s) && Proper(a) && StillDead(s) && StartsFlagged(s, a)
    requires i < |s.check.dead| && s.check.dead[i] == s.rec.toStart[0]
    requires |outcomes| == |s.check.dead|
    ensures Run(Step(s, a), Restarts(outcomes)).leaked > s.leaked <==>
            forall j :: 0 <= j < i ==> s.check.dead[j] in s.fleet.workers && outcomes[j] != Raised
  {
    hide Step, Inv, Reaches;
    StepInv(s, a);
    FlaggedStarts(s, a);
    RestartsReplaceLiveIff(Step(s, a), outcomes);
    var c := CameraWorker(s.rec.desired[s.rec.toStart[0]], true);
    OnlyOneLive(s.fleet.workers, s.check.dead, outcomes, i, c);
  }

  /** Among flagged cameras that are all dead or missing, starting one makes it the
      only live one. */
  lemma OnlyOneLive(w: Workers, dead: seq<CameraId>, outcomes: seq<Outcome>, i: nat, c: CameraWorker)
    requires i < |dead| == |outcomes| && Distinct(dead) && c.alive
    requires forall j :: 0 <= j < |dead| && dead[j] in w ==> !w[dead[j]].alive
    ensures Reaches(w[dead[i] := c], dead, outcomes) <==>
            forall j :: 0 <= j < i ==> dead[j] in w && outcomes[j] != Raised
  {
    var w' := w[dead[i] := c];
    if forall j :: 0 <= j < i ==> dead[j] in w && outcomes[j] != Raised {
      assert LiveAhead(w', dead, outcomes, i);
    }
    forall k | LiveAhead(w', dead, outcomes, k) ensures k == i {
    }
  }

  // ---- The uninterrupted pass is one of the runs ----

  /** Steps of the reconcile task, not cut short. */
  predicate OwnSteps(acts: seq<Action>) {
    forall i :: 0 <= i < |acts| ==> acts[i].Begin? || acts[i].StopOne? || acts[i].UpdateAll? || acts[i].StartOne?
  }

  /** Stopping a list of cameras, one step each. */
  lemma {:induction false} StopEach(s: State) returns (acts: seq<Action>)
    requires s.rec.Stopping?
    ensures OwnSteps(acts)
    ensures Run(s, acts) ==
            s.(fleet := s.fleet.(workers := s.fleet.workers - Keys(s.rec.toStop)), rec := s.rec.(toStop := []))
    decreases |s.rec.toStop|
  {
    acts := [];
    var ids := s.rec.toStop;
    if ids == [] {
      assert s.fleet.workers - Keys(ids) == s.fleet.workers;
    } else {
      var s1 := Step(s, StopOne);
      var more := StopEach(s1);
      assert ids == [ids[0]] + ids[1..];
      assert s.fleet.workers - {ids[0]} - Keys(ids[1..]) == s.fleet.workers - Keys(ids);
      RunConcat(s, [StopOne], more);
      RunOne(s, StopOne);
      acts := [StopOne] + more;
    }
  }

  /** Starting a list of cameras, one step each, up to the first exception; the first
      `k` have had their turn. */
  lemma {:induction false} StartEach(s: State, f: Fleet, ids: seq<CameraId>, k: nat, outcomes: CameraId -> Outcome)
    returns (acts: seq<Action>)
    requires s.rec.Starting? && k <= |ids| && s.rec.toStart == ids[k..]
    requires forall id :: id in ids ==> id in s.rec.desired
    requires Attempt(s.fleet, false) == StartAll(f, ids[..k], s.rec.desired, HardCeiling(s), outcomes)
    ensures OwnSteps(acts)
    ensures Run(s, acts) == s.(fleet := StartAll(f, ids, s.rec.desired, HardCeiling(s), outcomes).fleet, rec := Resting)
    decreases |ids| - k
  {
    hide StartAll, Start, Raises, Run;
    if k == |ids| {
      assert ids[..k] == ids && ids[k..] == [];
      acts := [StartOne(Started)];
      RunOne(s, acts[0]);
    } else {
      var a := StartOne(outcomes(ids[k]));
      assert ids[k..][0] == ids[k] && ids[k..][1..] == ids[k + 1..];
      StartAllSnoc(f, ids, k, s.rec.desired, HardCeiling(s), outcomes);
      RunOne(s, a);
      if StartAll(f, ids[..k + 1], s.rec.desired, HardCeiling(s), outcomes).raised {
        RaisedStays(f, ids, k + 1, s.rec.desired, HardCeiling(s), outcomes);
        acts := [a];
        RaisingLeaves(s.fleet, s.rec.desired[ids[k]], HardCeiling(s), outcomes(ids[k]));
      } else {
        var more := StartEach(Step(s, a), f, ids, k + 1, outcomes);
        RunConcat(s, [a], more);
        acts := [a] + more;
      }
    }
  }

  lemma RaisingLeaves(f: Fleet, c: CameraConfig, hardCeiling: int, o: Outcome)
    requires Raises(f, c, hardCeiling, o)
    ensures Start(f, c, hardCeiling, o) == f
  {
  }

  lemma StartNone(f: Fleet, desired: Desired, hardCeiling: int, outcomes: CameraId -> Outcome)
    ensures StartAll(f, [], desired, hardCeiling, outcomes) == Attempt(f, false)
  {
  }

  lemma StoppedIsKept(d: Diff, w: Workers, desired: Desired)
    ensures Updated(w - Keys(d.toStop + d.toRestart), d.toUpdate, desired) == Kept(d, w, desired)
  {
    assert w - Keys(d.toStop + d.toRestart) == w - Keys(d.toStop) - Keys(d.toRestart);
  }

  /** Up to the first start: stops, then updates. */
  lemma StopAndUpdate(s: State, d: Diff, desired: Desired) returns (acts: seq<Action>)
    requires s.rec.Resting? && !Nothing(d)
    ensures OwnSteps(acts)
    ensures Run(s, acts) == s.(fleet := Fleet(Kept(d, s.fleet.workers, desired), s.fleet.rejected * desired.Keys),
                               rec := Starting(d.toStart + d.toRestart, desired))
  {
    hide Run, Updated, Kept;
    var begin := Begin(d, desired);
    var s1 := Step(s, begin);
    RunOne(s, begin);
    var stops := StopEach(s1);
    RunConcat(s, [begin], stops);
    var s2 := Run(s1, stops);
    StoppedIsKept(d, s.fleet.workers, desired);
    RunOne(s2, UpdateAll);
    RunConcat(s, [begin] + stops, [UpdateAll]);
    acts := [begin] + stops + [UpdateAll];
  }

  /** What `ReconcileOnce` does in one go is what the protocol does when nothing
      comes in between. */
  lemma PassIsRun(s: State, d: Diff, desired: Desired, outcomes: CameraId -> Outcome)
    requires s.rec.Resting? && forall id :: id in d.toStart + d.toRestart ==> id in desired
    ensures exists acts ::
      OwnSteps(acts) && Run(s, acts) == s.(fleet := Pass(d, s.fleet, desired, HardCeiling(s), outcomes).fleet)
  {
    hide StartAll, Run, Kept, Nothing, Step;
    if Nothing(d) {
      RunNone(s);
      assert OwnSteps([]) && Run(s, []) == s;
    } else {
      var first := StopAndUpdate(s, d, desired);
      var s1, ids := Run(s, first), d.toStart + d.toRestart;
      assert ids[0..] == ids && ids[..0] == [];
      StartNone(s1.fleet, desired, HardCeiling(s1), outcomes);
      var starts := StartEach(s1, s1.fleet, ids, 0, outcomes);
      RunConcat(s, first, starts);
      var acts := first + starts;
      assert OwnSteps(acts) && Run(s, acts) == s.(fleet := Pass(d, s.fleet, desired, HardCeiling(s), outcomes).fleet);
    }
  }

  // ---- Runs written out ----

  /** A run given by its states. */
  lemma {:induction false} PathRuns(path: nat -> State, acts: seq<Action>)
    requires forall i: nat :: i < |acts| ==> Step(path(i), acts[i]) == path(i + 1)
    ensures Run(path(0), acts) == path(|acts|)
  {
    hide Step;
    if acts != [] {
      PathRuns(path, acts[..|acts| - 1]);
    }
  }
}
