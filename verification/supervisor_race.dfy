/** A run of the supervisor in which a live worker is replaced and never stopped. */
module SupervisorRace {
  import opened Common
  import opened Supervisor
  import opened SupervisorProtocol
  import C = Capacity

  const CAM: CameraId := CameraId(1)

  function Cfg(url: string): CameraConfig {
    CameraConfig(CAM, Signature("rtsp_pull", Some(url), None, 1.0, 5.0), "")
  }

  function One(c: CameraConfig, alive: bool): Fleet {
    Fleet(map[CAM := CameraWorker(c, alive)], {})
  }

  const WANTED: Desired := map[CAM := Cfg("b")]
  const RESTART: Diff := Diff([], [], [CAM], [])
  const IDLE_ROUND: Action := Check(C.Round(0, 0.0), [CAM])

  const RACE: seq<Action> :=
    [ColdStart(Started), ColdStart(Started), Die(CAM), IDLE_ROUND, Begin(RESTART, WANTED), StopOne, UpdateAll,
     StartOne(Started), RestartOne(Started)]

  /** The states of the race. */
  function Raced(s0: State, n: nat): State {
    var none, a, b := Fleet(map[], {}), One(Cfg("a"), true), One(Cfg("b"), true);
    var up := s0.(fleet := a, check := Waiting, rec := Resting);
    var flagged := up.(fleet := One(Cfg("a"), false), check := Restarting([CAM]));
    match n
    case 0 => s0
    case 1 => s0.(fleet := a, check := ColdStarting([]))
    case 2 => up
    case 3 => up.(fleet := One(Cfg("a"), false))
    case 4 => flagged
    case 5 => flagged.(rec := Stopping([CAM], [], [CAM], WANTED))
    case 6 => flagged.(fleet := none, rec := Stopping([], [], [CAM], WANTED))
    case 7 => flagged.(fleet := none, rec := Starting([CAM], WANTED))
    case 8 => flagged.(fleet := b, rec := Starting([], WANTED))
    case _ => up.(fleet := b, check := Restarting([]), rec := Starting([], WANTED), leaked := 1)
  }

  ghost predicate Fresh(s0: State) {
    && s0.fleet == Fleet(map[], {}) && s0.rec == NotStarted && s0.check == ColdStarting([Cfg("a")])
    && s0.leaked == 0 && HardCeiling(s0) >= 1
  }

  lemma CameraDies(s0: State)
    requires Fresh(s0)
    ensures Step(s0, ColdStart(Started)) == Raced(s0, 1)
    ensures Step(Raced(s0, 1), ColdStart(Started)) == Raced(s0, 2)
    ensures Step(Raced(s0, 2), Die(CAM)) == Raced(s0, 3)
  {
    var todo := [Cfg("a")];
    assert todo[0] == Cfg("a") && todo[1..] == [];
  }

  lemma CameraFlagged(s0: State)
    requires Fresh(s0)
    ensures Step(Raced(s0, 3), IDLE_ROUND) == Raced(s0, 4)
    ensures Step(Raced(s0, 4), Begin(RESTART, WANTED)) == Raced(s0, 5)
  {
    assert RESTART.toStop + RESTART.toRestart == [CAM] && RESTART.toStart + RESTART.toRestart == [CAM];
  }

  lemma PassStops(s0: State)
    requires Fresh(s0)
    ensures Step(Raced(s0, 5), StopOne) == Raced(s0, 6)
    ensures Step(Raced(s0, 6), UpdateAll) == Raced(s0, 7)
  {
    var toStop := [CAM];
    assert toStop[0] == CAM && toStop[1..] == [];
    assert Popped(One(Cfg("a"), false), CAM).workers == map[];
    assert Updated(map[], [], WANTED) == map[];
  }

  lemma PassStarts(s0: State)
    requires Fresh(s0)
    ensures Step(Raced(s0, 7), StartOne(Started)) == Raced(s0, 8)
    ensures Step(Raced(s0, 8), RestartOne(Started)) == Raced(s0, 9)
  {
    var ids := [CAM];
    assert ids[0] == CAM && ids[1..] == [];
    assert Start(Fleet(map[], {}), Cfg("b"), HardCeiling(s0), Started) == One(Cfg("b"), true);
    assert Popped(One(Cfg("b"), true), CAM) == Fleet(map[], {});
  }

  lemma OneParsed(c: CameraConfig)
    ensures Parsed([Some(c)]) == Some([c])
  {
    var one: seq<Assignment> := [Some(c)];
    assert one[..0] == [] && [] + [c] == [c];
  }

  /** A camera dies and is flagged; during the heartbeat the pass restarts it with a
      new address; the health check then replaces the new, live worker, which nobody
      stops. */
  lemma LiveWorkerReplaced(cores: int, availableMb: Option<int>)
    ensures Run(Startup(12, cores, availableMb, [Some(Cfg("a"))]), RACE).leaked == 1
  {
    hide Run, Step, Raced;
    var s0 := Startup(12, cores, availableMb, [Some(Cfg("a"))]);
    OneParsed(Cfg("a"));
    CameraDies(s0);
    CameraFlagged(s0);
    PassStops(s0);
    PassStarts(s0);
    Ends(s0);
    PathRuns((n: nat) => Raced(s0, n), RACE);
  }

  lemma Ends(s0: State)
    ensures Raced(s0, 0) == s0 && (s0.leaked == 0 ==> Raced(s0, 9).leaked == 1)
  {
  }
}
