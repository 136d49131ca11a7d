/** The reconciler: brings the running cameras to the desired ones, subject to
    admission control. */
module Supervisor {
  import opened Common
  import opened Sums
  import C = Capacity

  /** Camera ids, by their place in the order in which the lists are sorted. */
  datatype CameraId = CameraId(rank: nat)

  /** The part of a configuration that needs a restart when it changes. */
  datatype Signature = Signature(ingestMode: string, rtspUrl: Option<string>, streamKey: Option<string>,
                                 idleFps: real, activeFps: real)

  /** `settings` stands for everything that can be changed in place. */
  datatype CameraConfig = CameraConfig(id: CameraId, stream: Signature, settings: string)

  datatype CameraWorker = CameraWorker(config: CameraConfig, alive: bool)

  type Workers = map<CameraId, CameraWorker>

  type Desired = map<CameraId, CameraConfig>

  /** How an attempt to start a worker ends: it runs; `start` fails, which is caught;
      or building the worker raises, which is not. */
  datatype Outcome = Started | Failed | Raised

  /** Running and rejected cameras. */
  datatype Fleet = Fleet(workers: Workers, rejected: set<CameraId>)

  ghost predicate WellKeyed(desired: Desired) {
    forall id :: id in desired ==> desired[id].id == id
  }

  // ---- Sorted lists of ids ----

  ghost predicate Ascending(ids: seq<CameraId>) {
    forall i, j :: 0 <= i < j < |ids| ==> ids[i].rank < ids[j].rank
  }

  /** `ids` lists exactly the members of `s`, in order. */
  ghost predicate Lists(ids: seq<CameraId>, s: set<CameraId>) {
    Ascending(ids) && forall id :: id in ids <==> id in s
  }

  function Insert(ids: seq<CameraId>, x: CameraId): seq<CameraId> {
    if ids == [] || x.rank < ids[0].rank then [x] + ids else [ids[0]] + Insert(ids[1..], x)
  }

  lemma {:induction false} InsertAscending(ids: seq<CameraId>, x: CameraId)
    requires Ascending(ids) && x !in ids
    ensures Ascending(Insert(ids, x))
    ensures forall id :: id in Insert(ids, x) <==> id in ids || id == x
  {
    if ids != [] && !(x.rank < ids[0].rank) {
      var rest := ids[1..];
      assert ids == [ids[0]] + rest;
      assert forall i :: 0 <= i < |rest| ==> rest[i].rank > ids[0].rank;
      InsertAscending(rest, x);
      var tail := Insert(rest, x);
      assert ids[0] in ids && ids[0].rank < x.rank;
      forall i | 0 <= i < |tail| ensures ids[0].rank < tail[i].rank {
        assert tail[i] in tail;
      }
    }
  }

  /** `sorted(...)` of a set. */
  method Sorted(s: set<CameraId>) returns (ids: seq<CameraId>)
    ensures Lists(ids, s)
  {
    ids := [];
    var todo := s;
    while todo != {}
      invariant todo <= s && Ascending(ids)
      invariant forall id :: id in ids <==> id in s && id !in todo
      decreases todo
    {
      var x := Pick(todo);
      InsertAscending(ids, x);
      ids := Insert(ids, x);
      todo := todo - {x};
    }
  }

  // ---- The difference ----

  datatype Diff = Diff(toStart: seq<CameraId>, toStop: seq<CameraId>, toRestart: seq<CameraId>, toUpdate: seq<CameraId>)

  ghost predicate IsDiff(d: Diff, current: map<CameraId, Signature>, desired: Desired) {
    && Lists(d.toStart, desired.Keys - current.Keys)
    && Lists(d.toStop, current.Keys - desired.Keys)
    && Lists(d.toRestart, set id | id in current && id in desired && current[id] != desired[id].stream)
    && Lists(d.toUpdate, set id | id in current && id in desired && current[id] == desired[id].stream)
  }

  /** `compute_diff`. */
  method ComputeDiff(current: map<CameraId, Signature>, desired: Desired) returns (d: Diff)
    ensures IsDiff(d, current, desired)
  {
    var toStart := Sorted(desired.Keys - current.Keys);
    var toStop := Sorted(current.Keys - desired.Keys);
    var both := Sorted(current.Keys * desired.Keys);
    var toRestart, toUpdate := [], [];
    for i := 0 to |both|
      invariant Ascending(toRestart) && Ascending(toUpdate)
      invariant forall id :: id in toRestart <==>
        id in both[..i] && id in current && id in desired && current[id] != desired[id].stream
      invariant forall id :: id in toUpdate <==>
        id in both[..i] && id in current && id in desired && current[id] == desired[id].stream
    {
      var id := both[i];
      assert id in both;
      assert both[..i + 1] == both[..i] + [id];
      assert forall x :: x in both[..i] ==> x.rank < id.rank;
      if current[id] != desired[id].stream {
        toRestart := toRestart + [id];
      } else {
        toUpdate := toUpdate + [id];
      }
    }
    assert both[..|both|] == both;
    d := Diff(toStart, toStop, toRestart, toUpdate);
  }

  // ---- Admission control ----

  /** `_start_worker`. */
  function Start(f: Fleet, c: CameraConfig, hardCeiling: int, o: Outcome): Fleet {
    if c.id in f.workers then f
    else if |f.workers| >= hardCeiling then f.(rejected := f.rejected + {c.id})
    else if o == Started then Fleet(f.workers[c.id := CameraWorker(c, true)], f.rejected - {c.id})
    else f
  }

  /** The attempt ends in an exception.  A worker is built only for a camera that is
      not running, on a box that is not full. */
  predicate Raises(f: Fleet, c: CameraConfig, hardCeiling: int, o: Outcome) {
    c.id !in f.workers && |f.workers| < hardCeiling && o == Raised
  }

  /** What starting a list of cameras leads to, and whether it ended in an exception. */
  datatype Attempt = Attempt(fleet: Fleet, raised: bool)

  /** Starting a list of cameras, in order, up to the first exception. */
  function StartAll(f: Fleet, ids: seq<CameraId>, desired: Desired, hardCeiling: int,
                    outcomes: CameraId -> Outcome): Attempt
    requires forall id :: id in ids ==> id in desired
  {
    if ids == [] then Attempt(f, false)
    else
      var id := ids[|ids| - 1];
      Turn(StartAll(f, ids[..|ids| - 1], desired, hardCeiling, outcomes), desired[id], hardCeiling, outcomes(id))
  }

  /** The next camera's turn, unless an exception came before. */
  function Turn(a: Attempt, c: CameraConfig, hardCeiling: int, o: Outcome): Attempt {
    if a.raised then a else Attempt(Start(a.fleet, c, hardCeiling, o), Raises(a.fleet, c, hardCeiling, o))
  }

  lemma StartAllSnoc(f: Fleet, ids: seq<CameraId>, i: nat, desired: Desired, hardCeiling: int,
                     outcomes: CameraId -> Outcome)
    requires i < |ids| && forall id :: id in ids ==> id in desired
    ensures ids[i] in desired
    ensures StartAll(f, ids[..i + 1], desired, hardCeiling, outcomes) ==
            Turn(StartAll(f, ids[..i], desired, hardCeiling, outcomes), desired[ids[i]], hardCeiling, outcomes(ids[i]))
  {
    hide Turn;
    assert ids[..i + 1][..i] == ids[..i] && ids[i] in ids;
  }

  lemma NoneStarted(f: Fleet, ids: seq<CameraId>, desired: Desired, hardCeiling: int, outcomes: CameraId -> Outcome)
    ensures StartAll(f, ids[..0], desired, hardCeiling, outcomes) == Attempt(f, false)
  {
  }

  function Keys(ids: seq<CameraId>): set<CameraId> {
    set id | id in ids
  }

  function Signatures(w: Workers): map<CameraId, Signature> {
    map id | id in w :: w[id].config.stream
  }

  /** `update_config` on the cameras that need no restart. */
  function Updated(w: Workers, ids: seq<CameraId>, desired: Desired): Workers {
    map id | id in w :: if id in ids && id in desired then w[id].(config := desired[id]) else w[id]
  }

  /** What is running once the stops and updates of a pass are done. */
  function Kept(d: Diff, w: Workers, desired: Desired): Workers {
    Updated(w - Keys(d.toStop) - Keys(d.toRestart), d.toUpdate, desired)
  }

  predicate Nothing(d: Diff) {
    d.toStart == [] && d.toStop == [] && d.toRestart == [] && d.toUpdate == []
  }

  /** An uninterrupted pass. */
  function Pass(d: Diff, f: Fleet, desired: Desired, hardCeiling: int, outcomes: CameraId -> Outcome): Attempt
    requires forall id :: id in d.toStart + d.toRestart ==> id in desired
  {
    if Nothing(d) then Attempt(f, false)
    else
      StartAll(Fleet(Kept(d, f.workers, desired), f.rejected * desired.Keys),
               d.toStart + d.toRestart, desired, hardCeiling, outcomes)
  }

  // ---- Starting a list of cameras ----

  ghost predicate Distinct(ids: seq<CameraId>) {
    forall i, j :: 0 <= i < j < |ids| ==> ids[i] != ids[j]
  }

  /** The cameras of `ids` are all decided: running with their configuration, or
      rejected, and rejected only if the box is full. */
  ghost predicate Decided(f: Fleet, ids: seq<CameraId>, desired: Desired, hardCeiling: int) {
    forall id :: id in ids ==>
      && id in desired
      && (id in f.workers <==> id !in f.rejected)
      && (id in f.workers ==> f.workers[id] == CameraWorker(desired[id], true))
      && (id in f.rejected ==> |f.workers| >= hardCeiling)
  }

  /** From `f` to `f'` nothing changed for cameras outside `ids`, and every worker
      of `f` is still there. */
  ghost predicate OnlyTouches(f: Fleet, f': Fleet, ids: seq<CameraId>) {
    && (forall id :: id !in ids ==> (id in f'.workers <==> id in f.workers))
    && (forall id :: id !in ids ==> (id in f'.rejected <==> id in f.rejected))
    && (forall id :: id in f.workers ==> id in f'.workers && f'.workers[id] == f.workers[id])
  }

  /** How many of the cameras would start. */
  function Starts(ids: seq<CameraId>, outcomes: CameraId -> Outcome): nat {
    if ids == [] then 0
    else Starts(ids[..|ids| - 1], outcomes) + if outcomes(ids[|ids| - 1]) == Started then 1 else 0
  }

  lemma StartsSnoc(ids: seq<CameraId>, outcomes: CameraId -> Outcome)
    requires ids != []
    ensures Starts(ids, outcomes) ==
            Starts(ids[..|ids| - 1], outcomes) + if outcomes(ids[|ids| - 1]) == Started then 1 else 0
  {
  }

  /** The turn of camera `i` comes to an exception: building its worker raises, and
      with `running` cameras before the list there is still room for it. */
  predicate StopsAt(running: nat, ids: seq<CameraId>, i: nat, hardCeiling: int, outcomes: CameraId -> Outcome)
    requires i < |ids|
  {
    outcomes(ids[i]) == Raised && running + Starts(ids[..i], outcomes) < hardCeiling
  }

  /** The number of cameras whose turn comes and goes: the place of the first
      exception, or all of them. */
  function Reach(running: nat, ids: seq<CameraId>, hardCeiling: int, outcomes: CameraId -> Outcome): (k: nat)
    ensures k <= |ids|
  {
    if ids == [] then 0
    else
      var n := |ids| - 1;
      var k := Reach(running, ids[..n], hardCeiling, outcomes);
      if k < n || StopsAt(running, ids, n, hardCeiling, outcomes) then k else |ids|
  }

  lemma {:induction false} ReachIsFirst(running: nat, ids: seq<CameraId>, hardCeiling: int,
                                        outcomes: CameraId -> Outcome)
    ensures var k := Reach(running, ids, hardCeiling, outcomes);
      && (k < |ids| ==> StopsAt(running, ids, k, hardCeiling, outcomes))
      && (forall i :: 0 <= i < k ==> !StopsAt(running, ids, i, hardCeiling, outcomes))
  {
    if ids != [] {
      var n := |ids| - 1;
      var front := ids[..n];
      ReachIsFirst(running, front, hardCeiling, outcomes);
      forall i | 0 <= i < n
        ensures StopsAt(running, front, i, hardCeiling, outcomes) <==> StopsAt(running, ids, i, hardCeiling, outcomes)
      {
        assert front[..i] == ids[..i];
      }
    }
  }

  /** What its turn means for camera `i`: it runs if there is room and it starts, is
      rejected if there is none, and is left as it was if starting it fails. */
  ghost predicate Fated(f: Fleet, f': Fleet, ids: seq<CameraId>, i: nat, desired: Desired, hardCeiling: int,
                        outcomes: CameraId -> Outcome)
    requires i < |ids| && ids[i] in desired
  {
    var id := ids[i];
    if |f.workers| + Starts(ids[..i], outcomes) >= hardCeiling then id !in f'.workers && id in f'.rejected
    else if outcomes(id) == Started then
      id in f'.workers && f'.workers[id] == CameraWorker(desired[id], true) && id !in f'.rejected
    else id !in f'.workers && (id in f'.rejected <==> id in f.rejected)
  }

  /** The first `k` cameras of the list are decided and the others untouched. */
  ghost predicate DecidedUpTo(f: Fleet, f': Fleet, ids: seq<CameraId>, k: nat, desired: Desired, hardCeiling: int,
                              outcomes: CameraId -> Outcome)
    requires k <= |ids| && forall id :: id in ids ==> id in desired
  {
    && (forall i :: 0 <= i < k ==> Fated(f, f', ids, i, desired, hardCeiling, outcomes))
    && (forall i :: k <= i < |ids| ==> ids[i] !in f'.workers && (ids[i] in f'.rejected <==> ids[i] in f.rejected))
    && OnlyTouches(f, f', ids)
    && |f'.workers| == C.Min(hardCeiling, |f.workers| + Starts(ids[..k], outcomes))
  }

  /** Exactly the cameras listed before the first exception are decided; those from
      there on are left down, not running and not even marked rejected. */
  lemma {:induction false} StartAllStops(f: Fleet, ids: seq<CameraId>, desired: Desired, hardCeiling: int,
                                         outcomes: CameraId -> Outcome)
    requires forall id :: id in ids ==> id in desired && id !in f.workers
    requires WellKeyed(desired) && Distinct(ids) && |f.workers| <= hardCeiling
    ensures var a := StartAll(f, ids, desired, hardCeiling, outcomes);
      var k := Reach(|f.workers|, ids, hardCeiling, outcomes);
      (a.raised <==> k < |ids|) && DecidedUpTo(f, a.fleet, ids, k, desired, hardCeiling, outcomes)
  {
    hide Start, Raises, DecidedUpTo, Distinct, StopsAt, StartAll, Starts;
    if ids == [] {
      NoneStarted(f, ids, desired, hardCeiling, outcomes);
      assert ids[..0] == ids;
      NothingDecided(f, desired, hardCeiling, outcomes);
    } else {
      var n := |ids| - 1;
      var front, id := ids[..n], ids[n];
      assert ids[..n + 1] == ids && id in ids && desired[id].id == id;
      assert forall x :: x in front ==> x in ids;
      StartAllSnoc(f, ids, n, desired, hardCeiling, outcomes);
      DistinctFront(ids);
      StartAllStops(f, front, desired, hardCeiling, outcomes);
      var before := StartAll(f, front, desired, hardCeiling, outcomes);
      if before.raised {
        assert StartAll(f, ids, desired, hardCeiling, outcomes) == before;
        var k := Reach(|f.workers|, front, hardCeiling, outcomes);
        StillUntouched(f, before.fleet, ids, k, desired, hardCeiling, outcomes);
      } else {
        NextDecided(f, before.fleet, ids, desired, hardCeiling, outcomes);
      }
    }
  }

  lemma NothingDecided(f: Fleet, desired: Desired, hardCeiling: int, outcomes: CameraId -> Outcome)
    requires |f.workers| <= hardCeiling
    ensures DecidedUpTo(f, f, [], 0, desired, hardCeiling, outcomes)
  {
  }

  lemma DistinctFront(ids: seq<CameraId>)
    requires Distinct(ids) && ids != []
    ensures Distinct(ids[..|ids| - 1]) && ids[|ids| - 1] !in ids[..|ids| - 1]
  {
  }

  /** One more camera on the list, after an exception. */
  lemma StillUntouched(f: Fleet, f': Fleet, ids: seq<CameraId>, k: nat, desired: Desired, hardCeiling: int,
                       outcomes: CameraId -> Outcome)
    requires ids != [] && (forall id :: id in ids ==> id in desired && id !in f.workers)
    requires k < |ids| - 1 && ids[|ids| - 1] !in ids[..|ids| - 1]
    requires DecidedUpTo(f, f', ids[..|ids| - 1], k, desired, hardCeiling, outcomes)
    ensures DecidedUpTo(f, f', ids, k, desired, hardCeiling, outcomes)
  {
    var front, id := ids[..|ids| - 1], ids[|ids| - 1];
    assert ids == front + [id];
    assert front[..k] == ids[..k];
    forall i | 0 <= i < k ensures Fated(f, f', ids, i, desired, hardCeiling, outcomes) {
      assert front[..i] == ids[..i];
      assert Fated(f, f', front, i, desired, hardCeiling, outcomes);
    }
  }

  lemma StartEffect(f: Fleet, c: CameraConfig, hardCeiling: int, o: Outcome)
    requires c.id !in f.workers && |f.workers| <= hardCeiling
    ensures var f' := Start(f, c, hardCeiling, o);
      && |f'.workers| == C.Min(hardCeiling, |f.workers| + if o == Started then 1 else 0)
      && OnlyTouches(f, f', [c.id])
      && (if |f.workers| >= hardCeiling then c.id !in f'.workers && c.id in f'.rejected
          else if o == Started then
            c.id in f'.workers && f'.workers[c.id] == CameraWorker(c, true) && c.id !in f'.rejected
          else f' == f)
  {
  }

  /** A fate is not changed by what happens to another camera. */
  lemma FateKept(f: Fleet, g: Fleet, f': Fleet, ids: seq<CameraId>, i: nat, desired: Desired, hardCeiling: int,
                 outcomes: CameraId -> Outcome)
    requires i < |ids| - 1 && ids[i] in desired && ids[i] != ids[|ids| - 1]
    requires Fated(f, g, ids[..|ids| - 1], i, desired, hardCeiling, outcomes)
    requires OnlyTouches(g, f', [ids[|ids| - 1]])
    ensures Fated(f, f', ids, i, desired, hardCeiling, outcomes)
  {
    assert ids[..|ids| - 1][..i] == ids[..i];
    assert ids[i] !in [ids[|ids| - 1]];
  }

  lemma FatesKept(f: Fleet, g: Fleet, f': Fleet, ids: seq<CameraId>, desired: Desired, hardCeiling: int,
                  outcomes: CameraId -> Outcome)
    requires ids != [] && (forall id :: id in ids ==> id in desired)
    requires ids[|ids| - 1] !in ids[..|ids| - 1] && OnlyTouches(g, f', [ids[|ids| - 1]])
    requires DecidedUpTo(f, g, ids[..|ids| - 1], |ids| - 1, desired, hardCeiling, outcomes)
    ensures forall i :: 0 <= i < |ids| - 1 ==> Fated(f, f', ids, i, desired, hardCeiling, outcomes)
  {
    hide Fated, OnlyTouches, Starts;
    var front := ids[..|ids| - 1];
    forall i | 0 <= i < |ids| - 1 ensures Fated(f, f', ids, i, desired, hardCeiling, outcomes) {
      assert ids[i] == front[i] && ids[i] in front;
      FateKept(f, g, f', ids, i, desired, hardCeiling, outcomes);
    }
  }

  /** The camera's own turn. */
  lemma OwnTurn(f: Fleet, g: Fleet, ids: seq<CameraId>, desired: Desired, hardCeiling: int,
                outcomes: CameraId -> Outcome)
    requires ids != [] && ids[|ids| - 1] in desired && desired[ids[|ids| - 1]].id == ids[|ids| - 1]
    requires |f.workers| <= hardCeiling && ids[|ids| - 1] !in g.workers
    requires ids[|ids| - 1] in g.rejected <==> ids[|ids| - 1] in f.rejected
    requires |g.workers| == C.Min(hardCeiling, |f.workers| + Starts(ids[..|ids| - 1], outcomes))
    ensures var n := |ids| - 1; var id := ids[n]; var f' := Start(g, desired[id], hardCeiling, outcomes(id));
      && (Raises(g, desired[id], hardCeiling, outcomes(id)) <==> StopsAt(|f.workers|, ids, n, hardCeiling, outcomes))
      && (Raises(g, desired[id], hardCeiling, outcomes(id)) ==> f' == g)
      && Fated(f, f', ids, n, desired, hardCeiling, outcomes)
      && OnlyTouches(g, f', [id])
      && |f'.workers| == C.Min(hardCeiling, |f.workers| + Starts(ids, outcomes))
  {
    hide Start, OnlyTouches, Starts;
    StartsSnoc(ids, outcomes);
    var c := desired[ids[|ids| - 1]];
    StartEffect(g, c, hardCeiling, outcomes(ids[|ids| - 1]));
  }

  /** One more camera on the list, when every turn before it came. */
  lemma NextDecided(f: Fleet, g: Fleet, ids: seq<CameraId>, desired: Desired, hardCeiling: int,
                    outcomes: CameraId -> Outcome)
    requires ids != [] && (forall id :: id in ids ==> id in desired && id !in f.workers)
    requires ids[|ids| - 1] !in ids[..|ids| - 1] && |f.workers| <= hardCeiling
    requires desired[ids[|ids| - 1]].id == ids[|ids| - 1]
    requires DecidedUpTo(f, g, ids[..|ids| - 1], |ids| - 1, desired, hardCeiling, outcomes)
    ensures var id := ids[|ids| - 1]; var a := Turn(Attempt(g, false), desired[id], hardCeiling, outcomes(id));
      && (a.raised <==> StopsAt(|f.workers|, ids, |ids| - 1, hardCeiling, outcomes))
      && DecidedUpTo(f, a.fleet, ids, if a.raised then |ids| - 1 else |ids|, desired, hardCeiling, outcomes)
  {
    hide Start, Raises, StopsAt, Fated, OnlyTouches, Starts, DecidedUpTo;
    var n := |ids| - 1;
    var front, id := ids[..n], ids[n];
    DecidedMeans(f, g, front, desired, hardCeiling, outcomes);
    LastUntouched(f, g, front, id);
    OwnTurn(f, g, ids, desired, hardCeiling, outcomes);
    var f' := Start(g, desired[id], hardCeiling, outcomes(id));
    FatesKept(f, g, f', ids, desired, hardCeiling, outcomes);
    TouchesJoin(f, g, f', ids);
    DecidedJoin(f, f', ids, Raises(g, desired[id], hardCeiling, outcomes(id)), desired, hardCeiling, outcomes);
  }

  lemma DecidedMeans(f: Fleet, g: Fleet, ids: seq<CameraId>, desired: Desired, hardCeiling: int,
                     outcomes: CameraId -> Outcome)
    requires forall id :: id in ids ==> id in desired
    requires DecidedUpTo(f, g, ids, |ids|, desired, hardCeiling, outcomes)
    ensures OnlyTouches(f, g, ids) && |g.workers| == C.Min(hardCeiling, |f.workers| + Starts(ids, outcomes))
  {
    hide Fated, OnlyTouches, Starts;
    assert ids[..|ids|] == ids;
  }

  lemma DecidedJoin(f: Fleet, f': Fleet, ids: seq<CameraId>, raised: bool, desired: Desired, hardCeiling: int,
                    outcomes: CameraId -> Outcome)
    requires ids != [] && forall id :: id in ids ==> id in desired
    requires forall i :: 0 <= i < |ids| - 1 ==> Fated(f, f', ids, i, desired, hardCeiling, outcomes)
    requires !raised ==> Fated(f, f', ids, |ids| - 1, desired, hardCeiling, outcomes)
    requires raised ==> ids[|ids| - 1] !in f'.workers
    requires raised ==> (ids[|ids| - 1] in f'.rejected <==> ids[|ids| - 1] in f.rejected)
    requires OnlyTouches(f, f', ids)
    requires |f'.workers| ==
      C.Min(hardCeiling, |f.workers| + Starts(if raised then ids[..|ids| - 1] else ids, outcomes))
    ensures DecidedUpTo(f, f', ids, if raised then |ids| - 1 else |ids|, desired, hardCeiling, outcomes)
  {
    hide Fated, OnlyTouches, Starts;
    assert ids[..|ids|] == ids;
  }

  lemma LastUntouched(f: Fleet, g: Fleet, front: seq<CameraId>, id: CameraId)
    requires OnlyTouches(f, g, front) && id !in front && id !in f.workers
    ensures id !in g.workers && (id in g.rejected <==> id in f.rejected)
  {
  }

  lemma TouchesJoin(f: Fleet, g: Fleet, f': Fleet, ids: seq<CameraId>)
    requires ids != [] && OnlyTouches(f, g, ids[..|ids| - 1]) && OnlyTouches(g, f', [ids[|ids| - 1]])
    ensures OnlyTouches(f, f', ids)
  {
    assert ids == ids[..|ids| - 1] + [ids[|ids| - 1]];
  }

  lemma {:induction false} AllStart(ids: seq<CameraId>, outcomes: CameraId -> Outcome)
    requires forall id :: id in ids ==> outcomes(id) == Started
    ensures Starts(ids, outcomes) == |ids|
  {
    if ids != [] {
      assert ids[|ids| - 1] in ids;
      AllStart(ids[..|ids| - 1], outcomes);
    }
  }

  /** When every start succeeds, all cameras of the list are decided. */
  lemma StartAllDecides(f: Fleet, ids: seq<CameraId>, desired: Desired, hardCeiling: int,
                        outcomes: CameraId -> Outcome)
    requires forall id :: id in ids ==> id in desired && id !in f.workers && outcomes(id) == Started
    requires WellKeyed(desired) && Distinct(ids) && |f.workers| <= hardCeiling
    ensures var a := StartAll(f, ids, desired, hardCeiling, outcomes);
      && !a.raised && Decided(a.fleet, ids, desired, hardCeiling) && OnlyTouches(f, a.fleet, ids)
      && |a.fleet.workers| == C.Min(hardCeiling, |f.workers| + |ids|)
  {
    hide StartAll, Start, Distinct, OnlyTouches;
    StartAllStops(f, ids, desired, hardCeiling, outcomes);
    ReachIsFirst(|f.workers|, ids, hardCeiling, outcomes);
    assert ids[..|ids|] == ids;
    AllStart(ids, outcomes);
    var f' := StartAll(f, ids, desired, hardCeiling, outcomes).fleet;
    forall id | id in ids
      ensures id in f'.workers <==> id !in f'.rejected
      ensures id in f'.workers ==> f'.workers[id] == CameraWorker(desired[id], true)
      ensures id in f'.rejected ==> |f'.workers| >= hardCeiling
    {
      var i :| 0 <= i < |ids| && ids[i] == id;
      AllStart(ids[..i], outcomes);
      assert Fated(f, f', ids, i, desired, hardCeiling, outcomes);
    }
  }

  // ---- The pass ----

  /** Every desired camera is accounted for and nothing else is: it runs with its
      configuration or is rejected, not both, and as many run as may. */
  ghost predicate Settled(f: Fleet, desired: Desired, maxCameras: int) {
    && f.workers.Keys + f.rejected == desired.Keys && f.workers.Keys !! f.rejected
    && (forall id :: id in f.workers && id in desired ==> f.workers[id].config == desired[id])
    && |f.workers| == C.Min(maxCameras, |desired|)
  }

  lemma ListFront(ids: seq<CameraId>, s: set<CameraId>)
    requires Lists(ids, s) && ids != []
    ensures ids[|ids| - 1] in s && ids[|ids| - 1] !in ids[..|ids| - 1]
    ensures Lists(ids[..|ids| - 1], s - {ids[|ids| - 1]})
  {
    var front, last := ids[..|ids| - 1], ids[|ids| - 1];
    assert ids == front + [last];
  }

  lemma ListMembers(ids: seq<CameraId>, s: set<CameraId>)
    requires Lists(ids, s)
    ensures Distinct(ids) && Keys(ids) == s && (ids == [] <==> s == {})
  {
    assert ids != [] ==> ids[0] in ids;
  }

  lemma {:induction false} ListSize(ids: seq<CameraId>, s: set<CameraId>)
    requires Lists(ids, s)
    ensures |ids| == |s| && Distinct(ids) && Keys(ids) == s
  {
    hide Lists;
    ListMembers(ids, s);
    if ids != [] {
      ListFront(ids, s);
      ListSize(ids[..|ids| - 1], s - {ids[|ids| - 1]});
    }
  }

  function Missing(current: map<CameraId, Signature>, desired: Desired): set<CameraId> {
    desired.Keys - current.Keys
  }

  function Changed(current: map<CameraId, Signature>, desired: Desired): set<CameraId> {
    set id | id in current && id in desired && current[id] != desired[id].stream
  }

  function Unchanged(current: map<CameraId, Signature>, desired: Desired): set<CameraId> {
    set id | id in current && id in desired && current[id] == desired[id].stream
  }

  lemma DesiredSize(current: map<CameraId, Signature>, desired: Desired)
    ensures |Missing(current, desired)| + |Changed(current, desired)| + |Unchanged(current, desired)| == |desired|
  {
    var a, b, c := Missing(current, desired), Changed(current, desired), Unchanged(current, desired);
    assert desired.Keys == a + b + c;
    assert |a + b| == |a| + |b|;
    assert |a + b + c| == |a + b| + |c|;
  }

  lemma JoinedList(a: seq<CameraId>, b: seq<CameraId>, s: set<CameraId>, t: set<CameraId>)
    requires Lists(a, s) && Lists(b, t) && s !! t
    ensures Distinct(a + b) && |a + b| == |s| + |t|
    ensures forall id :: id in a + b <==> id in s || id in t
  {
    ListSize(a, s);
    ListSize(b, t);
    assert forall i :: 0 <= i < |a| ==> a[i] in s;
    assert forall i :: 0 <= i < |b| ==> b[i] in t;
  }

  /** The list of cameras that a pass starts. */
  lemma StartList(d: Diff, current: map<CameraId, Signature>, desired: Desired)
    requires IsDiff(d, current, desired)
    ensures Distinct(d.toStart + d.toRestart)
    ensures forall id :: id in d.toStart + d.toRestart <==>
      id in Missing(current, desired) || id in Changed(current, desired)
    ensures |d.toStart + d.toRestart| + |Unchanged(current, desired)| == |desired|
    ensures Keys(d.toStop) == current.Keys - desired.Keys
    ensures Keys(d.toRestart) == Changed(current, desired) && Keys(d.toUpdate) == Unchanged(current, desired)
  {
    hide Lists, Distinct, Keys;
    ListSize(d.toStop, current.Keys - desired.Keys);
    ListSize(d.toRestart, Changed(current, desired));
    ListSize(d.toUpdate, Unchanged(current, desired));
    JoinedList(d.toStart, d.toRestart, Missing(current, desired), Changed(current, desired));
    DesiredSize(current, desired);
  }

  lemma KeptWorkers(d: Diff, w: Workers, desired: Desired)
    requires IsDiff(d, Signatures(w), desired)
    ensures Kept(d, w, desired).Keys == Unchanged(Signatures(w), desired)
    ensures forall id :: id in Kept(d, w, desired) ==>
      id in w && id in desired && Kept(d, w, desired)[id] == w[id].(config := desired[id])
  {
    hide IsDiff;
    StartList(d, Signatures(w), desired);
    assert forall id :: id in d.toUpdate <==> id in Keys(d.toUpdate);
  }

  /** What the starts of a pass begin with. */
  ghost predicate Prepared(kept: Workers, ids: seq<CameraId>, running: set<CameraId>, desired: Desired) {
    && kept.Keys <= running && |kept| <= |running| && Distinct(ids)
    && (forall id :: id in ids ==> id in desired && id !in kept)
    && (forall id :: id in kept ==> id in desired && id !in ids && kept[id].config == desired[id])
    && (forall id :: id in desired ==> id in kept || id in ids)
    && |kept| + |ids| == |desired|
  }

  lemma PassPrepares(d: Diff, w: Workers, desired: Desired)
    requires IsDiff(d, Signatures(w), desired)
    ensures Prepared(Kept(d, w, desired), d.toStart + d.toRestart, w.Keys, desired)
  {
    hide IsDiff, Kept, Distinct, Keys;
    StartList(d, Signatures(w), desired);
    KeptWorkers(d, w, desired);
    SubsetSize(Kept(d, w, desired).Keys, w.Keys);
  }

  lemma FullPassSettles(d: Diff, f: Fleet, desired: Desired, maxCameras: int, outcomes: CameraId -> Outcome)
    requires IsDiff(d, Signatures(f.workers), desired) && WellKeyed(desired)
    requires |f.workers| <= maxCameras && f.workers.Keys !! f.rejected
    requires forall id :: id in desired ==> outcomes(id) == Started
    requires !Nothing(d)
    ensures forall id :: id in d.toStart + d.toRestart ==> id in desired
    ensures !Pass(d, f, desired, maxCameras, outcomes).raised
    ensures Settled(Pass(d, f, desired, maxCameras, outcomes).fleet, desired, maxCameras)
  {
    hide IsDiff, StartAll, Distinct, Kept, Settled, Decided, OnlyTouches, WellKeyed;
    PassPrepares(d, f.workers, desired);
    var kept, ids := Kept(d, f.workers, desired), d.toStart + d.toRestart;
    var g := Fleet(kept, f.rejected * desired.Keys);
    StartAllDecides(g, ids, desired, maxCameras, outcomes);
    SettledWhenDecided(kept, ids, desired, f.workers.Keys, f.rejected,
                       StartAll(g, ids, desired, maxCameras, outcomes).fleet, maxCameras);
  }

  /** Kept cameras and decided cameras together are a settled fleet. */
  lemma SettledWhenDecided(kept: Workers, ids: seq<CameraId>, desired: Desired, running: set<CameraId>,
                           rejected: set<CameraId>, f: Fleet, maxCameras: int)
    requires Decided(f, ids, desired, maxCameras)
    requires Prepared(kept, ids, running, desired) && running !! rejected
    requires OnlyTouches(Fleet(kept, rejected * desired.Keys), f, ids)
    requires |f.workers| == C.Min(maxCameras, |kept| + |ids|)
    ensures Settled(f, desired, maxCameras)
  {
    assert f.workers.Keys + f.rejected == desired.Keys;
  }

  lemma {:induction false} SubsetSize<T>(a: set<T>, b: set<T>)
    requires a <= b
    ensures |a| <= |b|
  {
    assert b == a + (b - a);
    assert |b| == |a| + |b - a|;
  }

  /** A pass in which every start succeeds settles the fleet, except for one case:
      nothing running, nothing desired, and a camera still marked rejected.  The
      early return then leaves the stale mark. */
  lemma PassSettles(d: Diff, f: Fleet, desired: Desired, maxCameras: int, outcomes: CameraId -> Outcome)
    requires IsDiff(d, Signatures(f.workers), desired) && WellKeyed(desired)
    requires |f.workers| <= maxCameras && f.workers.Keys !! f.rejected
    requires forall id :: id in desired ==> outcomes(id) == Started
    ensures forall id :: id in d.toStart + d.toRestart ==> id in desired
    ensures !Pass(d, f, desired, maxCameras, outcomes).raised
    ensures Settled(Pass(d, f, desired, maxCameras, outcomes).fleet, desired, maxCameras) <==>
            !(f.workers == map[] && desired == map[] && f.rejected != {})
  {
    StartList(d, Signatures(f.workers), desired);
    if Nothing(d) {
      NothingMeans(d, f, desired);
    } else {
      FullPassSettles(d, f, desired, maxCameras, outcomes);
      SomethingMeans(d, f, desired);
    }
  }

  lemma NothingMeans(d: Diff, f: Fleet, desired: Desired)
    requires IsDiff(d, Signatures(f.workers), desired) && Nothing(d)
    ensures f.workers == map[] && desired == map[]
  {
    forall id ensures id !in f.workers && id !in desired {
      assert id in f.workers ==> id in d.toStop || id in d.toRestart || id in d.toUpdate;
      assert id in desired ==> id in d.toStart || id in d.toRestart || id in d.toUpdate;
    }
    assert f.workers.Keys == {} && desired.Keys == {};
  }

  lemma SomethingMeans(d: Diff, f: Fleet, desired: Desired)
    requires IsDiff(d, Signatures(f.workers), desired) && !Nothing(d)
    ensures f.workers != map[] || desired != map[]
  {
    if d.toStart != [] {
      assert d.toStart[0] in d.toStart;
    } else if d.toStop != [] {
      assert d.toStop[0] in d.toStop;
    } else if d.toRestart != [] {
      assert d.toRestart[0] in d.toRestart;
    } else {
      assert d.toUpdate[0] in d.toUpdate;
    }
  }

  // ---- A second pass ----

  lemma {:induction false} StartAllFull(f: Fleet, ids: seq<CameraId>, desired: Desired, hardCeiling: int,
                                        outcomes: CameraId -> Outcome)
    requires forall id :: id in ids ==> id in desired && id in f.rejected
    requires WellKeyed(desired) && (ids != [] ==> |f.workers| >= hardCeiling)
    ensures StartAll(f, ids, desired, hardCeiling, outcomes) == Attempt(f, false)
  {
    if ids != [] {
      var front, id := ids[..|ids| - 1], ids[|ids| - 1];
      assert ids == front + [id];
      StartAllFull(f, front, desired, hardCeiling, outcomes);
      assert id in ids && desired[id].id == id;
      assert f.rejected + {id} == f.rejected;
    }
  }

  /** A settled fleet is left exactly as it is by another pass on the same input. */
  lemma SecondPassChangesNothing(d: Diff, f: Fleet, desired: Desired, maxCameras: int, outcomes: CameraId -> Outcome)
    requires IsDiff(d, Signatures(f.workers), desired) && WellKeyed(desired)
    requires Settled(f, desired, maxCameras)
    ensures forall id :: id in d.toStart + d.toRestart ==> id in desired
    ensures Pass(d, f, desired, maxCameras, outcomes) == Attempt(f, false)
  {
    hide IsDiff, StartAll, Distinct, Kept, Keys, Settled;
    StartList(d, Signatures(f.workers), desired);
    KeptIsSame(d, f, desired, maxCameras);
    SettledDiff(f, desired, maxCameras);
    var ids := d.toStart + d.toRestart;
    forall id | id in ids ensures id in desired && id in f.rejected && |f.workers| >= maxCameras {
      FullBox(f, desired, maxCameras, id);
    }
    if ids != [] {
      assert ids[0] in ids;
    }
    StartAllFull(f, ids, desired, maxCameras, outcomes);
  }

  /** In a settled fleet nothing differs but what is rejected. */
  lemma SettledDiff(f: Fleet, desired: Desired, maxCameras: int)
    requires Settled(f, desired, maxCameras)
    ensures f.rejected * desired.Keys == f.rejected
    ensures Changed(Signatures(f.workers), desired) == {}
    ensures Missing(Signatures(f.workers), desired) == f.rejected
    ensures Unchanged(Signatures(f.workers), desired) == f.workers.Keys
  {
  }

  lemma KeptIsSame(d: Diff, f: Fleet, desired: Desired, maxCameras: int)
    requires IsDiff(d, Signatures(f.workers), desired) && Settled(f, desired, maxCameras)
    ensures Kept(d, f.workers, desired) == f.workers
  {
    hide IsDiff, Kept;
    KeptWorkers(d, f.workers, desired);
    SettledDiff(f, desired, maxCameras);
    var kept := Kept(d, f.workers, desired);
    assert forall id :: id in kept ==> kept[id] == f.workers[id];
    assert kept == f.workers;
  }

  lemma FullBox(f: Fleet, desired: Desired, maxCameras: int, id: CameraId)
    requires Settled(f, desired, maxCameras) && id in f.rejected
    ensures |f.workers| >= maxCameras && id in desired
  {
    assert |f.workers.Keys + f.rejected| == |f.workers.Keys| + |f.rejected|;
  }

  // ---- A camera whose worker cannot be built ----

  lemma {:induction false} StartsAtMost(ids: seq<CameraId>, outcomes: CameraId -> Outcome)
    ensures Starts(ids, outcomes) <= |ids|
  {
    if ids != [] {
      StartsAtMost(ids[..|ids| - 1], outcomes);
    }
  }

  /** With room for the whole list, an exception leaves everything from there on down. */
  lemma RaisingBlocks(f: Fleet, ids: seq<CameraId>, desired: Desired, hardCeiling: int, outcomes: CameraId -> Outcome,
                      i: nat, j: nat)
    requires forall id :: id in ids ==> id in desired && id !in f.workers
    requires WellKeyed(desired) && Distinct(ids) && |f.workers| + |ids| <= hardCeiling
    requires i <= j < |ids| && outcomes(ids[i]) == Raised
    ensures var a := StartAll(f, ids, desired, hardCeiling, outcomes); a.raised && ids[j] !in a.fleet.workers
  {
    hide StartAll, Distinct, OnlyTouches, Fated;
    StartsAtMost(ids[..i], outcomes);
    assert StopsAt(|f.workers|, ids, i, hardCeiling, outcomes);
    StartAllStops(f, ids, desired, hardCeiling, outcomes);
    ReachIsFirst(|f.workers|, ids, hardCeiling, outcomes);
  }

  lemma PlacesInOrder(ids: seq<CameraId>, s: set<CameraId>, a: CameraId, b: CameraId) returns (i: nat, j: nat)
    requires Lists(ids, s) && a in s && b in s && a.rank <= b.rank
    ensures i <= j < |ids| && ids[i] == a && ids[j] == b
  {
    i :| 0 <= i < |ids| && ids[i] == a;
    j :| 0 <= j < |ids| && ids[j] == b;
  }

  lemma NotIdle(d: Diff, id: CameraId)
    requires id in d.toStart
    ensures !Nothing(d)
  {
  }

  /** The camera is waiting to be started by the pass, behind `bad`: it is missing and
      sorted no earlier, or it runs and has to be restarted. */
  predicate WaitsBehind(current: map<CameraId, Signature>, desired: Desired, bad: CameraId, later: CameraId) {
    && later in desired
    && (if later in current then current[later] != desired[later].stream else bad.rank <= later.rank)
  }

  lemma PlacesInPass(d: Diff, current: map<CameraId, Signature>, desired: Desired, bad: CameraId, later: CameraId)
    returns (i: nat, j: nat)
    requires IsDiff(d, current, desired) && bad in desired && bad !in current
    requires WaitsBehind(current, desired, bad, later)
    ensures i <= j < |d.toStart + d.toRestart|
    ensures bad in d.toStart && (d.toStart + d.toRestart)[i] == bad && (d.toStart + d.toRestart)[j] == later
  {
    if later in current {
      assert bad in d.toStart && later in d.toRestart;
      i :| 0 <= i < |d.toStart| && d.toStart[i] == bad;
      var k :| 0 <= k < |d.toRestart| && d.toRestart[k] == later;
      j := |d.toStart| + k;
    } else {
      i, j := PlacesInOrder(d.toStart, desired.Keys - current.Keys, bad, later);
    }
  }

  /** On a box with room for everything desired, a missing camera whose worker cannot
      be built ends the pass.  Every missing camera sorted after it stays down; and
      every running camera that has to be restarted, whatever its place, has been
      stopped and stays down too.  They are all missing then, so the next pass ends
      the same way. */
  lemma RaisingBlocksLater(d: Diff, f: Fleet, desired: Desired, maxCameras: int, outcomes: CameraId -> Outcome,
                           bad: CameraId, later: CameraId)
    requires IsDiff(d, Signatures(f.workers), desired) && WellKeyed(desired)
    requires |desired| <= maxCameras
    requires bad in desired && bad !in f.workers && outcomes(bad) == Raised
    requires WaitsBehind(Signatures(f.workers), desired, bad, later)
    ensures forall id :: id in d.toStart + d.toRestart ==> id in desired
    ensures var a := Pass(d, f, desired, maxCameras, outcomes);
      a.raised && bad !in a.fleet.workers && later !in a.fleet.workers
  {
    hide StartAll, Distinct, Keys, Kept, Lists, Nothing, WaitsBehind;
    StartList(d, Signatures(f.workers), desired);
    KeptWorkers(d, f.workers, desired);
    var kept, ids := Kept(d, f.workers, desired), d.toStart + d.toRestart;
    var i, j := PlacesInPass(d, Signatures(f.workers), desired, bad, later);
    NotIdle(d, bad);
    RaisingBlocks(Fleet(kept, f.rejected * desired.Keys), ids, desired, maxCameras, outcomes, i, j);
    RaisingBlocks(Fleet(kept, f.rejected * desired.Keys), ids, desired, maxCameras, outcomes, i, i);
  }

  // ---- The supervisor ----

  /** An assignment of the backend: a configuration, or one that does not parse. */
  type Assignment = Option<CameraConfig>

  /** The desired cameras: malformed assignments are skipped, and a later
      assignment of the same camera replaces an earlier one. */
  function DesiredOf(assignments: seq<Assignment>): Desired {
    if assignments == [] then map[]
    else
      var before, a := DesiredOf(assignments[..|assignments| - 1]), assignments[|assignments| - 1];
      if a.None? then before else before[a.value.id := a.value]
  }

  /** Place `i` has the configuration, and no later well-formed assignment is of the
      same camera. */
  ghost predicate LastSays(assignments: seq<Assignment>, c: CameraConfig, i: int) {
    && 0 <= i < |assignments| && assignments[i] == Some(c)
    && forall j :: i < j < |assignments| && assignments[j].Some? ==> assignments[j].value.id != c.id
  }

  /** A camera is desired exactly when some well-formed assignment has its id, and then
      as the last of them says, whatever else is malformed. */
  ghost predicate IsDesired(assignments: seq<Assignment>, desired: Desired) {
    && (forall i :: 0 <= i < |assignments| && assignments[i].Some? ==> assignments[i].value.id in desired)
    && (forall id :: id in desired ==> desired[id].id == id && exists i :: LastSays(assignments, desired[id], i))
  }

  lemma {:induction false} DesiredIsDesired(assignments: seq<Assignment>)
    ensures IsDesired(assignments, DesiredOf(assignments))
  {
    if assignments != [] {
      var n := |assignments| - 1;
      DesiredIsDesired(assignments[..n]);
      DesiredSnoc(assignments, DesiredOf(assignments[..n]), DesiredOf(assignments));
    }
  }

  lemma DesiredSnoc(assignments: seq<Assignment>, before: Desired, after: Desired)
    requires assignments != [] && IsDesired(assignments[..|assignments| - 1], before)
    requires var last := assignments[|assignments| - 1];
      after == if last.None? then before else before[last.value.id := last.value]
    ensures IsDesired(assignments, after)
  {
    var n := |assignments| - 1;
    var front, last := assignments[..n], assignments[n];
    forall id | id in after ensures after[id].id == id && exists i :: LastSays(assignments, after[id], i) {
      if last.Some? && last.value.id == id {
        assert LastSays(assignments, after[id], n);
      } else {
        var i :| LastSays(front, before[id], i);
        assert LastSays(assignments, after[id], i);
      }
    }
  }

  lemma {:induction false} DesiredWellKeyed(assignments: seq<Assignment>)
    ensures WellKeyed(DesiredOf(assignments))
  {
    if assignments != [] {
      DesiredWellKeyed(assignments[..|assignments| - 1]);
    }
  }

  lemma {:induction false} RaisedStays(f: Fleet, ids: seq<CameraId>, i: nat, desired: Desired, hardCeiling: int,
                                       outcomes: CameraId -> Outcome)
    requires i <= |ids| && forall id :: id in ids ==> id in desired
    requires StartAll(f, ids[..i], desired, hardCeiling, outcomes).raised
    ensures StartAll(f, ids, desired, hardCeiling, outcomes) == StartAll(f, ids[..i], desired, hardCeiling, outcomes)
    decreases |ids|
  {
    if i == |ids| {
      assert ids[..i] == ids;
    } else {
      var front := ids[..|ids| - 1];
      assert front[..i] == ids[..i];
      RaisedStays(f, front, i, desired, hardCeiling, outcomes);
    }
  }

  lemma ToStartDesired(d: Diff, current: map<CameraId, Signature>, desired: Desired)
    requires IsDiff(d, current, desired)
    ensures forall id :: id in d.toStart + d.toRestart ==> id in desired
  {
    hide IsDiff;
    StartList(d, current, desired);
  }

  /** The desired cameras, read one assignment after another. */
  method ReadAssignments(assignments: seq<Assignment>) returns (desired: Desired)
    ensures desired == DesiredOf(assignments) && IsDesired(assignments, desired)
  {
    DesiredIsDesired(assignments);
    hide IsDesired;
    desired := map[];
    for i := 0 to |assignments|
      invariant desired == DesiredOf(assignments[..i])
    {
      assert assignments[..i + 1][..i] == assignments[..i];
      var a := assignments[i];
      if a.Some? {
        desired := desired[a.value.id := a.value];
      }
    }
    assert assignments[..|assignments|] == assignments;
  }

  class WorkerSupervisor {
    const maxCameras: int
    const capacity: C.CapacityTracker
    var workers: Workers
    var rejected: set<CameraId>

    ghost function View(): Fleet
      reads this
    {
      Fleet(workers, rejected)
    }

    /** The admission limit. */
    ghost function HardCeiling(): int
      reads this, capacity
    {
      C.Max(capacity.capacity, maxCameras)
    }

    constructor (maxCameras: int, capacity: C.CapacityTracker)
      requires capacity.ceiling == maxCameras
      ensures View() == Fleet(map[], {}) && this.maxCameras == maxCameras && this.capacity == capacity
    {
      this.maxCameras, this.capacity := maxCameras, capacity;
      workers, rejected := map[], {};
    }

    method StartWorker(c: CameraConfig, o: Outcome) returns (raised: bool)
      modifies this
      ensures View() == Start(old(View()), c, HardCeiling(), o)
      ensures raised == Raises(old(View()), c, HardCeiling(), o)
    {
      if c.id in workers {
        return false;
      }
      var hardCeiling := C.Max(capacity.capacity, maxCameras);
      if |workers| >= hardCeiling {
        rejected := rejected + {c.id};
        return false;
      }
      match o {
        case Raised => return true;
        case Started =>
          workers := workers[c.id := CameraWorker(c, true)];
          rejected := rejected - {c.id};
        case Failed =>
      }
      return false;
    }

    method StopWorkers(ids: seq<CameraId>)
      modifies this`workers
      ensures workers == old(workers) - Keys(ids)
    {
      for i := 0 to |ids|
        invariant workers == old(workers) - Keys(ids[..i])
      {
        assert ids[..i + 1] == ids[..i] + [ids[i]];
        assert Keys(ids[..i + 1]) == Keys(ids[..i]) + {ids[i]};
        workers := workers - {ids[i]};
      }
      assert ids[..|ids|] == ids;
    }

    method UpdateWorkers(ids: seq<CameraId>, desired: Desired)
      requires forall id :: id in ids ==> id in workers && id in desired
      modifies this`workers
      ensures workers == Updated(old(workers), ids, desired)
    {
      for i := 0 to |ids|
        invariant workers == Updated(old(workers), ids[..i], desired)
      {
        var id := ids[i];
        assert id in ids;
        assert ids[..i + 1] == ids[..i] + [id];
        workers := workers[id := workers[id].(config := desired[id])];
      }
      assert ids[..|ids|] == ids;
    }

    /** The loop that starts workers; an exception leaves it. */
    method StartWorkers(ids: seq<CameraId>, desired: Desired, outcomes: CameraId -> Outcome) returns (raised: bool)
      requires forall id :: id in ids ==> id in desired
      modifies this
      ensures Attempt(View(), raised) == StartAll(old(View()), ids, desired, HardCeiling(), outcomes)
    {
      hide StartAll, Start, Raises;
      NoneStarted(View(), ids, desired, HardCeiling(), outcomes);
      for i := 0 to |ids|
        invariant Attempt(View(), false) == StartAll(old(View()), ids[..i], desired, HardCeiling(), outcomes)
      {
        StartAllSnoc(old(View()), ids, i, desired, HardCeiling(), outcomes);
        raised := StartWorker(desired[ids[i]], outcomes(ids[i]));
        if raised {
          RaisedStays(old(View()), ids, i + 1, desired, HardCeiling(), outcomes);
          return;
        }
      }
      assert ids[..|ids|] == ids;
      return false;
    }

    /** What a pass does with its difference. */
    method Apply(d: Diff, desired: Desired, outcomes: CameraId -> Outcome) returns (raised: bool)
      requires IsDiff(d, Signatures(workers), desired)
      requires forall id :: id in d.toStart + d.toRestart ==> id in desired
      modifies this
      ensures Attempt(View(), raised) == Pass(d, old(View()), desired, HardCeiling(), outcomes)
    {
      hide IsDiff, Updated, StartAll, Keys;
      if d.toStart == [] && d.toStop == [] && d.toRestart == [] && d.toUpdate == [] {
        return false;
      }
      UpdatesRemain(d, workers, desired);
      StopWorkers(d.toStop);
      StopWorkers(d.toRestart);
      UpdateWorkers(d.toUpdate, desired);
      rejected := rejected * desired.Keys;
      raised := StartWorkers(d.toStart + d.toRestart, desired, outcomes);
    }

    /** One uninterrupted pass; `None` stands for an unreachable backend. */
    method ReconcileOnce(assignments: Option<seq<Assignment>>, outcomes: CameraId -> Outcome)
      returns (raised: bool, ghost d: Diff)
      modifies this
      ensures assignments.None? ==> View() == old(View()) && !raised
      ensures assignments.Some? ==> var desired := DesiredOf(assignments.value);
        && IsDesired(assignments.value, desired)
        && IsDiff(d, Signatures(old(workers)), desired)
        && (forall id :: id in d.toStart + d.toRestart ==> id in desired)
        && Attempt(View(), raised) == Pass(d, old(View()), desired, HardCeiling(), outcomes)
    {
      raised := false;
      d := Diff([], [], [], []);
      if assignments.None? {
        return;
      }
      hide IsDiff, Pass, DesiredOf, IsDesired;
      var desired := ReadAssignments(assignments.value);
      var diff := ComputeDiff(Signatures(workers), desired);
      d := diff;
      ToStartDesired(d, Signatures(workers), desired);
      raised := Apply(diff, desired, outcomes);
    }

    /** `_stop_all`. */
    method StopAll()
      modifies this`workers
      ensures workers == map[]
    {
      var ids := Sorted(workers.Keys);
      ListSize(ids, workers.Keys);
      StopWorkers(ids);
    }
  }

  lemma UpdatesRemain(d: Diff, w: Workers, desired: Desired)
    requires IsDiff(d, Signatures(w), desired)
    ensures forall id :: id in d.toUpdate ==> id in w - Keys(d.toStop) - Keys(d.toRestart) && id in desired
  {
    hide IsDiff;
    StartList(d, Signatures(w), desired);
    assert forall id :: id in d.toUpdate <==> id in Keys(d.toUpdate);
  }
}
