/** The greedy overlap tracker: every pose of a frame ends in exactly one track. */
module PersonTracking {
  import opened Common
  import opened Sequences
  import opened Geometry
  import opened Overlap
  import opened SequenceEngine

  datatype Pose = Pose(bbox: Box, pose: string)

  /** `state` is the track's own sequence state, carried along by reference. */
  datatype Track = Track(id: nat, pose: Pose, state: SequenceState, lastSeenAt: real, missedFrames: nat)

  // ---- Unclaimed poses ----

  /** `list.remove`: drops the first occurrence. */
  function Remove(xs: seq<nat>, x: nat): seq<nat> {
    if xs == [] then [] else if xs[0] == x then xs[1..] else [xs[0]] + Remove(xs[1..], x)
  }

  /** The poses, by index, that are still unclaimed after the given claims. */
  function Free(n: nat, claims: seq<Option<nat>>): seq<nat> {
    if claims == [] then Range(n)
    else
      var before, c := Free(n, claims[..|claims| - 1]), claims[|claims| - 1];
      if c.None? then before else Remove(before, c.value)
  }

  /** The poses claimed, in the order of the claiming tracks. */
  function Claimed(claims: seq<Option<nat>>): seq<nat> {
    if claims == [] then []
    else
      var before, c := Claimed(claims[..|claims| - 1]), claims[|claims| - 1];
      if c.None? then before else before + [c.value]
  }

  // ---- What a track may claim ----

  /** `free[k]` overlaps the box enough, at least as much as every other free pose,
      and more than every free pose before it. */
  ghost predicate BestAt(box: Box, poses: seq<Pose>, threshold: real, free: seq<nat>, k: nat) {
    && k < |free|
    && (forall j :: 0 <= j < |free| ==> free[j] < |poses|)
    && Iou(box, poses[free[k]].bbox) > 0.0
    && Iou(box, poses[free[k]].bbox) >= threshold
    && (forall j :: 0 <= j < |free| ==> Iou(box, poses[free[j]].bbox) <= Iou(box, poses[free[k]].bbox))
    && (forall j :: 0 <= j < k ==> Iou(box, poses[free[j]].bbox) < Iou(box, poses[free[k]].bbox))
  }

  /** No free pose overlaps the box enough. */
  ghost predicate NoneQualifies(box: Box, poses: seq<Pose>, threshold: real, free: seq<nat>) {
    && (forall j :: 0 <= j < |free| ==> free[j] < |poses|)
    && (forall j :: 0 <= j < |free| ==>
          !(Iou(box, poses[free[j]].bbox) > 0.0 && Iou(box, poses[free[j]].bbox) >= threshold))
  }

  ghost predicate Chooses(box: Box, poses: seq<Pose>, threshold: real, free: seq<nat>, c: Option<nat>) {
    if c.None? then NoneQualifies(box, poses, threshold, free)
    else exists k :: 0 <= k < |free| && free[k] == c.value && BestAt(box, poses, threshold, free, k)
  }

  /** Greedy in track order: each track chooses among what earlier ones left. */
  ghost predicate Greedy(tracks: seq<Track>, poses: seq<Pose>, threshold: real, claims: seq<Option<nat>>) {
    |claims| <= |tracks| &&
    forall i :: 0 <= i < |claims| ==>
      Chooses(tracks[i].pose.bbox, poses, threshold, Free(|poses|, claims[..i]), claims[i])
  }

  /** The choice is determined: at most one claim fits. */
  lemma ChoiceUnique(box: Box, poses: seq<Pose>, threshold: real, free: seq<nat>, c: Option<nat>, d: Option<nat>)
    requires Chooses(box, poses, threshold, free, c) && Chooses(box, poses, threshold, free, d)
    ensures c == d
  {
    hide Iou;
    if c.Some? {
      var k :| 0 <= k < |free| && free[k] == c.value && BestAt(box, poses, threshold, free, k);
      if d.Some? {
        var l :| 0 <= l < |free| && free[l] == d.value && BestAt(box, poses, threshold, free, l);
        assert k == l;
      }
    }
  }

  lemma {:induction false} GreedyDetermined(tracks: seq<Track>, poses: seq<Pose>, threshold: real,
                                            claims: seq<Option<nat>>, other: seq<Option<nat>>)
    requires Greedy(tracks, poses, threshold, claims) && Greedy(tracks, poses, threshold, other)
    requires |claims| == |other|
    ensures claims == other
  {
    hide Chooses, Free;
    if claims != [] {
      var n := |claims| - 1;
      GreedyPrefix(tracks, poses, threshold, claims);
      GreedyPrefix(tracks, poses, threshold, other);
      GreedyDetermined(tracks, poses, threshold, claims[..n], other[..n]);
      ChoiceUnique(tracks[n].pose.bbox, poses, threshold, Free(|poses|, claims[..n]), claims[n], other[n]);
      assert claims == claims[..n] + [claims[n]] && other == other[..n] + [other[n]];
    }
  }

  lemma GreedyPrefix(tracks: seq<Track>, poses: seq<Pose>, threshold: real, claims: seq<Option<nat>>)
    requires Greedy(tracks, poses, threshold, claims) && claims != []
    ensures Greedy(tracks, poses, threshold, claims[..|claims| - 1])
  {
    hide Chooses, Free;
    var front := claims[..|claims| - 1];
    forall i | 0 <= i < |front|
      ensures Chooses(tracks[i].pose.bbox, poses, threshold, Free(|poses|, front[..i]), front[i])
    {
      assert front[..i] == claims[..i];
    }
  }

  // ---- Claimed and free poses partition the frame ----

  lemma {:induction false} RemoveAt(xs: seq<nat>, x: nat, k: nat)
    requires Increasing(xs) && k < |xs| && xs[k] == x
    ensures Remove(xs, x) == xs[..k] + xs[k + 1..]
  {
    if k > 0 {
      assert xs[0] < xs[k];
      RemoveAt(xs[1..], x, k - 1);
      assert [xs[0]] + (xs[1..][..k - 1] + xs[1..][k..]) == xs[..k] + xs[k + 1..];
    }
  }

  lemma RemoveMeaning(xs: seq<nat>, x: nat, k: nat)
    requires Increasing(xs) && k < |xs| && xs[k] == x
    ensures Remove(xs, x) == xs[..k] + xs[k + 1..]
    ensures Increasing(Remove(xs, x))
    ensures multiset([x]) + multiset(Remove(xs, x)) == multiset(xs)
  {
    RemoveAt(xs, x, k);
    CutOut(xs, k);
  }

  lemma CutOut(xs: seq<nat>, k: nat)
    requires Increasing(xs) && k < |xs|
    ensures Increasing(xs[..k] + xs[k + 1..])
    ensures multiset([xs[k]]) + multiset(xs[..k] + xs[k + 1..]) == multiset(xs)
  {
    assert xs == xs[..k] + [xs[k]] + xs[k + 1..];
  }

  ghost predicate Partition(n: nat, claimed: seq<nat>, free: seq<nat>) {
    Increasing(free) && multiset(claimed) + multiset(free) == multiset(Range(n))
  }

  lemma {:induction false} ClaimsPartition(tracks: seq<Track>, poses: seq<Pose>, threshold: real,
                                           claims: seq<Option<nat>>)
    requires Greedy(tracks, poses, threshold, claims)
    ensures Partition(|poses|, Claimed(claims), Free(|poses|, claims))
  {
    hide Iou, BestAt, NoneQualifies;
    if claims == [] {
    } else {
      var n := |claims| - 1;
      GreedyPrefix(tracks, poses, threshold, claims);
      ClaimsPartition(tracks, poses, threshold, claims[..n]);
      PartitionStep(|poses|, tracks[n].pose.bbox, poses, threshold, claims);
    }
  }

  /** Claiming the free pose at place `k`. */
  lemma ClaimOne(n: nat, claimed: seq<nat>, free: seq<nat>, x: nat, k: nat)
    requires Partition(n, claimed, free) && k < |free| && free[k] == x
    ensures Partition(n, claimed + [x], Remove(free, x))
  {
    hide Range, Remove;
    RemoveMeaning(free, x, k);
    assert multiset(claimed + [x]) == multiset(claimed) + multiset([x]);
  }

  lemma PartitionStep(n: nat, box: Box, poses: seq<Pose>, threshold: real, claims: seq<Option<nat>>)
    requires claims != []
    requires Partition(n, Claimed(claims[..|claims| - 1]), Free(n, claims[..|claims| - 1]))
    requires Chooses(box, poses, threshold, Free(n, claims[..|claims| - 1]), claims[|claims| - 1])
    ensures Partition(n, Claimed(claims), Free(n, claims))
  {
    hide Iou, Range, Remove, Partition;
    var free, claimed, c := Free(n, claims[..|claims| - 1]), Claimed(claims[..|claims| - 1]), claims[|claims| - 1];
    if c.Some? {
      var k :| 0 <= k < |free| && free[k] == c.value && BestAt(box, poses, threshold, free, k);
      ClaimOne(n, claimed, free, c.value, k);
    }
  }

  // ---- The outcome of one update ----

  function Aged(ts: seq<Track>, now: real, ttl: real): seq<Track> {
    if ts == [] then []
    else if now - ts[|ts| - 1].lastSeenAt > ttl then Aged(ts[..|ts| - 1], now, ttl)
    else Aged(ts[..|ts| - 1], now, ttl) + [ts[|ts| - 1]]
  }

  /** A surviving track after its turn. */
  function AfterTurn(t: Track, c: Option<nat>, poses: seq<Pose>, now: real): Track
    requires c.Some? ==> c.value < |poses|
  {
    if c.None? then t.(missedFrames := t.missedFrames + 1)
    else t.(pose := poses[c.value], lastSeenAt := now, missedFrames := 0)
  }

  ghost predicate IdsIncreasing(ts: seq<Track>, bound: nat) {
    && (forall i, j :: 0 <= i < j < |ts| ==> ts[i].id < ts[j].id)
    && (forall i :: 0 <= i < |ts| ==> ts[i].id < bound)
  }

  ghost predicate OwnStates(ts: seq<Track>) {
    forall i, j :: 0 <= i < j < |ts| ==> ts[i].state != ts[j].state
  }

  /** Every survivor has taken its turn. */
  ghost predicate TurnsTaken(alive: seq<Track>, after: seq<Track>, claims: seq<Option<nat>>, poses: seq<Pose>,
                             now: real) {
    && |alive| == |after| == |claims|
    && (forall i :: 0 <= i < |claims| && claims[i].Some? ==> claims[i].value < |poses|)
    && (forall i :: 0 <= i < |claims| ==> after[i] == AfterTurn(alive[i], claims[i], poses, now))
  }

  /** One new track per leftover pose, numbered on from `firstId`. */
  ghost predicate Started(begun: seq<Track>, free: seq<nat>, firstId: nat, poses: seq<Pose>, now: real) {
    && |begun| == |free|
    && (forall k :: 0 <= k < |free| ==> free[k] < |poses|)
    && (forall k :: 0 <= k < |free| ==>
          begun[k].id == firstId + k && begun[k].pose == poses[free[k]] &&
          begun[k].lastSeenAt == now && begun[k].missedFrames == 0)
  }

  /** The survivors that claimed a pose, in order. */
  function Taken(ts: seq<Track>, claims: seq<Option<nat>>): seq<Track>
    requires |ts| == |claims|
  {
    if ts == [] then []
    else
      var before := Taken(ts[..|ts| - 1], claims[..|claims| - 1]);
      if claims[|claims| - 1].Some? then before + [ts[|ts| - 1]] else before
  }

  /** Which pose each returned track carries. */
  function Order(n: nat, claims: seq<Option<nat>>): seq<nat> {
    Claimed(claims) + Free(n, claims)
  }

  /** The returned tracks carry, each, the pose of this frame that `order` gives,
      seen now; their ids increase. */
  ghost predicate Carries(matched: seq<Track>, order: seq<nat>, poses: seq<Pose>, now: real) {
    && |matched| == |order|
    && (forall k :: 0 <= k < |order| ==> order[k] < |poses|)
    && (forall k :: 0 <= k < |order| ==>
          matched[k].pose == poses[order[k]] && matched[k].lastSeenAt == now && matched[k].missedFrames == 0)
    && (forall i, j :: 0 <= i < j < |matched| ==> matched[i].id < matched[j].id)
  }

  lemma {:induction false} AgedAmong(ts: seq<Track>, now: real, ttl: real)
    ensures forall i :: 0 <= i < |Aged(ts, now, ttl)| ==>
      now - Aged(ts, now, ttl)[i].lastSeenAt <= ttl && exists j :: 0 <= j < |ts| && ts[j] == Aged(ts, now, ttl)[i]
  {
    if ts != [] {
      var front := ts[..|ts| - 1];
      AgedAmong(front, now, ttl);
      forall i | 0 <= i < |Aged(front, now, ttl)|
        ensures exists j :: 0 <= j < |ts| && ts[j] == Aged(front, now, ttl)[i] {
        var j :| 0 <= j < |front| && front[j] == Aged(front, now, ttl)[i];
        assert ts[j] == front[j];
      }
    }
  }

  /** A track survives exactly when it was seen within the time to live. */
  ghost predicate Survivors(ts: seq<Track>, alive: seq<Track>, now: real, ttl: real) {
    && (forall t :: t in alive ==> t in ts && now - t.lastSeenAt <= ttl)
    && (forall t :: t in ts && now - t.lastSeenAt <= ttl ==> t in alive)
  }

  lemma {:induction false} AgedSurvivors(ts: seq<Track>, now: real, ttl: real)
    ensures Survivors(ts, Aged(ts, now, ttl), now, ttl)
  {
    if ts != [] {
      var front, t := ts[..|ts| - 1], ts[|ts| - 1];
      AgedSurvivors(front, now, ttl);
      assert ts == front + [t];
    }
  }

  lemma AgedSnoc(alive: seq<Track>, t: Track, front: seq<Track>)
    requires IdsIncreasing(alive, t.id) && OwnStates(alive)
    requires forall i :: 0 <= i < |front| ==> front[i].state != t.state
    requires forall i :: 0 <= i < |alive| ==> exists j :: 0 <= j < |front| && front[j] == alive[i]
    ensures IdsIncreasing(alive + [t], t.id + 1) && OwnStates(alive + [t])
  {
    forall i | 0 <= i < |alive| ensures alive[i].state != t.state {
      var j :| 0 <= j < |front| && front[j] == alive[i];
    }
  }

  lemma {:induction false} AgedMeaning(ts: seq<Track>, now: real, ttl: real, bound: nat)
    requires IdsIncreasing(ts, bound) && OwnStates(ts)
    ensures var alive := Aged(ts, now, ttl);
      && IdsIncreasing(alive, bound) && OwnStates(alive)
      && (forall i :: 0 <= i < |alive| ==> now - alive[i].lastSeenAt <= ttl)
  {
    AgedAmong(ts, now, ttl);
    if ts != [] {
      var front, t := ts[..|ts| - 1], ts[|ts| - 1];
      AgedMeaning(front, now, ttl, t.id);
      AgedAmong(front, now, ttl);
      AgedSnoc(Aged(front, now, ttl), t, front);
    }
  }

  lemma {:induction false} TakenCarries(alive: seq<Track>, after: seq<Track>, claims: seq<Option<nat>>,
                                        poses: seq<Pose>, now: real, bound: nat)
    requires TurnsTaken(alive, after, claims, poses, now) && IdsIncreasing(alive, bound)
    ensures Carries(Taken(after, claims), Claimed(claims), poses, now)
    ensures forall k :: 0 <= k < |Taken(after, claims)| ==> Taken(after, claims)[k].id < bound
  {
    if alive != [] {
      var n := |alive| - 1;
      var last := alive[n].id;
      TakenCarries(alive[..n], after[..n], claims[..n], poses, now, last);
    }
  }

  lemma {:induction false} BagSize(xs: seq<nat>, ys: seq<nat>)
    requires multiset(xs) == multiset(ys)
    ensures |xs| == |ys|
  {
    assert |multiset(xs)| == |xs| && |multiset(ys)| == |ys|;
  }

  /** Started tracks carry the leftover poses. */
  lemma CarriesJoin(taken: seq<Track>, claimed: seq<nat>, begun: seq<Track>, free: seq<nat>, firstId: nat,
                    poses: seq<Pose>, now: real)
    requires Carries(taken, claimed, poses, now) && Started(begun, free, firstId, poses, now)
    requires forall k :: 0 <= k < |taken| ==> taken[k].id < firstId
    ensures Carries(taken + begun, claimed + free, poses, now)
  {
  }

  /** One track per pose: the returned tracks and the poses are in bijection. */
  lemma ReturnedBijection(alive: seq<Track>, after: seq<Track>, begun: seq<Track>, claims: seq<Option<nat>>,
                          poses: seq<Pose>, threshold: real, now: real, firstId: nat)
    requires TurnsTaken(alive, after, claims, poses, now) && IdsIncreasing(alive, firstId)
    requires Greedy(alive, poses, threshold, claims)
    requires Started(begun, Free(|poses|, claims), firstId, poses, now)
    ensures var order := Order(|poses|, claims);
      Carries(Taken(after, claims) + begun, order, poses, now) &&
      multiset(order) == multiset(Range(|poses|)) && |order| == |poses|
  {
    hide Iou, Chooses, Free, Claimed, Taken, Greedy, Carries, Started, IdsIncreasing;
    TakenCarries(alive, after, claims, poses, now, firstId);
    ClaimsPartition(alive, poses, threshold, claims);
    CarriesJoin(Taken(after, claims), Claimed(claims), begun, Free(|poses|, claims), firstId, poses, now);
    BagSize(Order(|poses|, claims), Range(|poses|));
  }

  // ---- Returned tracks are the tracker's own ----

  /** A taken track is one of the list, at the place of a claim. */
  lemma {:induction false} TakenAt(ts: seq<Track>, claims: seq<Option<nat>>, k: nat) returns (i: nat)
    requires |ts| == |claims| && k < |Taken(ts, claims)|
    ensures i < |ts| && Taken(ts, claims)[k] == ts[i] && claims[i].Some?
    ensures |Claimed(claims)| == |Taken(ts, claims)| && Claimed(claims)[k] == claims[i].value
  {
    var n := |ts| - 1;
    SameLength(ts[..n], claims[..n]);
    if claims[n].Some? && k == |Taken(ts[..n], claims[..n])| {
      i := n;
    } else {
      i := TakenAt(ts[..n], claims[..n], k);
    }
  }

  lemma {:induction false} SameLength(ts: seq<Track>, claims: seq<Option<nat>>)
    requires |ts| == |claims|
    ensures |Taken(ts, claims)| == |Claimed(claims)|
  {
    if ts != [] {
      SameLength(ts[..|ts| - 1], claims[..|claims| - 1]);
    }
  }

  /** A part of the list in its own order: no track twice, none made up. */
  ghost predicate PartOf(part: seq<Track>, ts: seq<Track>) {
    forall k :: 0 <= k < |part| ==> part[k] in ts
  }

  lemma {:induction false} TakenKeeps(ts: seq<Track>, claims: seq<Option<nat>>, bound: nat)
    requires |ts| == |claims| && IdsIncreasing(ts, bound) && OwnStates(ts)
    ensures IdsIncreasing(Taken(ts, claims), bound) && OwnStates(Taken(ts, claims)) && PartOf(Taken(ts, claims), ts)
  {
    if ts != [] {
      var n := |ts| - 1;
      var front, t := ts[..n], ts[n];
      TakenKeeps(front, claims[..n], t.id);
      KeepsSnoc(Taken(front, claims[..n]), front, t);
      assert ts == front + [t];
    }
  }

  lemma KeepsSnoc(part: seq<Track>, front: seq<Track>, t: Track)
    requires IdsIncreasing(part, t.id) && OwnStates(part) && PartOf(part, front)
    requires forall i :: 0 <= i < |front| ==> front[i].state != t.state
    ensures IdsIncreasing(part + [t], t.id + 1) && OwnStates(part + [t])
    ensures PartOf(part, front + [t]) && PartOf(part + [t], front + [t])
  {
  }

  lemma FrontOfTracks(ts: seq<Track>, n: nat, bound: nat)
    requires n <= |ts| && IdsIncreasing(ts, bound) && OwnStates(ts)
    ensures IdsIncreasing(ts[..n], if n < |ts| then ts[n].id else bound) && OwnStates(ts[..n])
  {
  }

  /** The returned list is part of the tracker's own: distinct increasing ids, and
      no sequence state shared. */
  lemma ReturnedAreTracks(ts: seq<Track>, claims: seq<Option<nat>>, bound: nat)
    requires |claims| <= |ts| && IdsIncreasing(ts, bound) && OwnStates(ts)
    ensures var returned := Taken(ts[..|claims|], claims) + ts[|claims|..];
      IdsIncreasing(returned, bound) && OwnStates(returned) && PartOf(returned, ts)
  {
    hide Taken, IdsIncreasing, OwnStates, PartOf;
    var n := |claims|;
    var after, begun := ts[..n], ts[n..];
    assert ts == after + begun;
    FrontOfTracks(ts, n, bound);
    if begun == [] {
      TakenKeeps(after, claims, bound);
      assert after == ts && Taken(after, claims) + begun == Taken(after, claims);
    } else {
      TakenKeeps(after, claims, begun[0].id);
      JoinParts(Taken(after, claims), after, begun, bound);
    }
  }

  lemma JoinParts(part: seq<Track>, after: seq<Track>, begun: seq<Track>, bound: nat)
    requires begun != [] && IdsIncreasing(part, begun[0].id) && OwnStates(part) && PartOf(part, after)
    requires IdsIncreasing(after + begun, bound) && OwnStates(after + begun)
    ensures IdsIncreasing(part + begun, bound) && OwnStates(part + begun) && PartOf(part + begun, after + begun)
  {
    var ts, all := after + begun, part + begun;
    assert forall i :: 0 <= i < |begun| ==> ts[|after| + i] == begun[i];
    forall k | 0 <= k < |part| ensures part[k] in ts {
      assert part[k] in after;
    }
    forall i, j | 0 <= i < |part| && 0 <= j < |begun| ensures part[i].state != begun[j].state {
      var p :| 0 <= p < |after| && after[p] == part[i];
      assert ts[p] == after[p] && ts[|after| + j] == begun[j];
    }
  }

  /** The `i`th survivor claims a pose, the best of those left unclaimed. */
  ghost predicate ClaimsBest(alive: seq<Track>, poses: seq<Pose>, threshold: real, claims: seq<Option<nat>>, i: nat)
    requires i < |alive| && i < |claims|
  {
    var free := Free(|poses|, claims[..i]);
    exists l :: 0 <= l < |free| && claims[i] == Some(free[l]) && BestAt(alive[i].pose.bbox, poses, threshold, free, l)
  }

  /** A reused track is a survivor after its turn, and the pose it now carries
      overlapped it most, enough, and more than nothing, among those that earlier
      survivors had left unclaimed. */
  lemma ReusedWasBest(alive: seq<Track>, after: seq<Track>, claims: seq<Option<nat>>, poses: seq<Pose>,
                      threshold: real, now: real, k: nat)
    requires TurnsTaken(alive, after, claims, poses, now) && Greedy(alive, poses, threshold, claims)
    requires k < |Taken(after, claims)|
    ensures exists i :: 0 <= i < |alive| && Taken(after, claims)[k] == AfterTurn(alive[i], claims[i], poses, now) &&
                        ClaimsBest(alive, poses, threshold, claims, i)
  {
    hide BestAt, Taken, Free, Claimed;
    var i := TakenAt(after, claims, k);
    var free := Free(|poses|, claims[..i]);
    assert Chooses(alive[i].pose.bbox, poses, threshold, free, claims[i]);
    assert ClaimsBest(alive, poses, threshold, claims, i);
  }

  // ---- What becomes of every earlier track ----

  /** The track after a frame: seen again, with a pose of the frame; or missed once
      more, and otherwise as it was. */
  ghost predicate Continues(t: Track, t': Track, poses: seq<Pose>, now: real) {
    && t'.id == t.id && t'.state == t.state
    && ((t'.pose in poses && t'.lastSeenAt == now && t'.missedFrames == 0) ||
        (t'.pose == t.pose && t'.lastSeenAt == t.lastSeenAt && t'.missedFrames == t.missedFrames + 1))
  }

  /** A track seen within the time to live goes on, under its own id and with its own
      state; any other id given out before is gone. */
  ghost predicate Persist(before: seq<Track>, after: seq<Track>, firstId: nat, poses: seq<Pose>, now: real, ttl: real) {
    && (forall t :: t in before && now - t.lastSeenAt <= ttl ==>
          exists t' :: t' in after && Continues(t, t', poses, now))
    && (forall t' :: t' in after && t'.id < firstId ==>
          exists t :: t in before && now - t.lastSeenAt <= ttl && Continues(t, t', poses, now))
  }

  lemma TurnContinues(t: Track, c: Option<nat>, poses: seq<Pose>, now: real)
    requires c.Some? ==> c.value < |poses|
    ensures Continues(t, AfterTurn(t, c, poses, now), poses, now)
  {
  }

  lemma TracksPersist(before: seq<Track>, alive: seq<Track>, after: seq<Track>, begun: seq<Track>,
                      claims: seq<Option<nat>>, poses: seq<Pose>, now: real, ttl: real, firstId: nat)
    requires Survivors(before, alive, now, ttl) && TurnsTaken(alive, after, claims, poses, now)
    requires forall k :: 0 <= k < |begun| ==> begun[k].id >= firstId
    ensures Persist(before, after + begun, firstId, poses, now, ttl)
  {
    hide Continues, AfterTurn;
    var all := after + begun;
    forall i | 0 <= i < |alive| ensures Continues(alive[i], after[i], poses, now) && after[i] in all {
      TurnContinues(alive[i], claims[i], poses, now);
      assert all[i] == after[i];
    }
    forall t | t in before && now - t.lastSeenAt <= ttl ensures exists t' :: t' in all && Continues(t, t', poses, now) {
      var i :| 0 <= i < |alive| && alive[i] == t;
    }
    forall t' | t' in all && t'.id < firstId
      ensures exists t :: t in before && now - t.lastSeenAt <= ttl && Continues(t, t', poses, now)
    {
      var i :| 0 <= i < |all| && all[i] == t';
      assert i < |after| && alive[i] in alive;
    }
  }

  // ---- The tracker ----

  /** The best remaining match of one track: strict improvement, so the first of
      equals, and only if it reaches the threshold. */
  method BestMatch(box: Box, poses: seq<Pose>, threshold: real, unmatched: seq<nat>) returns (c: Option<nat>)
    requires forall j :: 0 <= j < |unmatched| ==> unmatched[j] < |poses|
    ensures Chooses(box, poses, threshold, unmatched, c)
  {
    hide Iou;
    var bestIou := 0.0;
    var best: Option<nat> := None;
    ghost var k: nat := 0;
    for j := 0 to |unmatched|
      invariant best.None? ==> bestIou == 0.0
      invariant best.Some? ==> k < j && unmatched[k] == best.value && Iou(box, poses[best.value].bbox) == bestIou > 0.0
      invariant forall i :: 0 <= i < j ==> Iou(box, poses[unmatched[i]].bbox) <= bestIou
      invariant best.Some? ==> forall i :: 0 <= i < k ==> Iou(box, poses[unmatched[i]].bbox) < bestIou
    {
      var iou := Iou(box, poses[unmatched[j]].bbox);
      if iou > bestIou {
        bestIou, best, k := iou, Some(unmatched[j]), j;
      }
    }
    if best.Some? && bestIou >= threshold {
      assert BestAt(box, poses, threshold, unmatched, k);
      c := best;
    } else {
      c := None;
    }
  }

  class PersonTracker {
    const iouThreshold: real
    const ttlSeconds: real
    var tracks: seq<Track>
    var nextId: nat

    ghost predicate Valid()
      reads this
    {
      IdsIncreasing(tracks, nextId) && OwnStates(tracks)
    }

    constructor (iouThreshold: real, ttlSeconds: real)
      ensures Valid() && tracks == [] && nextId == 1
      ensures this.iouThreshold == iouThreshold && this.ttlSeconds == ttlSeconds
    {
      this.iouThreshold, this.ttlSeconds := iouThreshold, ttlSeconds;
      tracks, nextId := [], 1;
    }

    /** Drops tracks that have not been seen for longer than the time to live. */
    method DropAged(now: real)
      requires Valid()
      modifies this`tracks
      ensures Valid() && tracks == Aged(old(tracks), now, ttlSeconds)
      ensures Survivors(old(tracks), tracks, now, ttlSeconds)
    {
      AgedMeaning(tracks, now, ttlSeconds, nextId);
      AgedSurvivors(tracks, now, ttlSeconds);
      hide Survivors, IdsIncreasing, OwnStates;
      var kept := [];
      for i := 0 to |tracks|
        invariant tracks == old(tracks) && kept == Aged(tracks[..i], now, ttlSeconds)
      {
        assert tracks[..i + 1][..i] == tracks[..i];
        if !(now - tracks[i].lastSeenAt > ttlSeconds) {
          kept := kept + [tracks[i]];
        }
      }
      assert tracks[..|tracks|] == tracks;
      tracks := kept;
    }

    /** Every track in turn claims its best remaining pose. */
    method MatchTracks(poses: seq<Pose>, now: real)
      returns (matched: seq<Track>, unmatched: seq<nat>, ghost claims: seq<Option<nat>>)
      modifies this`tracks
      ensures Greedy(old(tracks), poses, iouThreshold, claims) && |claims| == |old(tracks)|
      ensures TurnsTaken(old(tracks), tracks, claims, poses, now)
      ensures matched == Taken(tracks, claims) && unmatched == Free(|poses|, claims)
      ensures forall j :: 0 <= j < |unmatched| ==> unmatched[j] < |poses|
    {
      hide Iou, BestAt, NoneQualifies, Chooses, Greedy, Remove, AfterTurn;
      ghost var alive := tracks;
      GreedyNone(alive, poses, iouThreshold);
      unmatched := Range(|poses|);
      matched, claims := [], [];
      for i := 0 to |tracks|
        invariant |tracks| == |alive| && |claims| == i
        invariant forall j :: i <= j < |tracks| ==> tracks[j] == alive[j]
        invariant TurnsTaken(alive[..i], tracks[..i], claims, poses, now)
        invariant Greedy(alive, poses, iouThreshold, claims)
        invariant matched == Taken(tracks[..i], claims)
        invariant unmatched == Free(|poses|, claims)
        invariant forall j :: 0 <= j < |unmatched| ==> unmatched[j] < |poses|
      {
        var c := BestMatch(tracks[i].pose.bbox, poses, iouThreshold, unmatched);
        ChosenIsFree(tracks[i].pose.bbox, poses, iouThreshold, unmatched, c);
        GreedySnoc(alive, poses, iouThreshold, claims, c);
        TurnSnoc(alive, tracks, claims, c, poses, now, i);
        var t := AfterTurn(tracks[i], c, poses, now);
        if c.Some? {
          RemoveBelow(unmatched, c.value, |poses|);
          unmatched := Remove(unmatched, c.value);
          matched := matched + [t];
        }
        tracks := tracks[i := t];
        claims := claims + [c];
      }
      assert alive[..|tracks|] == alive && tracks[..|tracks|] == tracks;
    }

    /** A new track for one pose. */
    method StartTrack(pose: Pose, now: real) returns (t: Track)
      requires Valid()
      modifies this
      ensures Valid() && fresh(t.state) && t.state.View() == START
      ensures t == Track(old(nextId), pose, t.state, now, 0)
      ensures tracks == old(tracks) + [t] && nextId == old(nextId) + 1
    {
      var s := new SequenceState();
      t := Track(nextId, pose, s, now, 0);
      StartSnoc(tracks, t, nextId);
      tracks := tracks + [t];
      nextId := nextId + 1;
    }

    /** Leftover poses start new tracks. */
    method StartTracks(poses: seq<Pose>, unmatched: seq<nat>, now: real) returns (started: seq<Track>)
      requires Valid()
      requires forall j :: 0 <= j < |unmatched| ==> unmatched[j] < |poses|
      modifies this
      ensures Valid()
      ensures Started(started, unmatched, old(nextId), poses, now)
      ensures tracks == old(tracks) + started && nextId == old(nextId) + |started|
      ensures forall k :: 0 <= k < |started| ==> fresh(started[k].state) && started[k].state.View() == START
    {
      hide IdsIncreasing, OwnStates;
      started := [];
      for j := 0 to |unmatched|
        invariant Valid() && nextId == old(nextId) + j && tracks == old(tracks) + started
        invariant Started(started, unmatched[..j], old(nextId), poses, now)
        invariant forall k :: 0 <= k < |started| ==> fresh(started[k].state) && started[k].state.View() == START
      {
        var t := StartTrack(poses[unmatched[j]], now);
        assert old(tracks) + started + [t] == old(tracks) + (started + [t]);
        started := started + [t];
      }
      assert unmatched[..|unmatched|] == unmatched;
    }

    /** One frame of poses. */
    method Update(poses: seq<Pose>, now: real) returns (matched: seq<Track>, ghost claims: seq<Option<nat>>)
      requires Valid()
      modifies this
      ensures Valid()
      ensures var alive := Aged(old(tracks), now, ttlSeconds);
        && Greedy(alive, poses, iouThreshold, claims) && |claims| == |alive| <= |tracks|
        && TurnsTaken(alive, tracks[..|alive|], claims, poses, now)
        && Started(tracks[|alive|..], Free(|poses|, claims), old(nextId), poses, now)
        && nextId == old(nextId) + (|tracks| - |alive|)
        && (forall k :: |alive| <= k < |tracks| ==> fresh(tracks[k].state) && tracks[k].state.View() == START)
      ensures |claims| <= |tracks| && matched == Taken(tracks[..|claims|], claims) + tracks[|claims|..]
      ensures IdsIncreasing(matched, nextId) && OwnStates(matched)
      ensures Carries(matched, Order(|poses|, claims), poses, now)
      ensures multiset(Order(|poses|, claims)) == multiset(Range(|poses|)) && |matched| == |poses|
      ensures forall i :: 0 <= i < |tracks| ==> tracks[i].lastSeenAt == now || now - tracks[i].lastSeenAt <= ttlSeconds
      ensures Persist(old(tracks), tracks, old(nextId), poses, now, ttlSeconds)
    {
      hide Greedy, Free, Taken, Claimed, Order, Range, Carries, Survivors, Persist;
      AgedMeaning(tracks, now, ttlSeconds, nextId);
      DropAged(now);
      ghost var alive := tracks;
      var unmatched;
      matched, unmatched, claims := MatchTracks(poses, now);
      ghost var after, firstId := tracks, nextId;
      TurnsKeepIds(alive, after, claims, poses, now, nextId);
      var started := StartTracks(poses, unmatched, now);
      assert tracks[..|alive|] == after && tracks[|alive|..] == started;
      TracksPersist(old(tracks), alive, after, started, claims, poses, now, ttlSeconds, firstId);
      ReturnedBijection(alive, after, started, claims, poses, iouThreshold, now, firstId);
      ReturnedAreTracks(tracks, claims, nextId);
      matched := matched + started;
      CarriesSize(matched, Order(|poses|, claims), poses, now);
    }
  }

  lemma CarriesSize(matched: seq<Track>, order: seq<nat>, poses: seq<Pose>, now: real)
    requires Carries(matched, order, poses, now) && |order| == |poses|
    ensures |matched| == |poses|
  {
  }

  lemma ChosenIsFree(box: Box, poses: seq<Pose>, threshold: real, free: seq<nat>, c: Option<nat>)
    requires Chooses(box, poses, threshold, free, c)
    ensures c.Some? ==> c.value < |poses|
  {
  }

  lemma {:induction false} RemoveBelow(xs: seq<nat>, x: nat, n: nat)
    requires forall j :: 0 <= j < |xs| ==> xs[j] < n
    ensures forall j :: 0 <= j < |Remove(xs, x)| ==> Remove(xs, x)[j] < n
  {
    if xs != [] {
      RemoveBelow(xs[1..], x, n);
    }
  }

  lemma GreedySnoc(tracks: seq<Track>, poses: seq<Pose>, threshold: real, claims: seq<Option<nat>>, c: Option<nat>)
    requires Greedy(tracks, poses, threshold, claims) && |claims| < |tracks|
    requires Chooses(tracks[|claims|].pose.bbox, poses, threshold, Free(|poses|, claims), c)
    ensures Greedy(tracks, poses, threshold, claims + [c])
    ensures Free(|poses|, claims + [c]) ==
            if c.None? then Free(|poses|, claims) else Remove(Free(|poses|, claims), c.value)
  {
    hide Chooses;
    var more := claims + [c];
    assert more[..|claims|] == claims;
    forall i | 0 <= i < |more|
      ensures Chooses(tracks[i].pose.bbox, poses, threshold, Free(|poses|, more[..i]), more[i])
    {
      if i < |claims| {
        assert more[..i] == claims[..i];
      }
    }
  }

  lemma GreedyNone(tracks: seq<Track>, poses: seq<Pose>, threshold: real)
    ensures Greedy(tracks, poses, threshold, [])
  {
  }

  lemma TurnSnoc(alive: seq<Track>, ts: seq<Track>, claims: seq<Option<nat>>, c: Option<nat>, poses: seq<Pose>,
                 now: real, i: nat)
    requires i < |alive| == |ts| && |claims| == i && ts[i] == alive[i]
    requires c.Some? ==> c.value < |poses|
    requires TurnsTaken(alive[..i], ts[..i], claims, poses, now)
    ensures var t := AfterTurn(ts[i], c, poses, now); var ts' := ts[i := t];
      && TurnsTaken(alive[..i + 1], ts'[..i + 1], claims + [c], poses, now)
      && Taken(ts'[..i + 1], claims + [c]) ==
         if c.Some? then Taken(ts[..i], claims) + [t] else Taken(ts[..i], claims)
  {
    var ts' := ts[i := AfterTurn(ts[i], c, poses, now)];
    assert ts'[..i + 1][..i] == ts[..i] && (claims + [c])[..i] == claims;
  }

  lemma StartSnoc(ts: seq<Track>, t: Track, bound: nat)
    requires IdsIncreasing(ts, bound) && OwnStates(ts) && t.id == bound
    requires forall i :: 0 <= i < |ts| ==> ts[i].state != t.state
    ensures IdsIncreasing(ts + [t], bound + 1) && OwnStates(ts + [t])
  {
  }

  lemma TurnsKeepIds(alive: seq<Track>, after: seq<Track>, claims: seq<Option<nat>>, poses: seq<Pose>, now: real,
                     bound: nat)
    requires TurnsTaken(alive, after, claims, poses, now) && IdsIncreasing(alive, bound) && OwnStates(alive)
    ensures IdsIncreasing(after, bound) && OwnStates(after)
    ensures forall i :: 0 <= i < |after| ==> after[i].lastSeenAt == now || after[i].lastSeenAt == alive[i].lastSeenAt
  {
  }
}
