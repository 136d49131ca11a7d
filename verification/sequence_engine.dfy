/** Step-sequence tracking: a greedy matcher that ends in at most one event. */
module SequenceEngine {
  import opened Common

  datatype SeqStep = SeqStep(name: string, zone: Option<string>, pose: Option<string>, maxSeconds: Option<real>)

  datatype Reading = Reading(zone: Option<string>, pose: string, now: real)

  datatype SequenceEvent =
    | StepSkipped(stepName: string, zone: string)
    | StepTimeout(stepName: string, maxSeconds: real)
    | SequenceCompleted(stepName: string, allStepNames: seq<string>)

  predicate Matches(s: SeqStep, r: Reading) {
    r.zone == s.zone && (s.pose.None? || r.pose == s.pose.value)
  }

  /** The reading is in the zone of some later step, and that zone is not the
      current step's. */
  predicate Skips(steps: seq<SeqStep>, k: nat, r: Reading)
    requires k < |steps|
  {
    r.zone.Some? && r.zone != steps[k].zone && exists j :: k < j < |steps| && steps[j].zone == r.zone
  }

  predicate Overdue(s: SeqStep, entered: real, now: real) {
    s.maxSeconds.Some? && now - entered > s.maxSeconds.value
  }

  function Names(steps: seq<SeqStep>): seq<string> {
    seq(|steps|, i requires 0 <= i < |steps| => steps[i].name)
  }

  /** The value of a track's progress. */
  datatype Progress = Progress(index: nat, enteredAt: Option<real>, completed: bool)

  const START: Progress := Progress(0, None, false)

  /** Progress that `advance` can be called on: the step sequence has not been
      replaced by a shorter one. */
  predicate InRange(p: Progress, steps: seq<SeqStep>) {
    p.completed || steps == [] || p.index < |steps|
  }

  /** One call of `advance`. */
  function Next(p: Progress, steps: seq<SeqStep>, r: Reading): (res: (Progress, Option<SequenceEvent>))
    requires InRange(p, steps)
  {
    if p.completed || steps == [] then (p, None)
    else
      var entered := if p.enteredAt.None? then r.now else p.enteredAt.value;
      var s := steps[p.index];
      if Matches(s, r) then
        if p.index + 1 >= |steps| then
          (Progress(p.index + 1, Some(r.now), true), Some(SequenceCompleted(s.name, Names(steps))))
        else (Progress(p.index + 1, Some(r.now), false), None)
      else if Skips(steps, p.index, r) then
        (Progress(p.index, Some(entered), true), Some(StepSkipped(s.name, r.zone.value)))
      else if Overdue(s, entered, r.now) then
        (Progress(p.index, Some(entered), true), Some(StepTimeout(s.name, s.maxSeconds.value)))
      else (Progress(p.index, Some(entered), false), None)
  }

  /** The reading is in the step's zone, and in its pose if it asks for one. */
  predicate Fulfils(step: SeqStep, r: Reading) {
    step.zone == r.zone && step.pose in {None, Some(r.pose)}
  }

  /** What the reading decides for a live track: it goes on exactly when its step is
      fulfilled; otherwise it ends with a skip exactly when a later step, in a zone
      other than this step's, is in the reading's; and otherwise with a timeout exactly
      when the step has a limit and the track has spent more than it there. */
  ghost predicate ReadingDecides(p: Progress, steps: seq<SeqStep>, r: Reading, p': Progress, e: Option<SequenceEvent>)
    requires InRange(p, steps)
  {
    if p.completed || steps == [] then p' == p && e == None
    else
      var step := steps[p.index];
      var spent := if p.enteredAt.Some? then r.now - p.enteredAt.value else 0.0;
      var skipped := r.zone.Some? && r.zone != step.zone && r.zone in (set j | p.index < j < |steps| :: steps[j].zone);
      && (p'.index == (if Fulfils(step, r) then p.index + 1 else p.index))
      && (Fulfils(step, r) ==> p'.enteredAt == Some(r.now))
      && (!Fulfils(step, r) ==> p'.enteredAt == if p.enteredAt.Some? then p.enteredAt else Some(r.now))
      && (e.Some? && e.value.SequenceCompleted? <==> Fulfils(step, r) && p.index == |steps| - 1)
      && (e.Some? && e.value.StepSkipped? <==> !Fulfils(step, r) && skipped)
      && (e.Some? && e.value.StepTimeout? <==>
            !Fulfils(step, r) && !skipped && step.maxSeconds.Some? && spent > step.maxSeconds.value)
      && (p'.completed <==> e.Some?)
      && (e.Some? && e.value.StepSkipped? ==> r.zone == Some(e.value.zone))
      && (e.Some? && e.value.StepTimeout? ==> Some(e.value.maxSeconds) == step.maxSeconds)
      && (e.Some? ==> e.value.stepName == step.name)
      && (e.Some? && e.value.SequenceCompleted? ==>
            |e.value.allStepNames| == |steps| &&
            forall i :: 0 <= i < |steps| ==> e.value.allStepNames[i] == steps[i].name)
  }

  lemma NextDecides(p: Progress, steps: seq<SeqStep>, r: Reading)
    requires InRange(p, steps)
    ensures ReadingDecides(p, steps, r, Next(p, steps, r).0, Next(p, steps, r).1)
  {
    if !p.completed && steps != [] {
      var step := steps[p.index];
      var zones := set j | p.index < j < |steps| :: steps[j].zone;
      assert r.zone in zones <==> exists j :: p.index < j < |steps| && steps[j].zone == r.zone;
      assert Matches(step, r) <==> Fulfils(step, r);
    }
  }

  class SequenceState {
    var currentStepIndex: nat
    var stepEnteredAt: Option<real>
    var completed: bool

    ghost function View(): Progress
      reads this
    {
      Progress(currentStepIndex, stepEnteredAt, completed)
    }

    constructor ()
      ensures View() == START
    {
      currentStepIndex, stepEnteredAt, completed := 0, None, false;
    }
  }

  /** `advance`. */
  method Advance(state: SequenceState, steps: seq<SeqStep>, r: Reading) returns (e: Option<SequenceEvent>)
    requires InRange(state.View(), steps)
    modifies state
    ensures (state.View(), e) == Next(old(state.View()), steps, r)
    ensures ReadingDecides(old(state.View()), steps, r, state.View(), e)
  {
    NextDecides(state.View(), steps, r);
    hide ReadingDecides;
    if state.completed || steps == [] {
      return None;
    }
    if state.stepEnteredAt.None? {
      state.stepEnteredAt := Some(r.now);
    }
    var current := steps[state.currentStepIndex];
    if r.zone == current.zone && (current.pose.None? || r.pose == current.pose.value) {
      state.currentStepIndex := state.currentStepIndex + 1;
      state.stepEnteredAt := Some(r.now);
      if state.currentStepIndex >= |steps| {
        state.completed := true;
        return Some(SequenceCompleted(current.name, Names(steps)));
      }
      return None;
    }
    var later := LaterZones(steps, state.currentStepIndex);
    if r.zone.Some? && r.zone in later {
      state.completed := true;
      return Some(StepSkipped(current.name, r.zone.value));
    }
    if current.maxSeconds.Some? && r.now - state.stepEnteredAt.value > current.maxSeconds.value {
      state.completed := true;
      return Some(StepTimeout(current.name, current.maxSeconds.value));
    }
    return None;
  }

  /** `later_zones`: zones of the steps after `k` that differ from step `k`'s. */
  method LaterZones(steps: seq<SeqStep>, k: nat) returns (later: set<Option<string>>)
    requires k < |steps|
    ensures forall z :: z in later <==> z != steps[k].zone && exists j :: k < j < |steps| && steps[j].zone == z
  {
    later := {};
    for i := k + 1 to |steps|
      invariant forall z :: z in later <==> z != steps[k].zone && exists j :: k < j < i && steps[j].zone == z
    {
      if steps[i].zone != steps[k].zone {
        later := later + {steps[i].zone};
      }
    }
  }

  // ---- Whole runs ----

  /** The machine after a list of readings, oldest first. */
  function After(steps: seq<SeqStep>, rs: seq<Reading>): (p: Progress)
    ensures InRange(p, steps)
  {
    if rs == [] then START else Next(After(steps, rs[..|rs| - 1]), steps, rs[|rs| - 1]).0
  }

  /** The event returned for the `i`th reading. */
  function EventAt(steps: seq<SeqStep>, rs: seq<Reading>, i: nat): Option<SequenceEvent>
    requires i < |rs|
  {
    Next(After(steps, rs[..i]), steps, rs[i]).1
  }

  lemma AfterStep(steps: seq<SeqStep>, rs: seq<Reading>, i: nat)
    requires i < |rs|
    ensures After(steps, rs[..i + 1]) == Next(After(steps, rs[..i]), steps, rs[i]).0
  {
    assert rs[..i + 1][..i] == rs[..i];
  }

  lemma EndsWithEvent(p: Progress, steps: seq<SeqStep>, r: Reading)
    requires InRange(p, steps)
    ensures Next(p, steps, r).1.Some? <==> !p.completed && Next(p, steps, r).0.completed
    ensures p.completed ==> Next(p, steps, r).0 == p
  {
  }

  /** Completion is exactly having returned an event, and it is final. */
  lemma {:induction false} CompletedMeansEvent(steps: seq<SeqStep>, rs: seq<Reading>, n: nat)
    requires n <= |rs|
    ensures After(steps, rs[..n]).completed <==> exists i :: 0 <= i < n && EventAt(steps, rs, i).Some?
    ensures forall i :: 0 <= i <= n && After(steps, rs[..i]).completed ==>
      After(steps, rs[..n]) == After(steps, rs[..i])
  {
    hide Next;
    if n > 0 {
      CompletedMeansEvent(steps, rs, n - 1);
      AfterStep(steps, rs, n - 1);
      EndsWithEvent(After(steps, rs[..n - 1]), steps, rs[n - 1]);
      if After(steps, rs[..n]).completed && !After(steps, rs[..n - 1]).completed {
        assert EventAt(steps, rs, n - 1).Some?;
      }
    }
  }

  /** At most one event is ever returned for a track, and the state is frozen from
      then on. */
  lemma AtMostOneEvent(steps: seq<SeqStep>, rs: seq<Reading>, i: nat, j: nat)
    requires i < j < |rs| && EventAt(steps, rs, i).Some?
    ensures EventAt(steps, rs, j).None?
    ensures After(steps, rs[..j + 1]) == After(steps, rs[..i + 1])
  {
    CompletedMeansEvent(steps, rs, j);
    CompletedMeansEvent(steps, rs, i + 1);
    AfterStep(steps, rs, j);
  }

  // ---- Declarative matching ----

  /** `at` places the first steps in the readings, in order. */
  ghost predicate Embeds(steps: seq<SeqStep>, rs: seq<Reading>, at: seq<nat>) {
    && |at| <= |steps|
    && (forall k :: 0 <= k < |at| ==> at[k] < |rs| && Matches(steps[k], rs[at[k]]))
    && (forall k, l :: 0 <= k < l < |at| ==> at[k] < at[l])
  }

  /** The first `k` steps occur in the readings as an in-order subsequence. */
  ghost predicate Occurs(steps: seq<SeqStep>, rs: seq<Reading>, k: nat) {
    exists at: seq<nat> :: |at| == k && Embeds(steps, rs, at)
  }

  lemma OccursMore(steps: seq<SeqStep>, rs: seq<Reading>, r: Reading, k: nat)
    requires Occurs(steps, rs, k)
    ensures Occurs(steps, rs + [r], k)
    ensures k < |steps| && Matches(steps[k], r) ==> Occurs(steps, rs + [r], k + 1)
  {
    var at: seq<nat> :| |at| == k && Embeds(steps, rs, at);
    var more := rs + [r];
    assert forall i :: 0 <= i < |rs| ==> more[i] == rs[i];
    assert Embeds(steps, more, at);
    if k < |steps| && Matches(steps[k], r) {
      assert Embeds(steps, more, at + [|rs|]);
    }
  }

  lemma OccursLess(steps: seq<SeqStep>, rs: seq<Reading>, r: Reading, k: nat)
    requires Occurs(steps, rs + [r], k + 1)
    ensures Occurs(steps, rs, k)
    ensures Occurs(steps, rs, k + 1) || Matches(steps[k], r)
  {
    var more := rs + [r];
    var at: seq<nat> :| |at| == k + 1 && Embeds(steps, more, at);
    assert forall i :: 0 <= i < |rs| ==> more[i] == rs[i];
    assert forall i :: 0 <= i < k ==> at[i] < at[k];
    assert Embeds(steps, rs, at[..k]);
    if at[k] < |rs| {
      assert Embeds(steps, rs, at);
    } else {
      assert more[at[k]] == r;
    }
  }

  /** `k` is the length of the longest prefix of the steps that occurs. */
  ghost predicate Longest(steps: seq<SeqStep>, rs: seq<Reading>, k: nat) {
    k < |steps| && Occurs(steps, rs, k) && !Occurs(steps, rs, k + 1)
  }

  lemma LongestStep(steps: seq<SeqStep>, rs: seq<Reading>, r: Reading, k: nat)
    requires Longest(steps, rs, k)
    ensures Occurs(steps, rs + [r], if Matches(steps[k], r) then k + 1 else k)
    ensures !Matches(steps[k], r) ==> !Occurs(steps, rs + [r], k + 1)
    ensures Matches(steps[k], r) ==> !Occurs(steps, rs + [r], k + 2)
  {
    hide Occurs;
    OccursMore(steps, rs, r, k);
    if !Matches(steps[k], r) && Occurs(steps, rs + [r], k + 1) {
      OccursLess(steps, rs, r, k);
    }
    if Matches(steps[k], r) && Occurs(steps, rs + [r], k + 2) {
      OccursLess(steps, rs, r, k + 1);
    }
  }

  lemma NothingYet(steps: seq<SeqStep>)
    ensures Occurs(steps, [], 0) && !Occurs(steps, [], 1)
  {
    assert Embeds(steps, [], []);
    forall at: seq<nat> | |at| == 1 ensures !Embeds(steps, [], at) {
      assert !(at[0] < 0);
    }
  }

  /** Greedy is optimal: as long as the track has not been skipped or timed out,
      its index is the length of the longest prefix of the steps that occurs; and
      whenever it has ended, that many steps have occurred. */
  lemma {:induction false} GreedyIsOptimal(steps: seq<SeqStep>, rs: seq<Reading>)
    requires steps != []
    ensures Occurs(steps, rs, After(steps, rs).index)
    ensures !After(steps, rs).completed ==> Longest(steps, rs, After(steps, rs).index)
  {
    hide Occurs, Skips, Overdue, Matches;
    if rs == [] {
      NothingYet(steps);
    } else {
      var past, r := rs[..|rs| - 1], rs[|rs| - 1];
      assert rs == past + [r];
      GreedyIsOptimal(steps, past);
      var p := After(steps, past);
      if p.completed {
        OccursMore(steps, past, r, p.index);
      } else {
        LongestStep(steps, past, r, p.index);
      }
    }
  }

  // ---- Events, read off the trace ----

  lemma OccursInMore(steps: seq<SeqStep>, rs: seq<Reading>, m: nat, n: nat, k: nat)
    requires m <= n <= |rs| && Occurs(steps, rs[..m], k)
    ensures Occurs(steps, rs[..n], k)
  {
    var at: seq<nat> :| |at| == k && Embeds(steps, rs[..m], at);
    assert Embeds(steps, rs[..n], at);
  }

  lemma OccursShorter(steps: seq<SeqStep>, rs: seq<Reading>, k: nat, l: nat)
    requires l <= k && Occurs(steps, rs, k)
    ensures Occurs(steps, rs, l)
  {
    var at: seq<nat> :| |at| == k && Embeds(steps, rs, at);
    assert Embeds(steps, rs, at[..l]);
  }

  lemma NoneButLongest(steps: seq<SeqStep>, rs: seq<Reading>, k: nat, l: nat)
    requires Longest(steps, rs, k) && Longest(steps, rs, l)
    ensures k == l
  {
    hide Occurs;
    if k < l {
      OccursShorter(steps, rs, l, k + 1);
    } else if l < k {
      OccursShorter(steps, rs, k, l + 1);
    }
  }

  /** The steps occur in order by the `i`th reading, and not before. */
  ghost predicate CompleteAt(steps: seq<SeqStep>, rs: seq<Reading>, i: nat)
    requires i < |rs|
  {
    Occurs(steps, rs[..i + 1], |steps|) && !Occurs(steps, rs[..i], |steps|)
  }

  /** The first `k` steps have occurred before the `i`th reading, which does not match
      the next one, but lies in the zone of a later one. */
  ghost predicate SkipAt(steps: seq<SeqStep>, rs: seq<Reading>, i: nat, k: nat)
    requires i < |rs|
  {
    Longest(steps, rs[..i], k) && !Matches(steps[k], rs[i]) && Skips(steps, k, rs[i])
  }

  /** Step `k` was entered at reading `e`: the one by which the steps before it
      occurred, or the first one. */
  ghost predicate EnteredAt(steps: seq<SeqStep>, rs: seq<Reading>, k: nat, e: nat)
    requires e < |rs|
  {
    if k == 0 then e == 0 else Occurs(steps, rs[..e + 1], k) && !Occurs(steps, rs[..e], k)
  }

  /** The first `k` steps have occurred before the `i`th reading, which neither
      matches the next one nor skips it, and comes later than the limit allows after
      the reading at which that step was entered. */
  ghost predicate TimeoutAt(steps: seq<SeqStep>, rs: seq<Reading>, i: nat, k: nat, e: nat)
    requires i < |rs|
  {
    && Longest(steps, rs[..i], k) && !Matches(steps[k], rs[i]) && !Skips(steps, k, rs[i])
    && e <= i && EnteredAt(steps, rs, k, e) && Overdue(steps[k], rs[e].now, rs[i].now)
  }

  /** The trace skips a step at the `i`th reading, or overruns a limit there. */
  ghost predicate Disturbs(steps: seq<SeqStep>, rs: seq<Reading>, i: nat)
    requires i < |rs|
  {
    || (exists k: nat :: SkipAt(steps, rs, i, k))
    || (exists k: nat, e: nat :: TimeoutAt(steps, rs, i, k, e))
  }

  /** It did neither before the `i`th reading. */
  ghost predicate Undisturbed(steps: seq<SeqStep>, rs: seq<Reading>, i: nat)
    requires i <= |rs|
  {
    forall j :: 0 <= j < i ==> !Disturbs(steps, rs, j)
  }

  /** The machine agrees with the trace: it is live, with `k` steps behind it and the
      next one entered at reading `e`. */
  ghost predicate Tracks(steps: seq<SeqStep>, rs: seq<Reading>, i: nat, k: nat, e: nat)
    requires i < |rs|
  {
    var p := After(steps, rs[..i]);
    && !p.completed && p.index == k && Longest(steps, rs[..i], k)
    && e <= i && EnteredAt(steps, rs, k, e)
    && (p.enteredAt == Some(rs[e].now) || (i == 0 && p.enteredAt == None))
  }

  /** The time at which the pending step is taken to have been entered. */
  lemma TracksEntry(steps: seq<SeqStep>, rs: seq<Reading>, i: nat, k: nat, e: nat)
    requires i < |rs| && Tracks(steps, rs, i, k, e)
    ensures var p := After(steps, rs[..i]);
      (if p.enteredAt.None? then rs[i].now else p.enteredAt.value) == rs[e].now
  {
  }

  lemma EntryUnique(steps: seq<SeqStep>, rs: seq<Reading>, k: nat, d: nat, e: nat)
    requires d < |rs| && e < |rs| && EnteredAt(steps, rs, k, d) && EnteredAt(steps, rs, k, e)
    ensures d == e
  {
    hide Occurs;
    if k > 0 && d < e {
      OccursInMore(steps, rs, d + 1, e, k);
    } else if k > 0 && e < d {
      OccursInMore(steps, rs, e + 1, d, k);
    }
  }

  datatype Kind = Skipped | TimedOut | Completed

  function KindOf(e: Option<SequenceEvent>): Option<Kind> {
    if e.None? then None
    else if e.value.StepSkipped? then Some(Skipped)
    else if e.value.StepTimeout? then Some(TimedOut)
    else Some(Completed)
  }

  /** One reading of a machine that agrees with the trace: its event, if any, is the
      one the trace has. */
  lemma NextKind(steps: seq<SeqStep>, rs: seq<Reading>, i: nat, k: nat, e: nat)
    requires i < |rs| && Tracks(steps, rs, i, k, e)
    ensures var kind := KindOf(EventAt(steps, rs, i));
      && (kind == Some(Completed) <==> Matches(steps[k], rs[i]) && k + 1 == |steps|)
      && (kind == Some(Skipped) <==> SkipAt(steps, rs, i, k))
      && (kind == Some(TimedOut) <==> TimeoutAt(steps, rs, i, k, e))
  {
    hide Occurs, Matches, Skips, Overdue, Names, EnteredAt;
    TracksEntry(steps, rs, i, k, e);
  }

  lemma CompleteMeans(steps: seq<SeqStep>, rs: seq<Reading>, i: nat, k: nat)
    requires i < |rs| && Longest(steps, rs[..i], k)
    ensures CompleteAt(steps, rs, i) <==> Matches(steps[k], rs[i]) && k + 1 == |steps|
  {
    hide Occurs, Matches;
    assert rs[..i + 1] == rs[..i] + [rs[i]];
    LongestStep(steps, rs[..i], rs[i], k);
    if Occurs(steps, rs[..i + 1], |steps|) && !Matches(steps[k], rs[i]) {
      OccursShorter(steps, rs[..i + 1], |steps|, k + 1);
    }
    if Occurs(steps, rs[..i + 1], |steps|) && k + 2 <= |steps| {
      OccursShorter(steps, rs[..i + 1], |steps|, k + 2);
    }
    if Occurs(steps, rs[..i], |steps|) {
      OccursShorter(steps, rs[..i], |steps|, k + 1);
    }
  }

  /** The trace does not disturb the sequence at a reading exactly when a machine
      that agrees with it reports neither a skip nor a timeout there. */
  lemma DisturbedHere(steps: seq<SeqStep>, rs: seq<Reading>, i: nat, k: nat, e: nat)
    requires i < |rs| && Tracks(steps, rs, i, k, e)
    ensures (forall l: nat :: !SkipAt(steps, rs, i, l)) <==> !SkipAt(steps, rs, i, k)
    ensures (forall l: nat, d: nat :: !TimeoutAt(steps, rs, i, l, d)) <==> !TimeoutAt(steps, rs, i, k, e)
  {
    hide Longest, EnteredAt, Matches, Skips, Overdue;
    forall l: nat | Longest(steps, rs[..i], l) ensures l == k {
      NoneButLongest(steps, rs[..i], k, l);
    }
    forall d: nat | d <= i && EnteredAt(steps, rs, k, d) ensures d == e {
      EntryUnique(steps, rs, k, d, e);
    }
  }

  /** Once complete, the trace disturbs nothing any more. */
  lemma NothingAfterComplete(steps: seq<SeqStep>, rs: seq<Reading>, i: nat, j: nat)
    requires i < j < |rs| && Occurs(steps, rs[..i + 1], |steps|)
    ensures forall k: nat :: !Longest(steps, rs[..j], k)
  {
    hide Occurs;
    OccursInMore(steps, rs, i + 1, j, |steps|);
    forall k: nat | Longest(steps, rs[..j], k) ensures false {
      OccursShorter(steps, rs[..j], |steps|, k + 1);
    }
  }

  lemma TracksStart(steps: seq<SeqStep>, rs: seq<Reading>)
    requires steps != [] && rs != []
    ensures Tracks(steps, rs, 0, 0, 0)
  {
    hide Occurs;
    NothingYet(steps);
    assert rs[..0] == [];
  }

  lemma TracksStep(steps: seq<SeqStep>, rs: seq<Reading>, i: nat, k: nat, e: nat)
    requires i + 1 < |rs| && Tracks(steps, rs, i, k, e) && EventAt(steps, rs, i).None?
    ensures if Matches(steps[k], rs[i]) then Tracks(steps, rs, i + 1, k + 1, i) else Tracks(steps, rs, i + 1, k, e)
  {
    hide Occurs, Matches, Skips, Overdue;
    AfterStep(steps, rs, i);
    assert rs[..i + 1] == rs[..i] + [rs[i]];
    LongestStep(steps, rs[..i], rs[i], k);
    TracksEntry(steps, rs, i, k, e);
  }

  /** While no event has been returned, the machine agrees with the trace, and the
      trace has neither disturbed nor completed the sequence. */
  lemma {:induction false} LiveTracks(steps: seq<SeqStep>, rs: seq<Reading>, i: nat) returns (k: nat, e: nat)
    requires steps != [] && i < |rs| && !After(steps, rs[..i]).completed
    ensures Tracks(steps, rs, i, k, e) && Undisturbed(steps, rs, i)
  {
    hide Next, SkipAt, TimeoutAt, Tracks, Occurs, Matches;
    if i == 0 {
      k, e := 0, 0;
      TracksStart(steps, rs);
    } else {
      AfterStep(steps, rs, i - 1);
      EndsWithEvent(After(steps, rs[..i - 1]), steps, rs[i - 1]);
      var k0, e0 := LiveTracks(steps, rs, i - 1);
      NextKind(steps, rs, i - 1, k0, e0);
      DisturbedHere(steps, rs, i - 1, k0, e0);
      LongestOf(steps, rs, i - 1, k0, e0);
      TracksStep(steps, rs, i - 1, k0, e0);
      if Matches(steps[k0], rs[i - 1]) {
        k, e := k0 + 1, i - 1;
      } else {
        k, e := k0, e0;
      }
    }
  }

  /** A machine that has returned an event has been disturbed, or the steps have all
      occurred. */
  lemma EndedMeans(steps: seq<SeqStep>, rs: seq<Reading>, i: nat)
    requires steps != [] && i <= |rs| && After(steps, rs[..i]).completed
    ensures !Undisturbed(steps, rs, i) || exists j :: 0 <= j < i && CompleteAt(steps, rs, j)
  {
    hide Next, SkipAt, TimeoutAt, Tracks, CompleteAt;
    CompletedMeansEvent(steps, rs, i);
    var j :| 0 <= j < i && EventAt(steps, rs, j).Some?;
    AfterStep(steps, rs, j);
    EndsWithEvent(After(steps, rs[..j]), steps, rs[j]);
    var k, e := LiveTracks(steps, rs, j);
    NextKind(steps, rs, j, k, e);
    LongestOf(steps, rs, j, k, e);
    CompleteMeans(steps, rs, j, k);
    assert KindOf(EventAt(steps, rs, j)) != None;
    if KindOf(EventAt(steps, rs, j)) == Some(Completed) {
      assert CompleteAt(steps, rs, j);
    } else {
      assert Disturbs(steps, rs, j);
    }
  }

  lemma LongestOf(steps: seq<SeqStep>, rs: seq<Reading>, i: nat, k: nat, e: nat)
    requires i < |rs| && Tracks(steps, rs, i, k, e)
    ensures Longest(steps, rs[..i], k) && !After(steps, rs[..i]).completed && After(steps, rs[..i]).index == k
  {
  }

  /** The event at the `i`th reading, if the machine is still live, is the one that
      the trace has there. */
  lemma EventIffTrace(steps: seq<SeqStep>, rs: seq<Reading>, i: nat)
    requires steps != [] && i < |rs| && !After(steps, rs[..i]).completed
    ensures var kind := KindOf(EventAt(steps, rs, i));
      && Undisturbed(steps, rs, i)
      && (kind == Some(Completed) <==> CompleteAt(steps, rs, i))
      && (kind == Some(Skipped) <==> exists k: nat :: SkipAt(steps, rs, i, k))
      && (kind == Some(TimedOut) <==> exists k: nat, e: nat :: TimeoutAt(steps, rs, i, k, e))
  {
    hide Next, SkipAt, TimeoutAt, Tracks, CompleteAt;
    var k, e := LiveTracks(steps, rs, i);
    NextKind(steps, rs, i, k, e);
    DisturbedHere(steps, rs, i, k, e);
    LongestOf(steps, rs, i, k, e);
    CompleteMeans(steps, rs, i, k);
  }

  /** Once the machine has ended, nothing in the trace that could end it is the first
      of its kind. */
  lemma NoEventAfterEnd(steps: seq<SeqStep>, rs: seq<Reading>, i: nat)
    requires steps != [] && i < |rs| && After(steps, rs[..i]).completed
    ensures EventAt(steps, rs, i).None?
    ensures Undisturbed(steps, rs, i) ==>
      !CompleteAt(steps, rs, i) && (forall k: nat :: !SkipAt(steps, rs, i, k)) &&
      (forall k: nat, e: nat :: !TimeoutAt(steps, rs, i, k, e))
  {
    hide Undisturbed, Matches, Skips, Overdue, EnteredAt, Longest;
    EndedMeans(steps, rs, i);
    if Undisturbed(steps, rs, i) {
      var j :| 0 <= j < i && CompleteAt(steps, rs, j);
      NothingAfterComplete(steps, rs, j, i);
      OccursInMore(steps, rs, j + 1, i, |steps|);
    }
  }

  /** The sequence is reported complete at the `i`th reading exactly when that reading
      is the first by which the steps occur in order, and the trace has not disturbed
      the sequence before. */
  lemma CompletedIffOccurs(steps: seq<SeqStep>, rs: seq<Reading>, i: nat)
    requires steps != [] && i < |rs|
    ensures KindOf(EventAt(steps, rs, i)) == Some(Completed) <==>
            CompleteAt(steps, rs, i) && Undisturbed(steps, rs, i)
  {
    hide CompleteAt, Undisturbed, SkipAt, TimeoutAt, EventAt;
    if After(steps, rs[..i]).completed {
      NoEventAfterEnd(steps, rs, i);
    } else {
      EventIffTrace(steps, rs, i);
    }
  }

  /** A skip is reported at the `i`th reading exactly when the trace skips a step
      there, and has not disturbed the sequence before. */
  lemma SkippedIffLaterZone(steps: seq<SeqStep>, rs: seq<Reading>, i: nat)
    requires steps != [] && i < |rs|
    ensures KindOf(EventAt(steps, rs, i)) == Some(Skipped) <==>
            (exists k: nat :: SkipAt(steps, rs, i, k)) && Undisturbed(steps, rs, i)
  {
    hide CompleteAt, Undisturbed, SkipAt, TimeoutAt, EventAt;
    if After(steps, rs[..i]).completed {
      NoEventAfterEnd(steps, rs, i);
    } else {
      EventIffTrace(steps, rs, i);
    }
  }

  /** A timeout is reported at the `i`th reading exactly when the trace overruns the
      limit of the pending step there, and has not disturbed the sequence before. */
  lemma TimedOutIffOverdue(steps: seq<SeqStep>, rs: seq<Reading>, i: nat)
    requires steps != [] && i < |rs|
    ensures KindOf(EventAt(steps, rs, i)) == Some(TimedOut) <==>
            (exists k: nat, e: nat :: TimeoutAt(steps, rs, i, k, e)) && Undisturbed(steps, rs, i)
  {
    hide CompleteAt, Undisturbed, SkipAt, TimeoutAt, EventAt;
    if After(steps, rs[..i]).completed {
      NoEventAfterEnd(steps, rs, i);
    } else {
      EventIffTrace(steps, rs, i);
    }
  }

  /** What a skip says: the pending step, and the zone reached. */
  lemma SkipTells(steps: seq<SeqStep>, rs: seq<Reading>, i: nat, k: nat)
    requires steps != [] && i < |rs| && KindOf(EventAt(steps, rs, i)) == Some(Skipped) && SkipAt(steps, rs, i, k)
    ensures rs[i].zone.Some? && EventAt(steps, rs, i) == Some(StepSkipped(steps[k].name, rs[i].zone.value))
  {
    hide Occurs, Matches, Overdue, Names;
    GreedyIsOptimal(steps, rs[..i]);
    NoneButLongest(steps, rs[..i], k, After(steps, rs[..i]).index);
  }

  /** What a timeout says: the pending step and its limit, which was overrun; and no
      reading since that step was entered matched it. */
  lemma TimeoutTells(steps: seq<SeqStep>, rs: seq<Reading>, i: nat, k: nat, e: nat)
    requires steps != [] && i < |rs| && KindOf(EventAt(steps, rs, i)) == Some(TimedOut) && TimeoutAt(steps, rs, i, k, e)
    ensures steps[k].maxSeconds.Some?
    ensures EventAt(steps, rs, i) == Some(StepTimeout(steps[k].name, steps[k].maxSeconds.value))
    ensures rs[i].now - rs[e].now > steps[k].maxSeconds.value
    ensures forall j :: e < j <= i ==> !Matches(steps[k], rs[j])
  {
    hide Occurs, Matches, Skips, Names, EnteredAt;
    GreedyIsOptimal(steps, rs[..i]);
    NoneButLongest(steps, rs[..i], k, After(steps, rs[..i]).index);
    forall j | e < j <= i ensures !Matches(steps[k], rs[j]) {
      if j < i {
        NoMatchBetween(steps, rs, k, e, j, i);
      }
    }
  }

  /** A reading after the step was entered that matched it would have brought the
      trace further. */
  lemma NoMatchBetween(steps: seq<SeqStep>, rs: seq<Reading>, k: nat, e: nat, j: nat, i: nat)
    requires e < j < i <= |rs| && e < |rs| && EnteredAt(steps, rs, k, e) && Longest(steps, rs[..i], k)
    ensures !Matches(steps[k], rs[j])
  {
    hide Occurs, Matches;
    if Matches(steps[k], rs[j]) {
      if k == 0 {
        OccursNothing(steps, rs[..j]);
      } else {
        OccursInMore(steps, rs, e + 1, j, k);
      }
      OccursMore(steps, rs[..j], rs[j], k);
      assert rs[..j + 1] == rs[..j] + [rs[j]];
      OccursInMore(steps, rs, j + 1, i, k + 1);
    }
  }

  lemma OccursNothing(steps: seq<SeqStep>, rs: seq<Reading>)
    ensures Occurs(steps, rs, 0)
  {
    assert Embeds(steps, rs, []);
  }
}
