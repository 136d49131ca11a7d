/** When the encoder can get frames out of push order: the exact condition, and a run
    in which it does. */
module RelayReorder {
  import opened Common
  import opened Sequences
  import opened AnnexB
  import opened Relay

  /** A frame that holds a sequence parameter set, and one that holds a picture
      parameter set. */
  const SPS_FRAME: Bytes := [0, 0, 1, 7]
  const PPS_FRAME: Bytes := [0, 0, 1, 8]

  /** The units of a stream of short ones, each behind a 3-byte code. */
  function Short(xs: seq<byte>): seq<Unit> {
    if xs == [] then [] else [Unit(false, [xs[0]])] + Short(xs[1..])
  }

  lemma {:induction false} ShortUnits(xs: seq<byte>)
    requires forall i :: 0 <= i < |xs| ==> xs[i] > 1
    ensures Canonical(Short(xs)) && Separated([], Short(xs))
    ensures |Payloads(Short(xs))| == |xs| && forall i :: 0 <= i < |xs| ==> Payloads(Short(xs))[i] == [xs[i]]
  {
    if xs != [] {
      ShortUnits(xs[1..]);
      var us := Short(xs);
      assert us[0] == Unit(false, [xs[0]]) && us[1..] == Short(xs[1..]);
      assert Payloads(us) == [[xs[0]]] + Payloads(us[1..]);
    }
  }

  lemma {:induction false} SplitShort(xs: seq<byte>)
    requires forall i :: 0 <= i < |xs| ==> xs[i] > 1
    ensures |Split(Render(Short(xs)))| == |xs| && forall i :: 0 <= i < |xs| ==> Split(Render(Short(xs)))[i] == [xs[i]]
  {
    hide Render, Units, Canonical, Separated, Short, Payloads;
    ShortUnits(xs);
    var us := Short(xs);
    assert [] + Render(us) == Render(us);
    ReadingIsUnique([], us);
    var ps := Payloads(us);
    forall n | n in ps ensures n != [] {
      var i :| 0 <= i < |ps| && ps[i] == n;
    }
    NonEmptyMembers(ps);
  }

  lemma RenderShort(x: byte, xs: seq<byte>)
    ensures Render(Short([x] + xs)) == [0, 0, 1, x] + Render(Short(xs))
  {
    var all := [x] + xs;
    assert all[0] == x && all[1..] == xs;
    RenderCons(Unit(false, [x]), Short(xs));
    assert [0, 0, 1] + [x] == [0, 0, 1, x];
  }

  lemma RenderNothing()
    ensures Render(Short([])) == []
  {
  }

  lemma OneUnit(x: byte)
    requires x > 1
    ensures Split([0, 0, 1, x]) == [[x]]
  {
    hide Render, Short, Split;
    SplitShort([x]);
    RenderShort(x, []);
    RenderNothing();
    assert [x] + [] == [x] && [0, 0, 1, x] + [] == [0, 0, 1, x];
  }

  lemma TwoUnits(x: byte, y: byte)
    requires x > 1 && y > 1
    ensures Split([0, 0, 1, x, 0, 0, 1, y]) == [[x], [y]]
  {
    hide Render, Short, Split;
    SplitShort([x, y]);
    RenderShort(x, [y]);
    RenderShort(y, []);
    RenderNothing();
    assert [x] + [y] == [x, y] && [y] + [] == [y];
    assert [0, 0, 1, x] + ([0, 0, 1, y] + []) == [0, 0, 1, x, 0, 0, 1, y];
  }

  lemma SetsFound()
    ensures FirstOf(Split(SPS_FRAME), SPS_TYPE) == Some([7]) && FirstOf(Split(SPS_FRAME), PPS_TYPE) == None
    ensures FirstOf(Split(PPS_FRAME), SPS_TYPE) == None && FirstOf(Split(PPS_FRAME), PPS_TYPE) == Some([8])
  {
    OneUnit(7);
    OneUnit(8);
  }

  // ---- Whatever is queued can be written ----

  /** A frame that holds both parameter sets. */
  const BOTH_FRAME: Bytes := [0, 0, 1, 7, 0, 0, 1, 8]

  lemma BothFound()
    ensures FirstOf(Split(BOTH_FRAME), SPS_TYPE) == Some([7]) && FirstOf(Split(BOTH_FRAME), PPS_TYPE) == Some([8])
  {
    hide Split;
    TwoUnits(7, 8);
    var ns: seq<Bytes> := [[7], [8]];
    assert ns[0] == [7] && ns[1..] == [[8]] && ns[1..][0] == [8];
  }

  /** The steps are none of them late, and write out whatever is queued now. */
  ghost predicate WritesQueue(s: State, more: seq<Action>)
    requires Named(s)
  {
    NeverLate(s, more) && Queue(s) <= Run(s, more).sent
  }

  /** One more step in front. */
  lemma WritesCons(s: State, a: Action, more: seq<Action>)
    requires Named(s) && !Late(s, a) && Named(Step(s, a)) && Queue(s) <= Queue(Step(s, a))
    requires WritesQueue(Step(s, a), more)
    ensures WritesQueue(s, [a] + more)
  {
    hide Step, Queue, Late, Named;
    var acts := [a] + more;
    assert acts[0] == a && acts[1..] == more;
  }

  function Found(p: Phase): bool {
    p.Looking? && p.sps.Some? && p.pps.Some?
  }

  /** How far the phase is from having written everything. */
  function Stage(p: Phase): nat {
    match p
    case PushingBack(_) => 3
    case Idle => 2
    case Looking(_, _, _) => 1
    case Pumping(_) => 0
  }

  function Left(s: State): nat {
    match s.phase
    case PushingBack(rest) => |rest|
    case Idle => 0
    case Looking(_, _, _) => if Found(s.phase) then 0 else |s.ring| + 1
    case Pumping(replay) => |replay| + |s.ring|
  }

  /** The next step towards writing everything, when there is one that takes nothing
      new. */
  function Onward(s: State): Action {
    match s.phase
    case PushingBack(_) => PushBackOne
    case Idle => Open
    case Looking(_, _, _) => if Found(s.phase) then Commit else LookPop
    case Pumping(_) => PumpOne
  }

  lemma OnwardStep(s: State)
    requires Named(s)
    requires s.phase.Looking? && !Found(s.phase) ==> s.ring != []
    requires s.phase.Pumping? ==> s.phase.replay != [] || s.ring != []
    ensures Named(Step(s, Onward(s))) && Queue(Step(s, Onward(s))) == Queue(s) && !Late(s, Onward(s))
    ensures var s' := Step(s, Onward(s));
      Stage(s'.phase) < Stage(s.phase) || (Stage(s'.phase) == Stage(s.phase) && Left(s') < Left(s))
  {
    hide Split, FirstOf, Append, Queue, Named;
    QueueKept(s, Onward(s));
  }

  /** With an empty ring and parameter sets missing, a frame with both arrives. */
  lemma SetsArrive(s: State)
    requires Named(s) && s.phase.Looking? && !Found(s.phase) && s.ring == []
    ensures var s1 := Step(s, Push(BOTH_FRAME));
      && Named(s1) && !Late(s, Push(BOTH_FRAME)) && Queue(s) <= Queue(s1)
      && var s2 := Step(s1, LookPop);
         Named(s2) && !Late(s1, LookPop) && Queue(s1) == Queue(s2) && Found(s2.phase)
  {
    hide Split, FirstOf;
    BothFound();
    StepNamed(s, Push(BOTH_FRAME));
    var s1 := Step(s, Push(BOTH_FRAME));
    assert s1.ring == [|s.pushed|] && s1.pushed[|s.pushed|] == BOTH_FRAME;
    QueueKept(s1, LookPop);
  }

  lemma AllWritten(s: State)
    requires Named(s) && s.phase.Pumping? && s.phase.replay == [] && s.ring == []
    ensures WritesQueue(s, [])
  {
    assert s.sent + [] + [] == s.sent;
  }

  /** From anywhere, by steps that are not late, everything queued can be written in
      the order of the queue: finish returning frames, look again, wait for both
      parameter sets if they are missing, pump. */
  lemma {:induction false} WritesOut(s: State) returns (more: seq<Action>)
    requires Named(s)
    ensures WritesQueue(s, more)
    decreases Stage(s.phase), Left(s)
  {
    hide Step, Queue, Late, Named, WritesQueue;
    if s.phase.Pumping? && s.phase.replay == [] && s.ring == [] {
      more := [];
      AllWritten(s);
    } else if s.phase.Looking? && !Found(s.phase) && s.ring == [] {
      SetsArrive(s);
      var s1 := Step(s, Push(BOTH_FRAME));
      var s2 := Step(s1, LookPop);
      var rest := WritesOut(s2);
      WritesCons(s1, LookPop, rest);
      WritesCons(s, Push(BOTH_FRAME), [LookPop] + rest);
      more := [Push(BOTH_FRAME)] + ([LookPop] + rest);
    } else {
      OnwardStep(s);
      var rest := WritesOut(Step(s, Onward(s)));
      WritesCons(s, Onward(s), rest);
      more := [Onward(s)] + rest;
    }
  }

  // ---- The exact condition ----

  /** By steps none of which is late, the encoder can come to get frames out of push
      order. */
  ghost predicate CanReorder(s: State)
    requires Named(s)
  {
    exists more :: NeverLate(s, more) && !Increasing(Run(s, more).sent)
  }

  /** The queue tells: it is in push order if and only if the encoder cannot come to
      get frames out of order without a further late step. */
  lemma OrderedIffSafe(s: State)
    requires Named(s)
    ensures Ordered(s) <==> !CanReorder(s)
  {
    hide Step, Queue, Late, Named;
    if Ordered(s) {
      forall more | NeverLate(s, more) ensures Increasing(Run(s, more).sent) {
        RunKeepsOrder(s, more);
        SentFirst(Run(s, more));
      }
    } else {
      var more := WritesOut(s);
      var q, sent := Queue(s), Run(s, more).sent;
      assert sent == q + sent[|q|..];
      if Increasing(sent) {
        FrontIncreasing(q, sent[|q|..]);
      }
    }
  }

  /** Somewhere along the run the encoder could have come to get frames out of order,
      by steps that are not late. */
  ghost predicate SomewhereUnsafe(s: State, acts: seq<Action>)
    requires Named(s)
    decreases |acts|
  {
    CanReorder(s) || (acts != [] && (StepNamed(s, acts[0]); SomewhereUnsafe(Step(s, acts[0]), acts[1..])))
  }

  lemma {:induction false} UnsafeIffLate(s: State, acts: seq<Action>)
    requires Named(s) && Ordered(s)
    ensures SomewhereUnsafe(s, acts) <==> !NeverLate(s, acts)
    decreases |acts|
  {
    hide Step, Ordered, Late, Named, CanReorder;
    OrderedIffSafe(s);
    if acts != [] {
      StepKeepsOrder(s, acts[0]);
      if Late(s, acts[0]) {
        OrderedIffSafe(Step(s, acts[0]));
      } else {
        UnsafeIffLate(Step(s, acts[0]), acts[1..]);
      }
    }
  }

  /** The exact condition: a run never comes to a point from which the encoder can get
      frames out of push order, if and only if no step of it is late. */
  lemma ReordersIffLate(cap: nat, acts: seq<Action>)
    requires cap > 0
    ensures Named(Init(cap)) && (!SomewhereUnsafe(Init(cap), acts) <==> NeverLate(Init(cap), acts))
  {
    StartsOrdered(cap);
    UnsafeIffLate(Init(cap), acts);
  }

  // ---- A run that reorders ----

  const REORDER: seq<Action> :=
    [Push(SPS_FRAME), Open, LookPop, Push(PPS_FRAME), Deadline, PushBackOne, PushBackOne,
     Open, LookPop, LookPop, Commit, PumpOne, PumpOne]

  /** The states of the run. */
  function Reordering(n: nat): State {
    var f, sps, pps := [SPS_FRAME, PPS_FRAME], Some([7]), Some([8]);
    match n
    case 0 => Init(8)
    case 1 => State(8, [SPS_FRAME], [0], Idle, [], [])
    case 2 => State(8, [SPS_FRAME], [0], Looking([], None, None), [], [])
    case 3 => State(8, [SPS_FRAME], [], Looking([0], sps, None), [], [])
    case 4 => State(8, f, [1], Looking([0], sps, None), [], [])
    case 5 => State(8, f, [1], PushingBack([0]), [], [])
    case 6 => State(8, f, [1, 0], PushingBack([]), [], [])
    case 7 => State(8, f, [1, 0], Idle, [], [])
    case 8 => State(8, f, [1, 0], Looking([], None, None), [], [])
    case 9 => State(8, f, [0], Looking([1], None, pps), [], [])
    case 10 => State(8, f, [], Looking([1, 0], sps, pps), [], [])
    case 11 => State(8, f, [], Pumping([1, 0]), [], [])
    case 12 => State(8, f, [], Pumping([0]), [1], [])
    case _ => State(8, f, [], Pumping([]), [1, 0], [])
  }

  lemma AllNamed(n: nat)
    ensures Named(Reordering(n))
  {
  }

  lemma FirstAttempt()
    ensures Step(Reordering(0), Push(SPS_FRAME)) == Reordering(1)
    ensures Step(Reordering(1), Open) == Reordering(2)
    ensures Step(Reordering(2), LookPop) == Reordering(3)
    ensures Step(Reordering(3), Push(PPS_FRAME)) == Reordering(4)
  {
    hide Split, FirstOf;
    SetsFound();
    var ring: seq<nat> := [0];
    assert ring[0] == 0 && ring[1..] == [] && [] + [0] == ring;
    assert [SPS_FRAME] + [PPS_FRAME] == [SPS_FRAME, PPS_FRAME];
  }

  lemma GivesUp()
    ensures Step(Reordering(4), Deadline) == Reordering(5)
    ensures Step(Reordering(5), PushBackOne) == Reordering(6)
    ensures Step(Reordering(6), PushBackOne) == Reordering(7)
    ensures Step(Reordering(7), Open) == Reordering(8)
  {
    hide Split, FirstOf;
    var rest: seq<nat> := [0];
    assert rest[0] == 0 && rest[1..] == [] && [1] + [0] == [1, 0];
  }

  lemma FirstLook()
    ensures Step(Reordering(8), LookPop) == Reordering(9)
  {
    hide Split, FirstOf;
    SetsFound();
    var two: seq<nat> := [1, 0];
    assert two[0] == 1 && two[1..] == [0] && [] + [1] == [1];
  }

  lemma SecondLook()
    ensures Step(Reordering(9), LookPop) == Reordering(10)
  {
    hide Split, FirstOf;
    SetsFound();
    var one: seq<nat> := [0];
    assert one[0] == 0 && one[1..] == [] && [1] + [0] == [1, 0];
  }

  lemma SetsCommitted()
    ensures Step(Reordering(10), Commit) == Reordering(11)
  {
    hide Split, FirstOf;
  }

  lemma FirstWritten()
    ensures Step(Reordering(11), PumpOne) == Reordering(12)
  {
    hide Split, FirstOf;
    var two: seq<nat> := [1, 0];
    assert two[0] == 1 && two[1..] == [0] && [] + [1] == [1];
  }

  lemma SecondWritten()
    ensures Step(Reordering(12), PumpOne) == Reordering(13)
  {
    hide Split, FirstOf;
    var one: seq<nat> := [0];
    assert one[0] == 0 && one[1..] == [] && [1] + [0] == [1, 0];
  }

  /** The push-back does not always keep order: a frame that arrives before the
      deadline gets ahead of the older one that look-ahead was holding, and the next
      reader's pump writes them in that order. */
  lemma GivingUpReorders()
    ensures Named(Init(8))
    ensures Run(Init(8), REORDER).sent == [1, 0] && Run(Init(8), REORDER).lost == []
  {
    hide Run, Step, Reordering, Named;
    assert Named(Init(8)) by { AllNamed(0); Ends(); }
    FirstAttempt();
    GivesUp();
    FirstLook();
    SecondLook();
    SetsCommitted();
    FirstWritten();
    SecondWritten();
    forall n: nat ensures Named(Reordering(n)) {
      AllNamed(n);
    }
    PathRuns((n: nat) => Reordering(n), REORDER, 0);
    assert REORDER[0..] == REORDER;
    Ends();
  }

  lemma Ends()
    ensures Reordering(0) == Init(8) && Reordering(13).sent == [1, 0] && Reordering(13).lost == []
  {
  }
}
