/** Republishing one camera over RTSP: the look-ahead that waits for parameter
    sets, the replay of what it consumed, and the pump.  Frames are named by their
    place in push order, so that order and loss can be stated. */
module Relay {
  import opened Common
  import opened Sequences
  import opened AnnexB

  // ---- Waiting for parameter sets ----

  const SPS_TYPE: int := 7
  const PPS_TYPE: int := 8

  predicate HasType(n: Bytes, t: int) {
    n != [] && (n[0] % 32) as int == t
  }

  lemma HasTypeBits(n: Bytes, t: nat)
    requires t < 32
    ensures HasType(n, t) <==> n != [] && exists high: nat :: high < 8 && n[0] as int == 32 * high + t
  {
    if n != [] {
      TypeBits(n, t);
    }
  }

  /** The first unit of type `t`, if there is one. */
  function FirstOf(nalus: seq<Bytes>, t: int): Option<Bytes> {
    if nalus == [] then None
    else if HasType(nalus[0], t) then Some(nalus[0])
    else FirstOf(nalus[1..], t)
  }

  /** The unit found is of the type, and none before it is; none is found only if none
      is there. */
  lemma {:induction false} FirstOfMeaning(nalus: seq<Bytes>, t: int)
    ensures FirstOf(nalus, t).None? <==> forall i :: 0 <= i < |nalus| ==> !HasType(nalus[i], t)
    ensures FirstOf(nalus, t).Some? ==>
      exists i :: 0 <= i < |nalus| && nalus[i] == FirstOf(nalus, t).value && HasType(nalus[i], t) &&
                  forall j :: 0 <= j < i ==> !HasType(nalus[j], t)
  {
    if nalus != [] && !HasType(nalus[0], t) {
      var rest := nalus[1..];
      FirstOfMeaning(rest, t);
      assert forall i :: 0 < i < |nalus| ==> nalus[i] == rest[i - 1];
      if FirstOf(rest, t).Some? {
        var i :| 0 <= i < |rest| && rest[i] == FirstOf(rest, t).value && HasType(rest[i], t) &&
                 forall j :: 0 <= j < i ==> !HasType(rest[j], t);
        assert nalus[i + 1] == rest[i];
      }
    }
  }

  function OrElse(a: Option<Bytes>, b: Option<Bytes>): Option<Bytes> {
    if a.Some? then a else b
  }

  lemma {:induction false} FirstOfConcat(a: seq<Bytes>, b: seq<Bytes>, t: int)
    ensures FirstOf(a + b, t) == OrElse(FirstOf(a, t), FirstOf(b, t))
  {
    if a == [] {
      assert a + b == b;
    } else {
      FirstOfConcat(a[1..], b, t);
      assert (a + b)[1..] == a[1..] + b;
    }
  }

  /** The scan of one look-ahead frame: each parameter set is taken from the first
      unit of its type and never replaced. */
  method Scan(frame: Bytes, sps: Option<Bytes>, pps: Option<Bytes>) returns (sps': Option<Bytes>, pps': Option<Bytes>)
    ensures sps' == OrElse(sps, FirstOf(Split(frame), SPS_TYPE))
    ensures pps' == OrElse(pps, FirstOf(Split(frame), PPS_TYPE))
  {
    hide Split;
    sps', pps' := sps, pps;
    var nalus := SplitAnnexB(frame);
    for i := 0 to |nalus|
      invariant sps' == OrElse(sps, FirstOf(nalus[..i], SPS_TYPE))
      invariant pps' == OrElse(pps, FirstOf(nalus[..i], PPS_TYPE))
    {
      var nalu := nalus[i];
      FirstOfConcat(nalus[..i], [nalu], SPS_TYPE);
      FirstOfConcat(nalus[..i], [nalu], PPS_TYPE);
      assert nalus[..i + 1] == nalus[..i] + [nalu];
      if |nalu| == 0 {
        continue;
      }
      var t := (nalu[0] % 32) as int;
      if t == 7 {
        if sps'.None? {
          sps' := Some(nalu);
        }
      } else if t == 8 {
        if pps'.None? {
          pps' := Some(nalu);
        }
      }
    }
    assert nalus[..|nalus|] == nalus;
  }

  // ---- The protocol ----

  datatype Phase =
    | Idle
    | Looking(pending: seq<nat>, sps: Option<Bytes>, pps: Option<Bytes>)
    | PushingBack(rest: seq<nat>)
    | Pumping(replay: seq<nat>)

  /** `pushed` is every frame ever pushed; `ring`, `sent`, `lost` and the phases
      hold indices into it.  `sent` is what the pump has written: a frame goes to the
      encoder with all its units, and one without any unit ends there. */
  datatype State = State(cap: nat, pushed: seq<Bytes>, ring: seq<nat>, phase: Phase, sent: seq<nat>, lost: seq<nat>)

  datatype Action =
    | Push(frame: Bytes)   // the publisher
    | Open                 // a reader asks for the stream
    | LookPop              // look-ahead takes one frame
    | Deadline             // look-ahead gives up
    | PushBackOne          // ... and returns one frame to the ring
    | Commit               // parameter sets found: the pump starts
    | InitError            // stream or encoder could not be set up, or another initialiser won
    | PumpOne              // the pump writes one frame

  function Init(cap: nat): State {
    State(cap, [], [], Idle, [], [])
  }

  /** `Ring.Push` on indices: the oldest is overwritten when the ring is full. */
  function Enqueue(s: State, x: nat): State {
    s.(ring := Append(s.ring, x, s.cap),
       lost := if |s.ring| == s.cap && s.ring != [] then s.lost + [s.ring[0]] else s.lost)
  }

  /** One step; a step that is not enabled changes nothing. */
  function Step(s: State, a: Action): State
    requires Named(s)
  {
    match a
    case Push(f) => Enqueue(s.(pushed := s.pushed + [f]), |s.pushed|)
    case Open => if s.phase.Idle? then s.(phase := Looking([], None, None)) else s
    case LookPop =>
      if s.phase.Looking? && s.ring != [] && !(s.phase.sps.Some? && s.phase.pps.Some?) then
        var nalus := Split(s.pushed[s.ring[0]]);
        s.(ring := s.ring[1..],
           phase := Looking(s.phase.pending + [s.ring[0]],
                            OrElse(s.phase.sps, FirstOf(nalus, SPS_TYPE)),
                            OrElse(s.phase.pps, FirstOf(nalus, PPS_TYPE))))
      else s
    case Deadline =>
      if s.phase.Looking? && !(s.phase.sps.Some? && s.phase.pps.Some?) then s.(phase := PushingBack(s.phase.pending))
      else s
    case PushBackOne =>
      if s.phase.PushingBack? then
        if s.phase.rest == [] then s.(phase := Idle)
        else Enqueue(s.(phase := PushingBack(s.phase.rest[1..])), s.phase.rest[0])
      else s
    case Commit =>
      if s.phase.Looking? && s.phase.sps.Some? && s.phase.pps.Some? then s.(phase := Pumping(s.phase.pending)) else s
    case InitError =>
      if s.phase.Looking? && s.phase.sps.Some? && s.phase.pps.Some? then
        s.(phase := Idle, lost := s.lost + s.phase.pending)
      else s
    case PumpOne =>
      if !s.phase.Pumping? then s
      else if s.phase.replay != [] then s.(phase := Pumping(s.phase.replay[1..]), sent := s.sent + [s.phase.replay[0]])
      else if s.ring != [] then s.(ring := s.ring[1..], sent := s.sent + [s.ring[0]])
      else s
  }

  /** Frames taken out of the ring and not yet written. */
  function InHand(p: Phase): seq<nat> {
    match p
    case Idle => []
    case Looking(pending, _, _) => pending
    case PushingBack(rest) => rest
    case Pumping(replay) => replay
  }

  /** What has been written, and what is held in the order in which it will be
      written if nothing else arrives.  Frames on their way back go behind the ring,
      and overwrite its oldest ones if it overflows. */
  function Queue(s: State): seq<nat> {
    if s.phase.PushingBack? then s.sent + LastN(s.ring + s.phase.rest, s.cap) else s.sent + InHand(s.phase) + s.ring
  }

  ghost predicate Below(xs: seq<nat>, n: nat) {
    forall i :: 0 <= i < |xs| ==> xs[i] < n
  }

  /** Every index names a pushed frame, and only the pump has written any. */
  ghost predicate Named(s: State) {
    && s.cap > 0 && |s.ring| <= s.cap
    && Below(s.ring, |s.pushed|) && Below(InHand(s.phase), |s.pushed|) && Below(s.sent, |s.pushed|)
    && (s.phase.Pumping? || s.sent == [])
  }

  function Run(s: State, acts: seq<Action>): State
    requires Named(s)
    decreases |acts|
  {
    if acts == [] then s else
      StepNamed(s, acts[0]);
      Run(Step(s, acts[0]), acts[1..])
  }

  lemma AppendBelow(ring: seq<nat>, x: nat, cap: nat, n: nat)
    requires cap > 0 && |ring| <= cap && Below(ring, n) && x < n
    ensures |Append(ring, x, cap)| <= cap && Below(Append(ring, x, cap), n)
  {
    var kept := if |ring| == cap then ring[1..] else ring;
    assert Append(ring, x, cap) == kept + [x];
  }

  lemma StepNamed(s: State, a: Action)
    requires Named(s)
    ensures Named(Step(s, a)) && Step(s, a).cap == s.cap
  {
    hide Split, FirstOf, OrElse, Append;
    match a {
      case Push(f) =>
        assert Below(s.ring, |s.pushed| + 1);
        AppendBelow(s.ring, |s.pushed|, s.cap, |s.pushed| + 1);
      case PushBackOne =>
        if s.phase.PushingBack? && s.phase.rest != [] {
          AppendBelow(s.ring, s.phase.rest[0], s.cap, |s.pushed|);
        }
      case _ =>
    }
  }

  // ---- Conservation, for every run ----

  /** Moving the head of one queue to the end of another. */
  lemma MoveHead(a: seq<nat>, b: seq<nat>)
    requires a != []
    ensures multiset(b) + multiset(a) == multiset(b + [a[0]]) + multiset(a[1..])
  {
    assert a == [a[0]] + a[1..];
    assert multiset(a) == multiset([a[0]]) + multiset(a[1..]);
    assert multiset(b + [a[0]]) == multiset(b) + multiset([a[0]]);
  }

  /** Where the frames are, as one bag. */
  ghost function Bag(s: State): multiset<nat> {
    multiset(s.sent) + multiset(InHand(s.phase)) + multiset(s.ring) + multiset(s.lost)
  }

  lemma EnqueueBag(s: State, x: nat)
    requires s.cap > 0 && |s.ring| <= s.cap
    ensures Bag(Enqueue(s, x)) == Bag(s) + multiset([x])
  {
    if |s.ring| == s.cap {
      assert s.ring == [s.ring[0]] + s.ring[1..];
      assert Append(s.ring, x, s.cap) == s.ring[1..] + [x];
    } else {
      assert Append(s.ring, x, s.cap) == s.ring + [x];
    }
  }

  lemma PushBag(s: State, f: Bytes)
    requires Named(s)
    ensures Bag(Step(s, Push(f))) == Bag(s) + multiset([|s.pushed|])
    ensures multiset(Range(|s.pushed| + 1)) == multiset(Range(|s.pushed|)) + multiset([|s.pushed|])
  {
    EnqueueBag(s.(pushed := s.pushed + [f]), |s.pushed|);
    assert Range(|s.pushed| + 1) == Range(|s.pushed|) + [|s.pushed|];
  }

  lemma Regroup(x: multiset<nat>, y: multiset<nat>, a: multiset<nat>, b: multiset<nat>,
                a': multiset<nat>, b': multiset<nat>)
    requires a + b == a' + b'
    ensures x + a + b + y == x + a' + b' + y
    ensures a + b + x + y == a' + b' + x + y
    ensures a + x + b + y == a' + x + b' + y
  {
    assert x + a + b + y == x + (a + b) + y;
    assert x + a' + b' + y == x + (a' + b') + y;
    assert a + x + b + y == a + b + (x + y);
    assert a' + x + b' + y == a' + b' + (x + y);
  }

  lemma LookPopBag(s: State)
    requires Named(s)
    ensures Bag(Step(s, LookPop)) == Bag(s)
  {
    hide Split, FirstOf, OrElse;
    var s' := Step(s, LookPop);
    if s'.ring != s.ring {
      MoveHead(s.ring, s.phase.pending);
      Regroup(multiset(s.sent), multiset(s.lost), multiset(s.phase.pending), multiset(s.ring),
              multiset(s'.phase.pending), multiset(s'.ring));
    }
  }

  lemma PushBackBag(s: State)
    requires Named(s)
    ensures Bag(Step(s, PushBackOne)) == Bag(s)
  {
    if s.phase.PushingBack? && s.phase.rest != [] {
      assert s.phase.rest == [s.phase.rest[0]] + s.phase.rest[1..];
      EnqueueBag(s.(phase := PushingBack(s.phase.rest[1..])), s.phase.rest[0]);
    }
  }

  lemma PumpBag(s: State)
    requires Named(s)
    ensures Bag(Step(s, PumpOne)) == Bag(s)
  {
    var s' := Step(s, PumpOne);
    if s.phase.Pumping? && s.phase.replay != [] {
      MoveHead(s.phase.replay, s.sent);
      Regroup(multiset(s.ring), multiset(s.lost), multiset(s.sent), multiset(s.phase.replay),
              multiset(s'.sent), multiset(s'.phase.replay));
    } else if s.phase.Pumping? && s.ring != [] {
      MoveHead(s.ring, s.sent);
      Regroup(multiset(InHand(s.phase)), multiset(s.lost), multiset(s.sent), multiset(s.ring),
              multiset(s'.sent), multiset(s'.ring));
    }
  }

  lemma InitErrorBag(s: State)
    requires Named(s)
    ensures Bag(Step(s, InitError)) == Bag(s)
  {
    var s' := Step(s, InitError);
    if s' != s {
      assert multiset(s'.lost) == multiset(s.lost) + multiset(s.phase.pending);
    }
  }

  lemma HandOverBag(s: State, a: Action)
    requires Named(s) && (a.Open? || a.Deadline? || a.Commit?)
    ensures Bag(Step(s, a)) == Bag(s) && Step(s, a).pushed == s.pushed
  {
  }

  lemma StepConserves(s: State, a: Action)
    requires Named(s)
    requires Bag(s) == multiset(Range(|s.pushed|))
    ensures Bag(Step(s, a)) == multiset(Range(|Step(s, a).pushed|))
  {
    hide Split, FirstOf, OrElse, Append, Bag, Range;
    match a {
      case Push(f) => PushBag(s, f);
      case LookPop => LookPopBag(s);
      case PushBackOne => PushBackBag(s);
      case PumpOne => PumpBag(s);
      case InitError => InitErrorBag(s);
      case _ => HandOverBag(s, a);
    }
  }

  /** In every run, with overflow, failed starts and push-backs: each pushed frame
      is written, in hand, in the ring or lost, and it is so exactly once. */
  lemma {:induction false} RunConserves(s: State, acts: seq<Action>)
    requires Named(s) && Bag(s) == multiset(Range(|s.pushed|))
    ensures Bag(Run(s, acts)) == multiset(Range(|Run(s, acts).pushed|))
    decreases |acts|
  {
    if acts != [] {
      StepNamed(s, acts[0]);
      StepConserves(s, acts[0]);
      RunConserves(Step(s, acts[0]), acts[1..]);
    }
  }

  // ---- Order ----

  /** Whatever was written or will be, if nothing else arrives, is in push order. */
  ghost predicate Ordered(s: State) {
    Increasing(Queue(s))
  }

  /** A step that puts an older frame behind a newer one for good: giving up while the
      ring holds newer frames, or a frame arriving while older ones are being returned;
      unless what is returned fills the ring and so overwrites every newer frame. */
  predicate Late(s: State, a: Action) {
    || (a.Deadline? && s.phase.Looking? && !(s.phase.sps.Some? && s.phase.pps.Some?) &&
        s.ring != [] && 0 < |s.phase.pending| < s.cap)
    || (a.Push? && s.phase.PushingBack? && 0 < |s.phase.rest| < s.cap)
  }

  lemma DropMiddle(a: seq<nat>, b: seq<nat>, c: seq<nat>)
    requires Increasing(a + b + c)
    ensures Increasing(a + c)
  {
    var x, y := a + b + c, a + c;
    assert forall i :: 0 <= i < |y| ==> y[i] == x[if i < |a| then i else |b| + i];
  }

  lemma AppendNewest(q: seq<nat>, n: nat)
    requires Increasing(q) && Below(q, n)
    ensures Increasing(q + [n])
  {
  }

  /** A newest frame at the end of a bounded ring. */
  lemma PushNewest(before: seq<nat>, ring: seq<nat>, n: nat, cap: nat)
    requires Increasing(before + ring) && Below(before, n) && Below(ring, n) && |ring| <= cap && cap > 0
    ensures Increasing(before + Append(ring, n, cap))
  {
    if |ring| < cap {
      AppendNewest(before + ring, n);
      assert before + Append(ring, n, cap) == before + ring + [n];
    } else {
      assert ring == [ring[0]] + ring[1..];
      assert before + ring == before + [ring[0]] + ring[1..];
      DropMiddle(before, [ring[0]], ring[1..]);
      AppendNewest(before + ring[1..], n);
      assert before + Append(ring, n, cap) == before + ring[1..] + [n];
    }
  }

  /** A long enough tail is all that a window shows. */
  lemma LongTail(a: seq<nat>, b: seq<nat>, cap: nat)
    requires |b| >= cap
    ensures LastN(a + b, cap) == LastN(b, cap)
  {
  }

  /** A short tail shows behind something newer. */
  lemma ShortTail(before: seq<nat>, a: seq<nat>, b: seq<nat>, cap: nat)
    requires a != [] && 0 < |b| < cap && a[|a| - 1] > b[0]
    ensures !Increasing(before + LastN(a + b, cap))
  {
    var w := LastN(a + b, cap);
    var q, k := before + w, |w| - |b|;
    assert w[k] == b[0] && w[k - 1] == a[|a| - 1];
    assert q[|before| + k - 1] > q[|before| + k];
  }

  lemma PushOrder(s: State, f: Bytes)
    requires Named(s) && Ordered(s)
    ensures Named(Step(s, Push(f))) && (Ordered(Step(s, Push(f))) <==> !Late(s, Push(f)))
  {
    hide Append, LastN;
    StepNamed(s, Push(f));
    var n := |s.pushed|;
    if !s.phase.PushingBack? {
      PushNewest(s.sent + InHand(s.phase), s.ring, n, s.cap);
    } else {
      PushBehind(s.ring, s.phase.rest, n, s.cap);
    }
  }

  /** A frame that arrives while `rest` is being returned. */
  lemma PushBehind(ring: seq<nat>, rest: seq<nat>, n: nat, cap: nat)
    requires cap > 0 && |ring| <= cap && Below(ring, n) && Below(rest, n)
    requires Increasing([] + LastN(ring + rest, cap))
    ensures Increasing([] + LastN(Append(ring, n, cap) + rest, cap)) <==> !(0 < |rest| < cap)
  {
    var after := Append(ring, n, cap);
    if rest == [] {
      assert ring + rest == ring && after + rest == after;
      PushNewest([], ring, n, cap);
    } else if |rest| >= cap {
      LongTail(ring, rest, cap);
      LongTail(after, rest, cap);
    } else {
      ShortTail([], after, rest, cap);
    }
  }

  /** Giving up with `pending` in hand. */
  lemma GiveUp(pending: seq<nat>, ring: seq<nat>, cap: nat)
    requires cap > 0 && |ring| <= cap && Increasing(pending + ring)
    ensures Increasing(LastN(ring + pending, cap)) <==> !(ring != [] && 0 < |pending| < cap)
  {
    hide LastN;
    if ring == [] {
      assert ring + pending == pending && pending + ring == pending;
      WindowIncreasing(pending, cap);
    } else if pending == [] {
      assert ring + pending == ring && pending + ring == ring;
      WindowIncreasing(ring, cap);
    } else if |pending| >= cap {
      LongTail(ring, pending, cap);
      FrontIncreasing(pending, ring);
      WindowIncreasing(pending, cap);
    } else {
      FirstBelowLast(pending, ring);
      ShortTail([], ring, pending, cap);
      assert [] + LastN(ring + pending, cap) == LastN(ring + pending, cap);
    }
  }

  lemma WindowIncreasing(q: seq<nat>, cap: nat)
    requires Increasing(q)
    ensures Increasing(LastN(q, cap))
  {
  }

  lemma FrontIncreasing(a: seq<nat>, b: seq<nat>)
    requires Increasing(a + b)
    ensures Increasing(a)
  {
    var q := a + b;
    assert forall i :: 0 <= i < |a| ==> a[i] == q[i];
  }

  lemma FirstBelowLast(a: seq<nat>, b: seq<nat>)
    requires Increasing(a + b) && a != [] && b != []
    ensures a[0] < b[|b| - 1]
  {
    var q := a + b;
    assert q[0] == a[0] && q[|q| - 1] == b[|b| - 1];
  }

  lemma EmptyFront(q: seq<nat>)
    ensures [] + q == q
  {
  }

  lemma DeadlineOrder(s: State)
    requires Named(s) && Ordered(s)
    ensures Named(Step(s, Deadline)) && (Ordered(Step(s, Deadline)) <==> !Late(s, Deadline))
  {
    hide LastN, Increasing;
    StepNamed(s, Deadline);
    if s.phase.Looking? {
      EmptyFront(s.phase.pending);
      EmptyFront(LastN(s.ring + s.phase.pending, s.cap));
      GiveUp(s.phase.pending, s.ring, s.cap);
    }
  }

  lemma InitErrorOrder(s: State)
    requires Named(s) && Ordered(s)
    ensures Named(Step(s, InitError)) && Ordered(Step(s, InitError))
  {
    StepNamed(s, InitError);
    if s.phase.Looking? {
      DropMiddle(s.sent, s.phase.pending, s.ring);
      assert s.sent + [] + s.ring == s.sent + s.ring;
    }
  }

  /** Returning the oldest frame in hand to the ring. */
  lemma ReturnOne(ring: seq<nat>, rest: seq<nat>, cap: nat)
    requires rest != [] && cap > 0 && |ring| <= cap
    ensures LastN(Append(ring, rest[0], cap) + rest[1..], cap) == LastN(ring + rest, cap)
  {
    assert ring + rest == ring + [rest[0]] + rest[1..];
    WindowOfWindow(ring + [rest[0]], rest[1..], cap);
  }

  lemma WindowOfWindow(a: seq<nat>, b: seq<nat>, cap: nat)
    ensures LastN(LastN(a, cap) + b, cap) == LastN(a + b, cap)
  {
  }

  lemma LookPopQueue(s: State)
    requires Named(s)
    ensures Queue(Step(s, LookPop)) == Queue(s)
  {
    hide Split, FirstOf, OrElse, LastN;
    MoveAlong(s.sent, InHand(s.phase), s.ring);
  }

  lemma PushBackQueue(s: State)
    requires Named(s)
    ensures Queue(Step(s, PushBackOne)) == Queue(s)
  {
    hide Append;
    if s.phase.PushingBack? && s.phase.rest != [] {
      hide LastN;
      ReturnOne(s.ring, s.phase.rest, s.cap);
    } else if s.phase.PushingBack? {
      assert s.ring + s.phase.rest == s.ring;
    }
  }

  lemma PumpQueue(s: State)
    requires Named(s)
    ensures Queue(Step(s, PumpOne)) == Queue(s)
  {
    hide LastN;
    MoveAlong([], s.sent, InHand(s.phase));
    MoveAlong([], s.sent, s.ring);
    EmptyFront(s.sent);
    if s.phase.Pumping? && s.phase.replay != [] {
      EmptyFront(s.sent + [s.phase.replay[0]]);
    } else if s.phase.Pumping? && s.ring != [] {
      EmptyFront(s.sent + [s.ring[0]]);
      assert s.sent + [] == s.sent && s.sent + [s.ring[0]] + [] == s.sent + [s.ring[0]];
    }
  }

  lemma HandOverQueue(s: State, a: Action)
    requires Named(s) && (a.Open? || a.Commit?)
    ensures Queue(Step(s, a)) == Queue(s)
  {
  }

  /** Steps that only move frames along the queue. */
  lemma QueueKept(s: State, a: Action)
    requires Named(s) && (a.Open? || a.LookPop? || a.PushBackOne? || a.Commit? || a.PumpOne?)
    ensures Named(Step(s, a)) && Queue(Step(s, a)) == Queue(s)
  {
    hide Step, Queue, Named;
    StepNamed(s, a);
    match a {
      case LookPop => LookPopQueue(s);
      case PushBackOne => PushBackQueue(s);
      case PumpOne => PumpQueue(s);
      case _ => HandOverQueue(s, a);
    }
  }

  lemma MoveAlong(a: seq<nat>, b: seq<nat>, c: seq<nat>)
    ensures c != [] ==> a + (b + [c[0]]) + c[1..] == a + b + c
  {
    if c != [] {
      assert c == [c[0]] + c[1..];
    }
  }

  /** Push order survives a step exactly when the step is not late. */
  lemma StepKeepsOrder(s: State, a: Action)
    requires Named(s) && Ordered(s)
    ensures Named(Step(s, a)) && (Ordered(Step(s, a)) <==> !Late(s, a))
  {
    hide Queue, Step, Named;
    match a {
      case Push(f) => PushOrder(s, f);
      case Deadline => DeadlineOrder(s);
      case InitError => InitErrorOrder(s);
      case _ => QueueKept(s, a);
    }
  }

  ghost predicate NeverLate(s: State, acts: seq<Action>)
    requires Named(s)
    decreases |acts|
  {
    acts == [] || (!Late(s, acts[0]) && (StepNamed(s, acts[0]); NeverLate(Step(s, acts[0]), acts[1..])))
  }

  lemma {:induction false} RunKeepsOrder(s: State, acts: seq<Action>)
    requires Named(s) && Ordered(s) && NeverLate(s, acts)
    ensures Named(Run(s, acts)) && Ordered(Run(s, acts))
    decreases |acts|
  {
    hide Ordered, Step, Named;
    if acts != [] {
      StepKeepsOrder(s, acts[0]);
      RunKeepsOrder(Step(s, acts[0]), acts[1..]);
    }
  }

  lemma {:induction false} IncreasingFloor(q: seq<nat>, i: nat)
    requires Increasing(q) && i < |q|
    ensures q[i] >= i
  {
    if i > 0 {
      IncreasingFloor(q, i - 1);
    }
  }

  lemma {:induction false} IncreasingCeiling(q: seq<nat>, n: nat, i: nat)
    requires Increasing(q) && Below(q, n) && i < |q|
    ensures q[i] + (|q| - i) <= n
    decreases |q| - i
  {
    if i + 1 < |q| {
      IncreasingCeiling(q, n, i + 1);
    }
  }

  lemma IncreasingRange(q: seq<nat>, n: nat)
    requires Increasing(q) && Below(q, n) && |q| == n
    ensures q == Range(n)
  {
    forall i | 0 <= i < n ensures q[i] == i {
      IncreasingFloor(q, i);
      IncreasingCeiling(q, n, i);
    }
  }

  /** A step that loses frames: one more into a full ring, or an initialisation that
      fails with frames in hand. */
  predicate Loses(s: State, a: Action) {
    || ((a.Push? || (a.PushBackOne? && s.phase.PushingBack? && s.phase.rest != [])) && |s.ring| == s.cap)
    || (a.InitError? && s.phase.Looking? && s.phase.sps.Some? && s.phase.pps.Some? && s.phase.pending != [])
  }

  lemma LosesExactly(s: State, a: Action)
    requires Named(s)
    ensures Step(s, a).lost == s.lost <==> !Loses(s, a)
    ensures |Step(s, a).lost| >= |s.lost|
  {
    hide Split, FirstOf, Append;
    if a.InitError? && s.phase.Looking? && s.phase.pending != [] {
      assert |s.lost + s.phase.pending| > |s.lost|;
    }
  }

  ghost predicate NeverLoses(s: State, acts: seq<Action>)
    requires Named(s)
    decreases |acts|
  {
    acts == [] || (!Loses(s, acts[0]) && (StepNamed(s, acts[0]); NeverLoses(Step(s, acts[0]), acts[1..])))
  }

  /** A run loses nothing if and only if none of its steps does. */
  lemma {:induction false} NothingLostIff(s: State, acts: seq<Action>)
    requires Named(s)
    ensures |Run(s, acts).lost| >= |s.lost|
    ensures Run(s, acts).lost == s.lost <==> NeverLoses(s, acts)
    decreases |acts|
  {
    hide Step, Loses;
    if acts != [] {
      StepNamed(s, acts[0]);
      LosesExactly(s, acts[0]);
      StepOnlyAdds(s, acts[0]);
      NothingLostIff(Step(s, acts[0]), acts[1..]);
    }
  }

  lemma StepOnlyAdds(s: State, a: Action)
    requires Named(s)
    ensures Step(s, a).lost != s.lost ==> |Step(s, a).lost| > |s.lost|
  {
    hide Split, FirstOf, Append;
  }

  /** With no late step and no step that loses frames, the frames handed to the
      encoder are exactly the first ones pushed, in push order: look-ahead, replay and
      pump together neither lose nor repeat a frame. */
  lemma FramesInOrder(cap: nat, acts: seq<Action>)
    requires cap > 0 && NeverLate(Init(cap), acts)
    ensures var s := Run(Init(cap), acts);
            && Increasing(s.sent)
            && (NeverLoses(Init(cap), acts) ==> |s.sent| <= |s.pushed| && s.sent == Range(|s.sent|))
  {
    hide Step, Queue, Bag, NeverLoses, Named;
    StartsOrdered(cap);
    var s := Run(Init(cap), acts);
    RunKeepsOrder(Init(cap), acts);
    RunConserves(Init(cap), acts);
    SentFirst(s);
    NothingLostIff(Init(cap), acts);
    if s.lost == [] {
      NothingMissing(s);
    }
  }

  lemma StartsOrdered(cap: nat)
    requires cap > 0
    ensures Named(Init(cap)) && Ordered(Init(cap)) && Bag(Init(cap)) == multiset(Range(0))
  {
    assert Range(0) == [];
  }

  lemma SentFirst(s: State)
    ensures |s.sent| <= |Queue(s)| && s.sent == Queue(s)[..|s.sent|]
    ensures Increasing(Queue(s)) ==> Increasing(s.sent)
  {
  }

  lemma NothingMissing(s: State)
    requires Named(s) && Increasing(Queue(s))
    requires s.lost == [] && Bag(s) == multiset(Range(|s.pushed|))
    ensures |s.sent| <= |s.pushed| && s.sent == Range(|s.sent|)
  {
    if s.phase.Pumping? {
      FrontOfRange(s.sent, s.phase.replay + s.ring, |s.pushed|) by {
        assert s.sent + (s.phase.replay + s.ring) == Queue(s);
        assert Below(Queue(s), |s.pushed|);
        assert multiset(s.sent + (s.phase.replay + s.ring)) == Bag(s);
      }
    }
  }

  /** An increasing list of all indices begins with the first ones. */
  lemma FrontOfRange(a: seq<nat>, b: seq<nat>, n: nat)
    requires Increasing(a + b) && Below(a + b, n) && multiset(a + b) == multiset(Range(n))
    ensures |a| <= n && a == Range(|a|)
  {
    var q := a + b;
    assert |q| == |multiset(q)| == |multiset(Range(n))| == n;
    IncreasingRange(q, n);
    assert a == q[..|a|];
  }

  lemma {:induction false} RunNamed(s: State, acts: seq<Action>)
    requires Named(s)
    ensures Named(Run(s, acts))
    decreases |acts|
  {
    hide Step;
    if acts != [] {
      StepNamed(s, acts[0]);
      RunNamed(Step(s, acts[0]), acts[1..]);
    }
  }

  // ---- Runs written out ----

  /** A run given by its states. */
  lemma {:induction false} PathRuns(path: nat -> State, acts: seq<Action>, i: nat)
    requires i <= |acts| && forall k: nat :: k <= |acts| ==> Named(path(k))
    requires forall k: nat :: k < |acts| ==> Step(path(k), acts[k]) == path(k + 1)
    ensures Run(path(i), acts[i..]) == path(|acts|)
    decreases |acts| - i
  {
    hide Step, Named;
    if i < |acts| {
      assert acts[i..][0] == acts[i] && acts[i..][1..] == acts[i + 1..];
      PathRuns(path, acts, i + 1);
    }
  }

  // ---- The parameter sets the stream is built from ----

  /** All units of the frames taken by look-ahead, in order. */
  function Nalus(pushed: seq<Bytes>, xs: seq<nat>): seq<Bytes>
    requires forall i :: 0 <= i < |xs| ==> xs[i] < |pushed|
  {
    if xs == [] then [] else Nalus(pushed, xs[..|xs| - 1]) + Split(pushed[xs[|xs| - 1]])
  }

  /** The sets found so far are the first of their type among those units. */
  ghost predicate Scanned(s: State) {
    Named(s) &&
    (s.phase.Looking? ==>
       && s.phase.sps == FirstOf(Nalus(s.pushed, s.phase.pending), SPS_TYPE)
       && s.phase.pps == FirstOf(Nalus(s.pushed, s.phase.pending), PPS_TYPE))
  }

  lemma {:induction false} NalusAfterPush(pushed: seq<Bytes>, f: Bytes, xs: seq<nat>)
    requires Below(xs, |pushed|)
    ensures Nalus(pushed + [f], xs) == Nalus(pushed, xs)
  {
    if xs != [] {
      NalusAfterPush(pushed, f, xs[..|xs| - 1]);
    }
  }

  lemma StepScans(s: State, a: Action)
    requires Scanned(s)
    ensures Scanned(Step(s, a))
  {
    hide Split, Append;
    StepNamed(s, a);
    match a {
      case Push(f) =>
        NalusAfterPush(s.pushed, f, InHand(s.phase));
      case LookPop =>
        var s' := Step(s, a);
        if s'.ring != s.ring {
          var xs, x := s.phase.pending, s.ring[0];
          assert (xs + [x])[..|xs|] == xs;
          FirstOfConcat(Nalus(s.pushed, xs), Split(s.pushed[x]), SPS_TYPE);
          FirstOfConcat(Nalus(s.pushed, xs), Split(s.pushed[x]), PPS_TYPE);
        }
      case _ =>
    }
  }

  lemma {:induction false} RunScans(s: State, acts: seq<Action>)
    requires Scanned(s)
    ensures Scanned(Run(s, acts))
    decreases |acts|
  {
    hide Step;
    if acts != [] {
      StepNamed(s, acts[0]);
      StepScans(s, acts[0]);
      RunScans(Step(s, acts[0]), acts[1..]);
    }
  }
}
