/** Live-view slots: a counted limit whose slots are first held by a negotiation and
    then by the pump that streams to the browser. */
module ViewerSlots {
  import opened Common

  const DEFAULT_MAX_SESSIONS: int := 6

  /** Where a negotiation can fail after its slot was taken. */
  datatype Stage = CodecRegistration | PeerConnectionInit | TrackCreate | AddTrack | BadOffer | CreateAnswer | SetLocal

  datatype OfferError = MissingSecret | InvalidToken | CameraNotFound | TooManySessions | AtStage(stage: Stage)

  /** The slot counter's value. */
  datatype Slots = Slots(active: nat, maxSessions: int)

  function Acquired(s: Slots): (Slots, bool) {
    if s.active >= s.maxSessions then (s, false) else (s.(active := s.active + 1), true)
  }

  function Released(s: Slots): Slots {
    if s.active > 0 then s.(active := s.active - 1) else s
  }

  function Limited(s: Slots, n: int): Slots {
    s.(maxSessions := if n <= 0 then DEFAULT_MAX_SESSIONS else n)
  }

  /** The error reported for an offer that is refused or fails: the first check that
      does not hold. */
  function OfferFailure(secret: string, tokenOk: bool, cameraKnown: bool, slots: Slots,
                        failure: Option<Stage>): OfferError
    requires secret != "" && tokenOk && cameraKnown && slots.active < slots.maxSessions ==> failure.Some?
  {
    if secret == "" then MissingSecret
    else if !tokenOk then InvalidToken
    else if !cameraKnown then CameraNotFound
    else if slots.active >= slots.maxSessions then TooManySessions
    else AtStage(failure.value)
  }

  class ViewerServer {
    const secret: string
    var maxSessions: int
    var active: nat

    ghost function View(): Slots
      reads this
    {
      Slots(active, maxSessions)
    }

    constructor (secret: string)
      ensures View() == Slots(0, DEFAULT_MAX_SESSIONS) && this.secret == secret
    {
      this.secret := secret;
      maxSessions, active := DEFAULT_MAX_SESSIONS, 0;
    }

    method SetMaxSessions(n: int)
      modifies this`maxSessions
      ensures View() == Limited(old(View()), n)
      ensures maxSessions == (if n >= 1 then n else 6) && active == old(active)
    {
      var m := n;
      if m <= 0 {
        m := DEFAULT_MAX_SESSIONS;
      }
      maxSessions := m;
    }

    method AcquireSession() returns (ok: bool)
      modifies this`active
      ensures (View(), ok) == Acquired(old(View()))
      ensures ok <==> old(active) < maxSessions
      ensures active == old(active) + if ok then 1 else 0
    {
      if active >= maxSessions {
        return false;
      }
      active := active + 1;
      return true;
    }

    method ReleaseSession()
      modifies this`active
      ensures View() == Released(old(View()))
      ensures old(active) >= 1 ==> active == old(active) - 1
      ensures old(active) == 0 ==> active == 0
    {
      if active > 0 {
        active := active - 1;
      }
    }

    /** One uninterrupted offer.  The deferred release gives the slot back unless
        it was handed to the pump: the count grows by one for a session that
        streams and is what it was for one that does not. */
    method HandleOffer(tokenOk: bool, cameraKnown: bool, failure: Option<Stage>) returns (r: Result<(), OfferError>)
      modifies this`active
      ensures active == old(active) + if r.Success? then 1 else 0
      ensures r.Success? <==> secret != "" && tokenOk && cameraKnown && old(active) < maxSessions && failure.None?
      ensures r.Failure? ==> r.error == OfferFailure(secret, tokenOk, cameraKnown, old(View()), failure)
      ensures r == Failure(MissingSecret) <==> secret == ""
      ensures r == Failure(InvalidToken) <==> secret != "" && !tokenOk
      ensures r == Failure(CameraNotFound) <==> secret != "" && tokenOk && !cameraKnown
      ensures r == Failure(TooManySessions) <==> secret != "" && tokenOk && cameraKnown && old(active) >= maxSessions
    {
      if secret == "" {
        return Failure(MissingSecret);
      }
      if !tokenOk {
        return Failure(InvalidToken);
      }
      if !cameraKnown {
        return Failure(CameraNotFound);
      }
      var ok := AcquireSession();
      if !ok {
        return Failure(TooManySessions);
      }
      var released := false;
      if failure.Some? {
        r := Failure(AtStage(failure.value));
      } else {
        released := true;
        r := Success(());
      }
      if !released {
        ReleaseSession();
      }
    }
  }

  // ---- Sessions, interleaved ----

  datatype Session = Session(id: nat)

  /** `released` counts the releases of every session. */
  datatype State = State(slots: Slots, negotiating: set<Session>, pumping: set<Session>, ended: set<Session>,
                         released: multiset<Session>)

  datatype Action =
    | Offer(s: Session)      // an authenticated offer asks for a slot
    | Fail(s: Session)       // its negotiation fails: the deferred release runs
    | HandOff(s: Session)    // its negotiation succeeds: the pump takes the slot over
    | PumpExit(s: Session)   // its pump ends, however it ends
    | SetMax(n: int)

  function Init(): State {
    State(Slots(0, DEFAULT_MAX_SESSIONS), {}, {}, {}, multiset{})
  }

  ghost predicate Known(s: State, x: Session) {
    x in s.negotiating || x in s.pumping || x in s.ended
  }

  ghost function Step(s: State, a: Action): State {
    match a
    case Offer(x) =>
      if Known(s, x) then s
      else if Acquired(s.slots).1 then s.(slots := Acquired(s.slots).0, negotiating := s.negotiating + {x})
      else s
    case Fail(x) =>
      if x in s.negotiating then
        s.(slots := Released(s.slots), negotiating := s.negotiating - {x}, ended := s.ended + {x},
           released := s.released + multiset{x})
      else s
    case HandOff(x) =>
      if x in s.negotiating then s.(negotiating := s.negotiating - {x}, pumping := s.pumping + {x}) else s
    case PumpExit(x) =>
      if x in s.pumping then
        s.(slots := Released(s.slots), pumping := s.pumping - {x}, ended := s.ended + {x},
           released := s.released + multiset{x})
      else s
    case SetMax(n) => s.(slots := Limited(s.slots, n))
  }

  /** The count is exactly the slots held, by negotiations and by pumps; a session
      that has ended was released once, one that has not was never released. */
  ghost predicate Inv(s: State) {
    && s.slots.active == |s.negotiating| + |s.pumping|
    && s.slots.maxSessions > 0
    && s.negotiating !! s.pumping !! s.ended
    && (forall x :: s.released[x] == if x in s.ended then 1 else 0)
  }

  lemma MemberCounts(s: set<Session>, x: Session)
    ensures x in s ==> |s| > 0 && |s - {x}| == |s| - 1
    ensures x !in s ==> |s + {x}| == |s| + 1
  {
  }

  lemma OfferInv(s: State, x: Session)
    requires Inv(s)
    ensures Inv(Step(s, Offer(x)))
  {
    MemberCounts(s.negotiating, x);
  }

  lemma HandOffInv(s: State, x: Session)
    requires Inv(s)
    ensures Inv(Step(s, HandOff(x)))
  {
    MemberCounts(s.negotiating, x);
    MemberCounts(s.pumping, x);
  }

  lemma OneMoreRelease(released: multiset<Session>, ended: set<Session>, x: Session)
    requires x !in ended && forall y :: released[y] == if y in ended then 1 else 0
    ensures forall y :: (released + multiset{x})[y] == if y in ended + {x} then 1 else 0
  {
  }

  lemma FailInv(s: State, x: Session)
    requires Inv(s)
    ensures Inv(Step(s, Fail(x)))
  {
    MemberCounts(s.negotiating, x);
    if x in s.negotiating {
      OneMoreRelease(s.released, s.ended, x);
    }
  }

  lemma PumpExitInv(s: State, x: Session)
    requires Inv(s)
    ensures Inv(Step(s, PumpExit(x)))
  {
    MemberCounts(s.pumping, x);
    if x in s.pumping {
      OneMoreRelease(s.released, s.ended, x);
    }
  }

  lemma SetMaxInv(s: State, n: int)
    requires Inv(s)
    ensures Inv(Step(s, SetMax(n)))
  {
  }

  lemma StepInv(s: State, a: Action)
    requires Inv(s)
    ensures Inv(Step(s, a))
  {
    hide Inv, Step;
    match a {
      case Offer(x) => OfferInv(s, x);
      case Fail(x) => FailInv(s, x);
      case HandOff(x) => HandOffInv(s, x);
      case PumpExit(x) => PumpExitInv(s, x);
      case SetMax(n) => SetMaxInv(s, n);
    }
  }

  /** A release never finds the counter at zero, so its guard never hides an error:
      every release gives back exactly one slot. */
  lemma ReleaseFindsSlot(s: State, x: Session)
    requires Inv(s) && (x in s.negotiating || x in s.pumping)
    ensures s.slots.active > 0 && Released(s.slots).active == s.slots.active - 1
    ensures Step(s, if x in s.negotiating then Fail(x) else PumpExit(x)).slots.active == s.slots.active - 1
  {
    MemberCounts(s.negotiating, x);
    MemberCounts(s.pumping, x);
  }

  /** Only an accepted offer raises the count, and never above the limit in force;
      lowering the limit evicts nobody. */
  lemma CountBounded(s: State, a: Action)
    requires Inv(s)
    ensures Step(s, a).slots.active > s.slots.active ==>
      a.Offer? && Step(s, a).slots.active <= Step(s, a).slots.maxSessions
    ensures a.SetMax? ==> Step(s, a).negotiating == s.negotiating && Step(s, a).pumping == s.pumping
  {
  }

  // ---- Whole runs ----

  ghost function Run(s: State, acts: seq<Action>): State {
    if acts == [] then s else Step(Run(s, acts[..|acts| - 1]), acts[|acts| - 1])
  }

  /** The highest limit that was in force at any point of the run. */
  ghost function Peak(acts: seq<Action>): int {
    if acts == [] then DEFAULT_MAX_SESSIONS
    else
      var p, now := Peak(acts[..|acts| - 1]), Run(Init(), acts).slots.maxSessions;
      if now > p then now else p
  }

  /** In every interleaving of offers, failed negotiations, hand-offs, pump exits and
      limit changes, the count is the number of sessions that hold a slot, no session
      is released twice, and no more slots are held than the highest limit allowed. */
  lemma {:induction false} SlotsConserved(acts: seq<Action>)
    ensures var s := Run(Init(), acts);
      && Inv(s) && s.slots.active <= Peak(acts) && s.slots.maxSessions <= Peak(acts)
      && (forall x :: s.released[x] <= 1)
  {
    hide Step;
    if acts == [] {
    } else {
      var p, a := acts[..|acts| - 1], acts[|acts| - 1];
      SlotsConserved(p);
      StepInv(Run(Init(), p), a);
      CountBounded(Run(Init(), p), a);
    }
  }

  /** A slot is not lost either: once every session has ended, all slots are free. */
  lemma AllSlotsReturn(acts: seq<Action>)
    requires Run(Init(), acts).negotiating == {} && Run(Init(), acts).pumping == {}
    ensures Run(Init(), acts).slots.active == 0
  {
    SlotsConserved(acts);
  }
}
