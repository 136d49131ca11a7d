/** The specification of a counting line: what it has recorded about every
    tracker, and which crossings that amounts to. */
module Traces {
  import opened Common
  import opened Sums
  import opened Geometry
  import opened Sequences
  import opened Crossings

  /** One frame of detections; the parallel arrays have the same length. */
  datatype Detections = Detections(
    xyxy: seq<Box>, trackerId: Option<seq<int>>, classId: Option<seq<int>>, confidence: Option<seq<real>>)
  {
    predicate WellFormed() {
      && (trackerId.Some? ==> |trackerId.value| == |xyxy|)
      && (classId.Some? ==> |classId.value| == |xyxy|)
      && (confidence.Some? ==> |confidence.value| == |xyxy|)
    }
  }

  /** What one detection contributes: its tracker, its class, its reading. */
  datatype Sighting = Sighting(tracker: int, cls: Option<int>, side: Option<bool>)

  datatype Line = Line(vector: Vector, limits: (Vector, Vector), anchors: seq<Position>)

  function See(line: Line, d: Detections, i: nat): Sighting
    requires d.WellFormed() && d.trackerId.Some? && i < |d.xyxy|
  {
    Sighting(d.trackerId.value[i],
             if d.classId.Some? then Some(d.classId.value[i]) else None,
             Reading(line.vector, line.limits, line.anchors, d.xyxy[i]))
  }

  /** The sightings of a frame; none when the frame carries no tracker ids. */
  function Sightings(line: Line, d: Detections): seq<Sighting>
    requires d.WellFormed()
  {
    if d.trackerId.None? then [] else seq(|d.xyxy|, i requires 0 <= i < |d.xyxy| => See(line, d, i))
  }

  /** Every side ever recorded, per tracker. */
  type Trace = map<int, seq<bool>>

  function Sides(tr: Trace, tracker: int): seq<bool> {
    if tracker in tr then tr[tracker] else []
  }

  function RecordOne(tr: Trace, o: Sighting): Trace {
    if o.side.None? then tr else tr[o.tracker := Sides(tr, o.tracker) + [o.side.value]]
  }

  function Record(tr: Trace, os: seq<Sighting>): Trace {
    if os == [] then tr else RecordOne(Record(tr, os[..|os| - 1]), os[|os| - 1])
  }

  lemma RecordSnoc(tr: Trace, os: seq<Sighting>, o: Sighting)
    ensures Record(tr, os + [o]) == RecordOne(Record(tr, os), o)
  {
    assert (os + [o])[..|os|] == os;
  }

  /** The sides that a list of sightings has for one tracker, in order. */
  function SidesOf(os: seq<Sighting>, tracker: int): seq<bool> {
    if os == [] then []
    else if os[0].tracker == tracker && os[0].side.Some? then [os[0].side.value] + SidesOf(os[1..], tracker)
    else SidesOf(os[1..], tracker)
  }

  lemma {:induction false} SidesOfSnoc(os: seq<Sighting>, o: Sighting, tracker: int)
    ensures SidesOf(os + [o], tracker) == SidesOf(os, tracker) +
            if o.tracker == tracker && o.side.Some? then [o.side.value] else []
  {
    if os == [] {
      assert os + [o] == [o];
    } else {
      SidesOfSnoc(os[1..], o, tracker);
      assert (os + [o])[1..] == os[1..] + [o];
    }
  }

  /** What is recorded for a tracker is what it had, and then the sides of its own
      sightings in order. */
  lemma {:induction false} RecordedSides(tr: Trace, os: seq<Sighting>, tracker: int)
    ensures Sides(Record(tr, os), tracker) == Sides(tr, tracker) + SidesOf(os, tracker)
  {
    if os != [] {
      var p, o := os[..|os| - 1], os[|os| - 1];
      assert os == p + [o];
      RecordedSides(tr, p, tracker);
      SidesOfSnoc(p, o, tracker);
    }
  }

  /** Recording `o` completes a crossing of its tracker towards `side`: the
      declarative number of qualifying runs grows by one. */
  ghost predicate Completes(tr: Trace, o: Sighting, t: nat, side: bool) {
    o.side == Some(side) &&
    Total(Sides(tr, o.tracker) + [side], t, side) == Total(Sides(tr, o.tracker), t, side) + 1
  }

  /** The two crossing flags of sighting `i` of a frame. */
  ghost predicate FlagsOf(tr: Trace, os: seq<Sighting>, i: nat, t: nat, crossedIn: bool, crossedOut: bool)
    requires i < |os|
  {
    && (crossedIn <==> Completes(Record(tr, os[..i]), os[i], t, true))
    && (crossedOut <==> Completes(Record(tr, os[..i]), os[i], t, false))
  }

  lemma FlagsFromOwnSide(tr: Trace, os: seq<Sighting>, i: nat, t: nat, fired: bool)
    requires i < |os|
    requires os[i].side.None? ==> !fired
    requires os[i].side.Some? ==> (fired <==> Completes(Record(tr, os[..i]), os[i], t, os[i].side.value))
    ensures FlagsOf(tr, os, i, t, fired && os[i].side == Some(true), fired && os[i].side == Some(false))
  {
    hide Total, Record;
  }

  ghost function TrackerTotal(tr: Trace, t: nat, side: bool): int -> int {
    k => Total(Sides(tr, k), t, side)
  }

  /** Crossings of the line towards `side`, over all trackers. */
  ghost function LineTotal(tr: Trace, t: nat, side: bool): int {
    SumOver(tr.Keys, TrackerTotal(tr, t, side))
  }

  /** One more side adds at most one crossing, towards that side. */
  lemma TotalGrowth(s: seq<bool>, b: bool, t: nat, side: bool)
    requires t >= 1
    ensures Total(s + [b], t, side) == Total(s, t, side) ||
            (b == side && Total(s + [b], t, side) == Total(s, t, side) + 1)
  {
    TotalStep(s, b, t, side);
  }

  lemma LineTotalStep(tr: Trace, o: Sighting, t: nat, side: bool)
    requires t >= 1
    ensures LineTotal(RecordOne(tr, o), t, side) ==
            LineTotal(tr, t, side) + if Completes(tr, o, t, side) then 1 else 0
  {
    hide Total;
    if o.side.Some? {
      var k := o.tracker;
      var tr' := RecordOne(tr, o);
      var f, g := TrackerTotal(tr, t, side), TrackerTotal(tr', t, side);
      TotalGrowth(Sides(tr, k), o.side.value, t, side);
      assert g(k) == f(k) + if Completes(tr, o, t, side) then 1 else 0;
      if k in tr {
        assert tr'.Keys == tr.Keys;
        SumChange(tr.Keys, f, g, k);
      } else {
        assert tr'.Keys == tr.Keys + {k};
        SumAdd(tr.Keys, g, k);
        SumCongruence(tr.Keys, f, g);
        TotalOfNothing(t, side);
      }
    }
  }

  lemma TotalOfNothing(t: nat, side: bool)
    ensures Total([], t, side) == 0
  {
  }

  ghost predicate NonEmpty(tr: Trace) {
    forall k :: k in tr ==> tr[k] != []
  }

  // ---- Threshold 1: the in-out balance of a line ----

  ghost function LastLeft(tr: Trace): set<int>
    requires NonEmpty(tr)
  {
    set k | k in tr && tr[k][|tr[k]| - 1]
  }

  ghost function FirstLeft(tr: Trace): set<int>
    requires NonEmpty(tr)
  {
    set k | k in tr && tr[k][0]
  }

  /** In minus out, over the whole line, is the number of trackers last seen on
      the left minus the number first seen there. */
  lemma UnitThresholdBalance(tr: Trace)
    requires NonEmpty(tr)
    ensures LineTotal(tr, 1, true) - LineTotal(tr, 1, false) == |LastLeft(tr)| - |FirstLeft(tr)|
  {
    var last: int -> int := k => if k in LastLeft(tr) then 1 else 0;
    var first: int -> int := k => if k in FirstLeft(tr) then 1 else 0;
    var gain: int -> int := k => last(k) - first(k);
    forall k | k in tr.Keys
      ensures gain(k) == TrackerTotal(tr, 1, true)(k) - TrackerTotal(tr, 1, false)(k)
    {
      UnitThresholdAlternates(tr[k]);
    }
    SumDifference(tr.Keys, TrackerTotal(tr, 1, true), TrackerTotal(tr, 1, false), gain);
    SumDifference(tr.Keys, last, first, gain);
    SumIndicator(tr.Keys, last, LastLeft(tr));
    SumIndicator(tr.Keys, first, FirstLeft(tr));
  }

  // ---- In is towards the left ----

  lemma LastTwo(s: seq<bool>, b: bool)
    ensures var w := Append(LastN(s, 2), b, 2);
      (|w| >= 2 && forall k :: 1 <= k < |w| ==> w[k] != w[0]) <==> s != [] && s[|s| - 1] != b
  {
    var w := Append(LastN(s, 2), b, 2);
    if s != [] {
      assert |w| == 2 && w[0] == s[|s| - 1] && w[1] == b;
    }
  }

  /** With threshold 1 a sighting completes a crossing exactly when its tracker was
      last recorded on the other side. */
  lemma UnitCompletes(tr: Trace, o: Sighting, side: bool)
    ensures var s := Sides(tr, o.tracker);
      Completes(tr, o, 1, side) <==> o.side == Some(side) && s != [] && s[|s| - 1] != side
  {
    hide Total, WindowFires, Append, LastN;
    if o.side == Some(side) {
      var s := Sides(tr, o.tracker);
      TotalStep(s, side, 1, side);
      WindowFiresMeaning(Append(LastN(s, 2), side, 2), 2);
      LastTwo(s, side);
    }
  }

  /** The point of a box that stands for an anchor, in the box's own coordinates. */
  function Place(b: Box, p: Position): Point {
    Point(b.x1 + Fraction(p).0 * (b.x2 - b.x1), b.y1 + Fraction(p).1 * (b.y2 - b.y1))
  }

  /** Between the ends of the line and to its left, or between them and not. */
  ghost predicate LiesBeside(v: Vector, q: Point, left: bool) {
    exists t, u :: Beside(v, q, t, u) && 0.0 <= t <= 1.0 && (left <==> u > 0.0)
  }

  /** A box with all its anchors between the ends of the line and on one side of it is
      recorded on that side. */
  lemma SideSeen(v: Vector, m: real, anchors: seq<Position>, d: Detections, i: nat, left: bool)
    requires IsMagnitude(v, m) && m != 0.0 && anchors != []
    requires d.WellFormed() && d.trackerId.Some? && i < |d.xyxy|
    requires forall p | p in anchors :: LiesBeside(v, Place(d.xyxy[i], p), left)
    ensures See(MakeLine(v, m, anchors), d, i).side == Some(left)
  {
    hide Between, Limits, Cross, Anchor, Beside;
    var b := d.xyxy[i];
    forall p | p in anchors
      ensures Cross(v, Anchor(b, p)) < 0.0 <==> left
      ensures Between(Limits(v, m), Anchor(b, p))
    {
      AnchorInBox(b, p);
      assert Anchor(b, p) == Place(b, p);
      var t, u :| Beside(v, Place(b, p), t, u) && 0.0 <= t <= 1.0 && (left <==> u > 0.0);
      BesideMeans(v, m, Anchor(b, p), t, u);
    }
    assert anchors[0] in anchors;
  }

  /** One tracked box, with its feet at the middle of its lower edge. */
  ghost predicate OneBox(d: Detections, tracker: int, b: Box) {
    d.WellFormed() && d.xyxy == [b] && d.trackerId == Some([tracker])
  }

  function Feet(b: Box): Point {
    Point((b.x1 + b.x2) / 2.0, b.y2)
  }

  lemma OneSighting(v: Vector, m: real, d: Detections, tracker: int, b: Box, left: bool)
    requires IsMagnitude(v, m) && m != 0.0 && OneBox(d, tracker, b) && LiesBeside(v, Feet(b), left)
    ensures var os := Sightings(MakeLine(v, m, [BottomCenter]), d);
      |os| == 1 && os[0].tracker == tracker && os[0].side == Some(left)
  {
    hide Beside;
    assert Place(b, BottomCenter) == Feet(b);
    SideSeen(v, m, [BottomCenter], d, 0, left);
  }

  /** Someone seen with their feet to the right of a line and then to its left has
      entered: one crossing in, none out.  The other way round they have left. */
  lemma CrossingTheLine(v: Vector, m: real, d1: Detections, d2: Detections, tracker: int, b1: Box, b2: Box, left: bool)
    requires IsMagnitude(v, m) && m != 0.0 && OneBox(d1, tracker, b1) && OneBox(d2, tracker, b2)
    requires LiesBeside(v, Feet(b1), !left) && LiesBeside(v, Feet(b2), left)
    ensures var line := MakeLine(v, m, [BottomCenter]);
      var tr := Record(Record(map[], Sightings(line, d1)), Sightings(line, d2));
      LineTotal(tr, 1, left) == 1 && LineTotal(tr, 1, !left) == 0
  {
    hide LiesBeside, Total, Reading, Completes;
    var line := MakeLine(v, m, [BottomCenter]);
    OneSighting(v, m, d1, tracker, b1, !left);
    OneSighting(v, m, d2, tracker, b2, left);
    var o1, o2 := Sightings(line, d1)[0], Sightings(line, d2)[0];
    assert Sightings(line, d1) == [o1] && Sightings(line, d2) == [o2];
    var none: Trace := map[];
    RecordOneOnly(none, o1);
    var tr := RecordOne(none, o1);
    RecordOneOnly(tr, o2);
    forall side: bool
      ensures LineTotal(RecordOne(tr, o2), 1, side) == if side == left then 1 else 0
    {
      LineTotalStep(none, o1, 1, side);
      LineTotalStep(tr, o2, 1, side);
      UnitCompletes(none, o1, side);
      UnitCompletes(tr, o2, side);
    }
  }

  lemma RecordOneOnly(tr: Trace, o: Sighting)
    ensures Record(tr, [o]) == RecordOne(tr, o)
  {
    assert [o][..0] == [];
  }

  // ---- Reversing the line ----

  function Flip(o: Sighting): Sighting {
    o.(side := if o.side.None? then None else Some(!o.side.value))
  }

  function FlipAll(os: seq<Sighting>): seq<Sighting> {
    seq(|os|, i requires 0 <= i < |os| => Flip(os[i]))
  }

  ghost predicate Mirrored(a: Trace, b: Trace) {
    a.Keys == b.Keys && forall k :: k in a ==> b[k] == Mirror(a[k])
  }

  lemma {:induction false} FlippedSightingsMirror(a: Trace, b: Trace, os: seq<Sighting>)
    requires Mirrored(a, b)
    ensures Mirrored(Record(a, os), Record(b, FlipAll(os)))
  {
    if os != [] {
      var p, o := os[..|os| - 1], os[|os| - 1];
      FlippedSightingsMirror(a, b, p);
      assert FlipAll(os)[..|os| - 1] == FlipAll(p);
      if o.side.Some? {
        var s := Sides(Record(a, p), o.tracker);
        assert Mirror(s + [o.side.value]) == Mirror(s) + [!o.side.value];
      }
    }
  }

  lemma MirroredTotals(a: Trace, b: Trace, t: nat, side: bool)
    requires Mirrored(a, b)
    ensures LineTotal(b, t, side) == LineTotal(a, t, !side)
  {
    forall k | k in a.Keys
      ensures TrackerTotal(b, t, side)(k) == TrackerTotal(a, t, !side)(k)
    {
      MirrorSwapsTotals(a[k], t, side);
    }
    SumCongruence(a.Keys, TrackerTotal(b, t, side), TrackerTotal(a, t, !side));
  }

  /** Everything a fresh zone records over a run of frames. */
  function RecordFrames(line: Line, ds: seq<Detections>): Trace
    requires forall i :: 0 <= i < |ds| ==> ds[i].WellFormed()
  {
    if ds == [] then map[]
    else Record(RecordFrames(line, ds[..|ds| - 1]), Sightings(line, ds[|ds| - 1]))
  }

  ghost function MakeLine(v: Vector, m: real, anchors: seq<Position>): Line
    requires m != 0.0
  {
    Line(v, Limits(v, m), anchors)
  }

  /** Drawing the line the other way round mirrors what is recorded of every run of
      frames in which no box only touches the line: a box is ignored, or has no anchor
      on the line, or has anchors strictly on both sides. */
  lemma {:induction false} ReversedLineMirrors(v: Vector, m: real, anchors: seq<Position>, ds: seq<Detections>)
    requires IsMagnitude(v, m) && m != 0.0 && anchors != []
    requires forall i :: 0 <= i < |ds| ==> ds[i].WellFormed()
    requires forall i, j :: 0 <= i < |ds| && 0 <= j < |ds[i].xyxy| ==> Flippable(v, m, anchors, ds[i].xyxy[j])
    ensures Mirrored(RecordFrames(MakeLine(v, m, anchors), ds), RecordFrames(MakeLine(Reverse(v), m, anchors), ds))
  {
    if ds != [] {
      var line, back := MakeLine(v, m, anchors), MakeLine(Reverse(v), m, anchors);
      var p, d := ds[..|ds| - 1], ds[|ds| - 1];
      ReversedLineMirrors(v, m, anchors, p);
      forall i | 0 <= i < |d.xyxy| && d.trackerId.Some?
        ensures See(back, d, i) == Flip(See(line, d, i))
      {
        ReverseFlipsReading(v, m, anchors, d.xyxy[i]);
      }
      assert Sightings(back, d) == FlipAll(Sightings(line, d));
      FlippedSightingsMirror(RecordFrames(line, p), RecordFrames(back, p), Sightings(line, d));
    }
  }

  lemma ReversedLineSwapsCounts(v: Vector, m: real, anchors: seq<Position>, ds: seq<Detections>, t: nat, side: bool)
    requires IsMagnitude(v, m) && m != 0.0 && anchors != []
    requires forall i :: 0 <= i < |ds| ==> ds[i].WellFormed()
    requires forall i, j :: 0 <= i < |ds| && 0 <= j < |ds[i].xyxy| ==> Flippable(v, m, anchors, ds[i].xyxy[j])
    ensures LineTotal(RecordFrames(MakeLine(Reverse(v), m, anchors), ds), t, side) ==
            LineTotal(RecordFrames(MakeLine(v, m, anchors), ds), t, !side)
  {
    ReversedLineMirrors(v, m, anchors, ds);
    MirroredTotals(RecordFrames(MakeLine(v, m, anchors), ds),
                   RecordFrames(MakeLine(Reverse(v), m, anchors), ds), t, side);
  }
}

/** The line zone itself: windows of sides per tracker and two directional counters. */
module LineZones {
  import opened Common
  import opened Sums
  import opened Geometry
  import opened Sequences
  import opened Crossings
  import opened Traces

  datatype ConfigError = ZeroMagnitude | NoAnchors

  /** A `Counter` keyed by class. */
  type Tally = map<Option<int>, nat>

  function CountOf(c: Tally, cls: Option<int>): nat {
    if cls in c then c[cls] else 0
  }

  function Bump(c: Tally, cls: Option<int>): Tally {
    c[cls := CountOf(c, cls) + 1]
  }

  ghost function CounterTotal(c: Tally): int {
    SumOver(c.Keys, cls => CountOf(c, cls))
  }

  lemma BumpAddsOne(c: Tally, cls: Option<int>)
    ensures CounterTotal(Bump(c, cls)) == CounterTotal(c) + 1
  {
    var f: Option<int> -> int := k => CountOf(c, k);
    var c' := Bump(c, cls);
    var g: Option<int> -> int := k => CountOf(c', k);
    if cls in c {
      assert c'.Keys == c.Keys;
      SumChange(c.Keys, f, g, cls);
    } else {
      assert c'.Keys == c.Keys + {cls};
      SumAdd(c.Keys, g, cls);
      SumCongruence(c.Keys, f, g);
    }
    SumCongruence(c.Keys, f, k => CountOf(c, k));
    SumCongruence(c'.Keys, g, k => CountOf(c', k));
  }

  /** How many flagged sightings are of class `cls`. */
  function Flagged(os: seq<Sighting>, flags: seq<bool>, cls: Option<int>): nat
    requires |flags| <= |os|
  {
    if flags == [] then 0
    else Flagged(os, flags[..|flags| - 1], cls)
         + if flags[|flags| - 1] && os[|flags| - 1].cls == cls then 1 else 0
  }

  /** Every tracker's window is the end of what was recorded for it. */
  ghost predicate Windows(history: map<int, seq<bool>>, tr: Trace, n: nat) {
    history.Keys == tr.Keys && forall k :: k in tr ==> tr[k] != [] && history[k] == LastN(tr[k], n)
  }

  lemma WindowsStep(history: map<int, seq<bool>>, tr: Trace, o: Sighting, n: nat, w: seq<bool>, w': seq<bool>)
    requires Windows(history, tr, n) && o.side.Some?
    requires w == if o.tracker in history then history[o.tracker] else []
    requires w' == Append(w, o.side.value, n)
    ensures w == LastN(Sides(tr, o.tracker), n)
    ensures Windows(history[o.tracker := w'], RecordOne(tr, o), n)
  {
    var s, b := Sides(tr, o.tracker), o.side.value;
    assert w == LastN(s, n);
    AppendKeepsLastN(s, b, n);
    var s' := s + [b];
    assert w' == LastN(s', n);
    WindowsUpdate(history, tr, n, o.tracker, w', s');
  }

  lemma WindowsUpdate(history: map<int, seq<bool>>, tr: Trace, n: nat, k: int, w: seq<bool>, s: seq<bool>)
    requires Windows(history, tr, n) && s != [] && w == LastN(s, n)
    ensures Windows(history[k := w], tr[k := s], n)
  {
  }

  lemma WindowDecides(s: seq<bool>, b: bool, t: nat, w: seq<bool>)
    requires t >= 1
    requires w == Append(LastN(s, t + 1), b, t + 1)
    ensures WindowFires(w, t + 1) <==> Total(s + [b], t, b) == Total(s, t, b) + 1
  {
    TotalStep(s, b, t, b);
  }

  /** The window test on the stored window decides completion in the whole trace. */
  lemma TestDecides(tr: Trace, o: Sighting, n: nat, w: seq<bool>)
    requires n >= 2 && o.side.Some?
    requires w == Append(LastN(Sides(tr, o.tracker), n), o.side.value, n)
    ensures WindowFires(w, n) <==> Completes(tr, o, n - 1, o.side.value)
  {
    WindowDecides(Sides(tr, o.tracker), o.side.value, n - 1, w);
  }

  /** Both counters agree with the declarative reading of the trace. */
  ghost predicate Counted(inC: Tally, outC: Tally, tr: Trace, t: nat) {
    CounterTotal(inC) == LineTotal(tr, t, true) && CounterTotal(outC) == LineTotal(tr, t, false)
  }

  lemma CountedStep(inC: Tally, outC: Tally, tr: Trace, o: Sighting, t: nat, fired: bool, inC': Tally, outC': Tally)
    requires t >= 1 && o.side.Some? && Counted(inC, outC, tr, t)
    requires fired <==> Completes(tr, o, t, o.side.value)
    requires inC' == if fired && o.side.value then Bump(inC, o.cls) else inC
    requires outC' == if fired && !o.side.value then Bump(outC, o.cls) else outC
    ensures Counted(inC', outC', RecordOne(tr, o), t)
  {
    LineTotalStep(tr, o, t, true);
    LineTotalStep(tr, o, t, false);
    if fired && o.side.value {
      BumpAddsOne(inC, o.cls);
    } else if fired {
      BumpAddsOne(outC, o.cls);
    }
  }

  /** The state after the first `i` sightings of a frame: the flags are those of
      the declarative reading, and each counter grew by its flags, class by class. */
  ghost predicate Processed(tr: Trace, os: seq<Sighting>, i: nat, t: nat, inC: Tally, outC: Tally,
                            inC': Tally, outC': Tally, crossedIn: seq<bool>, crossedOut: seq<bool>)
  {
    && i <= |os| && |crossedIn| == |crossedOut| == i
    && (forall j :: 0 <= j < i ==> FlagsOf(tr, os, j, t, crossedIn[j], crossedOut[j]))
    && (forall cls :: CountOf(inC', cls) == CountOf(inC, cls) + Flagged(os, crossedIn, cls))
    && (forall cls :: CountOf(outC', cls) == CountOf(outC, cls) + Flagged(os, crossedOut, cls))
  }

  lemma FlaggedSnoc(os: seq<Sighting>, flags: seq<bool>, f: bool, cls: Option<int>)
    requires |flags| < |os|
    ensures Flagged(os, flags + [f], cls) ==
            Flagged(os, flags, cls) + if f && os[|flags|].cls == cls then 1 else 0
  {
    assert (flags + [f])[..|flags|] == flags;
  }

  lemma CountsStep(os: seq<Sighting>, flags: seq<bool>, f: bool, c: Tally, c1: Tally, c2: Tally)
    requires |flags| < |os|
    requires forall cls :: CountOf(c1, cls) == CountOf(c, cls) + Flagged(os, flags, cls)
    requires c2 == if f then Bump(c1, os[|flags|].cls) else c1
    ensures forall cls :: CountOf(c2, cls) == CountOf(c, cls) + Flagged(os, flags + [f], cls)
  {
    forall cls ensures CountOf(c2, cls) == CountOf(c, cls) + Flagged(os, flags + [f], cls) {
      FlaggedSnoc(os, flags, f, cls);
    }
  }

  lemma ProcessedNone(tr: Trace, os: seq<Sighting>, t: nat, inC: Tally, outC: Tally)
    ensures Processed(tr, os, 0, t, inC, outC, inC, outC, [], [])
  {
  }

  lemma ProcessedStep(tr: Trace, os: seq<Sighting>, i: nat, t: nat, inC: Tally, outC: Tally,
                      in1: Tally, out1: Tally, crossedIn: seq<bool>, crossedOut: seq<bool>,
                      in2: Tally, out2: Tally, fired: bool)
    requires i < |os| && Processed(tr, os, i, t, inC, outC, in1, out1, crossedIn, crossedOut)
    requires os[i].side.None? ==> !fired
    requires os[i].side.Some? ==> (fired <==> Completes(Record(tr, os[..i]), os[i], t, os[i].side.value))
    requires in2 == if fired && os[i].side.value then Bump(in1, os[i].cls) else in1
    requires out2 == if fired && !os[i].side.value then Bump(out1, os[i].cls) else out1
    ensures Processed(tr, os, i + 1, t, inC, outC, in2, out2,
                      crossedIn + [fired && os[i].side == Some(true)],
                      crossedOut + [fired && os[i].side == Some(false)])
  {
    hide Completes, Record, FlagsOf, Flagged, CountOf, Bump;
    FlagsFromOwnSide(tr, os, i, t, fired);
    CountsStep(os, crossedIn, fired && os[i].side == Some(true), inC, in1, in2);
    CountsStep(os, crossedOut, fired && os[i].side == Some(false), outC, out1, out2);
  }

  /** How many of the first `n` detections are flagged and of class `cls`. */
  function FlaggedOf(d: Detections, flags: seq<bool>, cls: Option<int>, n: nat): nat
    requires d.WellFormed() && n <= |flags| <= |d.xyxy|
  {
    if n == 0 then 0
    else FlaggedOf(d, flags, cls, n - 1) +
         if flags[n - 1] && (if d.classId.None? then cls.None? else cls == Some(d.classId.value[n - 1])) then 1 else 0
  }

  /** Every class count grew by the flagged detections of that class. */
  ghost predicate ClassesCounted(d: Detections, before: Tally, after: Tally, flags: seq<bool>)
    requires d.WellFormed()
  {
    |flags| == |d.xyxy| &&
    forall cls :: CountOf(after, cls) == CountOf(before, cls) + FlaggedOf(d, flags, cls, |flags|)
  }

  lemma {:induction false} FlaggedIsOf(line: Line, d: Detections, flags: seq<bool>, cls: Option<int>, n: nat)
    requires d.WellFormed() && d.trackerId.Some? && n <= |flags| <= |d.xyxy|
    ensures Flagged(Sightings(line, d), flags[..n], cls) == FlaggedOf(d, flags, cls, n)
  {
    hide Reading;
    if n > 0 {
      FlaggedIsOf(line, d, flags, cls, n - 1);
      assert flags[..n][..n - 1] == flags[..n - 1];
    }
  }

  lemma NoneCounted(d: Detections, c: Tally)
    requires d.WellFormed()
    ensures d.xyxy == [] ==> ClassesCounted(d, c, c, [])
  {
  }

  lemma CountsAreClasses(line: Line, d: Detections, tr: Trace, t: nat, inC: Tally, outC: Tally,
                         inC': Tally, outC': Tally, crossedIn: seq<bool>, crossedOut: seq<bool>)
    requires d.WellFormed() && d.trackerId.Some?
    requires Processed(tr, Sightings(line, d), |d.xyxy|, t, inC, outC, inC', outC', crossedIn, crossedOut)
    ensures ClassesCounted(d, inC, inC', crossedIn) && ClassesCounted(d, outC, outC', crossedOut)
  {
    hide Reading, FlagsOf, CountOf, Flagged, FlaggedOf;
    assert crossedIn[..|crossedIn|] == crossedIn && crossedOut[..|crossedOut|] == crossedOut;
    forall cls: Option<int>
      ensures Flagged(Sightings(line, d), crossedIn, cls) == FlaggedOf(d, crossedIn, cls, |crossedIn|)
      ensures Flagged(Sightings(line, d), crossedOut, cls) == FlaggedOf(d, crossedOut, cls, |crossedOut|)
    {
      FlaggedIsOf(line, d, crossedIn, cls, |crossedIn|);
      FlaggedIsOf(line, d, crossedOut, cls, |crossedOut|);
    }
  }

  class LineZone {
    const line: Line
    const historyLength: nat
    var history: map<int, seq<bool>>
    var inPerClass: Tally
    var outPerClass: Tally
    /** Everything recorded since construction. */
    ghost var trace: Trace

    /** The number of consecutive sides that make a crossing. */
    ghost function Threshold(): nat
      requires historyLength >= 2
    {
      historyLength - 1
    }

    ghost predicate Valid()
      reads this
    {
      && historyLength >= 2
      && Windows(history, trace, historyLength)
      && Counted(inPerClass, outPerClass, trace, historyLength - 1)
    }

    constructor (v: Vector, magnitude: real, anchors: seq<Position>, minimumCrossingThreshold: int)
      requires IsMagnitude(v, magnitude) && magnitude != 0.0 && anchors != []
      ensures Valid() && trace == map[] && inPerClass == map[] && outPerClass == map[]
      ensures line == MakeLine(v, magnitude, anchors)
      ensures historyLength == if minimumCrossingThreshold >= 1 then minimumCrossingThreshold + 1 else 2
    {
      line := Line(v, Limits(v, magnitude), anchors);
      historyLength := if minimumCrossingThreshold + 1 > 2 then minimumCrossingThreshold + 1 else 2;
      history, inPerClass, outPerClass, trace := map[], map[], map[], map[];
    }

    /** Construction with the two checks of the original. */
    static method Create(v: Vector, magnitude: real, anchors: seq<Position>, minimumCrossingThreshold: int)
      returns (r: Result<LineZone, ConfigError>)
      requires IsMagnitude(v, magnitude)
      ensures r == Failure(ZeroMagnitude) <==> v.start == v.end
      ensures r == Failure(NoAnchors) <==> v.start != v.end && anchors == []
      ensures r.Success? ==> fresh(r.value) && r.value.Valid() && r.value.trace == map[]
      ensures r.Success? ==> magnitude != 0.0 && r.value.line == MakeLine(v, magnitude, anchors)
      ensures r.Success? ==> r.value.inPerClass == map[] && r.value.outPerClass == map[]
      ensures r.Success? ==>
        r.value.historyLength == if minimumCrossingThreshold >= 1 then minimumCrossingThreshold + 1 else 2
    {
      Geometry.ZeroMagnitude(v, magnitude);
      if magnitude == 0.0 {
        return Failure(ConfigError.ZeroMagnitude);
      }
      if anchors == [] {
        return Failure(NoAnchors);
      }
      var z := new LineZone(v, magnitude, anchors, minimumCrossingThreshold);
      r := Success(z);
    }

    /** The body of the loop of `Trigger`: one detection with a reading. */
    method Observe(o: Sighting) returns (fired: bool)
      requires Valid() && o.side.Some?
      modifies this
      ensures Valid()
      ensures trace == RecordOne(old(trace), o)
      ensures fired <==> Completes(old(trace), o, Threshold(), o.side.value)
      ensures inPerClass == if fired && o.side.value then Bump(old(inPerClass), o.cls) else old(inPerClass)
      ensures outPerClass == if fired && !o.side.value then Bump(old(outPerClass), o.cls) else old(outPerClass)
    {
      hide Total, LineTotal, CounterTotal;
      var b, k := o.side.value, o.tracker;
      var w0 := if k in history then history[k] else [];
      var w := Append(w0, b, historyLength);
      WindowsStep(history, trace, o, historyLength, w0, w);
      TestDecides(trace, o, historyLength, w);
      history := history[k := w];
      fired := WindowFires(w, historyLength);
      if fired {
        if b {
          inPerClass := Bump(inPerClass, o.cls);
        } else {
          outPerClass := Bump(outPerClass, o.cls);
        }
      }
      CountedStep(old(inPerClass), old(outPerClass), trace, o, historyLength - 1, fired, inPerClass, outPerClass);
      trace := RecordOne(trace, o);
    }

    /** Processes one frame.  Flags and counters grow by exactly the crossings
        that the declarative reading of the whole trace has in this frame. */
    method Trigger(d: Detections) returns (crossedIn: seq<bool>, crossedOut: seq<bool>)
      requires Valid() && d.WellFormed()
      modifies this
      ensures Valid()
      ensures trace == Record(old(trace), Sightings(line, d))
      ensures d.trackerId.Some? ==>
        Processed(old(trace), Sightings(line, d), |d.xyxy|, Threshold(), old(inPerClass), old(outPerClass),
                  inPerClass, outPerClass, crossedIn, crossedOut)
      ensures d.trackerId.Some? ==> ClassesCounted(d, old(inPerClass), inPerClass, crossedIn)
      ensures d.trackerId.Some? ==> ClassesCounted(d, old(outPerClass), outPerClass, crossedOut)
      ensures d.trackerId.None? ==>
        inPerClass == old(inPerClass) && outPerClass == old(outPerClass) &&
        crossedIn == crossedOut == Repeat(false, |d.xyxy|)
    {
      hide Total, LineTotal, CounterTotal, Completes, Reading, Windows, Counted, Flagged, Processed, ClassesCounted;
      if d.xyxy == [] || d.trackerId.None? {
        crossedIn, crossedOut := Repeat(false, |d.xyxy|), Repeat(false, |d.xyxy|);
        ProcessedNone(trace, Sightings(line, d), Threshold(), inPerClass, outPerClass);
        NoneCounted(d, inPerClass);
        NoneCounted(d, outPerClass);
        return;
      }
      var os := Sightings(line, d);
      crossedIn, crossedOut := [], [];
      ghost var tr, in0, out0 := trace, inPerClass, outPerClass;
      ProcessedNone(tr, os, Threshold(), in0, out0);
      for i := 0 to |os|
        invariant Valid()
        invariant trace == Record(tr, os[..i])
        invariant Processed(tr, os, i, Threshold(), in0, out0, inPerClass, outPerClass, crossedIn, crossedOut)
      {
        var o := os[i];
        RecordSnoc(tr, os[..i], o);
        assert os[..i] + [o] == os[..i + 1];
        ghost var in1, out1 := inPerClass, outPerClass;
        var fired := false;
        if o.side.Some? {
          fired := Observe(o);
        }
        ProcessedStep(tr, os, i, Threshold(), in0, out0, in1, out1, crossedIn, crossedOut,
                      inPerClass, outPerClass, fired);
        crossedIn := crossedIn + [fired && o.side == Some(true)];
        crossedOut := crossedOut + [fired && o.side == Some(false)];
      }
      assert os[..|os|] == os;
      CountsAreClasses(line, d, tr, Threshold(), in0, out0, inPerClass, outPerClass, crossedIn, crossedOut);
    }

    /** `in_count`: the number of qualifying left runs, over all trackers. */
    method InCount() returns (n: nat)
      requires Valid()
      ensures n == LineTotal(trace, Threshold(), true) == CounterTotal(inPerClass)
    {
      n := SumValues(inPerClass);
    }

    /** `out_count`, likewise for right runs. */
    method OutCount() returns (n: nat)
      requires Valid()
      ensures n == LineTotal(trace, Threshold(), false) == CounterTotal(outPerClass)
    {
      n := SumValues(outPerClass);
    }
  }

  /** A fresh zone of threshold 1 that is shown one person with their feet to the right
      of the line and then to its left counts one in and none out; the other way round
      one out and none in. */
  lemma EntryIsIn(z: LineZone, v: Vector, m: real, d1: Detections, d2: Detections, tracker: int, b1: Box, b2: Box,
                  left: bool)
    requires IsMagnitude(v, m) && m != 0.0 && OneBox(d1, tracker, b1) && OneBox(d2, tracker, b2)
    requires LiesBeside(v, Feet(b1), !left) && LiesBeside(v, Feet(b2), left)
    requires z.Valid() && z.Threshold() == 1 && z.line == MakeLine(v, m, [BottomCenter])
    requires z.trace == Record(Record(map[], Sightings(z.line, d1)), Sightings(z.line, d2))
    ensures CounterTotal(z.inPerClass) == if left then 1 else 0
    ensures CounterTotal(z.outPerClass) == if left then 0 else 1
  {
    hide LiesBeside, LineTotal, CounterTotal, Record, Sightings;
    CrossingTheLine(v, m, d1, d2, tracker, b1, b2, left);
  }

  /** The sum of a counter's values. */
  method SumValues(c: Tally) returns (n: nat)
    ensures n == CounterTotal(c)
  {
    n := 0;
    var left := c.Keys;
    ghost var f: Option<int> -> int := k => CountOf(c, k);
    while left != {}
      invariant left <= c.Keys
      invariant n + SumOver(left, f) == SumOver(c.Keys, f)
      decreases left
    {
      var k :| k in left;
      SumRemove(left, f, k);
      n := n + c[k];
      left := left - {k};
    }
    SumCongruence(c.Keys, f, k => CountOf(c, k));
  }
}
