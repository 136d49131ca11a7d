/** Footfall: one zone per drawn line, fed by the smoother, drained by deltas. */
module Footfall {
  import opened Common
  import opened Sums
  import opened Geometry
  import opened Crossings
  import opened Traces
  import opened LineZones
  import opened Smoothing

  datatype CountingLine = CountingLine(name: string, x1: int, y1: int, x2: int, y2: int) {
    function ToVector(): Vector {
      Vector(Point(x1 as real, y1 as real), Point(x2 as real, y2 as real))
    }
  }

  datatype Counts = Counts(entered: int, left: int)

  function Minus(a: Counts, b: Counts): Counts {
    Counts(a.entered - b.entered, a.left - b.left)
  }

  /** The line's totals, read off what it has recorded. */
  ghost function Totals(tr: Trace): Counts {
    Counts(LineTotal(tr, 1, true), LineTotal(tr, 1, false))
  }

  ghost predicate AtMost(a: Counts, b: Counts) {
    a.entered <= b.entered && a.left <= b.left
  }

  lemma {:induction false} TotalsGrow(tr: Trace, os: seq<Sighting>)
    ensures AtMost(Totals(tr), Totals(Record(tr, os)))
  {
    hide LineTotal;
    if os != [] {
      var p := os[..|os| - 1];
      TotalsGrow(tr, p);
      LineTotalStep(Record(tr, p), os[|os| - 1], 1, true);
      LineTotalStep(Record(tr, p), os[|os| - 1], 1, false);
    }
  }

  /** People in minus people out of a line is decided by where its trackers were
      first and last seen; the order of crossings in between does not matter. */
  lemma NetFlow(z: LineZone)
    requires z.Valid() && z.historyLength == 2
    ensures NonEmpty(z.trace)
    ensures Totals(z.trace).entered - Totals(z.trace).left == |LastLeft(z.trace)| - |FirstLeft(z.trace)|
  {
    hide LineTotal, CounterTotal;
    assert NonEmpty(z.trace);
    UnitThresholdBalance(z.trace);
  }

  /** What a drain reports, per line. */
  type Report = map<string, Counts>

  /** The sum of everything reported for a line so far. */
  ghost function Reported(reports: seq<Report>, name: string): Counts {
    if reports == [] then Counts(0, 0)
    else
      var sofar, last := Reported(reports[..|reports| - 1], name), reports[|reports| - 1];
      if name in last then Counts(sofar.entered + last[name].entered, sofar.left + last[name].left) else sofar
  }

  lemma ReportedSnoc(reports: seq<Report>, r: Report, name: string)
    requires name in r
    ensures var sofar := Reported(reports, name);
            Reported(reports + [r], name) == Counts(sofar.entered + r[name].entered, sofar.left + r[name].left)
  {
    assert (reports + [r])[..|reports|] == reports;
  }

  ghost predicate IsSqrt(magnitude: Vector -> real) {
    forall v :: IsMagnitude(v, magnitude(v))
  }

  /** The line drawn under a name: the last one of that name. */
  function Drawn(lines: seq<CountingLine>, name: string): (r: Option<CountingLine>)
    ensures r.Some? <==> exists i :: 0 <= i < |lines| && lines[i].name == name
    ensures r.Some? ==>
      exists i :: 0 <= i < |lines| && lines[i] == r.value && forall j :: i < j < |lines| ==> lines[j].name != name
  {
    if lines == [] then None
    else if lines[|lines| - 1].name == name then Some(lines[|lines| - 1])
    else Drawn(lines[..|lines| - 1], name)
  }

  /** The zone watches the line as drawn, at the feet of the tracked people. */
  ghost predicate Watches(z: LineZone, drawn: CountingLine) {
    var v := Vector(Point(drawn.x1 as real, drawn.y1 as real), Point(drawn.x2 as real, drawn.y2 as real));
    exists m :: IsMagnitude(v, m) && m != 0.0 && z.line == MakeLine(v, m, [BottomCenter])
  }

  /** Every name has one zone, and it watches the line drawn under that name. */
  ghost predicate AllWatch(zones: map<string, LineZone>, lines: seq<CountingLine>) {
    && (forall a :: a in zones <==> Drawn(lines, a).Some?)
    && (forall a :: a in zones ==> Watches(zones[a], Drawn(lines, a).value))
  }

  lemma NoTotals()
    ensures Totals(map[]) == Counts(0, 0)
  {
  }

  ghost predicate StartsEmpty(z: LineZone)
    reads z
  {
    z.Valid() && z.historyLength == 2 && z.trace == map[]
  }

  ghost predicate AllStartEmpty(zones: map<string, LineZone>)
    reads zones.Values
  {
    forall a :: a in zones ==> StartsEmpty(zones[a])
  }

  ghost predicate Separate(zones: map<string, LineZone>) {
    forall a, b :: a in zones && b in zones && a != b ==> zones[a] != zones[b]
  }

  /** The zone of one drawn line. */
  method MakeZone(l: CountingLine, magnitude: Vector -> real) returns (r: Result<LineZone, ConfigError>)
    requires IsSqrt(magnitude)
    ensures r.Failure? <==> l.ToVector().start == l.ToVector().end
    ensures r.Success? ==> fresh(r.value) && StartsEmpty(r.value) && Watches(r.value, l)
  {
    var v := l.ToVector();
    var anchors := [BottomCenter];
    assert |anchors| == 1 && anchors != [];
    assert IsMagnitude(v, magnitude(v));
    r := LineZone.Create(v, magnitude(v), anchors, 1);
    if r.Failure? {
      assert r.error == ConfigError.ZeroMagnitude || r.error == NoAnchors;
    }
  }

  /** One zone for every drawn line; a later line of the same name replaces an
      earlier one. */
  method BuildZones(lines: seq<CountingLine>, magnitude: Vector -> real)
    returns (r: Result<map<string, LineZone>, ConfigError>)
    requires IsSqrt(magnitude)
    ensures r.Failure? <==> exists i :: 0 <= i < |lines| && lines[i].ToVector().start == lines[i].ToVector().end
    ensures r.Success? ==> Separate(r.value) && forall a :: a in r.value ==> fresh(r.value[a])
    ensures r.Success? ==> AllStartEmpty(r.value) && AllWatch(r.value, lines)
  {
    hide Watches, StartsEmpty, Drawn, AllWatch;
    var zones: map<string, LineZone> := map[];
    NothingDrawn();
    for i := 0 to |lines|
      invariant forall a :: a in zones ==> fresh(zones[a])
      invariant Separate(zones) && AllStartEmpty(zones) && AllWatch(zones, lines[..i])
      invariant forall j :: 0 <= j < i ==> lines[j].ToVector().start != lines[j].ToVector().end
    {
      var z := MakeZone(lines[i], magnitude);
      if z.Failure? {
        return Failure(z.error);
      }
      OneMoreDrawn(zones, lines, i, z.value);
      zones := zones[lines[i].name := z.value];
    }
    assert lines[..|lines|] == lines;
    r := Success(zones);
  }

  lemma NothingDrawn()
    ensures AllWatch(map[], [])
  {
  }

  lemma OneMoreDrawn(zones: map<string, LineZone>, lines: seq<CountingLine>, i: nat, z: LineZone)
    requires i < |lines| && AllWatch(zones, lines[..i]) && Watches(z, lines[i])
    ensures AllWatch(zones[lines[i].name := z], lines[..i + 1])
  {
    hide Watches;
    assert lines[..i + 1][..i] == lines[..i];
  }

  ghost predicate Ready(zones: map<string, LineZone>)
    reads zones.Values
  {
    forall a :: a in zones ==> zones[a].Valid() && zones[a].historyLength == 2
  }

  /** Every line's totals now. */
  ghost function TotalsOf(zones: map<string, LineZone>): map<string, Counts>
    reads zones.Values
  {
    map a | a in zones :: Totals(zones[a].trace)
  }

  lemma LinesOf(zones: map<string, LineZone>)
    ensures TotalsOf(zones).Keys == zones.Keys
  {
  }

  /** What was reported for every line is what it was last read at. */
  ghost predicate AllReported(last: map<string, Counts>, reports: seq<Report>) {
    forall a :: a in last ==> last[a] == Reported(reports, a) && AtMost(Counts(0, 0), last[a])
  }

  ghost predicate AllAtMost(last: map<string, Counts>, now: map<string, Counts>) {
    last.Keys == now.Keys && forall a :: a in last ==> AtMost(last[a], now[a])
  }

  /** A drain brings the reports up to the totals it read. */
  lemma DrainReports(last: map<string, Counts>, now: map<string, Counts>, reports: seq<Report>, out: Report)
    requires AllReported(last, reports) && AllAtMost(last, now) && out.Keys == now.Keys
    requires forall a :: a in out ==> out[a] == Minus(now[a], last[a])
    ensures AllReported(now, reports + [out]) && AllAtMost(now, now)
    ensures forall a :: a in out ==> AtMost(Counts(0, 0), out[a])
  {
    hide Reported;
    forall a | a in out ensures Reported(reports + [out], a) == now[a] {
      ReportedSnoc(reports, out, a);
    }
  }

  lemma StillGrowing(last: map<string, Counts>, before: map<string, Counts>, now: map<string, Counts>, a: string)
    requires AllAtMost(last, before) && now.Keys == before.Keys && a in now && AtMost(before[a], now[a])
    requires forall b :: b in now && b != a ==> now[b] == before[b]
    ensures AllAtMost(last, now)
  {
  }

  lemma NothingReported(zones: map<string, LineZone>, last: map<string, Counts>)
    requires AllStartEmpty(zones) && last == map a | a in zones :: Counts(0, 0)
    ensures Ready(zones) && AllReported(last, []) && AllAtMost(last, TotalsOf(zones))
  {
    hide Totals, Windows, Counted;
    NoTotals();
  }

  class FootfallCounter {
    const lines: seq<CountingLine>
    const smoother: DetectionsSmoother
    const zones: map<string, LineZone>
    var lastTotals: map<string, Counts>
    /** Every report handed out so far. */
    ghost var reports: seq<Report>

    /** The zones are sound and watch the lines as drawn; what was reported for a line
        is its total at the last drain, never more than its total now. */
    ghost predicate Valid()
      reads this, smoother, zones.Values
    {
      && smoother.Valid() && smoother.length == 3
      && Separate(zones) && Ready(zones) && AllWatch(zones, lines)
      && AllReported(lastTotals, reports) && AllAtMost(lastTotals, TotalsOf(zones))
    }

    constructor (lines: seq<CountingLine>, smoother: DetectionsSmoother, zones: map<string, LineZone>)
      requires smoother.Valid() && smoother.length == 3 && Separate(zones)
      requires AllStartEmpty(zones) && AllWatch(zones, lines)
      ensures Valid() && this.lines == lines && this.smoother == smoother && this.zones == zones && reports == []
    {
      hide AllWatch, AllReported, AllAtMost, TotalsOf, Ready, AllStartEmpty;
      this.lines, this.smoother, this.zones := lines, smoother, zones;
      lastTotals, reports := map a | a in zones :: Counts(0, 0), [];
      new;
      NothingReported(zones, lastTotals);
    }

    /** Construction.  A line whose two ends coincide makes it fail, whatever the
        other lines are. */
    static method Create(lines: seq<CountingLine>, magnitude: Vector -> real)
      returns (r: Result<FootfallCounter, ConfigError>)
      requires IsSqrt(magnitude)
      ensures r.Failure? <==> exists i :: 0 <= i < |lines| && lines[i].x1 == lines[i].x2 && lines[i].y1 == lines[i].y2
      ensures r.Success? ==> fresh(r.value) && r.value.Valid() && r.value.lines == lines && r.value.reports == []
      ensures r.Success? ==> fresh(r.value.smoother) && forall a :: a in r.value.zones ==> fresh(r.value.zones[a])
      ensures r.Success? ==> AllWatch(r.value.zones, lines)
    {
      hide AllWatch;
      var s := new DetectionsSmoother(3);
      var z := BuildZones(lines, magnitude);
      forall i | 0 <= i < |lines|
        ensures lines[i].ToVector().start == lines[i].ToVector().end <==>
                lines[i].x1 == lines[i].x2 && lines[i].y1 == lines[i].y2
      {
      }
      if z.Failure? {
        return Failure(z.error);
      }
      var c := new FootfallCounter(lines, s, z.value);
      r := Success(c);
    }

    /** `zone.trigger` on one of the zones. */
    method Feed(a: string, batch: Detections)
      requires Valid() && a in zones && batch.WellFormed()
      modifies zones[a]
      ensures Valid()
      ensures zones[a].trace == Record(old(zones[a].trace), Sightings(zones[a].line, batch))
      ensures forall b :: b in zones && b != a ==> zones[b].trace == old(zones[b].trace)
    {
      hide Record, Sightings, Totals, Faithful, Processed, AllWatch, AllReported, AllAtMost, Windows, Counted;
      TotalsGrow(zones[a].trace, Sightings(zones[a].line, batch));
      ghost var before := TotalsOf(zones);
      var crossedIn, crossedOut := zones[a].Trigger(batch);
      assert forall b :: b in zones && b != a ==> zones[b] != zones[a] && old(zones[b].Valid());
      StillGrowing(lastTotals, before, TotalsOf(zones), a);
    }

    /** One frame: `tracked` is what the tracker returned for `personBoxes`. */
    method Update(personBoxes: seq<Box>, tracked: Detections) returns (ghost smoothed: Detections)
      requires Valid() && Tracked(tracked)
      modifies smoother, zones.Values
      ensures Valid() && reports == old(reports)
      ensures lines == [] || personBoxes == [] ==>
        smoother.history == old(smoother.history) && forall a :: a in zones ==> zones[a].trace == old(zones[a].trace)
      ensures lines != [] && personBoxes != [] ==>
        && smoothed.WellFormed()
        && (if tracked.trackerId.None? then smoothed == tracked
            else smoother.history == old(smoother.history) + [FrameOf(tracked, |tracked.xyxy|)] &&
                 Emits(smoothed, smoother.history, 3))
        && forall a :: a in zones ==>
             zones[a].trace == Record(old(zones[a].trace), Sightings(zones[a].line, smoothed))
    {
      hide FrameOf, Record, Sightings, Faithful, IsMean, HasClass, Present, Window;
      hide AllWatch, AllReported, AllAtMost, TotalsOf, Ready;
      smoothed := tracked;
      if lines == [] || personBoxes == [] {
        return;
      }
      var batch := smoother.UpdateWithDetections(tracked);
      smoothed := batch;
      ghost var seen := smoother.history;
      var todo := zones.Keys;
      while todo != {}
        invariant todo <= zones.Keys
        invariant Valid() && smoother.history == seen && reports == old(reports)
        invariant forall a :: a in zones ==>
          zones[a].trace == if a in todo then old(zones[a].trace)
                            else Record(old(zones[a].trace), Sightings(zones[a].line, batch))
        decreases todo
      {
        var a := Pick(todo);
        Feed(a, batch);
        todo := todo - {a};
      }
    }

    /** The running totals of one line. */
    method CurrentTotals(a: string) returns (current: Counts)
      requires a in zones && zones[a].Valid() && zones[a].historyLength == 2
      ensures current == Totals(zones[a].trace)
    {
      var entered := zones[a].InCount();
      var left := zones[a].OutCount();
      current := Counts(entered, left);
    }

    /** The body of the loop of `Drain`: one line's counts since it was last read. */
    method ReadLine(a: string) returns (delta: Counts)
      requires a in zones && a in lastTotals && Ready(zones)
      modifies this`lastTotals
      ensures Ready(zones) && TotalsOf(zones) == old(TotalsOf(zones))
      ensures lastTotals == old(lastTotals)[a := TotalsOf(zones)[a]]
      ensures delta == Minus(TotalsOf(zones)[a], old(lastTotals[a]))
    {
      hide Totals, Windows, Counted;
      var current := CurrentTotals(a);
      delta := Minus(current, lastTotals[a]);
      lastTotals := lastTotals[a := current];
    }

    /** The loop of `Drain`: read every line's totals, remember them. */
    method ReadTotals() returns (out: Report)
      requires zones.Keys == lastTotals.Keys && Ready(zones)
      modifies this`lastTotals
      ensures Ready(zones) && lastTotals == TotalsOf(zones) == old(TotalsOf(zones))
      ensures out.Keys == zones.Keys && forall a :: a in zones ==> out[a] == Minus(lastTotals[a], old(lastTotals[a]))
    {
      hide Ready, TotalsOf, Minus;
      ghost var now := TotalsOf(zones);
      LinesOf(zones);
      out := map[];
      var todo := zones.Keys;
      while todo != {}
        invariant Ready(zones) && TotalsOf(zones) == now
        invariant todo <= zones.Keys && out.Keys == zones.Keys - todo && lastTotals.Keys == zones.Keys
        invariant forall a :: a in todo ==> lastTotals[a] == old(lastTotals[a])
        invariant forall a :: a in out ==> lastTotals[a] == now[a] && out[a] == Minus(now[a], old(lastTotals[a]))
        decreases todo
      {
        var a := Pick(todo);
        var delta := ReadLine(a);
        out := out[a := delta];
        todo := todo - {a};
      }
      assert lastTotals == now;
    }

    /** Counts since the last drain. */
    method Drain() returns (out: Report)
      requires Valid()
      modifies this`lastTotals, this`reports
      ensures Valid()
      ensures out.Keys == zones.Keys
      ensures forall a :: a in zones ==>
        out[a] == Minus(Totals(zones[a].trace), old(lastTotals[a])) && AtMost(Counts(0, 0), out[a])
      ensures forall a :: a in zones ==> Reported(reports, a) == Totals(zones[a].trace)
      ensures reports == old(reports) + [out]
    {
      hide Totals, Reported, Faithful, AllWatch, AllReported, Ready;
      ghost var last := lastTotals;
      out := ReadTotals();
      DrainReports(last, lastTotals, reports, out);
      reports := reports + [out];
      assert forall a :: a in zones ==> Reported(reports, a) == lastTotals[a] by { ReportedNow(lastTotals, reports); }
    }
  }

  lemma ReportedNow(last: map<string, Counts>, reports: seq<Report>)
    requires AllReported(last, reports)
    ensures forall a :: a in last ==> Reported(reports, a) == last[a]
  {
  }
}
