/** Crossing detection for one tracked object, as a fact about its whole trace.

    LineZone keeps only the last `T + 1` recorded sides of a tracker (`true` is
    the left side of the line) and fires when that window is full and its oldest
    entry occurs in it once.  Here the full trace is cut into maximal runs of
    equal sides, and the windowed test is shown to fire exactly when a run other
    than the first reaches length `T`. */
module Crossings {
  import opened Sequences

  /** A maximal stretch of equal sides. */
  datatype Run = Run(side: bool, length: nat)

  /** Number of occurrences of `b`, as `deque.count` computes it. */
  function Count(w: seq<bool>, b: bool): nat {
    if w == [] then 0 else Count(w[..|w| - 1], b) + if w[|w| - 1] == b then 1 else 0
  }

  /** The test that `trigger` applies to a tracker's window after appending to it. */
  predicate WindowFires(w: seq<bool>, n: nat) {
    |w| >= n && |w| > 0 && Count(w, w[0]) <= 1
  }

  // ---- Runs ----

  /** The maximal runs of a trace, in order. */
  function Runs(s: seq<bool>): seq<Run> {
    if s == [] then []
    else Extend(Runs(s[..|s| - 1]), s[|s| - 1])
  }

  function Extend(rs: seq<Run>, b: bool): seq<Run> {
    if rs != [] && rs[|rs| - 1].side == b
    then rs[..|rs| - 1] + [Run(b, rs[|rs| - 1].length + 1)]
    else rs + [Run(b, 1)]
  }

  function Repeat(b: bool, n: nat): (s: seq<bool>)
    ensures |s| == n && forall k :: 0 <= k < n ==> s[k] == b
  {
    seq(n, _ => b)
  }

  function Flatten(rs: seq<Run>): seq<bool> {
    if rs == [] then []
    else Flatten(rs[..|rs| - 1]) + Repeat(rs[|rs| - 1].side, rs[|rs| - 1].length)
  }

  /** Runs are non-empty and neighbours have different sides. */
  ghost predicate Maximal(rs: seq<Run>) {
    && (forall i :: 0 <= i < |rs| ==> rs[i].length > 0)
    && (forall i :: 0 < i < |rs| ==> rs[i - 1].side != rs[i].side)
  }

  lemma FlattenSnoc(rs: seq<Run>, r: Run)
    ensures Flatten(rs + [r]) == Flatten(rs) + Repeat(r.side, r.length)
  {
    assert (rs + [r])[..|rs|] == rs;
  }

  lemma RepeatSnoc(b: bool, n: nat)
    ensures Repeat(b, n + 1) == Repeat(b, n) + [b]
  {
  }

  lemma MaximalSnoc(rs: seq<Run>, r: Run)
    ensures Maximal(rs + [r]) <==> Maximal(rs) && r.length > 0 && (rs == [] || rs[|rs| - 1].side != r.side)
  {
    var all := rs + [r];
    assert all[|rs|] == r && forall i :: 0 <= i < |rs| ==> all[i] == rs[i];
    if Maximal(all) {
      assert forall i :: 0 <= i < |rs| ==> all[i].length > 0;
      assert forall i :: 0 < i < |rs| ==> all[i - 1].side != all[i].side;
      assert rs != [] ==> all[|rs| - 1].side != all[|rs|].side;
    }
  }

  /** A longer last run. */
  lemma LongerRun(front: seq<Run>, b: bool, n: nat)
    requires n > 0 && Maximal(front + [Run(b, n)])
    ensures Flatten(front + [Run(b, n + 1)]) == Flatten(front + [Run(b, n)]) + [b]
    ensures Maximal(front + [Run(b, n + 1)])
  {
    hide Flatten, Maximal, Repeat;
    FlattenSnoc(front, Run(b, n + 1));
    FlattenSnoc(front, Run(b, n));
    RepeatSnoc(b, n);
    Associate(Flatten(front), Repeat(b, n), [b]);
    MaximalSnoc(front, Run(b, n));
    MaximalSnoc(front, Run(b, n + 1));
  }

  lemma RepeatOnce(b: bool)
    ensures Repeat(b, 1) == [b]
  {
  }

  /** One more run. */
  lemma NewRun(rs: seq<Run>, b: bool)
    requires Maximal(rs) && (rs == [] || rs[|rs| - 1].side != b)
    ensures Flatten(rs + [Run(b, 1)]) == Flatten(rs) + [b]
    ensures Maximal(rs + [Run(b, 1)])
  {
    hide Flatten, Maximal, Repeat;
    FlattenSnoc(rs, Run(b, 1));
    RepeatOnce(b);
    MaximalSnoc(rs, Run(b, 1));
  }

  /** Extending the runs by one side extends the trace they stand for. */
  lemma ExtendIsSnoc(rs: seq<Run>, b: bool)
    requires Maximal(rs)
    ensures Flatten(Extend(rs, b)) == Flatten(rs) + [b]
    ensures Maximal(Extend(rs, b))
    ensures Extend(rs, b) != [] && Extend(rs, b)[|Extend(rs, b)| - 1].side == b
  {
    hide Flatten, Maximal;
    if rs != [] && rs[|rs| - 1].side == b {
      var front, last := rs[..|rs| - 1], rs[|rs| - 1];
      assert rs == front + [Run(b, last.length)];
      MaximalSnoc(front, last);
      LongerRun(front, b, last.length);
    } else {
      NewRun(rs, b);
    }
  }

  lemma NoRuns()
    ensures Flatten([]) == [] && Maximal([])
  {
  }

  lemma ExtendHead(rs: seq<Run>, b: bool)
    ensures Extend(rs, b) != [] && Extend(rs, b)[0].side == if rs == [] then b else rs[0].side
  {
  }

  /** `Runs` is a decomposition of the trace into maximal runs. */
  lemma {:induction false} RunsDecompose(s: seq<bool>)
    ensures Flatten(Runs(s)) == s
    ensures Maximal(Runs(s))
    ensures s != [] ==> Runs(s) != [] && Runs(s)[|Runs(s)| - 1].side == s[|s| - 1] && Runs(s)[0].side == s[0]
  {
    hide Extend, Maximal, Flatten;
    if s == [] {
      NoRuns();
    } else {
      var p, b := s[..|s| - 1], s[|s| - 1];
      RunsDecompose(p);
      ExtendIsSnoc(Runs(p), b);
      ExtendHead(Runs(p), b);
      assert s == p + [b];
    }
  }

  lemma RunsSnoc(s: seq<bool>, b: bool)
    ensures Runs(s + [b]) == Extend(Runs(s), b)
  {
    assert (s + [b])[..|s|] == s;
  }

  /** The runs of the trace without its last side. */
  function Shrink(rs: seq<Run>): seq<Run>
    requires Maximal(rs) && rs != []
  {
    var front, last := rs[..|rs| - 1], rs[|rs| - 1];
    if last.length == 1 then front else front + [Run(last.side, last.length - 1)]
  }

  lemma ExtendUndoesShrink(rs: seq<Run>)
    requires Maximal(rs) && rs != []
    ensures Maximal(Shrink(rs)) && Extend(Shrink(rs), rs[|rs| - 1].side) == rs
  {
    var front, last := rs[..|rs| - 1], rs[|rs| - 1];
    assert rs == front + [last];
    if last.length > 1 {
      var r := Run(last.side, last.length - 1);
      assert (front + [r])[..|front|] == front;
    }
  }

  /** ... and it is the only one. */
  lemma {:induction false} RunsUnique(rs: seq<Run>)
    requires Maximal(rs)
    ensures Runs(Flatten(rs)) == rs
    decreases |Flatten(rs)|
  {
    if rs != [] {
      var last := rs[|rs| - 1];
      ExtendUndoesShrink(rs);
      ExtendIsSnoc(Shrink(rs), last.side);
      RunsUnique(Shrink(rs));
      RunsSnoc(Flatten(Shrink(rs)), last.side);
    }
  }

  // ---- Crossings of a trace ----

  /** The crossings of a whole trace, declaratively: one for every maximal run,
      other than the first, that is at least `t` long. */
  function Crossed(rs: seq<Run>, t: nat): seq<bool> {
    if |rs| <= 1 then []
    else Crossed(rs[..|rs| - 1], t) + if rs[|rs| - 1].length >= t then [rs[|rs| - 1].side] else []
  }

  function Events(s: seq<bool>, t: nat): seq<bool> {
    Crossed(Runs(s), t)
  }

  /** The run in progress is not the first one and has just reached length `t`. */
  predicate JustReached(rs: seq<Run>, t: nat) {
    |rs| > 1 && rs[|rs| - 1].length == t
  }

  lemma {:induction false} CountAll(w: seq<bool>, b: bool)
    ensures Count(w, b) <= |w|
    ensures Count(w, b) == 0 <==> forall k :: 0 <= k < |w| ==> w[k] != b
  {
    if w != [] {
      CountAll(w[..|w| - 1], b);
      assert forall k :: 0 <= k < |w| - 1 ==> w[..|w| - 1][k] == w[k];
    }
  }

  lemma {:induction false} CountFront(w: seq<bool>, b: bool)
    requires w != []
    ensures Count(w, b) == Count(w[1..], b) + if w[0] == b then 1 else 0
  {
    if |w| > 1 {
      CountFront(w[..|w| - 1], b);
      assert w[..|w| - 1][1..] == w[1..][..|w| - 2];
    }
  }

  /** The window test in plain terms: everything after the oldest entry is the
      opposite side. */
  lemma WindowFiresMeaning(w: seq<bool>, n: nat)
    requires n >= 2
    ensures WindowFires(w, n) <==> |w| >= n && forall k :: 1 <= k < |w| ==> w[k] != w[0]
  {
    if w != [] {
      CountFront(w, w[0]);
      CountAll(w[1..], w[0]);
      assert forall k :: 1 <= k < |w| ==> w[k] == w[1..][k - 1];
    }
  }

  /** The last run covers exactly the trailing equal sides. */
  lemma {:induction false} LastRun(s: seq<bool>)
    requires s != []
    ensures var rs := Runs(s); var r := rs[|rs| - 1];
      && rs != [] && 0 < r.length <= |s| && r.side == s[|s| - 1]
      && (forall k :: |s| - r.length <= k < |s| ==> s[k] == r.side)
      && (r.length == |s| <==> |rs| == 1)
      && (r.length < |s| ==> s[|s| - r.length - 1] != r.side)
  {
    RunsDecompose(s);
    var rs := Runs(s);
    var front := Flatten(rs[..|rs| - 1]);
    assert s == front + Repeat(rs[|rs| - 1].side, rs[|rs| - 1].length);
    if |rs| > 1 {
      var prev := rs[|rs| - 2];
      assert rs[..|rs| - 1][..|rs| - 2] == rs[..|rs| - 2];
      assert front == Flatten(rs[..|rs| - 2]) + Repeat(prev.side, prev.length);
      assert front[|front| - 1] == prev.side;
      assert s[|front| - 1] == prev.side;
    }
  }

  /** The test on the last `t + 1` sides sees a crossing exactly when the run in
      progress is not the first one and has just reached length `t`. */
  lemma WindowSeesRun(s: seq<bool>, t: nat)
    requires s != [] && t >= 1
    ensures WindowFires(LastN(s, t + 1), t + 1) <==> JustReached(Runs(s), t)
  {
    hide Runs, WindowFires;
    var w := LastN(s, t + 1);
    WindowFiresMeaning(w, t + 1);
    LastRun(s);
    if |s| >= t + 1 {
      TrailingRun(s, w, t, Runs(s)[|Runs(s)| - 1].length);
    }
  }

  /** `r` trailing equal sides, preceded by another one unless they are all there
      is: the window of `t + 1` sides is one side followed by its opposite
      exactly when `r == t`. */
  lemma TrailingRun(s: seq<bool>, w: seq<bool>, t: nat, r: nat)
    requires 1 <= t < |s| && 1 <= r <= |s|
    requires |w| == t + 1 && forall k :: 0 <= k <= t ==> w[k] == s[|s| - t - 1 + k]
    requires forall k :: |s| - r <= k < |s| ==> s[k] == s[|s| - 1]
    requires r < |s| ==> s[|s| - r - 1] != s[|s| - 1]
    ensures (forall k :: 1 <= k <= t ==> w[k] != w[0]) <==> r == t
  {
    assert w[t] == s[|s| - 1];
    if r > t {
      assert w[1] == w[0];
    } else if r < t {
      assert w[t - r] == s[|s| - r - 1];
    } else {
      assert w[0] == s[|s| - r - 1];
    }
  }

  lemma CrossedSnoc(rs: seq<Run>, r: Run, t: nat)
    ensures Crossed(rs + [r], t) == if rs != [] && r.length >= t then Crossed(rs, t) + [r.side] else Crossed(rs, t)
  {
    assert (rs + [r])[..|rs|] == rs;
  }

  /** How the declarative list grows when the runs are extended by one side. */
  lemma CrossedExtend(rs: seq<Run>, b: bool, t: nat)
    requires t >= 1
    ensures Crossed(Extend(rs, b), t) ==
            if JustReached(Extend(rs, b), t) then Crossed(rs, t) + [b] else Crossed(rs, t)
  {
    if rs != [] && rs[|rs| - 1].side == b {
      var front, last := rs[..|rs| - 1], rs[|rs| - 1];
      assert rs == front + [last];
      CrossedSnoc(front, Run(b, last.length + 1), t);
      CrossedSnoc(front, last, t);
    } else {
      CrossedSnoc(rs, Run(b, 1), t);
    }
  }

  /** Main theorem: processing one more side fires exactly the crossing by which
      the declarative list grows.  So each qualifying run is counted once, at the
      observation where it reaches length `t`. */
  lemma WindowDetectsRuns(s: seq<bool>, b: bool, t: nat)
    requires t >= 1
    ensures Events(s + [b], t) ==
            if WindowFires(Append(LastN(s, t + 1), b, t + 1), t + 1) then Events(s, t) + [b] else Events(s, t)
  {
    var s' := s + [b];
    AppendKeepsLastN(s, b, t + 1);
    assert Append(LastN(s, t + 1), b, t + 1) == LastN(s', t + 1);
    WindowSeesRun(s', t);
    RunsSnoc(s, b);
    var rs := Runs(s);
    assert Runs(s') == Extend(rs, b);
    CrossedExtend(rs, b, t);
  }

  /** Number of crossings towards `side` in a trace. */
  function Total(s: seq<bool>, t: nat, side: bool): nat {
    Count(Events(s, t), side)
  }

  lemma {:induction false} CountConcat(a: seq<bool>, b: seq<bool>, x: bool)
    ensures Count(a + b, x) == Count(a, x) + Count(b, x)
  {
    if b == [] {
      assert a + b == a;
    } else {
      CountConcat(a, b[..|b| - 1], x);
      assert (a + b)[..|a + b| - 1] == a + b[..|b| - 1];
    }
  }

  lemma CountSnoc(es: seq<bool>, b: bool, side: bool)
    ensures Count(es + [b], side) == Count(es, side) + if b == side then 1 else 0
  {
    assert (es + [b])[..|es|] == es;
  }

  lemma TotalStep(s: seq<bool>, b: bool, t: nat, side: bool)
    requires t >= 1
    ensures Total(s + [b], t, side) ==
            Total(s, t, side) + if b == side && WindowFires(Append(LastN(s, t + 1), b, t + 1), t + 1) then 1 else 0
  {
    WindowDetectsRuns(s, b, t);
    CountSnoc(Events(s, t), b, side);
  }

  // ---- Threshold 1 ----

  ghost predicate Alternates(es: seq<bool>) {
    forall i :: 0 < i < |es| ==> es[i - 1] != es[i]
  }

  /** With threshold 1 every run but the first is a crossing. */
  lemma {:induction false} UnitThresholdEvents(rs: seq<Run>)
    requires Maximal(rs)
    ensures |Crossed(rs, 1)| == if rs == [] then 0 else |rs| - 1
    ensures forall i :: 0 < i < |rs| ==> Crossed(rs, 1)[i - 1] == rs[i].side
  {
    if |rs| > 1 {
      UnitThresholdEvents(rs[..|rs| - 1]);
      assert forall i :: 0 < i < |rs| - 1 ==> rs[..|rs| - 1][i] == rs[i];
    }
  }

  /** With threshold 1 the crossings of a tracker alternate, and in minus out is
      decided by the first and the last recorded side. */
  lemma UnitThresholdAlternates(s: seq<bool>)
    ensures Alternates(Events(s, 1))
    ensures s != [] ==> Total(s, 1, true) - Total(s, 1, false) ==
                        (if s[|s| - 1] then 1 else 0) - (if s[0] then 1 else 0)
    ensures s == [] ==> Total(s, 1, true) == Total(s, 1, false) == 0
  {
    RunsDecompose(s);
    var rs := Runs(s);
    UnitThresholdEvents(rs);
    forall i | 0 < i < |Events(s, 1)| ensures Events(s, 1)[i - 1] != Events(s, 1)[i] {
      assert rs[i].side != rs[i + 1].side;
    }
    if s != [] {
      Balance(Runs(s));
    }
  }

  lemma {:induction false} Balance(rs: seq<Run>)
    requires Maximal(rs) && rs != []
    ensures Count(Crossed(rs, 1), true) - Count(Crossed(rs, 1), false) ==
            (if rs[|rs| - 1].side then 1 else 0) - (if rs[0].side then 1 else 0)
  {
    if |rs| > 1 {
      var front := rs[..|rs| - 1];
      Balance(front);
      var e := [rs[|rs| - 1].side];
      assert e[..0] == [];
      CountConcat(Crossed(front, 1), e, true);
      CountConcat(Crossed(front, 1), e, false);
    }
  }

  /** The trace that breaks alternation for threshold `t`: one left, a single
      right (too short to count), `t` lefts, and the same once more. */
  function Stutter(t: nat): seq<Run> {
    [Run(true, 1), Run(false, 1), Run(true, t), Run(false, 1), Run(true, t)]
  }

  /** Alternation holds of every trace exactly when the threshold is 1; for a
      larger one some trace has two crossings inwards and none outwards. */
  lemma AlternationNeedsUnitThreshold(t: nat)
    requires t >= 1
    ensures (forall s: seq<bool> :: Alternates(Events(s, t))) <==> t == 1
    ensures t >= 2 ==> Events(Flatten(Stutter(t)), t) == [true, true]
  {
    if t == 1 {
      forall s: seq<bool> ensures Alternates(Events(s, 1)) {
        UnitThresholdAlternates(s);
      }
    } else {
      var r1, r2, r3 := Run(true, 1), Run(false, 1), Run(true, t);
      RunsUnique(Stutter(t));
      assert Stutter(t) == [r1] + [r2] + [r3] + [r2] + [r3];
      CrossedSnoc([r1] + [r2] + [r3] + [r2], r3, t);
      CrossedSnoc([r1] + [r2] + [r3], r2, t);
      CrossedSnoc([r1] + [r2], r3, t);
      CrossedSnoc([r1], r2, t);
      var es := Events(Flatten(Stutter(t)), t);
      assert es == [true, true] && es[0] == es[1];
    }
  }

  // ---- Mirrored traces ----

  function Mirror(s: seq<bool>): (m: seq<bool>)
    ensures |m| == |s| && forall k :: 0 <= k < |s| ==> m[k] == !s[k]
  {
    seq(|s|, k requires 0 <= k < |s| => !s[k])
  }

  function MirrorRuns(rs: seq<Run>): (m: seq<Run>)
    ensures |m| == |rs| && forall k :: 0 <= k < |rs| ==> m[k] == Run(!rs[k].side, rs[k].length)
  {
    seq(|rs|, k requires 0 <= k < |rs| => Run(!rs[k].side, rs[k].length))
  }

  lemma ExtendMirror(rs: seq<Run>, b: bool)
    ensures MirrorRuns(Extend(rs, b)) == Extend(MirrorRuns(rs), !b)
  {
  }

  lemma {:induction false} RunsOfMirror(s: seq<bool>)
    ensures Runs(Mirror(s)) == MirrorRuns(Runs(s))
  {
    if s != [] {
      var p := s[..|s| - 1];
      RunsOfMirror(p);
      assert Mirror(s)[..|s| - 1] == Mirror(p);
      ExtendMirror(Runs(p), s[|s| - 1]);
    }
  }

  lemma {:induction false} CrossedOfMirror(rs: seq<Run>, t: nat)
    ensures Crossed(MirrorRuns(rs), t) == Mirror(Crossed(rs, t))
  {
    if |rs| > 1 {
      CrossedOfMirror(rs[..|rs| - 1], t);
      assert MirrorRuns(rs)[..|rs| - 1] == MirrorRuns(rs[..|rs| - 1]);
    }
  }

  lemma {:induction false} CountOfMirror(s: seq<bool>, b: bool)
    ensures Count(Mirror(s), b) == Count(s, !b)
  {
    if s != [] {
      CountOfMirror(s[..|s| - 1], b);
      assert Mirror(s)[..|s| - 1] == Mirror(s[..|s| - 1]);
    }
  }

  /** Exchanging the two sides of the line exchanges in and out. */
  lemma MirrorSwapsTotals(s: seq<bool>, t: nat, side: bool)
    ensures Total(Mirror(s), t, side) == Total(s, t, !side)
  {
    RunsOfMirror(s);
    CrossedOfMirror(Runs(s), t);
    CountOfMirror(Events(s, t), side);
  }
}
