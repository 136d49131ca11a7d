/** The detections smoother: one bounded window per track, emptied tracks dropped. */
module Smoothing {
  import opened Common
  import opened Sums
  import opened Geometry
  import opened Sequences
  import opened Traces

  datatype Det = Det(box: Box, confidence: real, cls: Option<int>)

  /** What a track's window holds for one frame: a detection, or its absence. */
  type Slot = Option<Det>

  type Frame = map<int, Det>

  function Lookup(f: Frame, id: int): Slot {
    if id in f then Some(f[id]) else None
  }

  /** The declarative history of a track: one slot per frame. */
  function Column(history: seq<Frame>, id: int): seq<Slot> {
    seq(|history|, i requires 0 <= i < |history| => Lookup(history[i], id))
  }

  function Window(history: seq<Frame>, id: int, n: nat): seq<Slot> {
    LastN(Column(history, id), n)
  }

  /** The detections of a window, in order. */
  function Present(w: seq<Slot>): seq<Det> {
    if w == [] then []
    else if w[0].None? then Present(w[1..])
    else [w[0].value] + Present(w[1..])
  }

  predicate AllNone(w: seq<Slot>) {
    forall k :: 0 <= k < |w| ==> w[k].None?
  }

  lemma {:induction false} PresentEmpty(w: seq<Slot>)
    ensures Present(w) == [] <==> AllNone(w)
  {
    if w != [] {
      PresentEmpty(w[1..]);
      assert AllNone(w) <==> w[0].None? && AllNone(w[1..]);
    }
  }

  /** `w` with some leading absences dropped. */
  ghost predicate TrimmedOf(t: seq<Slot>, w: seq<Slot>) {
    && |t| <= |w|
    && t == w[|w| - |t|..]
    && AllNone(w[..|w| - |t|])
  }

  lemma {:induction false} TrimmedPresent(t: seq<Slot>, w: seq<Slot>)
    requires TrimmedOf(t, w)
    ensures Present(t) == Present(w)
  {
    if |t| < |w| {
      assert w[..|w| - |t|][0].None?;
      assert w[1..][..|w| - 1 - |t|] == w[..|w| - |t|][1..];
      TrimmedPresent(t, w[1..]);
    } else {
      assert t == w;
    }
  }

  lemma TrimmedAppend(t: seq<Slot>, w: seq<Slot>, x: Slot, n: nat)
    requires TrimmedOf(t, w) && |w| <= n
    ensures TrimmedOf(Append(t, x, n), Append(w, x, n))
  {
    var t', w' := Append(t, x, n), Append(w, x, n);
    if |w| < n || n == 0 {
    } else if |t| == n {
      assert t == w;
    } else {
      assert w' == w[1..] + [x];
      assert t' == t + [x];
      assert w'[..n - |t'|] == w[..|w| - |t|][1..];
    }
  }

  lemma WindowAppend(history: seq<Frame>, f: Frame, id: int, n: nat)
    ensures Window(history + [f], id, n) == Append(Window(history, id, n), Lookup(f, id), n)
  {
    assert Column(history + [f], id) == Column(history, id) + [Lookup(f, id)];
    AppendKeepsLastN(Column(history, id), Lookup(f, id), n);
  }

  // ---- Means ----

  function SumBy(ds: seq<Det>, f: Det -> real): real {
    if ds == [] then 0.0 else f(ds[0]) + SumBy(ds[1..], f)
  }

  function Mean(ds: seq<Det>, f: Det -> real): real
    requires ds != []
  {
    SumBy(ds, f) / |ds| as real
  }

  /** `get_track` on a window that holds at least one detection. */
  function Smoothed(ds: seq<Det>): Det
    requires ds != []
  {
    Det(Box(Mean(ds, (d: Det) => d.box.x1), Mean(ds, (d: Det) => d.box.y1),
            Mean(ds, (d: Det) => d.box.x2), Mean(ds, (d: Det) => d.box.y2)),
        Mean(ds, (d: Det) => d.confidence),
        ds[0].cls)
  }

  lemma {:induction false} SumSnoc(ds: seq<Det>, d: Det, f: Det -> real)
    ensures SumBy(ds + [d], f) == SumBy(ds, f) + f(d)
  {
    if ds == [] {
      assert ds + [d] == [d] && [d][1..] == [];
    } else {
      assert (ds + [d])[1..] == ds[1..] + [d];
      SumSnoc(ds[1..], d, f);
    }
  }

  lemma MeanTimesCount(ds: seq<Det>, f: Det -> real)
    requires ds != []
    ensures Mean(ds, f) * |ds| as real == SumBy(ds, f)
  {
  }

  lemma MeanOfOne(d: Det, f: Det -> real)
    ensures Mean([d], f) == f(d)
  {
    SumSnoc([], d, f);
    assert [] + [d] == [d];
    MeanTimesCount([d], f);
  }

  /** One more detection moves the mean by its own share. */
  lemma MeanSnoc(ds: seq<Det>, d: Det, f: Det -> real)
    requires ds != []
    ensures Mean(ds + [d], f) * (|ds| + 1) as real == Mean(ds, f) * |ds| as real + f(d)
  {
    hide Mean, SumBy;
    SumSnoc(ds, d, f);
    MeanTimesCount(ds, f);
    MeanTimesCount(ds + [d], f);
  }

  lemma {:induction false} SumTakenOut(ds: seq<Det>, k: nat, f: Det -> real)
    requires k < |ds|
    ensures SumBy(ds, f) == f(ds[k]) + SumBy(ds[..k] + ds[k + 1..], f)
  {
    if k == 0 {
      assert ds[..0] + ds[1..] == ds[1..];
    } else {
      SumTakenOut(ds[1..], k - 1, f);
      var rest := ds[..k] + ds[k + 1..];
      assert rest[0] == ds[0] && rest[1..] == ds[1..][..k - 1] + ds[1..][k..];
    }
  }

  lemma BagCut<T>(s: seq<T>, k: nat)
    requires k < |s|
    ensures multiset(s) == multiset{s[k]} + multiset(s[..k] + s[k + 1..])
  {
    assert s == s[..k] + [s[k]] + s[k + 1..];
  }

  lemma BagLess<T>(x: T, a: multiset<T>, b: multiset<T>)
    requires multiset{x} + a == multiset{x} + b
    ensures a == b
  {
    assert a == multiset{x} + a - multiset{x};
    assert b == multiset{x} + b - multiset{x};
  }

  /** The first of `ds` somewhere in `es`, and what is left of both. */
  lemma MatchFirst<T>(ds: seq<T>, es: seq<T>) returns (k: nat)
    requires multiset(ds) == multiset(es) && ds != []
    ensures k < |es| && es[k] == ds[0] && multiset(ds[1..]) == multiset(es[..k] + es[k + 1..])
  {
    assert ds[0] in multiset(es);
    k :| 0 <= k < |es| && es[k] == ds[0];
    BagCut(ds, 0);
    assert ds[..0] + ds[1..] == ds[1..];
    BagCut(es, k);
    BagLess(ds[0], multiset(ds[1..]), multiset(es[..k] + es[k + 1..]));
  }

  lemma NoneLeft(es: seq<Det>)
    requires multiset(es) == multiset{}
    ensures es == []
  {
    assert |es| == |multiset(es)|;
  }

  lemma {:induction false} SumOrder(ds: seq<Det>, es: seq<Det>, f: Det -> real)
    requires multiset(ds) == multiset(es)
    ensures SumBy(ds, f) == SumBy(es, f)
  {
    if ds == [] {
      NoneLeft(es);
    } else {
      hide SumBy;
      var k := MatchFirst(ds, es);
      SumTakenOut(ds, 0, f);
      assert ds[..0] + ds[1..] == ds[1..];
      SumTakenOut(es, k, f);
      SumOrder(ds[1..], es[..k] + es[k + 1..], f);
    }
  }

  /** The order of the detections does not matter to their mean. */
  lemma MeanOrder(ds: seq<Det>, es: seq<Det>, f: Det -> real)
    requires multiset(ds) == multiset(es) && ds != []
    ensures es != [] && Mean(ds, f) == Mean(es, f)
  {
    assert |ds| == |multiset(ds)| == |multiset(es)| == |es|;
    SumOrder(ds, es, f);
  }

  lemma {:induction false} SumBounds(ds: seq<Det>, f: Det -> real, lo: real, hi: real)
    requires forall k :: 0 <= k < |ds| ==> lo <= f(ds[k]) <= hi
    ensures lo * |ds| as real <= SumBy(ds, f) <= hi * |ds| as real
  {
    if ds != [] {
      SumBounds(ds[1..], f, lo, hi);
      assert |ds| as real == |ds[1..]| as real + 1.0;
    }
  }

  lemma CancelFactor(x: real, y: real, n: real)
    requires n > 0.0 && x * n <= y * n
    ensures x <= y
  {
    assert (y - x) * n >= 0.0;
  }

  lemma QuotientBounds(s: real, n: real, lo: real, hi: real)
    requires n > 0.0 && lo * n <= s <= hi * n
    ensures lo <= s / n <= hi
  {
    assert s / n * n == s;
    CancelFactor(lo, s / n, n);
    CancelFactor(s / n, hi, n);
  }

  /** Every smoothed value lies within the bounds of the window it averages. */
  lemma MeanBounds(ds: seq<Det>, f: Det -> real, lo: real, hi: real)
    requires ds != []
    requires forall k :: 0 <= k < |ds| ==> lo <= f(ds[k]) <= hi
    ensures lo <= Mean(ds, f) <= hi
  {
    SumBounds(ds, f, lo, hi);
    QuotientBounds(SumBy(ds, f), |ds| as real, lo, hi);
  }

  /** The per-track windows agree with the full history, through deletion and
      reappearance: a track is kept exactly while its window shows it. */
  ghost predicate Faithful(tracks: map<int, seq<Slot>>, history: seq<Frame>, n: nat) {
    forall id ::
      && (id in tracks <==> !AllNone(Window(history, id, n)))
      && (id in tracks ==> TrimmedOf(tracks[id], Window(history, id, n)))
  }

  function Slots(tracks: map<int, seq<Slot>>, id: int): seq<Slot> {
    if id in tracks then tracks[id] else []
  }

  /** One track, one frame. */
  lemma SlotStep(t: seq<Slot>, history: seq<Frame>, n: nat, f: Frame, id: int)
    requires TrimmedOf(t, Window(history, id, n))
    ensures TrimmedOf(Append(t, Lookup(f, id), n), Window(history + [f], id, n))
    ensures AllNone(Append(t, Lookup(f, id), n)) <==> AllNone(Window(history + [f], id, n))
  {
    hide Append, AllNone, TrimmedOf, Lookup, Present;
    var w, x := Window(history, id, n), Lookup(f, id);
    WindowAppend(history, f, id, n);
    TrimmedAppend(t, w, x, n);
    TrimmedPresent(Append(t, x, n), Append(w, x, n));
    PresentEmpty(Append(t, x, n));
    PresentEmpty(Append(w, x, n));
  }

  lemma KeptSlots(tracks: map<int, seq<Slot>>, history: seq<Frame>, n: nat, id: int)
    requires Faithful(tracks, history, n)
    ensures TrimmedOf(Slots(tracks, id), Window(history, id, n))
  {
  }

  /** A track seen neither before nor now has nothing but absences. */
  lemma UnseenEmpty(tracks: map<int, seq<Slot>>, f: Frame, n: nat, id: int)
    requires id !in tracks && id !in f
    ensures AllNone(Append(Slots(tracks, id), Lookup(f, id), n))
  {
  }

  /** Appending a frame's slots and dropping emptied tracks keeps the agreement. */
  lemma FaithfulStep(tracks: map<int, seq<Slot>>, history: seq<Frame>, n: nat, f: Frame, tracks': map<int, seq<Slot>>)
    requires Faithful(tracks, history, n)
    requires forall id :: id in tracks' <==>
      id in tracks.Keys + f.Keys && !AllNone(Append(Slots(tracks, id), Lookup(f, id), n))
    requires forall id :: id in tracks' ==> tracks'[id] == Append(Slots(tracks, id), Lookup(f, id), n)
    ensures Faithful(tracks', history + [f], n)
  {
    hide Append, AllNone, TrimmedOf, Lookup, Slots, Window;
    forall id
      ensures id in tracks' <==> !AllNone(Window(history + [f], id, n))
      ensures id in tracks' ==> TrimmedOf(tracks'[id], Window(history + [f], id, n))
    {
      KeptSlots(tracks, history, n, id);
      SlotStep(Slots(tracks, id), history, n, f, id);
      if id !in tracks.Keys + f.Keys {
        UnseenEmpty(tracks, f, n, id);
      }
    }
  }

  // ---- The smoother ----

  predicate Distinct(ids: seq<int>) {
    forall i, j :: 0 <= i < j < |ids| ==> ids[i] != ids[j]
  }

  /** Frames with tracker ids as the tracker delivers them. */
  ghost predicate Tracked(d: Detections) {
    d.WellFormed() && (d.trackerId.Some? ==> d.confidence.Some? && Distinct(d.trackerId.value))
  }

  function DetAt(d: Detections, i: nat): Det
    requires d.WellFormed() && d.confidence.Some? && i < |d.xyxy|
  {
    Det(d.xyxy[i], d.confidence.value[i], if d.classId.Some? then Some(d.classId.value[i]) else None)
  }

  /** The frame a batch of detections stands for. */
  function FrameOf(d: Detections, n: nat): Frame
    requires d.WellFormed() && d.confidence.Some? && d.trackerId.Some? && n <= |d.xyxy|
  {
    if n == 0 then map[] else FrameOf(d, n - 1)[d.trackerId.value[n - 1] := DetAt(d, n - 1)]
  }

  lemma {:induction false} FrameOfMeaning(d: Detections, n: nat)
    requires Tracked(d) && d.trackerId.Some? && n <= |d.xyxy|
    ensures forall id :: id in FrameOf(d, n) <==> id in d.trackerId.value[..n]
    ensures forall i :: 0 <= i < n ==>
      d.trackerId.value[i] in FrameOf(d, n) && FrameOf(d, n)[d.trackerId.value[i]] == DetAt(d, i)
  {
    hide DetAt;
    if n > 0 {
      FrameOfMeaning(d, n - 1);
      var ids := d.trackerId.value;
      assert ids[..n] == ids[..n - 1] + [ids[n - 1]];
    }
  }

  /** A frame holds each detection of the batch, whole, under its own id. */
  lemma FrameHolds(d: Detections, i: nat)
    requires Tracked(d) && d.trackerId.Some? && i < |d.xyxy|
    ensures var f, id := FrameOf(d, |d.xyxy|), d.trackerId.value[i];
      && id in f && f[id].box == d.xyxy[i] && f[id].confidence == d.confidence.value[i]
      && (f[id].cls.None? <==> d.classId.None?)
      && (d.classId.Some? ==> f[id].cls.value == d.classId.value[i])
  {
    hide FrameOf;
    FrameOfMeaning(d, |d.xyxy|);
  }

  lemma IdsOfFrame(d: Detections)
    requires Tracked(d) && d.trackerId.Some?
    ensures forall id :: id in d.trackerId.value <==> id in FrameOf(d, |d.xyxy|)
  {
    FrameOfMeaning(d, |d.xyxy|);
    assert d.trackerId.value[..|d.xyxy|] == d.trackerId.value;
  }

  /** An emitted box and confidence are the means of the track's own window. */
  ghost predicate IsMean(history: seq<Frame>, n: nat, id: int, box: Box, confidence: real) {
    var ds := Present(Window(history, id, n));
    ds != [] && box == Smoothed(ds).box && confidence == Smoothed(ds).confidence
  }

  /** The class of the oldest detection in the track's window. */
  ghost predicate HasClass(history: seq<Frame>, n: nat, id: int, cls: Option<int>) {
    var ds := Present(Window(history, id, n));
    ds != [] && ds[0].cls == cls
  }

  predicate BoxWithin(b: Box, lo: Box, hi: Box) {
    lo.x1 <= b.x1 <= hi.x1 && lo.y1 <= b.y1 <= hi.y1 && lo.x2 <= b.x2 <= hi.x2 && lo.y2 <= b.y2 <= hi.y2
  }

  /** Coordinate by coordinate, an emitted box stays between any bounds that hold
      of all boxes in its window. */
  lemma EmittedWithinWindow(history: seq<Frame>, n: nat, id: int, ds: seq<Det>, box: Box, confidence: real,
                            lo: Box, hi: Box)
    requires IsMean(history, n, id, box, confidence) && ds == Present(Window(history, id, n))
    requires forall k :: 0 <= k < |ds| ==> BoxWithin(ds[k].box, lo, hi)
    ensures BoxWithin(box, lo, hi)
  {
    MeanBounds(ds, (d: Det) => d.box.x1, lo.x1, hi.x1);
    MeanBounds(ds, (d: Det) => d.box.y1, lo.y1, hi.y1);
    MeanBounds(ds, (d: Det) => d.box.x2, lo.x2, hi.x2);
    MeanBounds(ds, (d: Det) => d.box.y2, lo.y2, hi.y2);
  }

  /** A track is emitted exactly when one of the last `n` frames shows it. */
  lemma EmittedIffSeenRecently(history: seq<Frame>, id: int, n: nat)
    ensures Present(Window(history, id, n)) != [] <==>
            exists i :: 0 <= i < |history| && |history| - n <= i && id in history[i]
  {
    var w := Window(history, id, n);
    PresentEmpty(w);
    var k0 := |history| - |w|;
    assert forall k :: 0 <= k < |w| ==> w[k] == Lookup(history[k0 + k], id);
    if Present(w) != [] {
      var k :| 0 <= k < |w| && w[k].Some?;
      assert id in history[k0 + k];
    } else {
      forall i | 0 <= i < |history| && |history| - n <= i ensures id !in history[i] {
        assert w[i - k0].None?;
      }
    }
  }

  /** The emitted batch: one entry for every track seen in the last `n` frames,
      each the mean of its own detections in that window. */
  ghost predicate Emits(r: Detections, history: seq<Frame>, n: nat) {
    && r.WellFormed() && r.trackerId.Some? && r.confidence.Some? && Distinct(r.trackerId.value)
    && (forall id :: id in r.trackerId.value <==> Present(Window(history, id, n)) != [])
    && (forall i :: 0 <= i < |r.xyxy| ==> IsMean(history, n, r.trackerId.value[i], r.xyxy[i], r.confidence.value[i]))
    && (r.classId.Some? ==>
          forall i :: 0 <= i < |r.xyxy| ==> HasClass(history, n, r.trackerId.value[i], Some(r.classId.value[i])))
    && (r.classId.None? ==>
          exists i :: 0 <= i < |r.xyxy| && HasClass(history, n, r.trackerId.value[i], None))
  }

  // ---- What is emitted, from the frames themselves ----

  /** How many of the last `n` frames show the track. */
  function SeenCount(history: seq<Frame>, id: int, n: nat): nat {
    if n == 0 || history == [] then 0
    else SeenCount(history[..|history| - 1], id, n - 1) + if id in history[|history| - 1] then 1 else 0
  }

  /** A value of the track's detections, summed over the last `n` frames. */
  function SeenSum(history: seq<Frame>, id: int, n: nat, f: Det -> real): real {
    if n == 0 || history == [] then 0.0
    else SeenSum(history[..|history| - 1], id, n - 1, f) +
         if id in history[|history| - 1] then f(history[|history| - 1][id]) else 0.0
  }

  lemma {:induction false} PresentSnoc(w: seq<Slot>, x: Slot)
    ensures Present(w + [x]) == if x.None? then Present(w) else Present(w) + [x.value]
  {
    if w == [] {
      assert w + [x] == [x] && [x][1..] == [];
    } else {
      assert (w + [x])[1..] == w[1..] + [x];
      PresentSnoc(w[1..], x);
    }
  }

  lemma WindowSnoc(history: seq<Frame>, id: int, n: nat)
    requires n > 0 && history != []
    ensures Window(history, id, n) ==
            Window(history[..|history| - 1], id, n - 1) + [Lookup(history[|history| - 1], id)]
  {
    var front, last := history[..|history| - 1], history[|history| - 1];
    assert Column(history, id) == Column(front, id) + [Lookup(last, id)];
  }

  lemma {:induction false} WindowSums(history: seq<Frame>, id: int, n: nat, f: Det -> real)
    ensures SumBy(Present(Window(history, id, n)), f) == SeenSum(history, id, n, f)
    ensures |Present(Window(history, id, n))| == SeenCount(history, id, n)
  {
    if n == 0 || history == [] {
      assert Window(history, id, n) == [];
    } else {
      hide Present, Window, SumBy;
      var front, x := history[..|history| - 1], Lookup(history[|history| - 1], id);
      WindowSums(front, id, n - 1, f);
      WindowSnoc(history, id, n);
      PresentSnoc(Window(front, id, n - 1), x);
      if x.Some? {
        SumSnoc(Present(Window(front, id, n - 1)), x.value, f);
      }
    }
  }

  lemma MeanFromFrames(history: seq<Frame>, id: int, n: nat, f: Det -> real)
    requires Present(Window(history, id, n)) != []
    ensures SeenCount(history, id, n) > 0
    ensures Mean(Present(Window(history, id, n)), f) * SeenCount(history, id, n) as real == SeenSum(history, id, n, f)
  {
    hide Present, Window, Mean;
    WindowSums(history, id, n, f);
    MeanTimesCount(Present(Window(history, id, n)), f);
  }

  /** Each emitted value times the number of detections it averages is their sum. */
  ghost predicate Averages(history: seq<Frame>, n: nat, id: int, box: Box, confidence: real) {
    var c := SeenCount(history, id, n) as real;
    && c > 0.0
    && box.x1 * c == SeenSum(history, id, n, (d: Det) => d.box.x1)
    && box.y1 * c == SeenSum(history, id, n, (d: Det) => d.box.y1)
    && box.x2 * c == SeenSum(history, id, n, (d: Det) => d.box.x2)
    && box.y2 * c == SeenSum(history, id, n, (d: Det) => d.box.y2)
    && confidence * c == SeenSum(history, id, n, (d: Det) => d.confidence)
  }

  lemma MeanAverages(history: seq<Frame>, n: nat, id: int, box: Box, confidence: real)
    requires IsMean(history, n, id, box, confidence)
    ensures Averages(history, n, id, box, confidence)
  {
    hide Present, Window, Mean;
    MeanFromFrames(history, id, n, (d: Det) => d.box.x1);
    MeanFromFrames(history, id, n, (d: Det) => d.box.y1);
    MeanFromFrames(history, id, n, (d: Det) => d.box.x2);
    MeanFromFrames(history, id, n, (d: Det) => d.box.y2);
    MeanFromFrames(history, id, n, (d: Det) => d.confidence);
  }

  /** Everything in the batch is such an average. */
  ghost predicate AllAverages(r: Detections, history: seq<Frame>, n: nat)
    requires r.WellFormed() && r.trackerId.Some? && r.confidence.Some?
  {
    forall i :: 0 <= i < |r.xyxy| ==> Averages(history, n, r.trackerId.value[i], r.xyxy[i], r.confidence.value[i])
  }

  lemma EmittedAverages(r: Detections, history: seq<Frame>, n: nat)
    requires Emits(r, history, n)
    ensures AllAverages(r, history, n)
  {
    hide IsMean, Averages, HasClass;
    forall i | 0 <= i < |r.xyxy|
      ensures Averages(history, n, r.trackerId.value[i], r.xyxy[i], r.confidence.value[i])
    {
      MeanAverages(history, n, r.trackerId.value[i], r.xyxy[i], r.confidence.value[i]);
    }
  }

  /** The class is that of the first frame of the window that shows the track. */
  lemma {:induction false} FirstPresent(w: seq<Slot>) returns (k: nat)
    requires Present(w) != []
    ensures k < |w| && w[k] == Some(Present(w)[0]) && forall j :: 0 <= j < k ==> w[j].None?
  {
    if w[0].Some? {
      k := 0;
    } else {
      k := FirstPresent(w[1..]);
      k := k + 1;
    }
  }

  lemma ClassIsOldest(history: seq<Frame>, n: nat, id: int, cls: Option<int>)
    requires HasClass(history, n, id, cls)
    ensures exists i :: 0 <= i < |history| && |history| - n <= i && id in history[i] && history[i][id].cls == cls &&
                        forall j :: 0 <= j < i && |history| - n <= j ==> id !in history[j]
  {
    hide Present;
    var w := Window(history, id, n);
    var k := FirstPresent(w);
    var k0 := |history| - |w|;
    assert forall j :: 0 <= j < |w| ==> w[j] == Lookup(history[k0 + j], id);
    forall j | 0 <= j < k0 + k && |history| - n <= j ensures id !in history[j] {
      assert w[j - k0].None?;
    }
    assert id in history[k0 + k] && history[k0 + k][id].cls == cls;
  }

  lemma MeansOfTrimmed(history: seq<Frame>, n: nat, id: int, t: seq<Slot>)
    requires TrimmedOf(t, Window(history, id, n)) && !AllNone(Window(history, id, n))
    ensures Present(t) != []
    ensures IsMean(history, n, id, Smoothed(Present(t)).box, Smoothed(Present(t)).confidence)
    ensures HasClass(history, n, id, Smoothed(Present(t)).cls)
  {
    TrimmedPresent(t, Window(history, id, n));
    PresentEmpty(Window(history, id, n));
  }

  /** The parallel lists of an emitted batch, so far; the classes are dropped once a
      track has none. */
  ghost predicate Listed(history: seq<Frame>, n: nat, ids: seq<int>, boxes: seq<Box>, confs: seq<real>,
                         classes: seq<int>, allClassed: bool) {
    && |boxes| == |confs| == |ids| && Distinct(ids)
    && (forall i :: 0 <= i < |ids| ==> IsMean(history, n, ids[i], boxes[i], confs[i]))
    && (allClassed ==> |classes| == |ids|)
    && (allClassed ==> forall i :: 0 <= i < |ids| ==> HasClass(history, n, ids[i], Some(classes[i])))
    && (!allClassed ==> exists i :: 0 <= i < |ids| && HasClass(history, n, ids[i], None))
  }

  lemma NothingListed(history: seq<Frame>, n: nat)
    ensures Listed(history, n, [], [], [], [], true)
  {
  }

  lemma OneMoreListed(history: seq<Frame>, n: nat, ids: seq<int>, boxes: seq<Box>, confs: seq<real>,
                      classes: seq<int>, allClassed: bool, id: int, m: Det)
    requires Listed(history, n, ids, boxes, confs, classes, allClassed) && id !in ids
    requires IsMean(history, n, id, m.box, m.confidence) && HasClass(history, n, id, m.cls)
    ensures Listed(history, n, ids + [id], boxes + [m.box], confs + [m.confidence],
                   if m.cls.Some? && allClassed then classes + [m.cls.value] else classes, allClassed && m.cls.Some?)
  {
    hide IsMean, HasClass;
    var more := ids + [id];
    assert more[|ids|] == id && forall i :: 0 <= i < |ids| ==> more[i] == ids[i];
  }

  lemma ListedEmits(history: seq<Frame>, n: nat, ids: seq<int>, boxes: seq<Box>, confs: seq<real>,
                    classes: seq<int>, allClassed: bool)
    requires Listed(history, n, ids, boxes, confs, classes, allClassed)
    ensures var r := Detections(boxes, Some(ids), if allClassed then Some(classes) else None, Some(confs));
      (forall id :: id in ids <==> Present(Window(history, id, n)) != []) ==> Emits(r, history, n)
  {
    hide IsMean, HasClass;
  }

  /** The three passes over the tracks, put together. */
  lemma PassesCompose(t0: map<int, seq<Slot>>, t1: map<int, seq<Slot>>, t2: map<int, seq<Slot>>,
                      t3: map<int, seq<Slot>>,
                      f: Frame, n: nat)
    requires t1.Keys == t0.Keys + f.Keys
    requires forall id :: id in t1 ==> t1[id] == if id in f then Append(Slots(t0, id), Some(f[id]), n) else t0[id]
    requires t2.Keys == t1.Keys
    requires forall id :: id in t2 ==> t2[id] == if id in f then t1[id] else Append(t1[id], None, n)
    requires forall id :: id in t3 <==> id in t2 && !AllNone(t2[id])
    requires forall id :: id in t3 ==> t3[id] == t2[id]
    ensures forall id :: id in t3 <==> id in t0.Keys + f.Keys && !AllNone(Append(Slots(t0, id), Lookup(f, id), n))
    ensures forall id :: id in t3 ==> t3[id] == Append(Slots(t0, id), Lookup(f, id), n)
  {
    hide Append, AllNone;
    forall id | id in t2 ensures t2[id] == Append(Slots(t0, id), Lookup(f, id), n) {
    }
  }

  class DetectionsSmoother {
    const length: nat
    var tracks: map<int, seq<Slot>>
    /** The frames seen so far. */
    ghost var history: seq<Frame>

    ghost predicate Valid()
      reads this
    {
      Faithful(tracks, history, length)
    }

    constructor (length: nat)
      ensures Valid() && history == [] && this.length == length
    {
      this.length := length;
      tracks, history := map[], [];
      new;
      assert forall id :: Window(history, id, length) == [];
    }

    /** `track.append(slot)` on a bounded deque that is created on first use. */
    method AppendSlot(id: int, x: Slot)
      modifies this`tracks
      ensures tracks == old(tracks)[id := Append(Slots(old(tracks), id), x, length)]
    {
      tracks := tracks[id := Append(Slots(tracks, id), x, length)];
    }

    method AppendDetections(d: Detections)
      requires Tracked(d) && d.trackerId.Some?
      modifies this`tracks
      ensures var f := FrameOf(d, |d.xyxy|);
        && tracks.Keys == old(tracks).Keys + f.Keys
        && (forall id :: id in tracks ==>
              tracks[id] == if id in f then Append(Slots(old(tracks), id), Some(f[id]), length) else old(tracks)[id])
    {
      var ids := d.trackerId.value;
      for i := 0 to |d.xyxy|
        invariant tracks.Keys == old(tracks).Keys + FrameOf(d, i).Keys
        invariant forall id :: id in tracks ==>
          tracks[id] == if id in FrameOf(d, i) then Append(Slots(old(tracks), id), Some(FrameOf(d, i)[id]), length)
                        else old(tracks)[id]
      {
        hide Append;
        FrameOfMeaning(d, i);
        assert ids[i] !in FrameOf(d, i);
        AppendSlot(ids[i], Some(DetAt(d, i)));
      }
    }

    method AppendAbsences(present: seq<int>)
      modifies this`tracks
      ensures tracks.Keys == old(tracks).Keys
      ensures forall id :: id in tracks ==>
        tracks[id] == if id in present then old(tracks)[id] else Append(old(tracks)[id], None, length)
    {
      var todo := set id | id in tracks && id !in present;
      while todo != {}
        invariant tracks.Keys == old(tracks).Keys
        invariant forall id :: id in todo ==> id in tracks && id !in present
        invariant forall id :: id in tracks ==>
          tracks[id] == if id in present || id in todo then old(tracks)[id] else Append(old(tracks)[id], None, length)
        decreases todo
      {
        var id := Pick(todo);
        AppendSlot(id, None);
        todo := todo - {id};
      }
    }

    method DropEmptied()
      modifies this`tracks
      ensures forall id :: id in tracks <==> id in old(tracks) && !AllNone(old(tracks)[id])
      ensures forall id :: id in tracks ==> tracks[id] == old(tracks)[id]
    {
      var todo := tracks.Keys;
      while todo != {}
        invariant todo <= old(tracks).Keys
        invariant forall id :: id in tracks <==> id in old(tracks) && (id in todo || !AllNone(old(tracks)[id]))
        invariant forall id :: id in tracks ==> tracks[id] == old(tracks)[id]
        decreases todo
      {
        var id := Pick(todo);
        if AllNone(tracks[id]) {
          tracks := tracks - {id};
        }
        todo := todo - {id};
      }
    }

    /** `get_smoothed_detections`, over the kept tracks. */
    method GetSmoothedDetections() returns (r: Detections)
      requires Valid()
      ensures Emits(r, history, length) && AllAverages(r, history, length)
    {
      hide IsMean, HasClass, Smoothed, Listed, Distinct, Averages;
      var todo := tracks.Keys;
      var boxes, confs, ids, classes, allClassed := [], [], [], [], true;
      NothingListed(history, length);
      while todo != {}
        invariant todo <= tracks.Keys
        invariant Listed(history, length, ids, boxes, confs, classes, allClassed)
        invariant forall id :: id in ids <==> id in tracks && id !in todo
        decreases todo
      {
        var id := Pick(todo);
        MeansOfTrimmed(history, length, id, tracks[id]);
        var m := Smoothed(Present(tracks[id]));
        OneMoreListed(history, length, ids, boxes, confs, classes, allClassed, id, m);
        ids, boxes, confs := ids + [id], boxes + [m.box], confs + [m.confidence];
        if m.cls.None? {
          allClassed := false;
        } else if allClassed {
          classes := classes + [m.cls.value];
        }
        todo := todo - {id};
      }
      r := Detections(boxes, Some(ids), if allClassed then Some(classes) else None, Some(confs));
      ListedEmits(history, length, ids, boxes, confs, classes, allClassed);
      forall id ensures id in ids <==> Present(Window(history, id, length)) != [] {
        PresentEmpty(Window(history, id, length));
      }
      EmittedAverages(r, history, length);
    }

    method UpdateWithDetections(d: Detections) returns (r: Detections)
      requires Valid() && Tracked(d)
      modifies this
      ensures Valid()
      ensures d.trackerId.None? ==> r == d && history == old(history)
      ensures d.trackerId.Some? ==>
        && history == old(history) + [FrameOf(d, |d.xyxy|)]
        && Emits(r, history, length) && AllAverages(r, history, length)
    {
      if d.trackerId.None? {
        return d;
      }
      hide Append, AllNone, FrameOf, Faithful, Lookup, Slots, Averages;
      ghost var f := FrameOf(d, |d.xyxy|);
      IdsOfFrame(d);
      AppendDetections(d);
      ghost var t1 := tracks;
      AppendAbsences(d.trackerId.value);
      ghost var t2 := tracks;
      DropEmptied();
      PassesCompose(old(tracks), t1, t2, tracks, f, length);
      FaithfulStep(old(tracks), history, length, f, tracks);
      history := history + [f];
      r := GetSmoothedDetections();
    }
  }
}
