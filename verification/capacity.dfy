/** How many cameras a box admits: a declared estimate, revised with hysteresis. */
module Capacity {
  import opened Common

  const CAMERAS_PER_CORE: int := 3
  const MB_PER_CAMERA: int := 350
  const RESERVED_MB: int := 1024
  const MIN_CAPACITY: int := 1
  const HYSTERESIS_SAMPLES: nat := 5
  const SATURATION_RATIO: real := 0.75

  function Max(a: int, b: int): int { if a < b then b else a }

  function Min(a: int, b: int): int { if a < b then a else b }

  function MaxReal(a: real, b: real): real { if a < b then b else a }

  /** The starting estimate, from what the box reports about itself. */
  function DeclaredCapacity(cores: int, availableMb: Option<int>, ceiling: int): (c: int)
    ensures c >= 1
    ensures ceiling >= 1 ==> c <= ceiling
    ensures c > 1 ==> c <= cores * CAMERAS_PER_CORE && c <= ceiling
    ensures c > 1 && availableMb.Some? ==> c * MB_PER_CAMERA <= availableMb.value - RESERVED_MB
  {
    var byCpu := cores * CAMERAS_PER_CORE;
    var byMem :=
      if availableMb.None? then byCpu else Max(MIN_CAPACITY, (availableMb.value - RESERVED_MB) / MB_PER_CAMERA);
    Max(MIN_CAPACITY, Min(Min(byCpu, byMem), ceiling))
  }

  /** The hardware and the ceiling allow `k` cameras: three per core, and 350 MB each
      beyond the first gigabyte. */
  predicate Allows(k: int, cores: int, availableMb: Option<int>, ceiling: int) {
    k <= 3 * cores && k <= ceiling && (availableMb.Some? ==> 350 * k <= availableMb.value - 1024)
  }

  /** The estimate is the greatest number that is allowed, or 1 if none greater is. */
  lemma DeclaredIsGreatest(cores: int, availableMb: Option<int>, ceiling: int)
    ensures var c := DeclaredCapacity(cores, availableMb, ceiling);
      && (c == 1 || (c > 1 && Allows(c, cores, availableMb, ceiling)))
      && forall k :: k > c ==> !Allows(k, cores, availableMb, ceiling)
  {
  }

  datatype Source = Declared | Measured

  /** The tracker's value. */
  datatype Load = Load(ceiling: int, capacity: int, source: Source, over: nat, under: nat)

  /** One health-check round. */
  datatype Round = Round(active: int, utilisation: real)

  function Revise(l: Load, capacity: int): Load {
    if capacity == l.capacity then l else l.(capacity := capacity, source := Measured)
  }

  predicate Saturated(r: Round) {
    r.active > 0 && r.utilisation > SATURATION_RATIO
  }

  predicate Roomy(l: Load, r: Round) {
    r.active > 0 && r.utilisation < SATURATION_RATIO / 2.0 && r.active >= l.capacity
  }

  /** The streaks after counting the round. */
  function Counted(l: Load, r: Round): Load {
    if Saturated(r) then l.(over := l.over + 1, under := 0)
    else if Roomy(l, r) then l.(over := 0, under := l.under + 1)
    else l.(over := 0, under := 0)
  }

  /** What the box could sustain at the observed cost per camera. */
  function Sustainable(r: Round): int {
    Max(MIN_CAPACITY, (r.active as real * SATURATION_RATIO / MaxReal(r.utilisation, 0.01)).Floor)
  }

  function Observed(l: Load, r: Round): Load {
    if r.active <= 0 then l
    else
      var c := Counted(l, r);
      if c.over >= HYSTERESIS_SAMPLES then
        Revise(c, Max(MIN_CAPACITY, Min(Min(Sustainable(r), c.capacity - 1), c.ceiling))).(over := 0)
      else if c.under >= HYSTERESIS_SAMPLES then
        Revise(c, Min(c.ceiling, c.capacity + 1)).(under := 0)
      else c
  }

  lemma SustainableIs(r: Round)
    ensures Sustainable(r) ==
            Max(MIN_CAPACITY, (r.active as real * SATURATION_RATIO / MaxReal(r.utilisation, 0.01)).Floor)
  {
  }

  class CapacityTracker {
    const ceiling: int
    var capacity: int
    var source: Source
    var overStreak: nat
    var underStreak: nat

    ghost function View(): Load
      reads this
    {
      Load(ceiling, capacity, source, overStreak, underStreak)
    }

    constructor (ceiling: int, cores: int, availableMb: Option<int>)
      ensures View() == Load(ceiling, DeclaredCapacity(cores, availableMb, ceiling), Declared, 0, 0)
    {
      this.ceiling := ceiling;
      capacity := DeclaredCapacity(cores, availableMb, ceiling);
      source, overStreak, underStreak := Declared, 0, 0;
    }

    method Observe(active: int, utilisation: real)
      modifies this
      ensures View() == Observed(old(View()), Round(active, utilisation))
      ensures RoundMeans(old(View()), Round(active, utilisation), View())
    {
      ObservedMeaning(View(), Round(active, utilisation));
      hide RoundMeans, Sustainable;
      if active <= 0 {
        return;
      }
      if utilisation > SATURATION_RATIO {
        overStreak := overStreak + 1;
        underStreak := 0;
      } else if utilisation < SATURATION_RATIO / 2.0 && active >= capacity {
        underStreak := underStreak + 1;
        overStreak := 0;
      } else {
        overStreak := 0;
        underStreak := 0;
      }
      if overStreak >= HYSTERESIS_SAMPLES {
        var newCapacity := Max(MIN_CAPACITY, (active as real * SATURATION_RATIO / MaxReal(utilisation, 0.01)).Floor);
        assert newCapacity == Sustainable(Round(active, utilisation)) by { SustainableIs(Round(active, utilisation)); }
        newCapacity := Min(Min(newCapacity, capacity - 1), ceiling);
        Set(Max(MIN_CAPACITY, newCapacity));
        overStreak := 0;
      } else if underStreak >= HYSTERESIS_SAMPLES {
        Set(Min(ceiling, capacity + 1));
        underStreak := 0;
      }
    }

    method Set(newCapacity: int)
      modifies this`capacity, this`source
      ensures View() == Revise(old(View()), newCapacity)
    {
      if newCapacity == capacity {
        return;
      }
      capacity := newCapacity;
      source := Measured;
    }
  }

  // ---- One round ----

  /** A saturated box sustains fewer cameras than are active. */
  lemma SaturationBound(r: Round)
    requires Saturated(r)
    ensures 1 <= Sustainable(r) <= Max(1, r.active - 1)
  {
    var a, u := r.active as real, r.utilisation;
    var q := a * SATURATION_RATIO / MaxReal(u, 0.01);
    assert MaxReal(u, 0.01) == u;
    assert q * u == a * SATURATION_RATIO;
    BelowActive(a, u, q);
    assert q < r.active as real;
    assert q.Floor <= r.active - 1;
  }

  lemma BelowActive(a: real, u: real, q: real)
    requires a > 0.0 && u > 0.75 && q * u == a * 0.75
    ensures q < a
  {
    var gap := a * (u - 0.75);
    assert gap > 0.0;
    assert (a - q) * u == gap;
    if q >= a {
      Scale(a, q, u);
    }
  }

  lemma Scale(x: real, y: real, n: real)
    requires n > 0.0 && x <= y
    ensures x * n <= y * n
  {
    assert (y - x) * n >= 0.0;
  }

  /** The streaks are short of a revision, at most one of them runs, and the
      capacity is between 1 and the ceiling. */
  ghost predicate Sound(l: Load) {
    && l.ceiling >= 1 && 1 <= l.capacity <= l.ceiling
    && l.over < HYSTERESIS_SAMPLES && l.under < HYSTERESIS_SAMPLES
    && (l.over == 0 || l.under == 0)
  }

  /** What a round does to a sound tracker. */
  lemma ObservedSound(l: Load, r: Round)
    requires Sound(l)
    ensures var l' := Observed(l, r);
      && Sound(l') && l'.ceiling == l.ceiling
      && l'.capacity <= l.capacity + 1
      && (l'.capacity > l.capacity ==> Roomy(l, r) && l.under == 4 && l.capacity < l.ceiling)
      && (l'.capacity < l.capacity ==> Saturated(r) && l.over == 4)
  {
    hide Sustainable;
    if Saturated(r) {
      SaturationBound(r);
    }
  }

  /** The fifth saturated round in a row lowers the capacity, to fewer than the
      active cameras and to no less than 1; only a capacity of 1 stays. */
  lemma FifthSaturatedRoundSheds(l: Load, r: Round)
    requires Sound(l) && Saturated(r) && l.over == 4
    ensures var l' := Observed(l, r);
      && (l'.capacity < l.capacity || l'.capacity == l.capacity == 1)
      && 1 <= l'.capacity <= Max(1, r.active - 1)
      && l'.over == 0
  {
    hide Sustainable;
    SaturationBound(r);
  }

  // ---- A round in plain numbers ----

  lemma FloorQuotient(a: real, u: real, k: int)
    requires u > 0.0
    ensures k as real * u <= a <==> k <= (a / u).Floor
  {
    QuotientAtMost(a, u, k as real);
  }

  lemma QuotientAtMost(a: real, u: real, x: real)
    requires u > 0.0
    ensures x * u <= a <==> x <= a / u
  {
    var q := a / u;
    assert q * u == a;
    if x <= q {
      Scale(x, q, u);
    } else {
      var gap := (x - q) * u;
      assert gap > 0.0;
      assert gap == x * u - q * u;
    }
  }

  /** The box could run `k` cameras at the cost per camera of this round. */
  predicate Sustains(k: int, r: Round) {
    k as real * MaxReal(r.utilisation, 0.01) <= r.active as real * 0.75
  }

  /** That many is fewer than it takes on now, and no more than the ceiling. */
  predicate Sheds(k: int, capacity: int, ceiling: int, r: Round) {
    k < capacity && k <= ceiling && Sustains(k, r)
  }

  /** What the round makes of the streaks and the capacity: above three quarters it
      counts as saturated, below three eighths with the box full as roomy; the fifth
      saturated one in a row sheds to the greatest number that can be sustained, or to
      1, and the fifth roomy one adds a camera, up to the ceiling. */
  ghost predicate RoundMeans(l: Load, r: Round, l': Load) {
    var saturated := r.utilisation > 0.75;
    var roomy := r.utilisation < 0.375 && r.active >= l.capacity;
    var over := if saturated then l.over + 1 else 0;
    var under := if !saturated && roomy then l.under + 1 else 0;
    if r.active <= 0 then l' == l
    else
      && l'.ceiling == l.ceiling
      && l'.over == (if over >= 5 then 0 else over)
      && l'.under == (if over < 5 && under >= 5 then 0 else under)
      && (over >= 5 ==>
            && (l'.capacity == 1 || (l'.capacity > 1 && Sheds(l'.capacity, l.capacity, l.ceiling, r)))
            && forall k :: k > l'.capacity ==> !Sheds(k, l.capacity, l.ceiling, r))
      && (over < 5 && under >= 5 ==> l'.capacity == if l.capacity < l.ceiling then l.capacity + 1 else l.ceiling)
      && (over < 5 && under < 5 ==> l'.capacity == l.capacity)
      && l'.source == (if l'.capacity == l.capacity then l.source else Measured)
  }

  lemma SustainableIsGreatest(r: Round, k: int)
    requires k > 1
    ensures k <= Sustainable(r) <==> Sustains(k, r)
  {
    FloorQuotient(r.active as real * 0.75, MaxReal(r.utilisation, 0.01), k);
  }

  lemma ShedMeaning(l: Load, r: Round)
    requires r.active > 0
    ensures var c := Max(MIN_CAPACITY, Min(Min(Sustainable(r), l.capacity - 1), l.ceiling));
      && (c == 1 || (c > 1 && Sheds(c, l.capacity, l.ceiling, r)))
      && forall k :: k > c ==> !Sheds(k, l.capacity, l.ceiling, r)
  {
    hide Sustainable, Sustains;
    forall k | k > 1 ensures k <= Sustainable(r) <==> Sustains(k, r) {
      SustainableIsGreatest(r, k);
    }
  }

  lemma ObservedMeaning(l: Load, r: Round)
    ensures RoundMeans(l, r, Observed(l, r))
  {
    hide Sustainable, Sheds;
    if r.active > 0 {
      ShedMeaning(l, r);
    }
  }

  // ---- Whole runs ----

  function Run(l: Load, rs: seq<Round>): Load {
    if rs == [] then l else Observed(Run(l, rs[..|rs| - 1]), rs[|rs| - 1])
  }

  lemma {:induction false} RunSound(l: Load, rs: seq<Round>)
    requires Sound(l)
    ensures Sound(Run(l, rs)) && Run(l, rs).ceiling == l.ceiling
  {
    hide Observed;
    if rs != [] {
      RunSound(l, rs[..|rs| - 1]);
      ObservedSound(Run(l, rs[..|rs| - 1]), rs[|rs| - 1]);
    }
  }

  /** Rounds with active cameras, and revisions of the capacity, in a run. */
  function ActiveRounds(rs: seq<Round>): nat {
    if rs == [] then 0 else ActiveRounds(rs[..|rs| - 1]) + if rs[|rs| - 1].active > 0 then 1 else 0
  }

  function Revisions(l: Load, rs: seq<Round>): nat {
    if rs == [] then 0
    else Revisions(l, rs[..|rs| - 1]) + if Run(l, rs).capacity != Run(l, rs[..|rs| - 1]).capacity then 1 else 0
  }

  /** Hysteresis: a revision costs five active rounds. */
  lemma {:induction false} RevisionsAreRare(l: Load, rs: seq<Round>)
    requires Sound(l) && l.over == l.under == 0
    ensures 5 * Revisions(l, rs) + Max(Run(l, rs).over, Run(l, rs).under) <= ActiveRounds(rs)
  {
    hide Sustainable;
    if rs != [] {
      var past, r := rs[..|rs| - 1], rs[|rs| - 1];
      RevisionsAreRare(l, past);
      RunSound(l, past);
      ObservedSound(Run(l, past), r);
    }
  }

  /** The last `n` rounds of the run were saturated, or idle: without an active camera
      a round counts for nothing. */
  predicate SaturatedTail(rs: seq<Round>, n: nat) {
    n <= |rs| && forall i :: |rs| - n <= i < |rs| ==> Saturated(rs[i]) || rs[i].active <= 0
  }

  lemma SaturatedStep(l: Load, r: Round)
    requires Sound(l) && Saturated(r)
    ensures Observed(l, r).over == if l.over == 4 then 0 else l.over + 1
  {
    hide Sustainable;
  }

  lemma NextModulo(n: nat)
    ensures (n + 1) % 5 == if n % 5 == 4 then 0 else n % 5 + 1
  {
  }

  lemma IdleStep(l: Load, r: Round)
    requires r.active <= 0
    ensures Observed(l, r) == l
  {
  }

  lemma ActiveSnoc(rs: seq<Round>, n: nat)
    requires 0 < n <= |rs|
    ensures ActiveRounds(rs[|rs| - n..]) ==
            ActiveRounds(rs[..|rs| - 1][|rs| - n..]) + if rs[|rs| - 1].active > 0 then 1 else 0
  {
    assert rs[|rs| - n..][..n - 1] == rs[..|rs| - 1][|rs| - n..];
  }

  lemma {:induction false} OverCountsTail(l: Load, rs: seq<Round>, n: nat)
    requires Sound(l) && SaturatedTail(rs, n) && Run(l, rs[..|rs| - n]).over == 0
    ensures Run(l, rs).over == ActiveRounds(rs[|rs| - n..]) % 5
    decreases n
  {
    hide Observed, Sound, Saturated, ActiveRounds;
    if n == 0 {
      assert rs[..|rs|] == rs && rs[|rs|..] == [];
      assert ActiveRounds([]) == 0 by { NoRounds(); }
    } else {
      var past, r := rs[..|rs| - 1], rs[|rs| - 1];
      assert past[..|past| - (n - 1)] == rs[..|rs| - n];
      assert past[|past| - (n - 1)..] == past[|rs| - n..];
      OverCountsTail(l, past, n - 1);
      ActiveSnoc(rs, n);
      if r.active <= 0 {
        IdleStep(Run(l, past), r);
      } else {
        RunSound(l, past);
        SaturatedStep(Run(l, past), r);
        NextModulo(ActiveRounds(past[|rs| - n..]));
      }
    }
  }

  lemma NoRounds()
    ensures ActiveRounds([]) == 0
  {
  }

  /** In a saturated stretch, with idle rounds anywhere in it, every fifth saturated
      round sheds, down to 1. */
  lemma EveryFifthSheds(l: Load, rs: seq<Round>, n: nat, r: Round)
    requires Sound(l) && SaturatedTail(rs, n) && Run(l, rs[..|rs| - n]).over == 0
    requires ActiveRounds(rs[|rs| - n..]) % 5 == 4 && Saturated(r)
    ensures Run(l, rs + [r]).capacity < Run(l, rs).capacity || Run(l, rs + [r]).capacity == 1
  {
    hide Observed, Sound, Saturated, SaturatedTail, ActiveRounds;
    OverCountsTail(l, rs, n);
    RunSound(l, rs);
    assert (rs + [r])[..|rs|] == rs;
    FifthSaturatedRoundSheds(Run(l, rs), r);
  }

  // ---- When the operator's ceiling is not positive ----

  const QUIET: Round := Round(1, 0.0)

  /** Capacity stays at least 1 in every run exactly when the ceiling is at least 1,
      and then it never exceeds the ceiling.  Below that, five quiet rounds take the
      capacity down to the ceiling itself. */
  lemma BoundsNeedPositiveCeiling(ceiling: int, cores: int, availableMb: Option<int>)
    ensures var l := Load(ceiling, DeclaredCapacity(cores, availableMb, ceiling), Declared, 0, 0);
      && ((forall rs :: Run(l, rs).capacity >= 1) <==> ceiling >= 1)
      && (ceiling >= 1 ==> forall rs :: Run(l, rs).capacity <= ceiling)
    ensures ceiling < 1 ==>
      Run(Load(ceiling, 1, Declared, 0, 0), [QUIET, QUIET, QUIET, QUIET, QUIET]).capacity == ceiling
  {
    var l := Load(ceiling, DeclaredCapacity(cores, availableMb, ceiling), Declared, 0, 0);
    if ceiling >= 1 {
      forall rs ensures 1 <= Run(l, rs).capacity <= ceiling {
        RunSound(l, rs);
      }
    } else {
      var five := [QUIET, QUIET, QUIET, QUIET, QUIET];
      assert Run(l, []) == l && l.capacity == 1;
      QuietRounds(l, 5);
      assert Quiet(5) == five;
      assert Run(l, five).capacity == ceiling;
    }
  }

  function Quiet(n: nat): seq<Round> {
    seq(n, _ => QUIET)
  }

  lemma {:induction false} QuietRounds(l: Load, n: nat)
    requires l.capacity == 1 && l.under == 0 && n <= 5
    ensures n < 5 ==>
      Run(l, Quiet(n)).capacity == 1 && Run(l, Quiet(n)).under == n && Run(l, Quiet(n)).ceiling == l.ceiling
    ensures n == 5 ==> Run(l, Quiet(n)).capacity == Min(l.ceiling, 2)
  {
    if n > 0 {
      QuietRounds(l, n - 1);
      assert Quiet(n)[..n - 1] == Quiet(n - 1);
    }
  }
}
