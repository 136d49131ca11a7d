/** The bounded frame ring between a camera and its readers. */
module Rings {
  import opened Sequences

  /** An item that has left the ring, and how: handed out, or overwritten. */
  datatype Gone<T> = Popped(item: T) | Dropped(item: T)

  function Items<T>(gone: seq<Gone<T>>): seq<T> {
    seq(|gone|, i requires 0 <= i < |gone| => gone[i].item)
  }

  ghost function Drops<T(!new)>(gone: seq<Gone<T>>): nat {
    |set i | 0 <= i < |gone| && gone[i].Dropped?|
  }

  ghost function Pops<T(!new)>(gone: seq<Gone<T>>): nat {
    |set i | 0 <= i < |gone| && gone[i].Popped?|
  }

  lemma {:induction false} PopsAndDrops<T(!new)>(gone: seq<Gone<T>>)
    ensures Pops(gone) + Drops(gone) == |gone|
  {
    if gone != [] {
      var p, g := gone[..|gone| - 1], gone[|gone| - 1];
      PopsAndDrops(p);
      assert gone == p + [g];
      DropsSnoc(p, g);
      var before := set i | 0 <= i < |p| && p[i].Popped?;
      var after := set i | 0 <= i < |gone| && gone[i].Popped?;
      if g.Popped? {
        assert after == before + {|p|};
      } else {
        assert after == before;
      }
    }
  }

  lemma DropsSnoc<T(!new)>(gone: seq<Gone<T>>, g: Gone<T>)
    ensures Drops(gone + [g]) == Drops(gone) + if g.Dropped? then 1 else 0
    ensures Items(gone + [g]) == Items(gone) + [g.item]
  {
    var before := set i | 0 <= i < |gone| && gone[i].Dropped?;
    var after := set i | 0 <= i < |gone + [g]| && (gone + [g])[i].Dropped?;
    if g.Dropped? {
      assert after == before + {|gone|};
    } else {
      assert after == before;
    }
  }

  lemma ModWraps(x: nat, c: nat)
    requires x < 2 * c
    ensures x % c == if x < c then x else x - c
  {
    if x >= c {
      assert x == c + (x - c);
    }
  }

  /** The `size` items of a circular buffer, starting at `head`. */
  function Held<T>(d: seq<T>, head: nat, size: nat): (s: seq<T>)
    requires head < |d| && size <= |d|
    ensures |s| == size
  {
    if head + size <= |d| then d[head..head + size] else d[head..] + d[..head + size - |d|]
  }

  function Advance(i: nat, c: nat): nat
    requires c > 0
  {
    (i + 1) % c
  }

  function Slot(head: nat, i: nat, c: nat): nat
    requires head < c && i < c
  {
    if head + i < c then head + i else head + i - c
  }

  lemma HeldAt<T>(d: seq<T>, head: nat, size: nat)
    requires head < |d| && size <= |d|
    ensures forall i :: 0 <= i < size ==> Held(d, head, size)[i] == d[Slot(head, i, |d|)]
  {
  }

  /** Two buffers hold the same items when they agree slot by slot. */
  lemma HeldSame<T>(d: seq<T>, head: nat, size: nat, s: seq<T>)
    requires head < |d| && size <= |d| && |s| == size
    requires forall i :: 0 <= i < size ==> d[Slot(head, i, |d|)] == s[i]
    ensures Held(d, head, size) == s
  {
    HeldAt(d, head, size);
  }

  /** Taking the oldest item out and clearing its slot, or not clearing it. */
  lemma HeldAdvance<T>(d: seq<T>, d': seq<T>, head: nat, size: nat)
    requires head < |d| && 0 < size <= |d| && |d'| == |d|
    requires forall i :: 0 <= i < |d| && i != head ==> d'[i] == d[i]
    ensures Advance(head, |d|) < |d|
    ensures Held(d', Advance(head, |d|), size - 1) == Held(d, head, size)[1..]
    ensures Held(d, head, size)[0] == d[head]
  {
    ModWraps(head + 1, |d|);
    HeldAt(d, head, size);
    HeldSame(d', Advance(head, |d|), size - 1, Held(d, head, size)[1..]);
  }

  lemma HeldStore<T>(d: seq<T>, head: nat, size: nat, v: T)
    requires head < |d| && size < |d|
    ensures (head + size) % |d| < |d|
    ensures Held(d[(head + size) % |d| := v], head, size + 1) == Held(d, head, size) + [v]
  {
    ModWraps(head + size, |d|);
    HeldAt(d, head, size);
    HeldSame(d[Slot(head, size, |d|) := v], head, size + 1, Held(d, head, size) + [v]);
  }

  /** The log after an item leaves: its place in push order does not change. */
  lemma LogLeaves<T(!new)>(gone: seq<Gone<T>>, held: seq<T>, g: Gone<T>)
    requires held != [] && g.item == held[0]
    ensures Items(gone + [g]) + held[1..] == Items(gone) + held
    ensures Drops(gone + [g]) == Drops(gone) + if g.Dropped? then 1 else 0
  {
    DropsSnoc(gone, g);
    assert held == [held[0]] + held[1..];
  }

  class Ring<T(0,!new)> {
    const cap: nat
    const data: array<T>
    var head: nat
    var size: nat
    var dropped: nat
    /** Everything pushed, and everything that has left, both in order. */
    ghost var pushed: seq<T>
    ghost var gone: seq<Gone<T>>

    ghost predicate Sound()
      reads this
    {
      cap > 0 && data.Length == cap && head < cap && size <= cap
    }

    /** The held items, oldest first. */
    ghost function Contents(): (s: seq<T>)
      requires Sound()
      reads this, data
      ensures |s| == size
    {
      Held(data[..], head, size)
    }

    ghost predicate Valid()
      reads this, data
    {
      && Sound()
      && pushed == Items(gone) + Contents()
      && dropped == Drops(gone)
    }

    constructor (capacity: int)
      ensures Valid() && fresh(data)
      ensures cap == if capacity <= 0 then 1 else capacity
      ensures pushed == [] && gone == [] && Contents() == []
    {
      var c: nat := if capacity <= 0 then 1 else capacity;
      cap := c;
      data := new T[c];
      head, size, dropped, pushed, gone := 0, 0, 0, [], [];
    }

    /** Gives up the place of the oldest item. */
    method SkipHead()
      requires Sound() && size > 0
      modifies this`head, this`size
      ensures Sound() && size == old(size) - 1 && Contents() == old(Contents())[1..]
    {
      hide Held, Advance;
      HeldAdvance(data[..], data[..], head, size);
      head := Advance(head, cap);
      size := size - 1;
    }

    /** Stores an item behind the newest one. */
    method Store(v: T)
      requires Sound() && size < cap
      modifies this`size, data
      ensures Sound() && size == old(size) + 1 && Contents() == old(Contents()) + [v]
    {
      hide Held;
      HeldStore(data[..], head, size, v);
      ghost var d := data[..];
      var tail := (head + size) % cap;
      data[tail] := v;
      assert data[..] == d[tail := v];
      size := size + 1;
    }

    method Push(v: T)
      requires Valid()
      modifies this, data
      ensures Valid()
      ensures Contents() == Append(old(Contents()), v, cap)
      ensures pushed == old(pushed) + [v]
      ensures gone == if old(size) == cap then old(gone) + [Dropped(old(Contents())[0])] else old(gone)
      ensures dropped == old(dropped) + if old(size) == cap then 1 else 0
    {
      hide Held, Items, Drops;
      ghost var was := Contents();
      if size == cap {
        LogLeaves(gone, was, Dropped(was[0]));
        gone := gone + [Dropped(was[0])];
        SkipHead();
        dropped := dropped + 1;
      }
      Associate(Items(gone), Contents(), [v]);
      Store(v);
      pushed := pushed + [v];
    }

    /** Takes the oldest item out of the buffer and clears its place. */
    method TakeHead() returns (v: T)
      requires Sound() && size > 0
      modifies this`head, this`size, data
      ensures Sound() && size == old(size) - 1
      ensures v == old(Contents())[0] && Contents() == old(Contents())[1..]
    {
      hide Held, Advance;
      var zero: T := *;
      ghost var d := data[..];
      v := data[head];
      data[head] := zero;
      HeldAdvance(d, data[..], head, size);
      head := Advance(head, cap);
      size := size - 1;
    }

    method Pop() returns (v: T, ok: bool)
      requires Valid()
      modifies this, data
      ensures Valid()
      ensures ok <==> old(size) > 0
      ensures ok ==> v == old(Contents())[0] && Contents() == old(Contents())[1..] && gone == old(gone) + [Popped(v)]
      ensures !ok ==> Contents() == old(Contents()) && gone == old(gone)
      ensures pushed == old(pushed) && dropped == old(dropped)
    {
      if size == 0 {
        var zero: T := *;
        return zero, false;
      }
      hide Held, Items, Drops;
      ghost var was := Contents();
      v := TakeHead();
      LogLeaves(gone, was, Popped(v));
      gone := gone + [Popped(v)];
      ok := true;
    }

    /** Everything ever pushed was handed out, is held, or was overwritten. */
    lemma Conservation()
      requires Valid()
      ensures |pushed| == Pops(gone) + size + dropped
      ensures forall i :: 0 <= i < |gone| ==> gone[i].item == pushed[i]
      ensures forall i :: 0 <= i < size ==> Contents()[i] == pushed[|gone| + i]
    {
      PopsAndDrops(gone);
    }
  }

  lemma AppendSomething<T>(w: seq<T>, x: T, n: nat)
    requires n > 0
    ensures Append(w, x, n) != []
  {
  }

  /** The publisher pushes some frames. */
  method PushAll<T(0,!new)>(ring: Ring<T>, vs: seq<T>)
    requires ring.Valid()
    modifies ring, ring.data
    ensures ring.Valid() && ring.pushed == old(ring.pushed) + vs
    ensures ring.Contents() == [] <==> old(ring.Contents()) == [] && vs == []
  {
    hide Items, Held, Drops, Append;
    assert vs[..0] == [];
    for i := 0 to |vs|
      invariant ring.Valid() && ring.pushed == old(ring.pushed) + vs[..i]
      invariant ring.Contents() == [] <==> old(ring.Contents()) == [] && i == 0
    {
      AppendSomething(ring.Contents(), vs[i], ring.cap);
      ring.Push(vs[i]);
      assert vs[..i + 1] == vs[..i] + [vs[i]];
      Associate(old(ring.pushed), vs[..i], [vs[i]]);
    }
    assert vs[..|vs|] == vs;
  }

  /** What arrives while a reader drains the ring. */
  function Arrived<T>(arrivals: seq<seq<T>>): seq<T> {
    if arrivals == [] then [] else Arrived(arrivals[..|arrivals| - 1]) + arrivals[|arrivals| - 1]
  }

  /** With nothing held, the item that was popped last is the newest of all. */
  lemma LastPopped<T(0,!new)>(ring: Ring<T>, v: T)
    requires ring.Valid() && ring.Contents() == [] && ring.gone != [] && ring.gone[|ring.gone| - 1] == Popped(v)
    ensures ring.pushed != [] && ring.pushed[|ring.pushed| - 1] == v
  {
    assert ring.pushed == Items(ring.gone);
  }

  /** A pop that empties the ring hands out the newest item of all. */
  method PopNewest<T(0,!new)>(ring: Ring<T>) returns (v: T, ok: bool)
    requires ring.Valid()
    modifies ring, ring.data
    ensures ring.Valid() && ring.pushed == old(ring.pushed) && ring.dropped == old(ring.dropped)
    ensures ok <==> old(ring.Contents()) != []
    ensures ok ==> ring.size < old(ring.size)
    ensures ring.Contents() == [] && ok ==> ring.pushed != [] && v == ring.pushed[|ring.pushed| - 1]
    ensures !ok ==> ring.Contents() == []
  {
    hide Items, Held, Drops;
    v, ok := ring.Pop();
    if ok && ring.Contents() == [] {
      LastPopped(ring, v);
    }
  }

  lemma ArrivedSnoc<T>(arrivals: seq<seq<T>>, i: nat)
    requires i < |arrivals|
    ensures Arrived(arrivals[..i + 1]) == Arrived(arrivals[..i]) + arrivals[i]
  {
    assert arrivals[..i + 1][..i] == arrivals[..i];
  }

  /** The inner loop of the viewer pump: take everything, keep the newest.  The
      publisher goes on meanwhile: `arrivals[i]` is pushed before the `i`th pop.  When
      the loop ends the ring is empty and the frame kept is the newest ever pushed. */
  method DrainLatest<T(0,!new)>(ring: Ring<T>, arrivals: seq<seq<T>>) returns (frame: T, ok: bool, ghost n: nat)
    requires ring.Valid()
    modifies ring, ring.data
    ensures ring.Valid() && ring.Contents() == []
    ensures n <= |arrivals| && ring.pushed == old(ring.pushed) + Arrived(arrivals[..n])
    ensures ok <==> old(ring.Contents()) != [] || Arrived(arrivals[..n]) != []
    ensures ok ==> ring.pushed != [] && frame == ring.pushed[|ring.pushed| - 1]
    ensures arrivals == [] ==>
      ring.dropped == old(ring.dropped) && (ok ==> frame == old(ring.Contents())[|old(ring.Contents())| - 1])
  {
    hide Items, Held, Append, Drops, Arrived;
    var zero: T := *;
    frame, ok, n := zero, false, 0;
    var i := 0;
    NoArrivals(arrivals);
    LatestHeld(ring);
    while true
      invariant ring.Valid() && i == n <= |arrivals|
      invariant ring.pushed == old(ring.pushed) + Arrived(arrivals[..n])
      invariant !ok ==> (ring.Contents() == [] <==> old(ring.Contents()) == [] && Arrived(arrivals[..n]) == [])
      invariant ok ==> old(ring.Contents()) != [] || Arrived(arrivals[..n]) != []
      invariant ok && ring.Contents() == [] ==> ring.pushed != [] && frame == ring.pushed[|ring.pushed| - 1]
      invariant arrivals == [] ==> ring.dropped == old(ring.dropped)
      decreases |arrivals| - i, ring.size
    {
      if i < |arrivals| {
        PushAll(ring, arrivals[i]);
        ArrivedSnoc(arrivals, i);
        Associate(old(ring.pushed), Arrived(arrivals[..i]), arrivals[i]);
        i, n := i + 1, n + 1;
      }
      var f, has := PopNewest(ring);
      if !has {
        break;
      }
      frame, ok := f, true;
    }
  }

  lemma NoArrivals<T>(arrivals: seq<seq<T>>)
    ensures Arrived(arrivals[..0]) == []
    ensures arrivals == [] ==> forall n: nat :: n <= |arrivals| ==> Arrived(arrivals[..n]) == []
  {
  }

  /** The newest item pushed is the newest one held, if any is. */
  lemma LatestHeld<T(0,!new)>(ring: Ring<T>)
    requires ring.Valid()
    ensures ring.Contents() != [] ==>
      ring.pushed != [] && ring.pushed[|ring.pushed| - 1] == ring.Contents()[|ring.Contents()| - 1]
  {
  }
}
