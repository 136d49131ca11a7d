/** H.264 byte streams: the printer of the RTSP client and the parser of the
    republishing server.  See ITU-T Rec. H.264, Annex B, section B.1. */
module AnnexB {
  import opened Sequences

  newtype byte = x: int | 0 <= x < 256

  type Bytes = seq<byte>

  // ---- Start codes ----

  predicate Code3At(b: Bytes, i: nat) {
    i + 2 < |b| && b[i] == 0 && b[i + 1] == 0 && b[i + 2] == 1
  }

  predicate Code4At(b: Bytes, i: nat) {
    i + 3 < |b| && b[i] == 0 && b[i + 1] == 0 && b[i + 2] == 0 && b[i + 3] == 1
  }

  predicate CodeAt(b: Bytes, i: nat) {
    Code3At(b, i) || Code4At(b, i)
  }

  /** No `00 00 01` anywhere: what section 7.4.1 guarantees of a NAL unit. */
  ghost predicate Clean(b: Bytes) {
    forall i :: 0 <= i < |b| ==> !Code3At(b, i)
  }

  function Code(long: bool): Bytes {
    if long then [0, 0, 0, 1] else [0, 0, 1]
  }

  // ---- The declarative view of a stream ----

  /** A start code, 4 bytes long or 3, and the bytes up to the next one. */
  datatype Unit = Unit(long: bool, payload: Bytes)

  function Render(us: seq<Unit>): Bytes {
    if us == [] then [] else Code(us[0].long) + us[0].payload + Render(us[1..])
  }

  predicate EndsInZero(b: Bytes) {
    b != [] && b[|b| - 1] == 0
  }

  /** A text that can stand before `us`: it holds no start code, and a 3-byte code
      right after it cannot be read as a 4-byte one. */
  ghost predicate Separated(text: Bytes, us: seq<Unit>) {
    Clean(text) && (us != [] && !us[0].long ==> !EndsInZero(text))
  }

  ghost predicate Canonical(us: seq<Unit>) {
    us != [] ==> Separated(us[0].payload, us[1..]) && Canonical(us[1..])
  }

  function NonEmpty(au: seq<Bytes>): seq<Bytes> {
    if au == [] then []
    else if au[0] == [] then NonEmpty(au[1..])
    else [au[0]] + NonEmpty(au[1..])
  }

  function Payloads(us: seq<Unit>): seq<Bytes> {
    if us == [] then [] else [us[0].payload] + Payloads(us[1..])
  }

  function AllLong(au: seq<Bytes>): seq<Unit> {
    if au == [] then [] else [Unit(true, au[0])] + AllLong(au[1..])
  }

  // ---- Reading a stream ----

  /** The first start code at or after `i`, or the end of the stream. */
  function First(b: Bytes, i: nat): (r: nat)
    requires i <= |b|
    ensures i <= r <= |b|
    decreases |b| - i
  {
    if i == |b| || CodeAt(b, i) then i else First(b, i + 1)
  }

  function CodeLength(b: Bytes, i: nat): nat {
    if Code4At(b, i) then 4 else 3
  }

  function UnitsFrom(b: Bytes, i: nat): seq<Unit>
    requires i <= |b| && (i < |b| ==> CodeAt(b, i))
    decreases |b| - i
  {
    if i == |b| then []
    else
      var start := i + CodeLength(b, i);
      var next := First(b, start);
      FirstStops(b, start);
      [Unit(Code4At(b, i), b[start..next])] + UnitsFrom(b, next)
  }

  function Lead(b: Bytes): Bytes {
    b[..First(b, 0)]
  }

  function Units(b: Bytes): seq<Unit> {
    FirstStops(b, 0);
    UnitsFrom(b, First(b, 0))
  }

  /** What the parser delivers. */
  function Split(b: Bytes): seq<Bytes> {
    NonEmpty(Payloads(Units(b)))
  }

  /** What the printer writes. */
  function Serialise(au: seq<Bytes>): Bytes {
    Render(AllLong(au))
  }

  lemma {:induction false} FirstStops(b: Bytes, i: nat)
    requires i <= |b|
    ensures First(b, i) < |b| ==> CodeAt(b, First(b, i))
    ensures forall k :: i <= k < First(b, i) ==> !CodeAt(b, k)
    decreases |b| - i
  {
    if i < |b| && !CodeAt(b, i) {
      FirstStops(b, i + 1);
    }
  }

  lemma {:induction false} FirstIs(b: Bytes, i: nat, r: nat)
    requires i <= r <= |b|
    requires r < |b| ==> CodeAt(b, r)
    requires forall k :: i <= k < r ==> !CodeAt(b, k)
    ensures First(b, i) == r
    decreases |b| - i
  {
    if i < r {
      FirstIs(b, i + 1, r);
    }
  }

  // ---- Every stream is its lead and its units, and nothing else ----

  lemma Cut(b: Bytes, i: nat, j: nat, k: nat)
    requires i <= j <= k <= |b|
    ensures b[i..] == b[i..j] + b[j..k] + b[k..]
  {
  }

  lemma CodeIsThere(b: Bytes, i: nat)
    requires i < |b| && CodeAt(b, i)
    ensures b[i..i + CodeLength(b, i)] == Code(Code4At(b, i))
  {
  }

  lemma {:induction false} RenderUnits(b: Bytes, i: nat)
    requires i <= |b| && (i < |b| ==> CodeAt(b, i))
    ensures Render(UnitsFrom(b, i)) == b[i..]
    decreases |b| - i
  {
    if i < |b| {
      var start := i + CodeLength(b, i);
      var next := First(b, start);
      FirstStops(b, start);
      RenderUnits(b, next);
      CodeIsThere(b, i);
      Cut(b, i, start, next);
      RenderCons(Unit(Code4At(b, i), b[start..next]), UnitsFrom(b, next));
    }
  }

  lemma RenderCons(u: Unit, us: seq<Unit>)
    ensures Render([u] + us) == Code(u.long) + u.payload + Render(us)
  {
    assert ([u] + us)[1..] == us;
  }

  lemma SliceClean(b: Bytes, i: nat)
    requires i <= |b|
    ensures Clean(b[i..First(b, i)])
    ensures First(b, i) < |b| && !Code4At(b, First(b, i)) ==> !EndsInZero(b[i..First(b, i)])
  {
    FirstStops(b, i);
    var e := First(b, i);
    var t := b[i..e];
    assert forall k :: 0 <= k < |t| ==> t[k] == b[i + k];
    forall k | 0 <= k < |t| ensures !Code3At(t, k) {
      assert !CodeAt(b, i + k);
      if k + 2 < |t| {
        assert t[k] == b[i + k] && t[k + 1] == b[i + k + 1] && t[k + 2] == b[i + k + 2];
      }
    }
    if e < |b| && i < e {
      assert !CodeAt(b, e - 1);
      assert t[|t| - 1] == b[e - 1];
    }
  }

  lemma {:induction false} UnitsCanonical(b: Bytes, i: nat)
    requires i <= |b| && (i < |b| ==> CodeAt(b, i))
    ensures Canonical(UnitsFrom(b, i))
    ensures i < |b| ==> UnitsFrom(b, i)[0].long == Code4At(b, i)
    decreases |b| - i
  {
    if i < |b| {
      var start := i + CodeLength(b, i);
      FirstStops(b, start);
      SliceClean(b, start);
      UnitsCanonical(b, First(b, start));
      assert UnitsFrom(b, i)[1..] == UnitsFrom(b, First(b, start));
    }
  }

  lemma FirstCode(b: Bytes, f: nat)
    requires f <= |b| && (f < |b| ==> CodeAt(b, f))
    ensures UnitsFrom(b, f) != [] ==> f < |b| && UnitsFrom(b, f)[0].long == Code4At(b, f)
  {
  }

  /** The parser accounts for every byte: leading bytes before the first start
      code, then start codes and payloads in order, none of which holds another
      start code. */
  lemma SplitAccountsForEveryByte(b: Bytes)
    ensures b == Lead(b) + Render(Units(b))
    ensures Separated(Lead(b), Units(b)) && Canonical(Units(b))
  {
    hide First, UnitsFrom, Clean, CodeAt, Code4At;
    var f := First(b, 0);
    FirstStops(b, 0);
    RenderUnits(b, f);
    UnitsCanonical(b, f);
    SliceClean(b, 0);
    FirstCode(b, f);
    assert b[0..f] == Lead(b);
    assert b == b[..f] + b[f..];
  }

  // ---- There is no other way to read a stream ----

  /** Text without a start code, followed by the end or by a code that it cannot
      blur, is exactly what lies before the first code. */
  lemma TextStops(b: Bytes, i: nat, text: Bytes, us: seq<Unit>)
    requires i <= |b| && b[i..] == text + Render(us) && Separated(text, us)
    ensures First(b, i) == i + |text|
    ensures us != [] ==> CodeAt(b, i + |text|) && (Code4At(b, i + |text|) <==> us[0].long)
  {
    var e := i + |text|;
    var tail := Render(us);
    assert forall k :: 0 <= k < |text| ==> b[i + k] == text[k];
    assert forall k :: 0 <= k < |tail| ==> b[e + k] == tail[k];
    assert |b| == e + |tail|;
    if us != [] {
      var c := Code(us[0].long);
      assert forall k :: 0 <= k < |c| ==> tail[k] == c[k];
      if us[0].long {
        assert b[e] == 0 && b[e + 1] == 0 && b[e + 2] == 0 && b[e + 3] == 1;
      } else {
        assert b[e] == 0 && b[e + 1] == 0 && b[e + 2] == 1;
      }
    }
    forall k | i <= k < e ensures !CodeAt(b, k) {
      NoCodeInside(b, i, text, us, k);
    }
    FirstIs(b, i, e);
  }

  lemma NoCodeInside(b: Bytes, i: nat, text: Bytes, us: seq<Unit>, k: nat)
    requires i <= k < i + |text| <= |b| && Separated(text, us)
    requires forall j :: 0 <= j < |text| ==> b[i + j] == text[j]
    requires us == [] ==> |b| == i + |text|
    requires us != [] ==> Code(us[0].long) <= b[i + |text|..]
    ensures !CodeAt(b, k)
  {
    var e := i + |text|;
    if us != [] {
      var c := Code(us[0].long);
      assert b[e] == c[0] && b[e + 1] == c[1] && b[e + 2] == c[2];
    }
    assert !Code3At(text, k - i);
    if k + 2 < e {
      assert b[k] == text[k - i] && b[k + 1] == text[k - i + 1] && b[k + 2] == text[k - i + 2];
    }
    if k + 3 < e {
      assert !Code3At(text, k - i + 1);
      assert b[k + 1] == text[k - i + 1] && b[k + 2] == text[k - i + 2] && b[k + 3] == text[k - i + 3];
    }
    assert text[|text| - 1] == b[e - 1];
  }

  lemma DropPrefix(b: Bytes, i: nat, p: Bytes, q: Bytes)
    requires i <= |b| && b[i..] == p + q
    ensures i + |p| <= |b| && b[i + |p|..] == q && b[i..i + |p|] == p
  {
    assert |b[i..]| == |p| + |q|;
    assert b[i + |p|..] == b[i..][|p|..];
    assert b[i..i + |p|] == b[i..][..|p|];
  }

  lemma HeadOfRender(b: Bytes, i: nat, u: Unit, rest: seq<Unit>)
    requires i <= |b| && b[i..] == Code(u.long) + u.payload + Render(rest) && Separated(u.payload, rest)
    ensures i < |b| && CodeAt(b, i) && (Code4At(b, i) <==> u.long)
    ensures var start := i + |Code(u.long)|; var next := start + |u.payload|;
      next <= |b| && First(b, start) == next && b[start..next] == u.payload && b[next..] == Render(rest)
  {
    hide First, Render, Separated;
    var code := Code(u.long);
    var tail := u.payload + Render(rest);
    Associate(code, u.payload, Render(rest));
    DropPrefix(b, i, code, tail);
    CodeThere(b, i, u.long);
    var start := i + |code|;
    TextStops(b, start, u.payload, rest);
    DropPrefix(b, start, u.payload, Render(rest));
  }

  lemma CodeThere(b: Bytes, i: nat, long: bool)
    requires i + |Code(long)| <= |b| && b[i..i + |Code(long)|] == Code(long)
    ensures CodeAt(b, i) && (Code4At(b, i) <==> long)
  {
    var c, s := Code(long), b[i..i + |Code(long)|];
    assert s[0] == b[i] && s[1] == b[i + 1] && s[2] == b[i + 2];
    if long {
      assert s[3] == b[i + 3];
    }
  }

  lemma NoMoreUnits(b: Bytes, i: nat)
    requires i <= |b| && b[i..] == []
    ensures i == |b| && UnitsFrom(b, i) == []
  {
    assert |b[i..]| == |b| - i;
  }

  lemma {:induction false} UnitsOfRender(b: Bytes, i: nat, us: seq<Unit>)
    requires i <= |b| && b[i..] == Render(us) && Canonical(us)
    ensures i < |b| ==> CodeAt(b, i)
    ensures UnitsFrom(b, i) == us
    decreases |us|
  {
    hide First, Clean, CodeAt, Code4At, Separated, UnitsFrom;
    if us == [] {
      NoMoreUnits(b, i);
    } else {
      var u, rest := us[0], us[1..];
      HeadOfRender(b, i, u, rest);
      var start := i + |Code(u.long)|;
      var next := start + |u.payload|;
      UnitsOfRender(b, next, rest);
      UnitsStep(b, i, start, next, u);
      assert us == [u] + rest;
    }
  }

  lemma UnitsStep(b: Bytes, i: nat, start: nat, next: nat, u: Unit)
    requires i < start <= next <= |b| && CodeAt(b, i) && start == i + CodeLength(b, i) && next == First(b, start)
    requires (next < |b| ==> CodeAt(b, next)) && u == Unit(Code4At(b, i), b[start..next])
    ensures UnitsFrom(b, i) == [u] + UnitsFrom(b, next)
  {
  }

  /** The reading is unique: a canonical text is read back as it was written. */
  lemma ReadingIsUnique(lead: Bytes, us: seq<Unit>)
    requires Separated(lead, us) && Canonical(us)
    ensures Lead(lead + Render(us)) == lead && Units(lead + Render(us)) == us
  {
    var b := lead + Render(us);
    assert b[0..] == b;
    TextStops(b, 0, lead, us);
    assert b[|lead|..] == Render(us);
    UnitsOfRender(b, |lead|, us);
  }

  // ---- The round trip of the printer ----

  lemma {:induction false} LongUnits(au: seq<Bytes>)
    ensures Canonical(AllLong(au)) <==> forall n :: n in au ==> Clean(n)
    ensures Payloads(AllLong(au)) == au
  {
    if au != [] {
      LongUnits(au[1..]);
      var us := AllLong(au);
      assert us[1..] == AllLong(au[1..]);
      assert au == [au[0]] + au[1..];
    }
  }

  lemma {:induction false} NonEmptyMembers(au: seq<Bytes>)
    ensures forall n :: n in NonEmpty(au) <==> n in au && n != []
    ensures (forall n :: n in au ==> n != []) ==> NonEmpty(au) == au
  {
    if au != [] {
      NonEmptyMembers(au[1..]);
      assert au == [au[0]] + au[1..];
      assert au[0] in au && forall n :: n in au[1..] ==> n in au;
    }
  }

  lemma {:induction false} CanonicalPayloads(us: seq<Unit>)
    requires Canonical(us)
    ensures forall n :: n in Payloads(us) ==> Clean(n)
  {
    if us != [] {
      CanonicalPayloads(us[1..]);
    }
  }

  /** No slice that the parser returns is empty or holds a start code. */
  lemma SplitIsClean(b: Bytes)
    ensures forall n :: n in Split(b) ==> n != [] && Clean(n)
  {
    SplitAccountsForEveryByte(b);
    CanonicalPayloads(Units(b));
    NonEmptyMembers(Payloads(Units(b)));
  }

  lemma SplitOfClean(au: seq<Bytes>)
    requires forall n :: n in au ==> Clean(n)
    ensures Split(Serialise(au)) == NonEmpty(au)
  {
    LongUnits(au);
    assert Separated([], AllLong(au));
    assert [] + Serialise(au) == Serialise(au);
    ReadingIsUnique([], AllLong(au));
  }

  /** The parser gives back the printed access unit, empty units removed, exactly
      when no unit holds a start code.  Units that end in zero bytes are included. */
  lemma RoundTrip(au: seq<Bytes>)
    ensures Split(Serialise(au)) == NonEmpty(au) <==> forall n :: n in au ==> Clean(n)
  {
    if forall n :: n in au ==> Clean(n) {
      SplitOfClean(au);
    }
    if Split(Serialise(au)) == NonEmpty(au) {
      SplitIsClean(Serialise(au));
      NonEmptyMembers(au);
      forall n | n in au ensures Clean(n) {
        assert n != [] ==> n in NonEmpty(au);
      }
    }
  }

  /** Parsing normalises: printing what was parsed and parsing again changes nothing. */
  lemma SplitIsIdempotent(b: Bytes)
    ensures Split(Serialise(Split(b))) == Split(b)
  {
    SplitIsClean(b);
    SplitOfClean(Split(b));
    NonEmptyMembers(Split(b));
  }

  // ---- The code ----

  /** `auToAnnexB`. */
  method AuToAnnexB(au: seq<Bytes>) returns (out: Bytes)
    ensures out == Serialise(au)
  {
    var total := 0;
    for i := 0 to |au| {
      total := total + 4 + |au[i]|;
    }
    out := [];
    for i := 0 to |au|
      invariant out + Serialise(au[i..]) == Serialise(au)
    {
      SerialiseCons(au[i], au[i + 1..]);
      assert au[i..] == [au[i]] + au[i + 1..];
      AppendTwo(out, [0, 0, 0, 1], au[i], Serialise(au[i + 1..]));
      out := out + [0, 0, 0, 1];
      out := out + au[i];
    }
    assert au[|au|..] == [];
    assert out + [] == out;
  }

  lemma SerialiseCons(n: Bytes, au: seq<Bytes>)
    ensures Serialise([n] + au) == [0, 0, 0, 1] + n + Serialise(au)
  {
    assert ([n] + au)[1..] == au;
    RenderCons(Unit(true, n), AllLong(au));
  }

  lemma AppendTwo(w: Bytes, x: Bytes, y: Bytes, z: Bytes)
    ensures w + (x + y + z) == w + x + y + z
  {
  }

  /** `nextStartCode`: the first start code at or after `from`, or -1. */
  method NextStartCode(buf: Bytes, from: int) returns (r: int)
    ensures var lo := if from < 0 then 0 else from;
      if lo <= |buf| && First(buf, lo) < |buf| then r == First(buf, lo) else r == -1
    ensures r == -1 || (0 <= r < |buf| && from <= r && CodeAt(buf, r))
  {
    var lo := if from < 0 then 0 else from;
    var i := lo;
    while i + 2 < |buf|
      invariant lo <= i
      invariant forall k :: lo <= k < i ==> !CodeAt(buf, k)
      invariant lo <= |buf| ==> i <= |buf|
    {
      if buf[i] == 0 && buf[i + 1] == 0 {
        if buf[i + 2] == 1 {
          FirstIs(buf, lo, i);
          return i;
        }
        if buf[i + 2] == 0 && i + 3 < |buf| && buf[i + 3] == 1 {
          FirstIs(buf, lo, i);
          return i;
        }
      }
      i := i + 1;
    }
    if lo <= |buf| {
      FirstIs(buf, lo, |buf|);
    }
    return -1;
  }

  lemma FromStart(b: Bytes, i: nat)
    requires i < |b| && CodeAt(b, i)
    ensures First(b, i) == i
  {
  }

  lemma SliceStep(b: Bytes, idx: nat, start: nat, next: nat)
    requires idx < start <= next <= |b| && CodeAt(b, idx)
    requires start == idx + CodeLength(b, idx) && next == First(b, start)
    ensures next < |b| ==> CodeAt(b, next)
    ensures Payloads(UnitsFrom(b, idx)) == [b[start..next]] + Payloads(UnitsFrom(b, next))
  {
    FirstStops(b, start);
    var us := UnitsFrom(b, idx);
    UnitsStep(b, idx, start, next, Unit(Code4At(b, idx), b[start..next]));
    assert us[1..] == UnitsFrom(b, next);
  }

  lemma NonEmptyCons(n: Bytes, au: seq<Bytes>)
    ensures NonEmpty([n] + au) == if n == [] then NonEmpty(au) else [n] + NonEmpty(au)
  {
    assert ([n] + au)[1..] == au;
  }

  /** What is still to be delivered when scanning resumes at `i`. */
  function Remaining(b: Bytes, i: nat): seq<Bytes>
    requires i <= |b|
  {
    FirstStops(b, i);
    NonEmpty(Payloads(UnitsFrom(b, First(b, i))))
  }

  lemma RemainingStep(b: Bytes, i: nat, idx: nat, start: nat, next: nat)
    requires i <= idx < start <= next <= |b| && idx == First(b, i) && CodeAt(b, idx)
    requires start == idx + CodeLength(b, idx) && next == First(b, start)
    ensures Remaining(b, i) == if next > start then [b[start..next]] + Remaining(b, next) else Remaining(b, next)
  {
    SliceStep(b, idx, start, next);
    if next < |b| {
      FromStart(b, next);
    }
    NonEmptyCons(b[start..next], Payloads(UnitsFrom(b, next)));
  }

  /** `splitAnnexB`. */
  method SplitAnnexB(buf: Bytes) returns (nalus: seq<Bytes>)
    ensures nalus == Split(buf)
  {
    nalus := [];
    var i, n := 0, |buf|;
    while i < n
      invariant 0 <= i <= n
      invariant nalus + Remaining(buf, i) == Split(buf)
      decreases n - i
    {
      hide First, NonEmpty, Payloads, UnitsFrom, Remaining;
      var idx := NextStartCode(buf, i);
      if idx < 0 {
        NothingLeft(buf, i);
        break;
      }
      var scLen := 3;
      if idx + 3 < n && buf[idx] == 0 && buf[idx + 1] == 0 && buf[idx + 2] == 0 && buf[idx + 3] == 1 {
        scLen := 4;
      }
      var start := idx + scLen;
      var next := NextStartCode(buf, start);
      if next < 0 {
        next := n;
      }
      RemainingStep(buf, i, idx, start, next);
      if next > start {
        Associate(nalus, [buf[start..next]], Remaining(buf, next));
        nalus := nalus + [buf[start..next]];
      }
      i := next;
    }
    if i == n {
      NothingLeft(buf, i);
    }
    assert nalus + [] == nalus;
  }

  lemma NothingLeft(b: Bytes, i: nat)
    requires i <= |b| && First(b, i) == |b|
    ensures Remaining(b, i) == []
  {
  }

  // ---- Key frames ----

  predicate IsIDR(n: Bytes) {
    n != [] && n[0] % 32 == 5
  }

  /** The type of a unit is its first byte without the upper three bits. */
  lemma TypeBits(n: Bytes, t: nat)
    requires n != [] && t < 32
    ensures (n[0] % 32) as int == t <==> exists high: nat :: high < 8 && n[0] as int == 32 * high + t
    ensures t == 5 ==> (IsIDR(n) <==> exists high: nat :: high < 8 && n[0] as int == 32 * high + 5)
  {
    var x := n[0] as int;
    assert x == 32 * (x / 32) + x % 32;
    assert (n[0] % 32) as int == x % 32;
    if high: nat :| high < 8 && x == 32 * high + t {
      assert x % 32 == t;
    }
  }

  /** `containsIDR`. */
  method ContainsIDR(au: seq<Bytes>) returns (found: bool)
    ensures found <==> exists i :: 0 <= i < |au| && IsIDR(au[i])
  {
    for i := 0 to |au|
      invariant forall j :: 0 <= j < i ==> !IsIDR(au[j])
    {
      if |au[i]| == 0 {
        continue;
      }
      if au[i][0] % 32 == 5 {
        return true;
      }
    }
    return false;
  }

  /** The key-frame flag sent with a printed access unit is the one its reader
      would compute from the bytes. */
  lemma KeyframeSurvives(au: seq<Bytes>)
    requires forall n :: n in au ==> Clean(n)
    ensures (exists i :: 0 <= i < |au| && IsIDR(au[i])) <==>
            (exists i :: 0 <= i < |Split(Serialise(au))| && IsIDR(Split(Serialise(au))[i]))
  {
    SplitOfClean(au);
    NonEmptyMembers(au);
    var ns := NonEmpty(au);
    assert forall i :: 0 <= i < |au| ==> au[i] in au;
    assert forall i :: 0 <= i < |ns| ==> ns[i] in ns;
    if i :| 0 <= i < |au| && IsIDR(au[i]) {
      assert au[i] in ns;
    }
    if i :| 0 <= i < |ns| && IsIDR(ns[i]) {
      assert ns[i] in au;
    }
  }
}
