/** The three-way decision on a frame's detections, and the grouping of the ones
    that are emitted. */
module YoloDecision {
  import opened Common

  datatype BoundingBox = BoundingBox(x1: int, y1: int, x2: int, y2: int, tag: string)

  datatype YoloDetection = YoloDetection(cocoClass: string, confidence: real, bbox: BoundingBox)

  datatype Candidate = Candidate(eventType: string, det: YoloDetection, zone: Option<string>)

  datatype DetectedEvent =
    DetectedEvent(eventType: string, confidence: real, severity: string, boxes: seq<BoundingBox>, zone: Option<string>)

  datatype Decision = Drop | Escalate | Emit(events: seq<DetectedEvent>)

  const FASTPATH: set<string> := {"person", "vehicle", "animal", "intrusion"}

  function EventType(cocoClass: string): Option<string> {
    if cocoClass == "person" then Some("person")
    else if cocoClass in {"car", "truck", "bus", "motorcycle"} then Some("vehicle")
    else if cocoClass in {"dog", "cat", "bird", "horse"} then Some("animal")
    else None
  }

  /** Where a detection lies: the first zone that holds its centre, if any. */
  type ZoneOf = BoundingBox -> Option<string>

  // ---- Candidates ----

  /** A detection gives at most one candidate: a person in a zone is an intrusion
      if intrusions are enabled, and then is not a person as well. */
  function CandidateOf(d: YoloDetection, enabled: set<string>, zoneOf: ZoneOf): Option<Candidate> {
    var t := EventType(d.cocoClass);
    if t.None? then None
    else if t.value == "person" && zoneOf(d.bbox).Some? && "intrusion" in enabled
    then Some(Candidate("intrusion", d, zoneOf(d.bbox)))
    else Some(Candidate(t.value, d, None))
  }

  function Candidates(ds: seq<YoloDetection>, enabled: set<string>, zoneOf: ZoneOf): seq<Candidate> {
    if ds == [] then []
    else
      var before, c := Candidates(ds[..|ds| - 1], enabled, zoneOf), CandidateOf(ds[|ds| - 1], enabled, zoneOf);
      if c.None? then before else before + [c.value]
  }

  /** `map_detections`. */
  method MapDetections(ds: seq<YoloDetection>, enabled: set<string>, zoneOf: ZoneOf) returns (results: seq<Candidate>)
    ensures results == Candidates(ds, enabled, zoneOf)
  {
    results := [];
    for i := 0 to |ds|
      invariant results == Candidates(ds[..i], enabled, zoneOf)
    {
      assert ds[..i + 1][..i] == ds[..i];
      var d := ds[i];
      var eventType := EventType(d.cocoClass);
      if eventType.None? {
        continue;
      }
      if eventType.value == "person" {
        var zone := zoneOf(d.bbox);
        if zone.Some? && "intrusion" in enabled {
          results := results + [Candidate("intrusion", d, zone)];
          continue;
        }
      }
      results := results + [Candidate(eventType.value, d, None)];
    }
    assert ds[..|ds|] == ds;
  }

  function Keep(cs: seq<Candidate>, p: Candidate -> bool): seq<Candidate> {
    if cs == [] then []
    else if p(cs[|cs| - 1]) then Keep(cs[..|cs| - 1], p) + [cs[|cs| - 1]]
    else Keep(cs[..|cs| - 1], p)
  }

  function Best(cs: seq<Candidate>): (m: real)
    requires cs != []
  {
    if |cs| == 1 then cs[0].det.confidence
    else
      var m := Best(cs[..|cs| - 1]);
      if cs[|cs| - 1].det.confidence > m then cs[|cs| - 1].det.confidence else m
  }

  // ---- Groups ----

  /** What candidates are grouped by: the event type, and the zone of an intrusion. */
  datatype Key = Key(eventType: string, zone: Option<string>)

  function KeyOf(c: Candidate): Key {
    if c.eventType == "intrusion" then Key("intrusion", c.zone) else Key(c.eventType, None)
  }

  function Group(cs: seq<Candidate>, k: Key): seq<Candidate> {
    Keep(cs, c => KeyOf(c) == k)
  }

  /** The zones of the intrusions, in order of first appearance. */
  function ZoneKeys(cs: seq<Candidate>): seq<Key> {
    if cs == [] then []
    else
      var before, c := ZoneKeys(cs[..|cs| - 1]), cs[|cs| - 1];
      if c.eventType == "intrusion" && KeyOf(c) !in before then before + [KeyOf(c)] else before
  }

  const TYPE_KEYS: seq<Key> := [Key("person", None), Key("vehicle", None), Key("animal", None)]

  function Relabel(c: Candidate): BoundingBox {
    c.det.bbox.(tag := c.det.cocoClass)
  }

  function Boxes(cs: seq<Candidate>): (bs: seq<BoundingBox>)
    ensures |bs| == |cs| && forall i :: 0 <= i < |cs| ==> bs[i] == Relabel(cs[i])
  {
    seq(|cs|, i requires 0 <= i < |cs| => Relabel(cs[i]))
  }

  function MakeEvent(k: Key, group: seq<Candidate>): DetectedEvent
    requires group != []
  {
    DetectedEvent(k.eventType, Best(group), if k.eventType == "intrusion" then "medium" else "low",
                  Boxes(group), k.zone)
  }

  /** One event for every key that has candidates. */
  function EventsFor(cs: seq<Candidate>, ks: seq<Key>): seq<DetectedEvent> {
    if ks == [] then []
    else
      var before, k := EventsFor(cs, ks[..|ks| - 1]), ks[|ks| - 1];
      if Group(cs, k) == [] then before else before + [MakeEvent(k, Group(cs, k))]
  }

  function Events(cs: seq<Candidate>): seq<DetectedEvent> {
    EventsFor(cs, TYPE_KEYS + ZoneKeys(cs))
  }

  lemma GroupSnoc(cs: seq<Candidate>, c: Candidate, k: Key)
    ensures Group(cs + [c], k) == if KeyOf(c) == k then Group(cs, k) + [c] else Group(cs, k)
  {
    assert (cs + [c])[..|cs|] == cs;
  }

  lemma {:induction false} GroupMembers(cs: seq<Candidate>, k: Key)
    ensures forall c :: c in Group(cs, k) <==> c in cs && KeyOf(c) == k
  {
    if cs != [] {
      GroupMembers(cs[..|cs| - 1], k);
      assert cs == cs[..|cs| - 1] + [cs[|cs| - 1]];
    }
  }

  lemma EventsForSnoc(cs: seq<Candidate>, ks: seq<Key>, k: Key)
    ensures EventsFor(cs, ks + [k]) ==
            if Group(cs, k) == [] then EventsFor(cs, ks) else EventsFor(cs, ks) + [MakeEvent(k, Group(cs, k))]
  {
    assert (ks + [k])[..|ks|] == ks;
  }

  /** `_build_events`. */
  method BuildEvents(qualifying: seq<Candidate>) returns (events: seq<DetectedEvent>)
    ensures events == Events(qualifying)
  {
    hide Group, MakeEvent, EventsFor, ZoneKeys;
    events := [];
    NoEvents(qualifying);
    for i := 0 to |TYPE_KEYS|
      invariant events == EventsFor(qualifying, TYPE_KEYS[..i])
    {
      var k := TYPE_KEYS[i];
      assert TYPE_KEYS[..i + 1] == TYPE_KEYS[..i] + [k];
      EventsForSnoc(qualifying, TYPE_KEYS[..i], k);
      var group := Group(qualifying, k);
      if group == [] {
        continue;
      }
      events := events + [MakeEvent(k, group)];
    }
    assert TYPE_KEYS[..|TYPE_KEYS|] == TYPE_KEYS;
    var names, groups := GroupByZone(qualifying);
    assert TYPE_KEYS + names[..0] == TYPE_KEYS;
    for i := 0 to |names|
      invariant events == EventsFor(qualifying, TYPE_KEYS + names[..i])
    {
      assert names[i] in names;
      assert TYPE_KEYS + names[..i + 1] == TYPE_KEYS + names[..i] + [names[i]];
      EventsForSnoc(qualifying, TYPE_KEYS + names[..i], names[i]);
      events := events + [MakeEvent(names[i], groups[names[i]])];
    }
    assert names[..|names|] == names;
  }

  lemma NoEvents(cs: seq<Candidate>)
    ensures EventsFor(cs, TYPE_KEYS[..0]) == []
  {
  }

  /** The dictionary after the intrusions of `cs`: its names in order of first
      appearance, each with the candidates of its zone. */
  ghost predicate Grouped(cs: seq<Candidate>, names: seq<Key>, groups: map<Key, seq<Candidate>>) {
    && names == ZoneKeys(cs)
    && (forall k :: k in groups <==> k in names)
    && (forall k :: k in groups ==> k.eventType == "intrusion" && groups[k] == Group(cs, k) && groups[k] != [])
    && (forall k: Key :: k.eventType == "intrusion" && k !in groups ==> Group(cs, k) == [])
  }

  lemma GroupedOther(cs: seq<Candidate>, names: seq<Key>, groups: map<Key, seq<Candidate>>, c: Candidate)
    requires Grouped(cs, names, groups) && c.eventType != "intrusion"
    ensures Grouped(cs + [c], names, groups)
  {
    hide Group;
    assert (cs + [c])[..|cs|] == cs;
    forall k: Key | k.eventType == "intrusion" ensures Group(cs + [c], k) == Group(cs, k) {
      GroupSnoc(cs, c, k);
    }
  }

  lemma ZoneKeysSnoc(cs: seq<Candidate>, c: Candidate)
    requires c.eventType == "intrusion"
    ensures ZoneKeys(cs + [c]) == if KeyOf(c) in ZoneKeys(cs) then ZoneKeys(cs) else ZoneKeys(cs) + [KeyOf(c)]
  {
    assert (cs + [c])[..|cs|] == cs;
  }

  lemma KeyOfIntrusion(c: Candidate)
    ensures KeyOf(c).eventType == "intrusion" <==> c.eventType == "intrusion"
  {
  }

  /** An intrusion in a zone seen before. */
  lemma GroupedAgain(cs: seq<Candidate>, names: seq<Key>, groups: map<Key, seq<Candidate>>, c: Candidate)
    requires Grouped(cs, names, groups) && c.eventType == "intrusion" && KeyOf(c) in groups
    ensures Grouped(cs + [c], names, groups[KeyOf(c) := groups[KeyOf(c)] + [c]])
  {
    hide Group, ZoneKeys, KeyOf;
    var more := cs + [c];
    ZoneKeysSnoc(cs, c);
    forall k: Key ensures Group(more, k) == if KeyOf(c) == k then Group(cs, k) + [c] else Group(cs, k) {
      GroupSnoc(cs, c, k);
    }
  }

  /** The first intrusion in a zone. */
  lemma GroupedFirst(cs: seq<Candidate>, names: seq<Key>, groups: map<Key, seq<Candidate>>, c: Candidate)
    requires Grouped(cs, names, groups) && c.eventType == "intrusion" && KeyOf(c) !in groups
    ensures Grouped(cs + [c], names + [KeyOf(c)], groups[KeyOf(c) := [c]])
  {
    hide Group, ZoneKeys, KeyOf;
    var more := cs + [c];
    KeyOfIntrusion(c);
    ZoneKeysSnoc(cs, c);
    assert Group(cs, KeyOf(c)) == [];
    forall k: Key ensures Group(more, k) == if KeyOf(c) == k then Group(cs, k) + [c] else Group(cs, k) {
      GroupSnoc(cs, c, k);
    }
  }

  /** `zones.setdefault(zone, []).append(c)` over the intrusions; the list of names
      is the insertion order of the dictionary. */
  method GroupByZone(cs: seq<Candidate>) returns (names: seq<Key>, groups: map<Key, seq<Candidate>>)
    ensures Grouped(cs, names, groups)
  {
    names, groups := [], map[];
    for i := 0 to |cs|
      invariant Grouped(cs[..i], names, groups)
    {
      var c := cs[i];
      assert cs[..i + 1] == cs[..i] + [c];
      if c.eventType == "intrusion" {
        var k := KeyOf(c);
        if k in groups {
          GroupedAgain(cs[..i], names, groups, c);
        } else {
          GroupedFirst(cs[..i], names, groups, c);
          names := names + [k];
          groups := groups[k := []];
        }
        groups := groups[k := groups[k] + [c]];
      } else {
        GroupedOther(cs[..i], names, groups, c);
      }
    }
    assert cs[..|cs|] == cs;
  }

  // ---- The grouping loses nothing ----

  function AllBoxes(es: seq<DetectedEvent>): seq<BoundingBox> {
    if es == [] then [] else AllBoxes(es[..|es| - 1]) + es[|es| - 1].boxes
  }

  /** Candidates of none of the keys. */
  function Others(cs: seq<Candidate>, ks: seq<Key>): seq<Candidate> {
    Keep(cs, c => KeyOf(c) !in ks)
  }

  ghost function Bag(cs: seq<Candidate>): multiset<BoundingBox> {
    multiset(Boxes(cs))
  }

  lemma BagSnoc(cs: seq<Candidate>, c: Candidate)
    ensures Bag(cs + [c]) == Bag(cs) + multiset{Relabel(c)}
  {
    assert Boxes(cs + [c]) == Boxes(cs) + [Relabel(c)];
  }

  lemma OthersSnoc(cs: seq<Candidate>, c: Candidate, ks: seq<Key>)
    ensures Others(cs + [c], ks) == if KeyOf(c) !in ks then Others(cs, ks) + [c] else Others(cs, ks)
  {
    assert (cs + [c])[..|cs|] == cs;
  }

  /** One more key takes exactly its group out of the others. */
  lemma {:induction false} TakeGroup(cs: seq<Candidate>, ks: seq<Key>, k: Key)
    requires k !in ks
    ensures Bag(Others(cs, ks)) == Bag(Group(cs, k)) + Bag(Others(cs, ks + [k]))
  {
    hide Group, Others, Bag;
    if cs == [] {
      NoCandidates(ks, k);
    } else {
      var p, c := cs[..|cs| - 1], cs[|cs| - 1];
      assert cs == p + [c];
      TakeGroup(p, ks, k);
      GroupSnoc(p, c, k);
      OthersSnoc(p, c, ks);
      OthersSnoc(p, c, ks + [k]);
      BagSnoc(Group(p, k), c);
      BagSnoc(Others(p, ks), c);
      BagSnoc(Others(p, ks + [k]), c);
    }
  }

  lemma NoCandidates(ks: seq<Key>, k: Key)
    ensures Bag(Others([], ks)) == Bag(Group([], k)) + Bag(Others([], ks + [k]))
  {
  }

  ghost predicate DistinctKeys(ks: seq<Key>) {
    forall i, j :: 0 <= i < j < |ks| ==> ks[i] != ks[j]
  }

  lemma {:induction false} EventsAndOthers(cs: seq<Candidate>, ks: seq<Key>)
    requires DistinctKeys(ks)
    ensures multiset(AllBoxes(EventsFor(cs, ks))) + Bag(Others(cs, ks)) == Bag(cs)
  {
    hide Group, Others, Bag, MakeEvent;
    if ks == [] {
      NoKeys(cs);
    } else {
      var p, k := ks[..|ks| - 1], ks[|ks| - 1];
      assert ks == p + [k];
      assert k !in p;
      EventsAndOthers(cs, p);
      TakeGroup(cs, p, k);
      EventsForSnoc(cs, p, k);
      EventBoxes(EventsFor(cs, p), cs, k);
    }
  }

  lemma EventBoxes(es: seq<DetectedEvent>, cs: seq<Candidate>, k: Key)
    ensures Group(cs, k) != [] ==>
      multiset(AllBoxes(es + [MakeEvent(k, Group(cs, k))])) == multiset(AllBoxes(es)) + Bag(Group(cs, k))
    ensures Group(cs, k) == [] ==> Bag(Group(cs, k)) == multiset{}
  {
    hide Group;
    if Group(cs, k) != [] {
      var e := MakeEvent(k, Group(cs, k));
      assert (es + [e])[..|es|] == es;
      assert multiset(AllBoxes(es) + e.boxes) == multiset(AllBoxes(es)) + multiset(e.boxes);
    }
  }

  lemma {:induction false} NoKeys(cs: seq<Candidate>)
    ensures Others(cs, []) == cs && AllBoxes(EventsFor(cs, [])) == []
  {
    if cs != [] {
      NoKeys(cs[..|cs| - 1]);
    }
  }

  lemma {:induction false} ZoneKeysMeaning(cs: seq<Candidate>)
    ensures DistinctKeys(ZoneKeys(cs))
    ensures forall c :: c in cs && c.eventType == "intrusion" ==> KeyOf(c) in ZoneKeys(cs)
    ensures forall k :: k in ZoneKeys(cs) ==> k.eventType == "intrusion"
  {
    if cs != [] {
      ZoneKeysMeaning(cs[..|cs| - 1]);
      assert cs == cs[..|cs| - 1] + [cs[|cs| - 1]];
    }
  }

  lemma {:induction false} OthersEmpty(cs: seq<Candidate>, ks: seq<Key>)
    requires forall c :: c in cs ==> KeyOf(c) in ks
    ensures Others(cs, ks) == []
  {
    if cs != [] {
      assert cs[|cs| - 1] in cs;
      OthersEmpty(cs[..|cs| - 1], ks);
    }
  }

  lemma AllKeysDistinct(cs: seq<Candidate>)
    ensures DistinctKeys(TYPE_KEYS + ZoneKeys(cs))
  {
    ZoneKeysMeaning(cs);
    var z := ZoneKeys(cs);
    assert forall i :: 0 <= i < |z| ==> z[i] in z;
    assert TYPE_KEYS[0] != TYPE_KEYS[1] && TYPE_KEYS[0] != TYPE_KEYS[2] && TYPE_KEYS[1] != TYPE_KEYS[2] by {
      assert "person"[0] != "vehicle"[0] && "person"[0] != "animal"[0] && "vehicle"[0] != "animal"[0];
    }
    assert forall i :: 0 <= i < 3 ==> TYPE_KEYS[i].eventType != "intrusion" by {
      assert "person"[0] != "intrusion"[0] && "vehicle"[0] != "intrusion"[0] && "animal"[0] != "intrusion"[0];
    }
  }

  /** Every candidate's box ends up in exactly one event. */
  lemma EventsLoseNothing(cs: seq<Candidate>)
    requires forall c :: c in cs ==> c.eventType in FASTPATH
    ensures multiset(AllBoxes(Events(cs))) == Bag(cs)
  {
    hide EventsFor, Others;
    var ks := TYPE_KEYS + ZoneKeys(cs);
    AllKeysDistinct(cs);
    EventsAndOthers(cs, ks);
    ZoneKeysMeaning(cs);
    forall c | c in cs ensures KeyOf(c) in ks {
      if c.eventType != "intrusion" {
        assert KeyOf(c) == TYPE_KEYS[0] || KeyOf(c) == TYPE_KEYS[1] || KeyOf(c) == TYPE_KEYS[2];
      }
    }
    OthersEmpty(cs, ks);
    assert Boxes([]) == [];
  }

  lemma {:induction false} BestMeaning(cs: seq<Candidate>)
    requires cs != []
    ensures forall c :: c in cs ==> c.det.confidence <= Best(cs)
    ensures exists c :: c in cs && c.det.confidence == Best(cs)
  {
    var last := cs[|cs| - 1];
    assert last in cs;
    if |cs| > 1 {
      var p := cs[..|cs| - 1];
      BestMeaning(p);
      assert cs == p + [last];
      var c :| c in p && c.det.confidence == Best(p);
      assert c in cs;
    }
  }

  /** An event stands for one group of candidates: all those of its type, and of its
      zone if it is an intrusion. */
  ghost predicate StandsFor(e: DetectedEvent, cs: seq<Candidate>, k: Key) {
    var g := Group(cs, k);
    && g != [] && e == MakeEvent(k, g)
    && (forall c :: c in g <==> c in cs && KeyOf(c) == k)
    && (forall c :: c in g ==> c.det.confidence <= e.confidence)
    && (exists c :: c in g && c.det.confidence == e.confidence)
  }

  ghost predicate Justified(e: DetectedEvent, cs: seq<Candidate>, ks: seq<Key>) {
    exists k :: k in ks && StandsFor(e, cs, k)
  }

  lemma {:induction false} EventsStandForGroups(cs: seq<Candidate>, ks: seq<Key>)
    ensures forall i :: 0 <= i < |EventsFor(cs, ks)| ==> Justified(EventsFor(cs, ks)[i], cs, ks)
  {
    hide Group, MakeEvent, StandsFor;
    if ks != [] {
      var p, k := ks[..|ks| - 1], ks[|ks| - 1];
      assert ks == p + [k];
      EventsForSnoc(cs, p, k);
      EventsStandForGroups(cs, p);
      if Group(cs, k) != [] {
        MadeStandsFor(cs, k);
      }
      var es := EventsFor(cs, p);
      forall i | 0 <= i < |EventsFor(cs, ks)| ensures Justified(EventsFor(cs, ks)[i], cs, ks) {
        if i < |es| {
          var x :| x in p && StandsFor(es[i], cs, x);
          assert x in ks;
        } else {
          assert k in ks && StandsFor(EventsFor(cs, ks)[i], cs, k);
        }
      }
    }
  }

  lemma MadeStandsFor(cs: seq<Candidate>, k: Key)
    requires Group(cs, k) != []
    ensures StandsFor(MakeEvent(k, Group(cs, k)), cs, k)
  {
    hide Group;
    GroupMembers(cs, k);
    BestMeaning(Group(cs, k));
  }

  // ---- The decision ----

  function Enabled(ds: seq<YoloDetection>, enabled: set<string>, zoneOf: ZoneOf): seq<Candidate> {
    Keep(Candidates(ds, enabled, zoneOf), (c: Candidate) => c.eventType in enabled)
  }

  function Qualifying(cs: seq<Candidate>, fast: real): seq<Candidate> {
    Keep(cs, (c: Candidate) => c.det.confidence >= fast)
  }

  function Decided(ds: seq<YoloDetection>, enabled: set<string>, zoneOf: ZoneOf, fast: real, floor: real): Decision {
    if !(enabled <= FASTPATH) then Escalate
    else
      var cs := Enabled(ds, enabled, zoneOf);
      if cs == [] then Drop
      else if Best(cs) < floor then Drop
      else if Best(cs) < fast then Escalate
      else Emit(Events(Qualifying(cs, fast)))
  }

  /** `decide`. */
  method Decide(ds: seq<YoloDetection>, enabled: set<string>, zoneOf: ZoneOf, fast: real, floor: real)
    returns (d: Decision)
    ensures d == Decided(ds, enabled, zoneOf, fast, floor) && DecidedBy(d, ds, enabled, zoneOf, fast, floor)
    ensures d.Emit? ==> multiset(AllBoxes(d.events)) == FastBoxes(ds, enabled, zoneOf, fast)
    ensures d.Emit? ==> KindsDistinct(d.events)
    ensures d.Emit? ==>
      forall i :: 0 <= i < |d.events| ==> ShowsKind(d.events[i], ds, enabled, zoneOf, fast)
  {
    hide Events, DecidedBy, ShowsKind, KindsDistinct;
    DecisionMeaning(ds, enabled, zoneOf, fast, floor);
    if Decided(ds, enabled, zoneOf, fast, floor).Emit? {
      EmissionShows(ds, enabled, zoneOf, fast, floor);
      EmissionKinds(ds, enabled, zoneOf, fast, floor);
    }
    if !(enabled <= FASTPATH) {
      return Escalate;
    }
    var mapped := MapDetections(ds, enabled, zoneOf);
    var candidates := Keep(mapped, (c: Candidate) => c.eventType in enabled);
    if candidates == [] {
      return Drop;
    }
    var best := Best(candidates);
    if best < floor {
      return Drop;
    }
    if best < fast {
      return Escalate;
    }
    var qualifying := Keep(candidates, (c: Candidate) => c.det.confidence >= fast);
    var events := BuildEvents(qualifying);
    return Emit(events);
  }

  lemma {:induction false} KeepMembers(cs: seq<Candidate>, p: Candidate -> bool)
    ensures forall c :: c in Keep(cs, p) <==> c in cs && p(c)
  {
    if cs != [] {
      KeepMembers(cs[..|cs| - 1], p);
      assert cs == cs[..|cs| - 1] + [cs[|cs| - 1]];
    }
  }

  /** What an emission contains: every qualifying candidate's box once, in non-empty
      events of enabled types, each for one group and with that group's best
      confidence, which is at least the fast-path one. */
  lemma EmissionIsComplete(ds: seq<YoloDetection>, enabled: set<string>, zoneOf: ZoneOf, fast: real, floor: real)
    requires Decided(ds, enabled, zoneOf, fast, floor).Emit?
    ensures var es := Decided(ds, enabled, zoneOf, fast, floor).events;
      var qs := Qualifying(Enabled(ds, enabled, zoneOf), fast);
      && multiset(AllBoxes(es)) == Bag(qs)
      && (forall i :: 0 <= i < |es| ==>
            es[i].boxes != [] && es[i].eventType in enabled && es[i].confidence >= fast &&
            es[i].severity == (if es[i].eventType == "intrusion" then "medium" else "low") &&
            (es[i].zone.Some? ==> es[i].eventType == "intrusion") &&
            Justified(es[i], qs, TYPE_KEYS + ZoneKeys(qs)))
  {
    hide EventsFor, StandsFor, Bag, Candidates;
    var cs := Enabled(ds, enabled, zoneOf);
    var qs := Qualifying(cs, fast);
    KeepMembers(Candidates(ds, enabled, zoneOf), (c: Candidate) => c.eventType in enabled);
    KeepMembers(cs, (c: Candidate) => c.det.confidence >= fast);
    EventsLoseNothing(qs);
    var ks := TYPE_KEYS + ZoneKeys(qs);
    EventsStandForGroups(qs, ks);
    var es := Events(qs);
    forall i | 0 <= i < |es|
      ensures es[i].boxes != [] && es[i].eventType in enabled && es[i].confidence >= fast
      ensures es[i].severity == (if es[i].eventType == "intrusion" then "medium" else "low")
      ensures es[i].zone.Some? ==> es[i].eventType == "intrusion"
    {
      assert Justified(EventsFor(qs, ks)[i], qs, ks);
      var k :| k in ks && StandsFor(es[i], qs, k);
      StandsForMeaning(es[i], qs, k);
      var c :| c in qs && c.eventType == es[i].eventType && c.det.confidence == es[i].confidence;
    }
  }

  lemma StandsForMeaning(e: DetectedEvent, qs: seq<Candidate>, k: Key)
    requires StandsFor(e, qs, k)
    ensures e.boxes != []
    ensures e.severity == (if e.eventType == "intrusion" then "medium" else "low")
    ensures e.zone.Some? ==> e.eventType == "intrusion"
    ensures exists c :: c in qs && c.eventType == e.eventType && c.det.confidence == e.confidence
  {
    hide Group;
    var c :| c in Group(qs, k) && c.det.confidence == e.confidence;
    assert c in qs && c.eventType == k.eventType;
  }

  // ---- The decision, from the detections themselves ----

  /** The detection counts as the event type, where it lies. */
  predicate Counts(d: YoloDetection, t: string, enabled: set<string>, zoneOf: ZoneOf) {
    var trespass := zoneOf(d.bbox).Some? && "intrusion" in enabled;
    || (t == "person" && d.cocoClass == "person" && !trespass)
    || (t == "intrusion" && d.cocoClass == "person" && trespass)
    || (t == "vehicle" && d.cocoClass in {"car", "truck", "bus", "motorcycle"})
    || (t == "animal" && d.cocoClass in {"dog", "cat", "bird", "horse"})
  }

  /** It counts as a type that the camera reports. */
  ghost predicate Relevant(d: YoloDetection, enabled: set<string>, zoneOf: ZoneOf) {
    exists t :: t in enabled && Counts(d, t, enabled, zoneOf)
  }

  lemma NamesDiffer()
    ensures "person" != "vehicle" && "person" != "animal" && "person" != "intrusion"
    ensures "vehicle" != "animal" && "vehicle" != "intrusion" && "animal" != "intrusion"
    ensures "person" !in {"car", "truck", "bus", "motorcycle"} && "person" !in {"dog", "cat", "bird", "horse"}
    ensures {"car", "truck", "bus", "motorcycle"} !! {"dog", "cat", "bird", "horse"}
  {
    assert "person"[0] == 'p' && "vehicle"[0] == 'v' && "animal"[0] == 'a' && "intrusion"[0] == 'i';
    assert "car"[1] == 'a' && "truck"[0] == 't' && "bus"[1] == 'u' && "motorcycle"[0] == 'm';
    assert "dog"[0] == 'd' && "cat"[2] == 't' && "bird"[1] == 'i' && "horse"[0] == 'h';
    assert "cat"[0] == 'c' && "bird"[0] == 'b' && "car"[0] == 'c' && "bus"[0] == 'b' && "car"[2] == 'r';
  }

  lemma CandidateCounts(d: YoloDetection, enabled: set<string>, zoneOf: ZoneOf, t: string)
    ensures Counts(d, t, enabled, zoneOf) <==>
            CandidateOf(d, enabled, zoneOf).Some? && CandidateOf(d, enabled, zoneOf).value.eventType == t
    ensures CandidateOf(d, enabled, zoneOf).Some? ==> CandidateOf(d, enabled, zoneOf).value.det == d
  {
    NamesDiffer();
  }

  lemma {:induction false} CandidatesFrom(ds: seq<YoloDetection>, enabled: set<string>, zoneOf: ZoneOf)
    ensures forall c :: c in Candidates(ds, enabled, zoneOf) <==>
      exists i :: 0 <= i < |ds| && CandidateOf(ds[i], enabled, zoneOf) == Some(c)
  {
    if ds != [] {
      hide CandidateOf;
      CandidatesFrom(ds[..|ds| - 1], enabled, zoneOf);
      assert forall i :: 0 <= i < |ds| - 1 ==> ds[..|ds| - 1][i] == ds[i];
    }
  }

  lemma EnabledFrom(ds: seq<YoloDetection>, enabled: set<string>, zoneOf: ZoneOf)
    ensures forall c :: c in Enabled(ds, enabled, zoneOf) ==> c.det in ds && Relevant(c.det, enabled, zoneOf)
    ensures forall d :: d in ds && Relevant(d, enabled, zoneOf) ==>
      exists c :: c in Enabled(ds, enabled, zoneOf) && c.det == d
  {
    hide Candidates, CandidateOf, Counts, Keep;
    CandidatesFrom(ds, enabled, zoneOf);
    KeepMembers(Candidates(ds, enabled, zoneOf), (c: Candidate) => c.eventType in enabled);
    forall c | c in Enabled(ds, enabled, zoneOf) ensures c.det in ds && Relevant(c.det, enabled, zoneOf) {
      var i :| 0 <= i < |ds| && CandidateOf(ds[i], enabled, zoneOf) == Some(c);
      CandidateCounts(ds[i], enabled, zoneOf, c.eventType);
    }
    forall d | d in ds && Relevant(d, enabled, zoneOf)
      ensures exists c :: c in Enabled(ds, enabled, zoneOf) && c.det == d
    {
      var t :| t in enabled && Counts(d, t, enabled, zoneOf);
      CandidateCounts(d, enabled, zoneOf, t);
      var i :| 0 <= i < |ds| && ds[i] == d;
      assert CandidateOf(ds[i], enabled, zoneOf).value in Enabled(ds, enabled, zoneOf);
    }
  }

  /** What is decided: escalate if a type is enabled that the fast path does not know;
      otherwise drop exactly if every relevant detection is below the floor, emit
      exactly if one reaches both bounds, and escalate in between. */
  ghost predicate DecidedBy(d: Decision, ds: seq<YoloDetection>, enabled: set<string>, zoneOf: ZoneOf, fast: real,
                            floor: real)
  {
    if exists t :: t in enabled && t !in {"person", "vehicle", "animal", "intrusion"} then d == Escalate
    else
      && (d.Drop? <==> forall x :: x in ds && Relevant(x, enabled, zoneOf) ==> x.confidence < floor)
      && (d.Emit? <==>
            exists x :: x in ds && Relevant(x, enabled, zoneOf) && x.confidence >= floor && x.confidence >= fast)
  }

  lemma DecisionMeaning(ds: seq<YoloDetection>, enabled: set<string>, zoneOf: ZoneOf, fast: real, floor: real)
    ensures DecidedBy(Decided(ds, enabled, zoneOf, fast, floor), ds, enabled, zoneOf, fast, floor)
  {
    hide Events, Enabled, Relevant, Best;
    var cs := Enabled(ds, enabled, zoneOf);
    EnabledFrom(ds, enabled, zoneOf);
    if cs != [] {
      BestMeaning(cs);
      var top :| top in cs && top.det.confidence == Best(cs);
      assert top.det in ds && Relevant(top.det, enabled, zoneOf);
      forall x | x in ds && Relevant(x, enabled, zoneOf) ensures x.confidence <= Best(cs) {
        var c :| c in cs && c.det == x;
      }
    } else {
      assert forall x :: x in ds ==> !Relevant(x, enabled, zoneOf);
    }
  }

  /** The boxes of the relevant detections that reach the fast-path confidence, each
      labelled with its class. */
  ghost function FastBoxes(ds: seq<YoloDetection>, enabled: set<string>, zoneOf: ZoneOf, fast: real)
    : multiset<BoundingBox>
  {
    if ds == [] then multiset{}
    else
      var d := ds[|ds| - 1];
      FastBoxes(ds[..|ds| - 1], enabled, zoneOf, fast) +
      if Relevant(d, enabled, zoneOf) && d.confidence >= fast
      then multiset{BoundingBox(d.bbox.x1, d.bbox.y1, d.bbox.x2, d.bbox.y2, d.cocoClass)} else multiset{}
  }

  lemma KeepSnoc(cs: seq<Candidate>, c: Candidate, p: Candidate -> bool)
    ensures Keep(cs + [c], p) == if p(c) then Keep(cs, p) + [c] else Keep(cs, p)
  {
    assert (cs + [c])[..|cs|] == cs;
  }

  lemma {:induction false} QualifyingBoxes(ds: seq<YoloDetection>, enabled: set<string>, zoneOf: ZoneOf, fast: real)
    ensures Bag(Qualifying(Enabled(ds, enabled, zoneOf), fast)) == FastBoxes(ds, enabled, zoneOf, fast)
  {
    if ds == [] {
      assert Boxes([]) == [];
    } else {
      hide Counts, CandidateOf, Keep, Bag;
      var front, d := ds[..|ds| - 1], ds[|ds| - 1];
      QualifyingBoxes(front, enabled, zoneOf, fast);
      var e: Candidate -> bool := (c: Candidate) => c.eventType in enabled;
      var q: Candidate -> bool := (c: Candidate) => c.det.confidence >= fast;
      var cs, x := Candidates(front, enabled, zoneOf), CandidateOf(d, enabled, zoneOf);
      RelevantIff(d, enabled, zoneOf);
      if x.Some? {
        KeepSnoc(cs, x.value, e);
        KeepSnoc(Keep(cs, e), x.value, q);
        BagSnoc(Keep(Keep(cs, e), q), x.value);
      }
    }
  }

  lemma RelevantIff(d: YoloDetection, enabled: set<string>, zoneOf: ZoneOf)
    ensures var x := CandidateOf(d, enabled, zoneOf);
      && (Relevant(d, enabled, zoneOf) <==> x.Some? && x.value.eventType in enabled)
      && (x.Some? ==> x.value.det == d)
  {
    hide Counts, CandidateOf;
    var x := CandidateOf(d, enabled, zoneOf);
    if x.Some? {
      CandidateCounts(d, enabled, zoneOf, x.value.eventType);
    }
    forall t ensures Counts(d, t, enabled, zoneOf) <==> x.Some? && x.value.eventType == t {
      CandidateCounts(d, enabled, zoneOf, t);
    }
  }

  /** The detection belongs in an event of that type and zone. */
  predicate BelongsIn(d: YoloDetection, t: string, zone: Option<string>, enabled: set<string>, zoneOf: ZoneOf,
                      fast: real)
  {
    && t in enabled && Counts(d, t, enabled, zoneOf) && d.confidence >= fast
    && zone == if t == "intrusion" then zoneOf(d.bbox) else None
  }

  /** The boxes of the detections that belong in such an event. */
  ghost function KindBoxes(ds: seq<YoloDetection>, t: string, zone: Option<string>, enabled: set<string>,
                           zoneOf: ZoneOf, fast: real): multiset<BoundingBox>
  {
    if ds == [] then multiset{}
    else
      var d := ds[|ds| - 1];
      KindBoxes(ds[..|ds| - 1], t, zone, enabled, zoneOf, fast) +
      if BelongsIn(d, t, zone, enabled, zoneOf, fast)
      then multiset{BoundingBox(d.bbox.x1, d.bbox.y1, d.bbox.x2, d.bbox.y2, d.cocoClass)} else multiset{}
  }

  lemma CandidateZone(d: YoloDetection, enabled: set<string>, zoneOf: ZoneOf)
    ensures var x := CandidateOf(d, enabled, zoneOf);
      x.Some? ==> x.value.zone == if x.value.eventType == "intrusion" then zoneOf(d.bbox) else None
  {
    NamesDiffer();
  }

  lemma BelongsIff(d: YoloDetection, k: Key, enabled: set<string>, zoneOf: ZoneOf, fast: real)
    ensures var x := CandidateOf(d, enabled, zoneOf);
      && (BelongsIn(d, k.eventType, k.zone, enabled, zoneOf, fast) <==>
            x.Some? && x.value.eventType in enabled && d.confidence >= fast && KeyOf(x.value) == k)
      && (x.Some? ==> x.value.det == d)
  {
    hide Counts, CandidateOf;
    CandidateZone(d, enabled, zoneOf);
    CandidateCounts(d, enabled, zoneOf, k.eventType);
  }

  lemma {:induction false} GroupBoxes(ds: seq<YoloDetection>, k: Key, enabled: set<string>, zoneOf: ZoneOf, fast: real)
    ensures Bag(Group(Qualifying(Enabled(ds, enabled, zoneOf), fast), k)) ==
            KindBoxes(ds, k.eventType, k.zone, enabled, zoneOf, fast)
  {
    if ds == [] {
      assert Boxes([]) == [];
    } else {
      hide BelongsIn, CandidateOf, Keep, Bag, Group, KeyOf;
      var front, d := ds[..|ds| - 1], ds[|ds| - 1];
      GroupBoxes(front, k, enabled, zoneOf, fast);
      var e: Candidate -> bool := (c: Candidate) => c.eventType in enabled;
      var q: Candidate -> bool := (c: Candidate) => c.det.confidence >= fast;
      var cs, x := Candidates(front, enabled, zoneOf), CandidateOf(d, enabled, zoneOf);
      BelongsIff(d, k, enabled, zoneOf, fast);
      if x.Some? {
        KeepSnoc(cs, x.value, e);
        KeepSnoc(Keep(cs, e), x.value, q);
        GroupSnoc(Keep(Keep(cs, e), q), x.value, k);
        BagSnoc(Group(Keep(Keep(cs, e), q), k), x.value);
      }
    }
  }

  /** The event shows exactly the detections of its type and zone. */
  ghost predicate ShowsKind(e: DetectedEvent, ds: seq<YoloDetection>, enabled: set<string>, zoneOf: ZoneOf,
                            fast: real)
  {
    multiset(e.boxes) == KindBoxes(ds, e.eventType, e.zone, enabled, zoneOf, fast)
  }

  /** No two events are of the same type and zone. */
  ghost predicate KindsDistinct(es: seq<DetectedEvent>) {
    forall i, j :: 0 <= i < j < |es| ==> es[i].eventType != es[j].eventType || es[i].zone != es[j].zone
  }

  lemma {:induction false} EventKinds(cs: seq<Candidate>, ks: seq<Key>)
    requires DistinctKeys(ks)
    ensures forall i :: 0 <= i < |EventsFor(cs, ks)| ==>
      Key(EventsFor(cs, ks)[i].eventType, EventsFor(cs, ks)[i].zone) in ks
    ensures KindsDistinct(EventsFor(cs, ks))
  {
    if ks != [] {
      hide Group, Best, Boxes;
      var p, k := ks[..|ks| - 1], ks[|ks| - 1];
      assert ks == p + [k];
      assert k !in p;
      EventKinds(cs, p);
    }
  }

  lemma ShowsItsKind(e: DetectedEvent, ds: seq<YoloDetection>, ks: seq<Key>, enabled: set<string>, zoneOf: ZoneOf,
                     fast: real)
    requires Justified(e, Qualifying(Enabled(ds, enabled, zoneOf), fast), ks)
    ensures ShowsKind(e, ds, enabled, zoneOf, fast)
  {
    hide Group, Enabled, Qualifying, KindBoxes, Best;
    var qs := Qualifying(Enabled(ds, enabled, zoneOf), fast);
    var k :| k in ks && StandsFor(e, qs, k);
    GroupBoxes(ds, k, enabled, zoneOf, fast);
  }

  lemma EmissionKinds(ds: seq<YoloDetection>, enabled: set<string>, zoneOf: ZoneOf, fast: real, floor: real)
    requires Decided(ds, enabled, zoneOf, fast, floor).Emit?
    ensures var es := Decided(ds, enabled, zoneOf, fast, floor).events;
      KindsDistinct(es) && forall i :: 0 <= i < |es| ==> ShowsKind(es[i], ds, enabled, zoneOf, fast)
  {
    hide EventsFor, Enabled, Qualifying, Best, Justified, ShowsKind, KindsDistinct;
    var qs := Qualifying(Enabled(ds, enabled, zoneOf), fast);
    EmissionIsComplete(ds, enabled, zoneOf, fast, floor);
    AllKeysDistinct(qs);
    EventKinds(qs, TYPE_KEYS + ZoneKeys(qs));
    var es := Events(qs);
    forall i | 0 <= i < |es| ensures ShowsKind(es[i], ds, enabled, zoneOf, fast) {
      ShowsItsKind(es[i], ds, TYPE_KEYS + ZoneKeys(qs), enabled, zoneOf, fast);
    }
  }

  /** An emission shows exactly those boxes. */
  lemma EmissionShows(ds: seq<YoloDetection>, enabled: set<string>, zoneOf: ZoneOf, fast: real, floor: real)
    requires Decided(ds, enabled, zoneOf, fast, floor).Emit?
    ensures multiset(AllBoxes(Decided(ds, enabled, zoneOf, fast, floor).events)) == FastBoxes(ds, enabled, zoneOf, fast)
  {
    hide Events, Enabled, Qualifying, Best, Justified;
    EmissionIsComplete(ds, enabled, zoneOf, fast, floor);
    QualifyingBoxes(ds, enabled, zoneOf, fast);
  }

  // ---- More detections never weaken the decision ----

  function Rank(d: Decision): nat {
    match d
    case Drop => 0
    case Escalate => 1
    case Emit(_) => 2
  }

  lemma {:induction false} CandidatesConcat(a: seq<YoloDetection>, b: seq<YoloDetection>,
                                            enabled: set<string>, zoneOf: ZoneOf)
    ensures Candidates(a + b, enabled, zoneOf) == Candidates(a, enabled, zoneOf) + Candidates(b, enabled, zoneOf)
  {
    if b == [] {
      assert a + b == a;
    } else {
      CandidatesConcat(a, b[..|b| - 1], enabled, zoneOf);
      assert (a + b)[..|a + b| - 1] == a + b[..|b| - 1];
    }
  }

  lemma {:induction false} KeepConcat(a: seq<Candidate>, b: seq<Candidate>, p: Candidate -> bool)
    ensures Keep(a + b, p) == Keep(a, p) + Keep(b, p)
  {
    if b == [] {
      assert a + b == a;
    } else {
      KeepConcat(a, b[..|b| - 1], p);
      assert (a + b)[..|a + b| - 1] == a + b[..|b| - 1];
    }
  }

  /** Appending detections never moves the decision down the order drop, escalate,
      emit. */
  lemma DecisionIsMonotone(ds: seq<YoloDetection>, more: seq<YoloDetection>, enabled: set<string>, zoneOf: ZoneOf,
                           fast: real, floor: real)
    ensures Rank(Decided(ds, enabled, zoneOf, fast, floor)) <= Rank(Decided(ds + more, enabled, zoneOf, fast, floor))
  {
    hide Events, Candidates, Keep;
    CandidatesConcat(ds, more, enabled, zoneOf);
    KeepConcat(Candidates(ds, enabled, zoneOf), Candidates(more, enabled, zoneOf),
               (c: Candidate) => c.eventType in enabled);
    var a, b := Enabled(ds, enabled, zoneOf), Enabled(more, enabled, zoneOf);
    assert Enabled(ds + more, enabled, zoneOf) == a + b;
    if a != [] {
      BestMeaning(a);
      BestMeaning(a + b);
      var c :| c in a && c.det.confidence == Best(a);
      assert c in a + b;
    }
  }

  /** No detection counts twice: with intrusions enabled, the person candidates are
      exactly the persons outside every zone, the intrusions those inside one. */
  lemma {:induction false} PersonOrIntrusion(ds: seq<YoloDetection>, enabled: set<string>, zoneOf: ZoneOf)
    ensures |Candidates(ds, enabled, zoneOf)| <= |ds|
    ensures forall c :: c in Candidates(ds, enabled, zoneOf) ==> c.det in ds
    ensures forall c :: c in Candidates(ds, enabled, zoneOf) && "intrusion" in enabled &&
                        c.det.cocoClass == "person" ==>
      if c.eventType == "intrusion" then zoneOf(c.det.bbox) == c.zone && c.zone.Some?
      else c.eventType == "person" && zoneOf(c.det.bbox).None?
  {
    if ds != [] {
      PersonOrIntrusion(ds[..|ds| - 1], enabled, zoneOf);
      assert ds == ds[..|ds| - 1] + [ds[|ds| - 1]];
    }
  }
}
