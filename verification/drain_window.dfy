/** The window between an answer and the deletion of its row: a drain cut short
    there, and only there, has a row answered twice. */
module DrainWindow {
  import opened OfflineQueues
  import opened DrainProtocol

  // ---- One step ----

  /** No row that can still be posted has been answered. */
  ghost predicate Unanswered(s: State)
    requires Shaped(s)
  {
    forall id: nat :: Postable(s, id) ==> Times(s.accepted, s.rejected, id) == 0
  }

  /** The step cuts the drain short while an answered row of it is still stored. */
  ghost predicate Cuts(s: State, a: Action) {
    a.Abort? && exists id: nat :: Among(Undeleted(s.phase), id) && Holds(s.rows, id)
  }

  lemma EnqueueUnanswered(s: State, p: Payload)
    requires Inv(s) && Unanswered(s)
    ensures Shaped(Step(s, Enqueue(p))) && Unanswered(Step(s, Enqueue(p)))
  {
    var r, s' := Row(s.nextId, p, 0), Step(s, Enqueue(p));
    StepShaped(s, Enqueue(p));
    InsertMeaning(s.rows, r, Cap(s.maxRows));
    forall id: nat | Postable(s', id) ensures Postable(s, id) || id == s.nextId {
      HoldsConcat(s.rows, [r], id);
      assert [r][0] == r;
    }
  }

  lemma StartUnanswered(s: State)
    requires Inv(s) && Unanswered(s)
    ensures Shaped(Step(s, Start)) && Unanswered(Step(s, Start))
  {
    StepShaped(s, Start);
    if s.phase.Idle? {
      assert [] + Peek(s.rows, BATCH) == Peek(s.rows, BATCH);
      forall id: nat | Postable(Step(s, Start), id) ensures Postable(s, id) {
        if Holds(Peek(s.rows, BATCH), id) {
          PeekHolds(s.rows, BATCH, id);
        }
      }
    }
  }

  lemma DecodeUnanswered(s: State)
    requires Inv(s) && Unanswered(s)
    ensures Shaped(Step(s, Decode)) && Unanswered(Step(s, Decode))
  {
    hide Holds, Among, Shaped;
    StepShaped(s, Decode);
    if s.phase.Decoding? {
      DecodeUnposted(s);
      NothingAmong();
    }
  }

  lemma AnswerUnanswered(s: State, resp: Response)
    requires Inv(s) && Unanswered(s)
    ensures Shaped(Step(s, Answer(resp))) && Unanswered(Step(s, Answer(resp)))
  {
    hide Step, Postable, Shaped;
    StepShaped(s, Answer(resp));
    if s.phase.Posting? && s.phase.idx < |s.phase.batch| {
      forall id: nat | Postable(Step(s, Answer(resp)), id)
        ensures Times(Step(s, Answer(resp)).accepted, Step(s, Answer(resp)).rejected, id) == 0
      {
        AnswerChanges(s, resp, id);
      }
    } else {
      NotPosting(s, resp);
    }
  }

  lemma NotPosting(s: State, resp: Response)
    requires Shaped(s) && !(s.phase.Posting? && s.phase.idx < |s.phase.batch|)
    ensures Step(s, Answer(resp)) == s
  {
  }

  lemma DeleteUnanswered(s: State)
    requires Inv(s) && Unanswered(s)
    ensures Shaped(Step(s, Delete)) && Unanswered(Step(s, Delete))
  {
    hide Holds, Among, Sorted, IdsBelow;
    StepShaped(s, Delete);
    if s.phase.Deleting? {
      WithoutAllMeaning(s.rows, s.phase.toDelete);
      NobodyHome();
    }
  }

  lemma BumpUnanswered(s: State)
    requires Inv(s) && Unanswered(s)
    ensures Shaped(Step(s, Bump)) && Unanswered(Step(s, Bump))
  {
    hide Holds, Among, Sorted, IdsBelow;
    StepShaped(s, Bump);
    if s.phase.Bumping? {
      BumpedAllIds(s.rows, s.phase.remaining);
      SameIds(BumpedAll(s.rows, s.phase.remaining), s.rows);
    }
  }

  lemma FinishUnanswered(s: State)
    requires Inv(s) && Unanswered(s)
    ensures Shaped(Step(s, Finish)) && Unanswered(Step(s, Finish))
  {
    hide Holds, Among, Sorted, IdsBelow;
    StepShaped(s, Finish);
    NobodyHome();
  }

  lemma AbortUnanswered(s: State)
    requires Inv(s) && Unanswered(s)
    ensures Shaped(Step(s, Abort)) && (Unanswered(Step(s, Abort)) <==> !Cuts(s, Abort))
  {
    hide Holds, Among, Sorted, IdsBelow;
    var s' := Step(s, Abort);
    StepShaped(s, Abort);
    NothingAmong();
    NobodyHome();
    if Cuts(s, Abort) {
      var id: nat :| Among(Undeleted(s.phase), id) && Holds(s.rows, id);
      assert Postable(s', id);
    }
  }

  /** No row that can still be posted has been answered: every step keeps this but
      one, and exactly one: cutting the drain short with an answered row of it still
      stored.  Where overflow has evicted the answered rows, the cut is harmless. */
  lemma StepKeepsUnanswered(s: State, a: Action)
    requires Inv(s) && Unanswered(s)
    ensures Inv(Step(s, a)) && (Unanswered(Step(s, a)) <==> !Cuts(s, a))
  {
    hide Step, Unanswered, Shaped, Accounted, AnsweredInHand, Once;
    StepInv(s, a);
    match a {
      case Enqueue(p) => EnqueueUnanswered(s, p);
      case Start => StartUnanswered(s);
      case Decode => DecodeUnanswered(s);
      case Answer(r) => AnswerUnanswered(s, r);
      case Finish => FinishUnanswered(s);
      case Delete => DeleteUnanswered(s);
      case Bump => BumpUnanswered(s);
      case Abort => AbortUnanswered(s);
    }
  }

  /** No row has been answered twice. */
  ghost predicate AtMostOnce(s: State) {
    forall id: nat :: Times(s.accepted, s.rejected, id) <= 1
  }

  lemma StepAnswersOnce(s: State, a: Action)
    requires Inv(s) && Unanswered(s) && AtMostOnce(s)
    ensures Inv(Step(s, a)) && AtMostOnce(Step(s, a))
  {
    hide Shaped, Accounted, AnsweredInHand, Once, Postable;
    StepInv(s, a);
    if a.Answer? && s.phase.Posting? && s.phase.idx < |s.phase.batch| {
      forall id: nat ensures Times(Step(s, a).accepted, Step(s, a).rejected, id) <= 1 {
        AnswerChanges(s, a.r, id);
      }
    }
  }

  // ---- Whole runs ----

  ghost predicate NeverCut(s: State, acts: seq<Action>)
    requires Inv(s)
    decreases |acts|
  {
    acts == [] || (!Cuts(s, acts[0]) && (StepInv(s, acts[0]); NeverCut(Step(s, acts[0]), acts[1..])))
  }

  lemma {:induction false} RunAnswersOnce(s: State, acts: seq<Action>)
    requires Inv(s) && Unanswered(s) && AtMostOnce(s) && NeverCut(s, acts)
    ensures Unanswered(Run(s, acts)) && AtMostOnce(Run(s, acts))
    decreases |acts|
  {
    hide Step, Unanswered, AtMostOnce, Cuts, Shaped, Accounted, AnsweredInHand, Once;
    if acts != [] {
      StepKeepsUnanswered(s, acts[0]);
      StepAnswersOnce(s, acts[0]);
      RunAnswersOnce(Step(s, acts[0]), acts[1..]);
    }
  }

  lemma StartsUnanswered(maxRows: int)
    ensures Inv(Init(maxRows)) && Unanswered(Init(maxRows)) && AtMostOnce(Init(maxRows)) && Coherent(Init(maxRows))
  {
    InvInit(maxRows);
  }

  /** In every interleaving of drains with enqueues, evictions and cut-offs in which
      no answered row is left stored by a cut, no row is accepted twice, or both
      accepted and rejected; and whenever the drain is at rest, the rows still stored
      are ones that have never been answered. */
  lemma AnsweredAtMostOnce(maxRows: int, acts: seq<Action>, id: nat)
    requires Inv(Init(maxRows)) && NeverCut(Init(maxRows), acts)
    ensures var s := RunFromStart(maxRows, acts);
      && Times(s.accepted, s.rejected, id) <= 1
      && (s.phase.Idle? && Holds(s.rows, id) ==> Times(s.accepted, s.rejected, id) == 0)
  {
    hide Shaped, Accounted, AnsweredInHand, Once, NeverCut, Run;
    StartsUnanswered(maxRows);
    RunAnswersOnce(Init(maxRows), acts);
    NothingAmong();
  }

  // ---- An answered row that is still stored is answered again ----

  /** The rows a drain has read and not yet forgotten. */
  function Read(p: Phase): seq<Row> {
    match p
    case Decoding(todo, batch) => batch + todo
    case Posting(batch, _, _) => batch
    case Deleting(batch, _, _) => batch
    case _ => []
  }

  /** The rows that have been decoded. */
  function Decoded(p: Phase): seq<Row> {
    if p.Decoding? then p.batch else Read(p)
  }

  ghost predicate SamePayloads(a: seq<Row>, b: seq<Row>) {
    forall r, q :: r in a && q in b && r.id == q.id ==> r.payload == q.payload
  }

  /** A drain works on what is stored, and only rows that decode are answered. */
  ghost predicate Coherent(s: State) {
    && SamePayloads(Read(s.phase), s.rows)
    && (forall r :: r in Decoded(s.phase) ==> r.payload.Json?)
    && (forall q :: q in s.rows && Times(s.accepted, s.rejected, q.id) > 0 ==> q.payload.Json?)
  }

  lemma EnqueueCoherent(s: State, p: Payload)
    requires Inv(s) && Coherent(s)
    ensures Coherent(Step(s, Enqueue(p)))
  {
    hide Holds, Accounted, Once;
    var r, s' := Row(s.nextId, p, 0), Step(s, Enqueue(p));
    assert forall q :: q in s'.rows ==> q in s.rows || q == r;
    forall q | q in Read(s.phase) ensures q.id < s.nextId {
    }
  }

  lemma StartCoherent(s: State)
    requires Inv(s) && Coherent(s)
    ensures Coherent(Step(s, Start))
  {
    if s.phase.Idle? {
      var fetched := Peek(s.rows, BATCH);
      assert [] + fetched == fetched;
      forall r, q | r in fetched && q in s.rows && r.id == q.id ensures r.payload == q.payload {
        assert r in s.rows;
        SortedOnce(s.rows, r, q);
      }
    }
  }

  lemma DecodeCoherent(s: State)
    requires Inv(s) && Coherent(s)
    ensures Coherent(Step(s, Decode))
  {
    hide Holds, Sorted, IdsBelow, Accounted, Once, AnsweredInHand;
    if s.phase.Decoding? && s.phase.todo != [] {
      WithoutMeaning(s.rows, s.phase.todo[0].id);
      assert s.phase.todo == [s.phase.todo[0]] + s.phase.todo[1..];
    } else if s.phase.Decoding? {
      assert s.phase.batch + [] == s.phase.batch;
    }
  }

  lemma AnswerCoherent(s: State, resp: Response)
    requires Inv(s) && Coherent(s)
    ensures Coherent(Step(s, Answer(resp)))
  {
    hide Holds, Sorted, IdsBelow, Accounted, Once, AnsweredInHand;
    if s.phase.Posting? && s.phase.idx < |s.phase.batch| {
      assert s.phase.batch[s.phase.idx] in Read(s.phase);
    }
  }

  lemma OtherCoherent(s: State, a: Action)
    requires Inv(s) && Coherent(s) && (a.Finish? || a.Delete? || a.Abort?)
    ensures Coherent(Step(s, a))
  {
    hide Holds, Sorted, IdsBelow, Accounted, Once, AnsweredInHand, Among;
    if s.phase.Deleting? {
      WithoutAllMeaning(s.rows, s.phase.toDelete);
    }
  }

  lemma {:induction false} BumpedPayloads(rows: seq<Row>, ids: seq<nat>)
    ensures forall q :: q in BumpedAll(rows, ids) ==> exists r :: r in rows && r.id == q.id && r.payload == q.payload
    decreases ids
  {
    if ids != [] {
      var more := Bumped(rows, ids[0]);
      BumpedPayloads(more, ids[1..]);
      forall q | q in BumpedAll(rows, ids) ensures exists r :: r in rows && r.id == q.id && r.payload == q.payload {
        var r :| r in more && r.id == q.id && r.payload == q.payload;
        var i :| 0 <= i < |more| && more[i] == r;
        assert rows[i] in rows;
      }
    }
  }

  lemma BumpCoherent(s: State)
    requires Inv(s) && Coherent(s)
    ensures Coherent(Step(s, Bump))
  {
    hide Holds, Sorted, IdsBelow, Accounted, Once, AnsweredInHand, BumpedAll;
    if s.phase.Bumping? {
      BumpedPayloads(s.rows, s.phase.remaining);
    }
  }

  lemma StepCoherent(s: State, a: Action)
    requires Inv(s) && Coherent(s)
    ensures Inv(Step(s, a)) && Coherent(Step(s, a))
  {
    hide Step, Coherent, Shaped, Accounted, AnsweredInHand, Once;
    StepInv(s, a);
    match a {
      case Enqueue(p) => EnqueueCoherent(s, p);
      case Start => StartCoherent(s);
      case Decode => DecodeCoherent(s);
      case Answer(r) => AnswerCoherent(s, r);
      case Bump => BumpCoherent(s);
      case _ => OtherCoherent(s, a);
    }
  }

  lemma {:induction false} RunCoherent(s: State, acts: seq<Action>)
    requires Inv(s) && Coherent(s)
    ensures Coherent(Run(s, acts))
    decreases |acts|
  {
    hide Step, Coherent, Shaped, Accounted, AnsweredInHand, Once;
    if acts != [] {
      StepCoherent(s, acts[0]);
      RunCoherent(Step(s, acts[0]), acts[1..]);
    }
  }

  /** The row is stored and decodes. */
  ghost predicate Waits(rows: seq<Row>, id: nat) {
    exists r :: r in rows && r.id == id && r.payload.Json?
  }

  /** Every post of the drain is accepted. */
  function Accepting(n: nat): (rs: seq<Response>)
    ensures |rs| == n && forall i :: 0 <= i < n ==> rs[i] == Status(201)
  {
    seq(n, _ => Status(201))
  }

  /** A drain whose posts are all accepted removes what it read, and nothing else. */
  lemma AcceptedDrain(rows: seq<Row>)
    requires Sorted(rows)
    ensures forall r :: r in Drained(rows, Accepting(BATCH)) <==> r in rows && r !in Peek(rows, BATCH)
  {
    hide BumpedAll, Sorted;
    var fetched := Peek(rows, BATCH);
    var batch := Decodable(fetched);
    DecodableLength(fetched);
    DecodableMeaning(fetched);
    AllFinal(Accepting(BATCH), |batch|);
    assert batch[..|batch|] == batch && batch[|batch|..] == [];
    NothingBumped(WithoutAll(WithoutAll(rows, Undecodable(fetched)), Ids(batch)));
    WithoutAllMeaning(rows, Undecodable(fetched));
    WithoutAllMeaning(WithoutAll(rows, Undecodable(fetched)), Ids(batch));
    forall r | r in rows
      ensures r in fetched <==> Among(Undecodable(fetched), r.id) || Among(Ids(batch), r.id)
    {
      FetchedById(rows, fetched, r);
      IdsMeaning(batch, r.id);
    }
  }

  lemma NothingBumped(rows: seq<Row>)
    ensures BumpedAll(rows, Ids([])) == rows
  {
  }

  lemma {:induction false} AllFinal(rs: seq<Response>, n: nat)
    requires n <= |rs| && forall i :: 0 <= i < |rs| ==> Final(rs[i])
    ensures Answered(rs, n) == n
  {
    if n > 0 {
      AllFinal(rs, n - 1);
    }
  }

  /** What is left after such a drain starts later. */
  lemma LaterStart(rows: seq<Row>, rest: seq<Row>, id: nat)
    requires Sorted(rows) && rows != [] && forall r :: r in rest <==> r in rows && r !in Peek(rows, BATCH)
    requires Waits(rows, id) && !Waits(Peek(rows, BATCH), id) && Sorted(rest)
    ensures Waits(rest, id) && rest != [] && rows[0].id < rest[0].id <= id
  {
    var fetched := Peek(rows, BATCH);
    var r :| r in rows && r.id == id && r.payload.Json?;
    assert r in rest;
    assert rest[0] in rest && rest[0] in rows;
    assert rows[0] == fetched[0] && rows[0] in fetched;
    var i :| 0 <= i < |rows| && rows[i] == rest[0];
    var k :| 0 <= k < |rest| && rest[k] == r;
  }

  /** A row at rest in the table can be continued to one more answer: by drains
      whose posts are all accepted, as many as it takes to reach it. */
  lemma {:induction false} AnsweredAgain(s: State, id: nat) returns (acts: seq<Action>)
    requires Inv(s) && s.phase.Idle? && Waits(s.rows, id)
    ensures OwnSteps(acts)
    ensures Times(Run(s, acts).accepted, Run(s, acts).rejected, id) > Times(s.accepted, s.rejected, id)
    decreases id - s.rows[0].id
  {
    hide Accounted, AnsweredInHand, Once, Times, Run, Drained, Waits, Sorted, IdsBelow, MoreAnswers, Answered;
    var rows := s.rows;
    acts := DrainSteps(s, Accepting(BATCH));
    var s1 := Run(s, acts);
    var fetched := Peek(rows, BATCH);
    var batch := Decodable(fetched);
    AllFinal(Accepting(BATCH), |batch|);
    if Waits(fetched, id) {
      ReachedNow(s, s1, fetched, id);
    } else {
      AcceptedDrain(rows);
      NoneWaits(id);
      SortedNow(s1);
      LaterStart(rows, s1.rows, id);
      var more := AnsweredAgain(s1, id);
      RunConcat(s, acts, more);
      acts := acts + more;
      KeptAnswers(s, s1, batch, id);
    }
  }

  lemma NoneWaits(id: nat)
    ensures !Waits([], id)
  {
  }

  lemma SortedNow(s: State)
    requires Shaped(s)
    ensures Sorted(s.rows)
  {
  }

  lemma ReachedNow(s: State, s': State, fetched: seq<Row>, id: nat)
    requires Waits(fetched, id) && MoreAnswers(s, s', Decodable(fetched), 0, |Decodable(fetched)|)
    ensures Times(s'.accepted, s'.rejected, id) > Times(s.accepted, s.rejected, id)
  {
    hide Times;
    DecodableMeaning(fetched);
    var batch := Decodable(fetched);
    var r :| r in fetched && r.id == id && r.payload.Json?;
    var k :| 0 <= k < |batch| && batch[k] == r;
  }

  lemma KeptAnswers(s: State, s': State, batch: seq<Row>, id: nat)
    requires MoreAnswers(s, s', batch, 0, |batch|)
    ensures Times(s'.accepted, s'.rejected, id) >= Times(s.accepted, s.rejected, id)
  {
  }

  /** The drain's own steps can lead from here to a row answered twice. */
  ghost predicate CanPostTwice(s: State)
    requires Inv(s)
  {
    exists acts, id: nat :: OwnSteps(acts) && Times(Run(s, acts).accepted, Run(s, acts).rejected, id) >= 2
  }

  /** A row that is stored at rest although it has been answered can always be
      continued to a second answer. */
  lemma StoredAnswerRepeats(s: State, id: nat)
    requires Inv(s) && Coherent(s) && s.phase.Idle? && Holds(s.rows, id) && Times(s.accepted, s.rejected, id) > 0
    ensures CanPostTwice(s)
  {
    hide Inv, Run, Times, Holds, OwnSteps;
    StoredRow(s.rows, id);
    var r :| r in s.rows && r.id == id;
    assert Waits(s.rows, id);
    var acts := AnsweredAgain(s, id);
  }

  /** So a cut is never harmless. */
  lemma CutPostsTwice(s: State, a: Action)
    requires Inv(s) && Coherent(s) && Cuts(s, a)
    ensures Inv(Step(s, a)) && CanPostTwice(Step(s, a))
  {
    hide Shaped, Accounted, Once, Run, Times, Holds, Coherent, CanPostTwice;
    StepInv(s, a);
    StepCoherent(s, a);
    var id: nat :| Among(Undeleted(s.phase), id) && Holds(s.rows, id);
    StoredAnswerRepeats(Step(s, a), id);
  }

  lemma StoredRow(rows: seq<Row>, id: nat)
    requires Holds(rows, id)
    ensures exists r :: r in rows && r.id == id
  {
    var i :| 0 <= i < |rows| && rows[i].id == id;
    assert rows[i] in rows;
  }

  lemma {:induction false} OwnStepsNeverCut(s: State, acts: seq<Action>)
    requires Inv(s) && OwnSteps(acts)
    ensures NeverCut(s, acts)
    decreases |acts|
  {
    hide Step, Shaped, Accounted, AnsweredInHand, Once;
    if acts != [] {
      StepInv(s, acts[0]);
      OwnStepsNeverCut(Step(s, acts[0]), acts[1..]);
    }
  }

  lemma UnansweredIsSafe(s: State)
    requires Inv(s) && Unanswered(s) && AtMostOnce(s)
    ensures !CanPostTwice(s)
  {
    hide Inv, Unanswered, Run, NeverCut, OwnSteps;
    forall acts, id: nat | OwnSteps(acts) ensures Times(Run(s, acts).accepted, Run(s, acts).rejected, id) < 2 {
      OwnStepsNeverCut(s, acts);
      RunAnswersOnce(s, acts);
    }
  }

  /** Somewhere along the run, the drain's own steps could have led to a row
      answered twice. */
  ghost predicate SomewhereUnsafe(s: State, acts: seq<Action>)
    requires Inv(s)
    decreases |acts|
  {
    CanPostTwice(s) || (acts != [] && (StepInv(s, acts[0]); SomewhereUnsafe(Step(s, acts[0]), acts[1..])))
  }

  lemma {:induction false} CutExactly(s: State, acts: seq<Action>)
    requires Inv(s) && Unanswered(s) && AtMostOnce(s) && Coherent(s)
    ensures SomewhereUnsafe(s, acts) <==> !NeverCut(s, acts)
    decreases |acts|
  {
    hide Step, Unanswered, AtMostOnce, Cuts, Coherent, CanPostTwice, Shaped, Accounted, AnsweredInHand, Once;
    UnansweredIsSafe(s);
    if acts != [] {
      var a := acts[0];
      StepKeepsUnanswered(s, a);
      StepAnswersOnce(s, a);
      StepCoherent(s, a);
      if Cuts(s, a) {
        CutPostsTwice(s, a);
      } else {
        CutExactly(Step(s, a), acts[1..]);
      }
    }
  }

  /** The exact condition: a run never comes to a point from which drains alone can
      have a row answered twice, if and only if no drain of it is cut short while an
      answered row of it is still stored.  A cut is one that leaves the
      delete undone: a delete that has already begun when its drain is cancelled runs
      to its end, and is then a `Delete` before the cut. */
  lemma PostsTwiceIffCut(maxRows: int, acts: seq<Action>)
    requires Inv(Init(maxRows))
    ensures !SomewhereUnsafe(Init(maxRows), acts) <==> NeverCut(Init(maxRows), acts)
  {
    hide Inv, Unanswered, AtMostOnce, Coherent, SomewhereUnsafe, NeverCut;
    StartsUnanswered(maxRows);
    CutExactly(Init(maxRows), acts);
  }

  // ---- Why the window matters ----

  const ONE_ROW: Row := Row(1, Json("e"), 0)

  /** A drain of a table with one row, up to the moment its answer has arrived. */
  function Posted(accepted: multiset<nat>, orphaned: multiset<nat>): State {
    State(10, [ONE_ROW], 2, Posting([ONE_ROW], 1, [1]), accepted, multiset{}, orphaned, {}, {})
  }

  function Stored(accepted: multiset<nat>, orphaned: multiset<nat>): State {
    State(10, [ONE_ROW], 2, Idle, accepted, multiset{}, orphaned, {}, {})
  }

  lemma StepsOfOneDrain(acc: multiset<nat>, orph: multiset<nat>)
    ensures Shaped(Stored(acc, orph))
    ensures Step(Stored(acc, orph), Start) == Stored(acc, orph).(phase := Decoding([ONE_ROW], []))
  {
  }

  lemma DecodeOneRow(acc: multiset<nat>, orph: multiset<nat>)
    requires Shaped(Stored(acc, orph).(phase := Decoding([ONE_ROW], [])))
    ensures Step(Stored(acc, orph).(phase := Decoding([ONE_ROW], [])), Decode) ==
            Stored(acc, orph).(phase := Decoding([], [ONE_ROW]))
  {
    var todo := [ONE_ROW];
    assert todo[0].payload.Json? && todo[1..] == [] && [] + [todo[0]] == [ONE_ROW];
  }

  lemma AnswerOneRow(acc: multiset<nat>, orph: multiset<nat>)
    requires Shaped(Stored(acc, orph).(phase := Posting([ONE_ROW], 0, [])))
    ensures Step(Stored(acc, orph).(phase := Posting([ONE_ROW], 0, [])), Answer(Status(201))) ==
            Posted(acc + multiset{1}, orph)
  {
    var batch := [ONE_ROW];
    assert batch[0].id == 1 && [] + [batch[0].id] == [1];
  }

  /** Reading, decoding and posting the one row. */
  function DrainActs(rest: seq<Action>): seq<Action> {
    [Start] + ([Decode] + ([Decode] + ([Answer(Status(201))] + rest)))
  }

  lemma OneDrain(acc: multiset<nat>, orph: multiset<nat>, rest: seq<Action>)
    requires Inv(Stored(acc, orph))
    ensures Inv(Posted(acc + multiset{1}, orph))
    ensures Run(Stored(acc, orph), DrainActs(rest)) == Run(Posted(acc + multiset{1}, orph), rest)
  {
    hide Run, Accounted, AnsweredInHand, Once;
    var s0 := Stored(acc, orph);
    StepsOfOneDrain(acc, orph);
    RunCons(s0, Start, [Decode] + ([Decode] + ([Answer(Status(201))] + rest)));
    var s1 := s0.(phase := Decoding([ONE_ROW], []));
    DecodeOneRow(acc, orph);
    RunCons(s1, Decode, [Decode] + ([Answer(Status(201))] + rest));
    var s2 := s0.(phase := Decoding([], [ONE_ROW]));
    RunCons(s2, Decode, [Answer(Status(201))] + rest);
    var s3 := s0.(phase := Posting([ONE_ROW], 0, []));
    AnswerOneRow(acc, orph);
    RunCons(s3, Answer(Status(201)), rest);
  }

  /** Cut short inside the window, the drain leaves an accepted row behind, and the
      next drain has it accepted again. */
  lemma CutShortAcceptsTwice()
    ensures var acts := [Enqueue(Json("e"))] + DrainActs([Abort] + DrainActs([]));
      Times(RunFromStart(10, acts).accepted, RunFromStart(10, acts).rejected, 1) == 2
  {
    hide Run, Accounted, AnsweredInHand, Once, Shaped;
    InvInit(10);
    var none: multiset<nat> := multiset{};
    RunCons(Init(10), Enqueue(Json("e")), DrainActs([Abort] + DrainActs([])));
    FirstRow();
    OneDrain(none, none, [Abort] + DrainActs([]));
    RunCons(Posted(none + multiset{1}, none), Abort, DrainActs([]));
    AbortLeavesRow();
    OneDrain(multiset{1}, multiset{1}, []);
    RunEnds(Posted(multiset{1} + multiset{1}, multiset{1}));
  }

  lemma FirstRow()
    ensures Shaped(Init(10)) && Step(Init(10), Enqueue(Json("e"))) == Stored(multiset{}, multiset{})
  {
    var s := Step(Init(10), Enqueue(Json("e")));
    assert s.rows == [ONE_ROW];
    assert s.rows[0].id == 1;
  }

  lemma AbortLeavesRow()
    requires Shaped(Posted(multiset{} + multiset{1}, multiset{}))
    ensures Step(Posted(multiset{} + multiset{1}, multiset{}), Abort) == Stored(multiset{1}, multiset{1})
  {
  }
}
