/** The drain of one client as a protocol of steps, interleaved with enqueues that
    may evict rows the drain has in hand, and with drains that are cut short. */
module DrainProtocol {
  import opened Sequences
  import opened OfflineQueues

  datatype Phase =
    | Idle
    | Decoding(todo: seq<Row>, batch: seq<Row>)
    | Posting(batch: seq<Row>, idx: nat, toDelete: seq<nat>)
    | Deleting(batch: seq<Row>, idx: nat, toDelete: seq<nat>)
    | Bumping(remaining: seq<nat>)

  /** `accepted` and `rejected` count, per row id, the 201 and 4xx answers given;
      `orphaned` counts the answers whose row was not deleted because the drain
      was cut short. */
  datatype State = State(
    maxRows: int, rows: seq<Row>, nextId: nat, phase: Phase,
    accepted: multiset<nat>, rejected: multiset<nat>, orphaned: multiset<nat>,
    evicted: set<nat>, corrupt: set<nat>)

  datatype Action =
    | Enqueue(payload: Payload)
    | Start               // take the drain lock and read the batch
    | Decode              // look at the next row read
    | Answer(r: Response) // the backend's answer for the next row of the batch
    | Finish              // the whole batch was answered
    | Delete
    | Bump
    | Abort               // the drain task is cancelled, or a queue call fails

  function Init(maxRows: int): State {
    State(maxRows, [], 1, Idle, multiset{}, multiset{}, multiset{}, {}, {})
  }

  function Bag(ids: seq<nat>): multiset<nat> {
    multiset(ids)
  }

  function Step(s: State, a: Action): State
    requires Shaped(s)
  {
    match a
    case Enqueue(p) =>
      var all := s.rows + [Row(s.nextId, p, 0)];
      var rows := Append(s.rows, Row(s.nextId, p, 0), Cap(s.maxRows));
      s.(rows := rows, nextId := s.nextId + 1,
         evicted := s.evicted + set i | 0 <= i < |all| && !Holds(rows, all[i].id) :: all[i].id)
    case Start => if s.phase.Idle? then s.(phase := Decoding(Peek(s.rows, BATCH), [])) else s
    case Decode =>
      if !s.phase.Decoding? then s
      else if s.phase.todo == [] then s.(phase := if s.phase.batch == [] then Idle else Posting(s.phase.batch, 0, []))
      else
        var r := s.phase.todo[0];
        if r.payload.Json? then s.(phase := Decoding(s.phase.todo[1..], s.phase.batch + [r]))
        else s.(phase := Decoding(s.phase.todo[1..], s.phase.batch),
                rows := Without(s.rows, r.id), corrupt := s.corrupt + {r.id})
    case Answer(resp) =>
      if !(s.phase.Posting? && s.phase.idx < |s.phase.batch|) then s
      else
        var id := s.phase.batch[s.phase.idx].id;
        if Final(resp) then
          s.(phase := Posting(s.phase.batch, s.phase.idx + 1, s.phase.toDelete + [id]),
             accepted := if resp.code == 201 then s.accepted + multiset{id} else s.accepted,
             rejected := if resp.code == 201 then s.rejected else s.rejected + multiset{id})
        else s.(phase := Deleting(s.phase.batch, s.phase.idx, s.phase.toDelete))
    case Finish =>
      if s.phase.Posting? && s.phase.idx == |s.phase.batch| then
        s.(phase := Deleting(s.phase.batch, s.phase.idx, s.phase.toDelete))
      else s
    case Delete =>
      if s.phase.Deleting? then
        s.(rows := WithoutAll(s.rows, s.phase.toDelete), phase := Bumping(Ids(s.phase.batch[s.phase.idx..])))
      else s
    case Bump => if s.phase.Bumping? then s.(rows := BumpedAll(s.rows, s.phase.remaining), phase := Idle) else s
    case Abort =>
      s.(phase := Idle, orphaned := s.orphaned + Bag(Undeleted(s.phase)))
  }

  /** Ids that have been answered in this drain and not yet deleted. */
  function Undeleted(p: Phase): seq<nat> {
    if p.Posting? || p.Deleting? then p.toDelete else []
  }

  /** Rows that this drain may still post. */
  function Unposted(p: Phase): seq<Row>
    requires p.Posting? ==> p.idx <= |p.batch|
  {
    match p
    case Decoding(todo, batch) => batch + todo
    case Posting(batch, idx, _) => batch[idx..]
    case _ => []
  }

  /** The table is in order, and the drain deletes exactly the prefix of its batch
      that has been answered. */
  ghost predicate Shaped(s: State) {
    && Sorted(s.rows) && IdsBelow(s.rows, s.nextId) && s.nextId > 0
    && (s.phase.Decoding? ==>
          Sorted(s.phase.batch + s.phase.todo) && IdsBelow(s.phase.batch + s.phase.todo, s.nextId))
    && (s.phase.Posting? || s.phase.Deleting? ==>
          && Sorted(s.phase.batch) && IdsBelow(s.phase.batch, s.nextId)
          && s.phase.idx <= |s.phase.batch|
          && s.phase.toDelete == Ids(s.phase.batch[..s.phase.idx]))
  }

  lemma EnqueueShaped(s: State, p: Payload)
    requires Shaped(s)
    ensures Shaped(Step(s, Enqueue(p)))
  {
    hide Holds, Append;
    InsertMeaning(s.rows, Row(s.nextId, p, 0), Cap(s.maxRows));
  }

  lemma StartShaped(s: State)
    requires Shaped(s)
    ensures Shaped(Step(s, Start))
  {
    hide Sorted, IdsBelow, Peek;
    PeekSorted(s.rows, BATCH);
    assert [] + Peek(s.rows, BATCH) == Peek(s.rows, BATCH);
  }

  lemma PeekSorted(rows: seq<Row>, limit: nat)
    ensures Sorted(rows) ==> Sorted(Peek(rows, limit))
    ensures forall n: nat :: IdsBelow(rows, n) ==> IdsBelow(Peek(rows, limit), n)
  {
  }

  lemma DecodeShaped(s: State)
    requires Shaped(s)
    ensures Shaped(Step(s, Decode))
  {
    hide Holds, Sorted, IdsBelow;
    if s.phase.Decoding? && s.phase.todo != [] {
      var r, rest := s.phase.todo[0], s.phase.todo[1..];
      WithoutMeaning(s.rows, r.id);
      assert s.phase.batch + s.phase.todo == s.phase.batch + [r] + rest;
      DropMiddle(s.phase.batch, r, rest);
    } else if s.phase.Decoding? {
      assert s.phase.batch + [] == s.phase.batch;
      assert Ids(s.phase.batch[..0]) == [];
    }
  }

  lemma AnswerShaped(s: State, resp: Response)
    requires Shaped(s)
    ensures Shaped(Step(s, Answer(resp)))
  {
    hide Sorted, IdsBelow;
    if s.phase.Posting? && s.phase.idx < |s.phase.batch| {
      assert s.phase.batch[..s.phase.idx + 1] == s.phase.batch[..s.phase.idx] + [s.phase.batch[s.phase.idx]];
    }
  }

  lemma DeleteShaped(s: State)
    requires Shaped(s)
    ensures Shaped(Step(s, Delete))
  {
    hide Holds, Sorted, IdsBelow;
    if s.phase.Deleting? {
      WithoutAllMeaning(s.rows, s.phase.toDelete);
    }
  }

  lemma BumpShaped(s: State)
    requires Shaped(s)
    ensures Shaped(Step(s, Bump))
  {
    hide Holds, Sorted, IdsBelow;
    if s.phase.Bumping? {
      BumpedAllIds(s.rows, s.phase.remaining);
      SameIds(BumpedAll(s.rows, s.phase.remaining), s.rows);
    }
  }

  lemma OtherShaped(s: State, a: Action)
    requires Shaped(s) && (a.Finish? || a.Abort?)
    ensures Shaped(Step(s, a))
  {
    hide Sorted, IdsBelow;
  }

  lemma StepShaped(s: State, a: Action)
    requires Shaped(s)
    ensures Shaped(Step(s, a))
    ensures s.nextId <= Step(s, a).nextId
  {
    hide Shaped;
    match a {
      case Enqueue(p) => EnqueueShaped(s, p);
      case Start => StartShaped(s);
      case Decode => DecodeShaped(s);
      case Answer(resp) => AnswerShaped(s, resp);
      case Delete => DeleteShaped(s);
      case Bump => BumpShaped(s);
      case _ => OtherShaped(s, a);
    }
  }

  lemma DropMiddle(a: seq<Row>, r: Row, b: seq<Row>)
    requires Sorted(a + [r] + b)
    ensures Sorted(a + b)
    ensures forall n: nat :: IdsBelow(a + [r] + b, n) ==> IdsBelow(a + b, n)
  {
    var x, y := a + [r] + b, a + b;
    assert forall i :: 0 <= i < |y| ==> y[i] == x[if i < |a| then i else i + 1];
  }

  // ---- What holds of every reachable state ----

  /** How often the backend has answered for a row. */
  function Times(accepted: multiset<nat>, rejected: multiset<nat>, id: nat): nat {
    accepted[id] + rejected[id]
  }

  /** Every row ever stored is still stored, was answered, was evicted as one of the
      oldest, or did not decode. */
  ghost predicate Accounted(s: State) {
    forall id: nat :: 1 <= id < s.nextId ==>
      Holds(s.rows, id) || Times(s.accepted, s.rejected, id) > 0 || id in s.evicted || id in s.corrupt
  }

  /** Only stored rows are answered, and what the drain is about to delete has been. */
  ghost predicate AnsweredInHand(s: State) {
    && (forall id: nat :: Times(s.accepted, s.rejected, id) > 0 ==> id < s.nextId)
    && (forall id: nat :: Among(Undeleted(s.phase), id) ==> Times(s.accepted, s.rejected, id) > 0)
  }

  /** The row can still be posted: by this drain, or by a later one. */
  ghost predicate Postable(s: State, id: nat)
    requires Shaped(s)
  {
    Holds(Unposted(s.phase), id) || (Holds(s.rows, id) && !Among(Undeleted(s.phase), id))
  }

  /** A row is answered at most once, plus once for every time a drain was cut short
      between its answer and its deletion; a row that can still be posted has one
      answer less. */
  ghost predicate Once(s: State)
    requires Shaped(s)
  {
    forall id: nat :: Times(s.accepted, s.rejected, id) <= s.orphaned[id] + if Postable(s, id) then 0 else 1
  }

  ghost predicate Inv(s: State) {
    Shaped(s) && Accounted(s) && AnsweredInHand(s) && Once(s)
  }

  lemma InvInit(maxRows: int)
    ensures Inv(Init(maxRows))
  {
  }

  lemma AmongSnoc(ids: seq<nat>, x: nat, id: nat)
    ensures Among(ids + [x], id) <==> Among(ids, id) || id == x
  {
    var more := ids + [x];
    assert more[|ids|] == x && forall i :: 0 <= i < |ids| ==> more[i] == ids[i];
    if Among(ids, id) {
      var i :| 0 <= i < |ids| && ids[i] == id;
      assert more[i] == id;
    }
  }

  lemma HoldsConcat(a: seq<Row>, b: seq<Row>, k: nat)
    ensures Holds(a + b, k) <==> Holds(a, k) || Holds(b, k)
  {
    var all := a + b;
    assert forall i :: 0 <= i < |a| ==> all[i] == a[i];
    assert forall i :: 0 <= i < |b| ==> all[|a| + i] == b[i];
    if Holds(all, k) && !Holds(a, k) {
      var i :| 0 <= i < |all| && all[i].id == k;
      assert b[i - |a|].id == k;
    }
    if Holds(a, k) {
      var i :| 0 <= i < |a| && a[i].id == k;
      assert all[i].id == k;
    }
    if Holds(b, k) {
      var i :| 0 <= i < |b| && b[i].id == k;
      assert all[|a| + i].id == k;
    }
  }

  lemma EnqueueInv(s: State, p: Payload)
    requires Inv(s)
    ensures Inv(Step(s, Enqueue(p)))
  {
    var s' := Step(s, Enqueue(p));
    var r := Row(s.nextId, p, 0);
    StepShaped(s, Enqueue(p));
    InsertMeaning(s.rows, r, Cap(s.maxRows));
    var all := s.rows + [r];
    forall id: nat ensures Holds(all, id) <==> Holds(s.rows, id) || id == s.nextId {
      HoldsConcat(s.rows, [r], id);
      assert [r][0] == r;
    }
    forall id: nat | 1 <= id < s'.nextId && !Holds(s'.rows, id) && Holds(all, id) ensures id in s'.evicted {
      var i :| 0 <= i < |all| && all[i].id == id;
      assert !Holds(s'.rows, all[i].id);
    }
    assert forall id: nat :: Postable(s', id) ==> Postable(s, id) || id == s.nextId;
  }

  lemma PeekHolds(rows: seq<Row>, limit: nat, id: nat)
    requires Holds(Peek(rows, limit), id)
    ensures Holds(rows, id)
  {
  }

  lemma StartInv(s: State)
    requires Inv(s)
    ensures Inv(Step(s, Start))
  {
    StepShaped(s, Start);
    if s.phase.Idle? {
      assert [] + Peek(s.rows, BATCH) == Peek(s.rows, BATCH);
      forall id: nat | Postable(Step(s, Start), id) ensures Postable(s, id) {
        if Holds(Peek(s.rows, BATCH), id) {
          PeekHolds(s.rows, BATCH, id);
        }
      }
    }
  }

  /** Looking at the next row read leaves no row to be posted that was not before. */
  lemma DecodeUnposted(s: State)
    requires Shaped(s) && s.phase.Decoding?
    ensures Shaped(Step(s, Decode))
    ensures forall id: nat :: Holds(Unposted(Step(s, Decode).phase), id) ==> Holds(Unposted(s.phase), id)
    ensures forall id: nat :: Holds(Step(s, Decode).rows, id) ==> Holds(s.rows, id)
    ensures forall id: nat :: Holds(s.rows, id) && !Holds(Step(s, Decode).rows, id) ==> id in Step(s, Decode).corrupt
    ensures Undeleted(Step(s, Decode).phase) == []
  {
    hide Holds, Sorted, IdsBelow;
    StepShaped(s, Decode);
    var batch, todo := s.phase.batch, s.phase.todo;
    NobodyHome();
    if todo == [] {
      assert batch + todo == batch;
      assert batch[0..] == batch;
    } else {
      var r, rest := todo[0], todo[1..];
      assert todo == [r] + rest;
      assert batch + todo == batch + [r] + rest;
      WithoutMeaning(s.rows, r.id);
      forall id: nat ensures Holds(batch + rest, id) ==> Holds(batch + todo, id) {
        HoldsConcat(batch, rest, id);
        HoldsConcat(batch, todo, id);
        HoldsConcat([r], rest, id);
      }
    }
  }

  lemma DecodeInv(s: State)
    requires Inv(s)
    ensures Inv(Step(s, Decode))
  {
    hide Holds, Among, Shaped;
    if s.phase.Decoding? {
      DecodeUnposted(s);
      NothingAmong();
    }
  }

  lemma NobodyHome()
    ensures forall id: nat :: !Holds([], id)
  {
  }

  lemma NotLater(batch: seq<Row>, idx: nat, n: nat)
    requires Sorted(batch) && IdsBelow(batch, n) && idx < |batch|
    ensures batch[idx].id < n
    ensures !Holds(batch[idx + 1..], batch[idx].id)
  {
  }

  /** What posting one row changes, row by row. */
  lemma AnswerChanges(s: State, resp: Response, id: nat)
    requires Shaped(s) && s.phase.Posting? && s.phase.idx < |s.phase.batch|
    ensures Shaped(Step(s, Answer(resp)))
    ensures var s' := Step(s, Answer(resp)); var x := s.phase.batch[s.phase.idx].id;
      && Times(s'.accepted, s'.rejected, id) ==
         Times(s.accepted, s.rejected, id) + (if id == x && Final(resp) then 1 else 0)
      && (Postable(s', id) ==> Postable(s, id) && (id == x ==> !Final(resp)))
      && Postable(s, x) && x < s.nextId
      && (Among(Undeleted(s'.phase), id) <==> Among(Undeleted(s.phase), id) || (id == x && Final(resp)))
  {
    hide Holds, Among, Sorted, IdsBelow;
    var s' := Step(s, Answer(resp));
    StepShaped(s, Answer(resp));
    var batch, idx := s.phase.batch, s.phase.idx;
    var x := batch[idx].id;
    NobodyHome();
    NotLater(batch, idx, s.nextId);
    assert batch[idx..] == [batch[idx]] + batch[idx + 1..];
    HoldsCons(batch[idx], batch[idx + 1..], id);
    HoldsCons(batch[idx], batch[idx + 1..], x);
    AmongSnoc(s.phase.toDelete, x, id);
  }

  lemma AnswerKeeps(s: State, resp: Response)
    requires Shaped(s)
    ensures var s' := Step(s, Answer(resp));
      && s'.rows == s.rows && s'.nextId == s.nextId && s'.orphaned == s.orphaned
      && s'.evicted == s.evicted && s'.corrupt == s.corrupt
      && (!(s.phase.Posting? && s.phase.idx < |s.phase.batch|) ==> s' == s)
  {
  }

  lemma AnswerInv(s: State, resp: Response)
    requires Inv(s)
    ensures Inv(Step(s, Answer(resp)))
  {
    hide Holds, Among, Shaped, Step, Times, Postable, Undeleted;
    AnswerKeeps(s, resp);
    if s.phase.Posting? && s.phase.idx < |s.phase.batch| {
      PostingShaped(s);
      forall id: nat
        ensures var s' := Step(s, Answer(resp)); var x := s.phase.batch[s.phase.idx].id;
          && Shaped(s')
          && Times(s'.accepted, s'.rejected, id) ==
             Times(s.accepted, s.rejected, id) + (if id == x && Final(resp) then 1 else 0)
          && (Postable(s', id) ==> Postable(s, id) && (id == x ==> !Final(resp)))
          && Postable(s, x) && x < s.nextId
          && (Among(Undeleted(s'.phase), id) <==> Among(Undeleted(s.phase), id) || (id == x && Final(resp)))
      {
        AnswerChanges(s, resp, id);
      }
      AnswerChanges(s, resp, 0);
    }
  }

  lemma PostingShaped(s: State)
    requires Shaped(s) && s.phase.Posting?
    ensures s.phase.idx <= |s.phase.batch|
  {
  }

  lemma DeleteInv(s: State)
    requires Inv(s)
    ensures Inv(Step(s, Delete))
  {
    hide Holds, Among;
    StepShaped(s, Delete);
    if s.phase.Deleting? {
      WithoutAllMeaning(s.rows, s.phase.toDelete);
      NothingAmong();
      NobodyHome();
    }
  }

  lemma NothingAmong()
    ensures forall id: nat :: !Among([], id)
  {
  }

  lemma BumpInv(s: State)
    requires Inv(s)
    ensures Inv(Step(s, Bump))
  {
    hide Holds, Among;
    StepShaped(s, Bump);
    if s.phase.Bumping? {
      BumpedAllIds(s.rows, s.phase.remaining);
      SameIds(BumpedAll(s.rows, s.phase.remaining), s.rows);
    }
  }

  lemma AmongCounts(ids: seq<nat>, id: nat)
    ensures Among(ids, id) ==> multiset(ids)[id] >= 1
  {
    if Among(ids, id) {
      assert id in ids;
    }
  }

  lemma AbortInv(s: State)
    requires Inv(s)
    ensures Inv(Step(s, Abort))
  {
    hide Holds, Among;
    StepShaped(s, Abort);
    NothingAmong();
    NobodyHome();
    forall id: nat ensures Among(Undeleted(s.phase), id) ==> Step(s, Abort).orphaned[id] >= s.orphaned[id] + 1 {
      AmongCounts(Undeleted(s.phase), id);
    }
  }

  lemma FinishInv(s: State)
    requires Inv(s)
    ensures Inv(Step(s, Finish))
  {
    hide Holds, Among;
    StepShaped(s, Finish);
    NobodyHome();
  }

  lemma StepInv(s: State, a: Action)
    requires Inv(s)
    ensures Inv(Step(s, a))
  {
    hide Inv, Step;
    match a {
      case Enqueue(p) => EnqueueInv(s, p);
      case Start => StartInv(s);
      case Decode => DecodeInv(s);
      case Answer(r) => AnswerInv(s, r);
      case Finish => FinishInv(s);
      case Delete => DeleteInv(s);
      case Bump => BumpInv(s);
      case Abort => AbortInv(s);
    }
  }

  // ---- Whole runs ----

  /** Steps of the drain itself, not cut short. */
  predicate OwnSteps(acts: seq<Action>) {
    forall i :: 0 <= i < |acts| ==> !acts[i].Enqueue? && !acts[i].Abort?
  }

  ghost function Run(s: State, acts: seq<Action>): State
    requires Inv(s)
    ensures Inv(Run(s, acts))
    decreases |acts|
  {
    if acts == [] then s else
      StepInv(s, acts[0]);
      Run(Step(s, acts[0]), acts[1..])
  }

  ghost function RunFromStart(maxRows: int, acts: seq<Action>): State {
    InvInit(maxRows);
    Run(Init(maxRows), acts)
  }

  lemma RunCons(s: State, a: Action, rest: seq<Action>)
    requires Inv(s)
    ensures Inv(Step(s, a)) && Run(s, [a] + rest) == Run(Step(s, a), rest)
  {
    hide Inv, Step;
    StepInv(s, a);
    assert ([a] + rest)[1..] == rest;
  }

  lemma RunEnds(s: State)
    requires Inv(s)
    ensures Run(s, []) == s
  {
    hide Inv;
  }

  lemma RunSingle(s: State, a: Action)
    requires Inv(s)
    ensures Inv(Step(s, a)) && Run(s, [a]) == Step(s, a)
  {
    hide Step, Shaped, Accounted, AnsweredInHand, Once;
    StepInv(s, a);
    RunCons(s, a, []);
    RunEnds(Step(s, a));
    assert [a] + [] == [a];
  }

  lemma {:induction false} RunConcat(s: State, a: seq<Action>, b: seq<Action>)
    requires Inv(s)
    ensures Run(s, a + b) == Run(Run(s, a), b)
    decreases |a|
  {
    hide Step, Shaped, Accounted, AnsweredInHand, Once;
    if a == [] {
      assert a + b == b;
    } else {
      StepInv(s, a[0]);
      RunConcat(Step(s, a[0]), a[1..], b);
      assert (a + b)[1..] == a[1..] + b;
    }
  }

  /** In every run, whatever is cut short: nothing is lost track of, and each extra
      answer is paid for by a drain cut short. */
  lemma EveryRowAccountedFor(maxRows: int, acts: seq<Action>, id: nat)
    ensures var s := RunFromStart(maxRows, acts);
      && (1 <= id < s.nextId ==>
            Holds(s.rows, id) || Times(s.accepted, s.rejected, id) > 0 || id in s.evicted || id in s.corrupt)
      && Times(s.accepted, s.rejected, id) <= 1 + s.orphaned[id]
  {
    hide Shaped;
    var s := RunFromStart(maxRows, acts);
    assert Inv(s);
  }

  /** A delete, however late, removes only rows that the backend has dealt with. */
  lemma DeleteRemovesOnlyAnswered(s: State, id: nat)
    requires Inv(s) && Holds(s.rows, id) && !Holds(Step(s, Delete).rows, id)
    ensures Times(s.accepted, s.rejected, id) > 0
  {
    hide Holds, Among;
    if s.phase.Deleting? {
      WithoutAllMeaning(s.rows, s.phase.toDelete);
    }
  }

  // ---- Eviction is oldest first ----

  /** Whatever was ever evicted is older than everything stored. */
  ghost predicate EvictedOldest(s: State) {
    && (forall e: nat :: e in s.evicted ==> e < s.nextId)
    && (forall e: nat, k: nat :: e in s.evicted && Holds(s.rows, k) ==> e < k)
  }

  lemma EnqueueEvictsOldest(s: State, p: Payload)
    requires Inv(s) && EvictedOldest(s)
    ensures EvictedOldest(Step(s, Enqueue(p)))
  {
    hide Accounted, AnsweredInHand, Once;
    var r := Row(s.nextId, p, 0);
    var all, s' := s.rows + [r], Step(s, Enqueue(p));
    InsertMeaning(s.rows, r, Cap(s.maxRows));
    forall id: nat ensures Holds(all, id) <==> Holds(s.rows, id) || id == s.nextId {
      HoldsConcat(s.rows, [r], id);
      assert [r][0] == r;
    }
    forall e: nat | e in s'.evicted && e !in s.evicted ensures Holds(all, e) && !Holds(s'.rows, e) {
      var i :| 0 <= i < |all| && !Holds(s'.rows, all[i].id) && all[i].id == e;
    }
  }

  /** Steps other than an enqueue only remove rows, and evict none. */
  lemma RowsOnlyLeave(s: State, a: Action, id: nat)
    requires Inv(s) && !a.Enqueue? && Holds(Step(s, a).rows, id)
    ensures Holds(s.rows, id)
  {
    hide Holds, Sorted, IdsBelow, Among;
    match a {
      case Decode =>
        if s.phase.Decoding? && s.phase.todo != [] {
          WithoutMeaning(s.rows, s.phase.todo[0].id);
        }
      case Delete =>
        if s.phase.Deleting? {
          WithoutAllMeaning(s.rows, s.phase.toDelete);
        }
      case Bump =>
        if s.phase.Bumping? {
          BumpedAllIds(s.rows, s.phase.remaining);
          SameIds(BumpedAll(s.rows, s.phase.remaining), s.rows);
        }
      case _ =>
    }
  }

  lemma StepEvictsOldest(s: State, a: Action)
    requires Inv(s) && EvictedOldest(s)
    ensures EvictedOldest(Step(s, a))
  {
    hide Holds, Shaped, Accounted, AnsweredInHand, Once;
    if a.Enqueue? {
      EnqueueEvictsOldest(s, a.payload);
    } else {
      forall id: nat | Holds(Step(s, a).rows, id) ensures Holds(s.rows, id) {
        RowsOnlyLeave(s, a, id);
      }
    }
  }

  lemma {:induction false} RunEvictsOldest(s: State, acts: seq<Action>)
    requires Inv(s) && EvictedOldest(s)
    ensures EvictedOldest(Run(s, acts))
    decreases |acts|
  {
    hide Step, EvictedOldest;
    if acts != [] {
      StepInv(s, acts[0]);
      StepEvictsOldest(s, acts[0]);
      RunEvictsOldest(Step(s, acts[0]), acts[1..]);
    }
  }

  /** In every run, a row lost to overflow was older than every row that is stored. */
  lemma EvictionIsOldestFirst(maxRows: int, acts: seq<Action>, e: nat, k: nat)
    requires e in RunFromStart(maxRows, acts).evicted && Holds(RunFromStart(maxRows, acts).rows, k)
    ensures e < k
  {
    hide Run, Inv;
    InvInit(maxRows);
    RunEvictsOldest(Init(maxRows), acts);
  }

  // ---- The uninterrupted drain is one of the runs ----

  lemma {:induction false} DecodeAll(s: State) returns (acts: seq<Action>)
    requires Inv(s) && s.phase.Decoding?
    ensures OwnSteps(acts)
    ensures var s' := Run(s, acts);
      && s'.phase == Decoding([], s.phase.batch + Decodable(s.phase.todo))
      && s'.rows == WithoutAll(s.rows, Undecodable(s.phase.todo))
      && s'.accepted == s.accepted && s'.rejected == s.rejected
    decreases |s.phase.todo|
  {
    hide Shaped, Accounted, AnsweredInHand, Once;
    acts := [];
    if s.phase.todo == [] {
      assert s.phase.batch + [] == s.phase.batch;
    } else {
      var r, rest := s.phase.todo[0], s.phase.todo[1..];
      DecodeStep(s);
      var more := DecodeAll(Step(s, Decode));
      RunCons(s, Decode, more);
      acts := [Decode] + more;
      assert s.phase.batch + ([r] + Decodable(rest)) == s.phase.batch + [r] + Decodable(rest);
    }
  }

  lemma DecodeStep(s: State)
    requires Inv(s) && s.phase.Decoding? && s.phase.todo != []
    ensures Inv(Step(s, Decode)) && Step(s, Decode).phase.Decoding?
  {
    hide Shaped, Accounted, AnsweredInHand, Once;
    StepInv(s, Decode);
  }

  /** Reading a batch, up to the first post. */
  lemma ReadBatch(s: State) returns (acts: seq<Action>)
    requires Inv(s) && s.phase.Idle?
    ensures OwnSteps(acts)
    ensures var fetched := Peek(s.rows, BATCH); var batch := Decodable(fetched); var s' := Run(s, acts);
      && s'.phase == (if batch == [] then Idle else Posting(batch, 0, []))
      && s'.rows == WithoutAll(s.rows, Undecodable(fetched))
      && s'.accepted == s.accepted && s'.rejected == s.rejected
  {
    hide Accounted, AnsweredInHand, Once, Shaped, Decodable, Undecodable, Run, WithoutAll;
    StepInv(s, Start);
    var s1 := Step(s, Start);
    var decodes := DecodeAll(s1);
    var s2 := Run(s1, decodes);
    var fetched := Peek(s.rows, BATCH);
    assert [] + Decodable(fetched) == Decodable(fetched);
    RunCons(s, Start, decodes + [Decode]);
    RunConcat(s1, decodes, [Decode]);
    RunSingle(s2, Decode);
    acts := [Start] + (decodes + [Decode]);
  }

  /** Posting goes on to the first answer that is not final; each row answered has
      one answer more. */
  lemma {:induction false} AnswerAll(s: State, responses: seq<Response>) returns (acts: seq<Action>)
    requires Inv(s) && s.phase.Posting? && |s.phase.batch| <= |responses|
    requires s.phase.idx <= Answered(responses, |s.phase.batch|)
    ensures OwnSteps(acts)
    ensures var n := Answered(responses, |s.phase.batch|); var s' := Run(s, acts);
      s'.phase == Deleting(s.phase.batch, n, Ids(s.phase.batch[..n])) && s'.rows == s.rows
    ensures MoreAnswers(s, Run(s, acts), s.phase.batch, s.phase.idx, Answered(responses, |s.phase.batch|))
    decreases |s.phase.batch| - s.phase.idx
  {
    hide Accounted, AnsweredInHand, Once, Answered, MoreAnswers;
    var batch, idx := s.phase.batch, s.phase.idx;
    var n := Answered(responses, |batch|);
    var a := if idx == |batch| then Finish else Answer(responses[idx]);
    StepInv(s, a);
    var more: seq<Action> := [];
    if idx < n {
      more := AnswerAll(Step(s, a), responses);
      OneMoreAnswer(s, responses[idx], Run(Step(s, a), more), n);
    } else {
      RunEnds(Step(s, a));
      NoMoreAnswers(s, a, n);
    }
    RunCons(s, a, more);
    acts := [a] + more;
  }

  /** From `s` to `s'` no answer is forgotten, and rows `i` to `n` of the batch have
      been answered once more. */
  ghost predicate MoreAnswers(s: State, s': State, batch: seq<Row>, i: nat, n: nat)
    requires n <= |batch|
  {
    && (forall id: nat :: Times(s.accepted, s.rejected, id) <= Times(s'.accepted, s'.rejected, id))
    && (forall k :: i <= k < n ==>
          Times(s.accepted, s.rejected, batch[k].id) < Times(s'.accepted, s'.rejected, batch[k].id))
  }

  lemma OneMoreAnswer(s: State, resp: Response, s': State, n: nat)
    requires Inv(s) && s.phase.Posting? && s.phase.idx < n <= |s.phase.batch| && Final(resp)
    requires MoreAnswers(Step(s, Answer(resp)), s', s.phase.batch, s.phase.idx + 1, n)
    ensures MoreAnswers(s, s', s.phase.batch, s.phase.idx, n)
  {
    hide Accounted, AnsweredInHand, Once, Shaped;
    var s1, x := Step(s, Answer(resp)), s.phase.batch[s.phase.idx].id;
    forall id: nat
      ensures Times(s1.accepted, s1.rejected, id) == Times(s.accepted, s.rejected, id) + if id == x then 1 else 0
    {
    }
  }

  lemma NoMoreAnswers(s: State, a: Action, n: nat)
    requires Inv(s) && s.phase.Posting? && s.phase.idx == n <= |s.phase.batch|
    requires a.Finish? || (a.Answer? && s.phase.idx < |s.phase.batch| && !Final(a.r))
    ensures MoreAnswers(s, Step(s, a), s.phase.batch, s.phase.idx, n)
  {
    hide Accounted, AnsweredInHand, Once, Shaped;
  }

  /** Posting, deleting and bumping, once the batch is known. */
  lemma Conclude(s: State, responses: seq<Response>) returns (acts: seq<Action>)
    requires Inv(s) && s.phase.Posting? && s.phase.idx == 0 && |s.phase.batch| <= |responses|
    ensures OwnSteps(acts)
    ensures var batch := s.phase.batch; var n := Answered(responses, |batch|); var s' := Run(s, acts);
      && s'.phase.Idle? && s'.rows == BumpedAll(WithoutAll(s.rows, Ids(batch[..n])), Ids(batch[n..]))
      && MoreAnswers(s, s', batch, 0, n)
  {
    hide Accounted, AnsweredInHand, Once, Shaped, Answered, Run, WithoutAll, BumpedAll, MoreAnswers;
    var answers := AnswerAll(s, responses);
    var s1 := Run(s, answers);
    RunSingle(s1, Delete);
    var s2 := Step(s1, Delete);
    RunSingle(s2, Bump);
    RunConcat(s, answers, [Delete] + [Bump]);
    RunConcat(s1, [Delete], [Bump]);
    acts := answers + ([Delete] + [Bump]);
    SameAnswers(s, s1, Step(s2, Bump), s.phase.batch, Answered(responses, |s.phase.batch|));
  }

  lemma SameAnswers(s: State, s1: State, s2: State, batch: seq<Row>, n: nat)
    requires n <= |batch| && MoreAnswers(s, s1, batch, 0, n)
    requires s1.accepted == s2.accepted && s1.rejected == s2.rejected
    ensures MoreAnswers(s, s2, batch, 0, n)
  {
  }

  lemma NothingDrained(s: State, responses: seq<Response>)
    requires |responses| >= BATCH && Decodable(Peek(s.rows, BATCH)) == []
    ensures Drained(s.rows, responses) == WithoutAll(s.rows, Undecodable(Peek(s.rows, BATCH)))
  {
  }

  /** An uninterrupted drain, step by step. */
  lemma DrainSteps(s: State, responses: seq<Response>) returns (acts: seq<Action>)
    requires Inv(s) && s.phase.Idle? && |responses| >= BATCH
    ensures OwnSteps(acts) && Run(s, acts).phase.Idle? && Run(s, acts).rows == Drained(s.rows, responses)
    ensures var batch := Decodable(Peek(s.rows, BATCH));
      |batch| <= |responses| && MoreAnswers(s, Run(s, acts), batch, 0, Answered(responses, |batch|))
  {
    hide Accounted, AnsweredInHand, Once, Shaped, Decodable, Undecodable, Answered, Run, WithoutAll, BumpedAll;
    hide MoreAnswers;
    var fetched := Peek(s.rows, BATCH);
    DecodableLength(fetched);
    acts := ReadBatch(s);
    var s1, batch := Run(s, acts), Decodable(fetched);
    if batch == [] {
      NothingDrained(s, responses);
      NothingAnswered(s, s1, Answered(responses, 0));
    } else {
      var tail := Conclude(s1, responses);
      RunConcat(s, acts, tail);
      acts := acts + tail;
      SameBefore(s, s1, Run(s, acts), batch, Answered(responses, |batch|));
    }
  }

  lemma NothingAnswered(s: State, s1: State, n: nat)
    requires n == 0 && s1.accepted == s.accepted && s1.rejected == s.rejected
    ensures MoreAnswers(s, s1, [], 0, n)
  {
  }

  lemma SameBefore(s: State, s1: State, s2: State, batch: seq<Row>, n: nat)
    requires n <= |batch| && MoreAnswers(s1, s2, batch, 0, n)
    requires s1.accepted == s.accepted && s1.rejected == s.rejected
    ensures MoreAnswers(s, s2, batch, 0, n)
  {
  }

  /** What `DrainQueue` does in one go is what the protocol does when nothing comes
      in between. */
  lemma DrainIsRun(s: State, responses: seq<Response>)
    requires Inv(s) && s.phase.Idle? && |responses| >= BATCH
    ensures exists acts :: OwnSteps(acts) && Run(s, acts).phase.Idle? && Run(s, acts).rows == Drained(s.rows, responses)
  {
    hide Inv, OwnSteps, Run, Drained;
    var acts := DrainSteps(s, responses);
  }
}
