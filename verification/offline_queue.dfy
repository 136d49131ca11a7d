/** The table behind the offline queue, and the client that drains it. */
module OfflineQueues {
  import opened Sequences

  type Event = string

  /** A stored payload; a row may have been damaged on disk. */
  datatype Payload = Json(event: Event) | Corrupt

  datatype Row = Row(id: nat, payload: Payload, attempts: nat)

  /** `ORDER BY id` is table order: ids are handed out in increasing order. */
  ghost predicate Sorted(rows: seq<Row>) {
    forall i, j :: 0 <= i < j < |rows| ==> rows[i].id < rows[j].id
  }

  ghost predicate IdsBelow(rows: seq<Row>, n: nat) {
    forall i :: 0 <= i < |rows| ==> rows[i].id < n
  }

  predicate Holds(rows: seq<Row>, id: nat) {
    exists i :: 0 <= i < |rows| && rows[i].id == id
  }

  function Cap(maxRows: int): nat {
    if maxRows < 0 then 0 else maxRows
  }

  function Peek(rows: seq<Row>, limit: nat): seq<Row> {
    if |rows| <= limit then rows else rows[..limit]
  }

  /** What is read are the oldest rows: a front of the table, as long as it may be. */
  lemma PeekIsOldest(rows: seq<Row>, limit: nat)
    ensures Peek(rows, limit) <= rows && |Peek(rows, limit)| == if |rows| < limit then |rows| else limit
  {
  }

  /** `DELETE ... WHERE id = ?`. */
  function Without(rows: seq<Row>, id: nat): (kept: seq<Row>)
  {
    if rows == [] then []
    else if rows[0].id == id then Without(rows[1..], id)
    else [rows[0]] + Without(rows[1..], id)
  }

  function WithoutAll(rows: seq<Row>, ids: seq<nat>): seq<Row>
    decreases ids
  {
    if ids == [] then rows else WithoutAll(Without(rows, ids[0]), ids[1..])
  }

  /** `UPDATE ... SET attempts = attempts + 1 WHERE id = ?`. */
  function Bumped(rows: seq<Row>, id: nat): (r: seq<Row>)
    ensures |r| == |rows|
    ensures forall i :: 0 <= i < |r| ==>
      r[i] == if rows[i].id == id then rows[i].(attempts := rows[i].attempts + 1) else rows[i]
  {
    seq(|rows|, i requires 0 <= i < |rows| =>
      if rows[i].id == id then rows[i].(attempts := rows[i].attempts + 1) else rows[i])
  }

  function BumpedAll(rows: seq<Row>, ids: seq<nat>): seq<Row>
    decreases ids
  {
    if ids == [] then rows else BumpedAll(Bumped(rows, ids[0]), ids[1..])
  }

  function Ids(rows: seq<Row>): (ids: seq<nat>)
    ensures |ids| == |rows| && forall i :: 0 <= i < |rows| ==> ids[i] == rows[i].id
  {
    seq(|rows|, i requires 0 <= i < |rows| => rows[i].id)
  }

  predicate Among(ids: seq<nat>, id: nat) {
    exists i :: 0 <= i < |ids| && ids[i] == id
  }

  // ---- What the statements do to membership and order ----

  lemma {:induction false} WithoutMeaning(rows: seq<Row>, id: nat)
    ensures forall k :: Holds(Without(rows, id), k) <==> Holds(rows, k) && k != id
    ensures Sorted(rows) ==> Sorted(Without(rows, id))
    ensures forall n: nat :: IdsBelow(rows, n) ==> IdsBelow(Without(rows, id), n)
    ensures forall r :: r in Without(rows, id) <==> r in rows && r.id != id
  {
    if rows != [] {
      var rest := Without(rows[1..], id);
      WithoutMeaning(rows[1..], id);
      forall k ensures Holds(Without(rows, id), k) <==> Holds(rows, k) && k != id {
        HoldsCons(rows[0], rows[1..], k);
        HoldsCons(rows[0], rest, k);
        assert rows == [rows[0]] + rows[1..];
      }
    }
  }

  lemma HoldsCons(r: Row, rows: seq<Row>, k: nat)
    ensures Holds([r] + rows, k) <==> r.id == k || Holds(rows, k)
  {
    var all := [r] + rows;
    assert all[0] == r && forall i :: 0 <= i < |rows| ==> all[i + 1] == rows[i];
    if Holds(all, k) {
      var i :| 0 <= i < |all| && all[i].id == k;
      if i > 0 {
        assert rows[i - 1].id == k;
      }
    }
    if Holds(rows, k) {
      var i :| 0 <= i < |rows| && rows[i].id == k;
      assert all[i + 1].id == k;
    }
  }

  lemma {:induction false} WithoutAllMeaning(rows: seq<Row>, ids: seq<nat>)
    ensures forall k :: Holds(WithoutAll(rows, ids), k) <==> Holds(rows, k) && !Among(ids, k)
    ensures Sorted(rows) ==> Sorted(WithoutAll(rows, ids))
    ensures forall n: nat :: IdsBelow(rows, n) ==> IdsBelow(WithoutAll(rows, ids), n)
    ensures forall r :: r in WithoutAll(rows, ids) <==> r in rows && !Among(ids, r.id)
    decreases ids
  {
    hide Holds, Sorted, IdsBelow;
    if ids != [] {
      WithoutMeaning(rows, ids[0]);
      WithoutAllMeaning(Without(rows, ids[0]), ids[1..]);
      forall k ensures Among(ids, k) <==> k == ids[0] || Among(ids[1..], k) {
        if Among(ids, k) && k != ids[0] {
          var i :| 0 <= i < |ids| && ids[i] == k;
          assert ids[1..][i - 1] == k;
        }
      }
    }
  }

  lemma {:induction false} BumpedAllIds(rows: seq<Row>, ids: seq<nat>)
    ensures Ids(BumpedAll(rows, ids)) == Ids(rows)
    decreases ids
  {
    if ids != [] {
      BumpedAllIds(Bumped(rows, ids[0]), ids[1..]);
      assert Ids(Bumped(rows, ids[0])) == Ids(rows);
    }
  }

  lemma SameIds(a: seq<Row>, b: seq<Row>)
    requires Ids(a) == Ids(b)
    ensures Sorted(a) <==> Sorted(b)
    ensures forall n: nat :: IdsBelow(a, n) <==> IdsBelow(b, n)
    ensures forall k :: Holds(a, k) <==> Holds(b, k)
  {
    assert |a| == |b| && forall i :: 0 <= i < |a| ==> a[i].id == Ids(a)[i] == Ids(b)[i] == b[i].id;
  }

  /** Dropping a prefix of a sorted table drops its oldest rows. */
  lemma SuffixMeaning(all: seq<Row>, d: nat)
    requires d <= |all| && Sorted(all)
    ensures Sorted(all[d..])
    ensures forall n: nat :: IdsBelow(all, n) ==> IdsBelow(all[d..], n)
    ensures forall k :: Holds(all[d..], k) ==> Holds(all, k)
    ensures forall i, j :: 0 <= i < d <= j < |all| ==> all[i].id < all[j].id
    ensures forall k :: Holds(all, k) && !Holds(all[d..], k) ==> Holds(all[..d], k)
  {
    var after, before := all[d..], all[..d];
    assert forall i :: 0 <= i < |after| ==> after[i] == all[d + i];
    forall x | d <= x < |all| ensures Holds(after, all[x].id) {
      assert after[x - d] == all[x];
    }
    forall k | Holds(all, k) && !Holds(after, k) ensures Holds(before, k) {
      var i :| 0 <= i < |all| && all[i].id == k;
      assert before[i].id == k;
    }
  }

  /** The oldest rows go first: every evicted id is smaller than every kept one. */
  ghost predicate OldestEvicted(all: seq<Row>, after: seq<Row>) {
    forall k, kept :: Holds(all, k) && !Holds(after, k) && Holds(after, kept) ==> k < kept
  }

  lemma SuffixEvictsOldest(all: seq<Row>, d: nat)
    requires d <= |all| && Sorted(all)
    ensures OldestEvicted(all, all[d..])
  {
    SuffixMeaning(all, d);
    forall k, kept | Holds(all, k) && !Holds(all[d..], k) && Holds(all[d..], kept) ensures k < kept {
      assert Holds(all[..d], k);
      var i :| 0 <= i < d && all[..d][i].id == k;
      var j :| 0 <= j < |all[d..]| && all[d..][j].id == kept;
      assert all[i].id < all[d + j].id;
    }
  }

  /** Inserting a row evicts only as many rows as the cap demands, oldest first. */
  lemma InsertMeaning(rows: seq<Row>, r: Row, cap: nat)
    requires Sorted(rows) && IdsBelow(rows, r.id)
    ensures var after := Append(rows, r, cap);
      && |after| <= cap && Sorted(after) && IdsBelow(after, r.id + 1)
      && (|rows| + 1 <= cap ==> after == rows + [r])
      && (forall k :: Holds(after, k) ==> Holds(rows + [r], k))
      && OldestEvicted(rows + [r], after)
  {
    hide Holds, OldestEvicted;
    var all := rows + [r];
    var after := Append(rows, r, cap);
    assert after == all[|all| - |after|..];
    SuffixMeaning(all, |all| - |after|);
    SuffixEvictsOldest(all, |all| - |after|);
  }

  // ---- The queue ----

  class OfflineQueue {
    const maxRows: int
    var rows: seq<Row>
    /** The next `AUTOINCREMENT` id: never reused, even after deletes. */
    var nextId: nat

    ghost predicate Valid()
      reads this
    {
      Sorted(rows) && IdsBelow(rows, nextId)
    }

    constructor (maxRows: int)
      ensures Valid() && rows == [] && nextId == 1 && this.maxRows == maxRows
    {
      this.maxRows := maxRows;
      rows, nextId := [], 1;
    }

    method Enqueue(p: Payload)
      requires Valid()
      modifies this
      ensures Valid() && nextId == old(nextId) + 1
      ensures rows == Append(old(rows), Row(old(nextId), p, 0), Cap(maxRows))
    {
      InsertMeaning(rows, Row(nextId, p, 0), Cap(maxRows));
      rows := rows + [Row(nextId, p, 0)];
      nextId := nextId + 1;
      var count := |rows|;
      if count > maxRows {
        var excess := count - maxRows;
        rows := if excess >= |rows| then [] else rows[excess..];
      }
    }

    /** Reads the oldest rows; rows that do not decode are deleted on the way. */
    method PeekBatch(limit: nat) returns (out: seq<Row>)
      requires Valid()
      modifies this`rows
      ensures Valid()
      ensures out == Decodable(Peek(old(rows), limit))
      ensures rows == WithoutAll(old(rows), Undecodable(Peek(old(rows), limit)))
    {
      hide Holds, Sorted, IdsBelow;
      var fetched := Peek(rows, limit);
      out := [];
      for i := 0 to |fetched|
        invariant Valid()
        invariant out + Decodable(fetched[i..]) == Decodable(fetched)
        invariant WithoutAll(rows, Undecodable(fetched[i..])) == WithoutAll(old(rows), Undecodable(fetched))
      {
        assert fetched[i..][0] == fetched[i] && fetched[i..][1..] == fetched[i + 1..];
        if fetched[i].payload.Json? {
          assert out + ([fetched[i]] + Decodable(fetched[i + 1..])) == out + [fetched[i]] + Decodable(fetched[i + 1..]);
          out := out + [fetched[i]];
        } else {
          WithoutMeaning(rows, fetched[i].id);
          rows := Without(rows, fetched[i].id);
        }
      }
      assert fetched[|fetched|..] == [];
      assert out + [] == out;
    }

    method Delete(ids: seq<nat>)
      requires Valid()
      modifies this`rows
      ensures Valid() && rows == WithoutAll(old(rows), ids)
    {
      hide Holds, Sorted, IdsBelow;
      for i := 0 to |ids|
        invariant Valid() && WithoutAll(rows, ids[i..]) == WithoutAll(old(rows), ids)
      {
        assert ids[i..][0] == ids[i] && ids[i..][1..] == ids[i + 1..];
        WithoutMeaning(rows, ids[i]);
        rows := Without(rows, ids[i]);
      }
    }

    method IncrementAttempts(ids: seq<nat>)
      requires Valid()
      modifies this`rows
      ensures Valid() && rows == BumpedAll(old(rows), ids)
    {
      hide Holds;
      for i := 0 to |ids|
        invariant Valid() && BumpedAll(rows, ids[i..]) == BumpedAll(old(rows), ids)
      {
        assert ids[i..][0] == ids[i] && ids[i..][1..] == ids[i + 1..];
        rows := Bumped(rows, ids[i]);
      }
    }
  }

  function Decodable(rows: seq<Row>): seq<Row> {
    if rows == [] then []
    else if rows[0].payload.Json? then [rows[0]] + Decodable(rows[1..])
    else Decodable(rows[1..])
  }

  function Undecodable(rows: seq<Row>): seq<nat> {
    if rows == [] then []
    else if rows[0].payload.Json? then Undecodable(rows[1..])
    else [rows[0].id] + Undecodable(rows[1..])
  }

  // ---- The client ----

  /** What a POST came to. */
  datatype Response = Status(code: int) | ConnectionError

  /** The backend has dealt with the event, for better (201) or worse (4xx). */
  predicate Final(r: Response) {
    r.Status? && (r.code == 201 || 400 <= r.code < 500)
  }

  /** How many leading responses are final. */
  function Answered(rs: seq<Response>, n: nat): (k: nat)
    requires n <= |rs|
    ensures k <= n
    ensures forall i :: 0 <= i < k ==> Final(rs[i])
    ensures k < n ==> !Final(rs[k])
  {
    if n == 0 then 0
    else
      var k := Answered(rs, n - 1);
      if k == n - 1 && Final(rs[n - 1]) then n else k
  }

  const BATCH: nat := 50

  /** The table after an uninterrupted drain: rows that do not decode are gone, so
      is the answered prefix of the batch, and the rest of the batch has one more
      attempt. */
  function Drained(rows: seq<Row>, responses: seq<Response>): seq<Row>
    requires |responses| >= BATCH
  {
    var fetched := Peek(rows, BATCH);
    var batch := Decodable(fetched);
    DecodableLength(fetched);
    var n := Answered(responses, |batch|);
    BumpedAll(WithoutAll(WithoutAll(rows, Undecodable(fetched)), Ids(batch[..n])), Ids(batch[n..]))
  }

  class ApiClient {
    const queue: OfflineQueue

    constructor (queue: OfflineQueue)
      ensures this.queue == queue
    {
      this.queue := queue;
    }

    /** One uninterrupted drain; `responses[i]` is what posting the `i`th row of
        the batch would come to. */
    method DrainQueue(responses: seq<Response>)
      requires queue.Valid() && |responses| >= BATCH
      modifies queue`rows
      ensures queue.Valid()
      ensures queue.rows == Drained(old(queue.rows), responses)
    {
      ghost var fetched := Peek(queue.rows, BATCH);
      DecodableLength(fetched);
      var batch := queue.PeekBatch(BATCH);
      if batch == [] {
        return;
      }
      var toDelete: seq<nat> := [];
      var stopEarly, stopIndex := false, |batch|;
      var idx := 0;
      while idx < |batch|
        invariant 0 <= idx <= |batch| && toDelete == Ids(batch[..idx])
        invariant Answered(responses, idx) == idx && !stopEarly && stopIndex == |batch|
      {
        var resp := responses[idx];
        if resp.Status? && (resp.code == 201 || 400 <= resp.code < 500) {
          assert batch[..idx + 1] == batch[..idx] + [batch[idx]];
          toDelete := toDelete + [batch[idx].id];
        } else {
          stopEarly, stopIndex := true, idx;
          break;
        }
        idx := idx + 1;
      }
      AnsweredStops(responses, idx, |batch|);
      assert batch[..|batch|] == batch;
      if toDelete != [] {
        queue.Delete(toDelete);
      }
      if stopEarly {
        queue.IncrementAttempts(Ids(batch[stopIndex..]));
      }
    }

    /** A direct post: an event that the backend did not deal with is queued. */
    method PostEvent(e: Event, response: Response) returns (ok: bool)
      requires queue.Valid()
      modifies queue
      ensures queue.Valid()
      ensures ok <==> response == Status(201)
      ensures queue.nextId == if Dealt(response) then old(queue.nextId) else old(queue.nextId) + 1
      ensures if Dealt(response) then queue.rows == old(queue.rows)
              else queue.rows == Append(old(queue.rows), Row(old(queue.nextId), Json(e), 0), Cap(queue.maxRows))
    {
      if response == Status(201) {
        return true;
      }
      if response.Status? && 400 <= response.code < 500 {
        return false;
      }
      queue.Enqueue(Json(e));
      return false;
    }
  }

  lemma SortedOnce(rows: seq<Row>, r: Row, q: Row)
    requires Sorted(rows) && r in rows && q in rows && r.id == q.id
    ensures r == q
  {
    var i :| 0 <= i < |rows| && rows[i] == r;
    var j :| 0 <= j < |rows| && rows[j] == q;
  }

  lemma {:induction false} DecodableMeaning(rows: seq<Row>)
    ensures forall r :: r in Decodable(rows) <==> r in rows && r.payload.Json?
    ensures forall id :: Among(Undecodable(rows), id) <==> exists r :: r in rows && r.id == id && !r.payload.Json?
  {
    if rows != [] {
      var rest := rows[1..];
      DecodableMeaning(rest);
      assert rows == [rows[0]] + rest;
      var us := Undecodable(rest);
      forall id ensures Among(Undecodable(rows), id) <==> exists r :: r in rows && r.id == id && !r.payload.Json? {
        AmongCons(rows[0].id, us, id);
        if r :| r in rest && r.id == id && !r.payload.Json? {
          assert r in rows;
        }
      }
    }
  }

  lemma AmongCons(x: nat, ids: seq<nat>, id: nat)
    ensures Among([x] + ids, id) <==> id == x || Among(ids, id)
  {
    var more := [x] + ids;
    assert more[0] == x && forall i :: 0 <= i < |ids| ==> more[i + 1] == ids[i];
    if Among(more, id) && id != x {
      var i :| 0 <= i < |more| && more[i] == id;
      assert ids[i - 1] == id;
    }
    if Among(ids, id) {
      var i :| 0 <= i < |ids| && ids[i] == id;
      assert more[i + 1] == id;
    }
  }

  lemma IdsMeaning(rows: seq<Row>, id: nat)
    ensures Among(Ids(rows), id) <==> exists r :: r in rows && r.id == id
  {
    if r :| r in rows && r.id == id {
      var i :| 0 <= i < |rows| && rows[i] == r;
      assert Ids(rows)[i] == id;
    }
    if Among(Ids(rows), id) {
      var i :| 0 <= i < |rows| && Ids(rows)[i] == id;
      assert rows[i] in rows;
    }
  }

  /** Among the rows of the table, an id picks out one row. */
  lemma FetchedById(rows: seq<Row>, fetched: seq<Row>, r: Row)
    requires Sorted(rows) && r in rows && fetched == Peek(rows, BATCH)
    ensures r in fetched <==> exists q :: q in fetched && q.id == r.id
  {
    if q :| q in fetched && q.id == r.id {
      assert q in rows;
      SortedOnce(rows, r, q);
    }
  }

  /** Bumping distinct ids adds one attempt to exactly those rows. */
  lemma {:induction false} BumpedAllMeaning(rows: seq<Row>, ids: seq<nat>)
    requires forall i, j :: 0 <= i < j < |ids| ==> ids[i] != ids[j]
    ensures |BumpedAll(rows, ids)| == |rows|
    ensures forall i :: 0 <= i < |rows| ==>
      BumpedAll(rows, ids)[i] ==
      if Among(ids, rows[i].id) then Row(rows[i].id, rows[i].payload, rows[i].attempts + 1) else rows[i]
    decreases ids
  {
    if ids != [] {
      hide Bumped, Among;
      var more := Bumped(rows, ids[0]);
      assert |more| == |rows|;
      BumpedAllMeaning(more, ids[1..]);
      forall i | 0 <= i < |rows|
        ensures BumpedAll(rows, ids)[i] ==
          if Among(ids, rows[i].id) then Row(rows[i].id, rows[i].payload, rows[i].attempts + 1) else rows[i]
      {
        assert ids == [ids[0]] + ids[1..];
        AmongCons(ids[0], ids[1..], rows[i].id);
        NotAmong(ids);
      }
    } else {
      NoneAmong();
    }
  }

  lemma NoneAmong()
    ensures forall id :: !Among([], id)
  {
  }

  lemma NotAmong(ids: seq<nat>)
    requires ids != [] && forall i, j :: 0 <= i < j < |ids| ==> ids[i] != ids[j]
    ensures !Among(ids[1..], ids[0])
  {
    var rest := ids[1..];
    assert forall i :: 0 <= i < |rest| ==> rest[i] == ids[i + 1];
  }

  /** The backend has dealt with the event: it took it, or refused it for good. */
  predicate Dealt(r: Response) {
    r == Status(201) || (r.Status? && 400 <= r.code <= 499)
  }

  /** What becomes of every stored row when the first `k` rows of the batch are dealt
      with and the next one is not: those are gone; it and the rest of the batch stay,
      with one attempt more; rows that do not decode are gone; rows not read stay. */
  lemma DrainDecides(rows: seq<Row>, responses: seq<Response>, k: nat)
    requires Sorted(rows) && |responses| >= BATCH
    requires var n := |Decodable(Peek(rows, BATCH))|;
      k <= n <= |responses| && (forall i :: 0 <= i < k ==> Dealt(responses[i])) && (k < n ==> !Dealt(responses[k]))
    ensures var batch := Decodable(Peek(rows, BATCH)); var after := Drained(rows, responses);
      && (forall i :: 0 <= i < k ==> !Holds(after, batch[i].id))
      && (forall i :: k <= i < |batch| ==> Row(batch[i].id, batch[i].payload, batch[i].attempts + 1) in after)
      && (forall r :: r in Peek(rows, BATCH) && !r.payload.Json? ==> !Holds(after, r.id))
      && (forall r :: r in rows && r !in Peek(rows, BATCH) ==> r in after)
  {
    hide Sorted, Peek, Decodable, Undecodable, BumpedAll, WithoutAll, Holds, Among;
    var fetched := Peek(rows, BATCH);
    var batch := Decodable(fetched);
    FinalPrefix(responses, k);
    AnsweredStops(responses, k, |batch|);
    DecodableMeaning(fetched);
    var gone, kept := Ids(batch[..k]), Ids(batch[k..]);
    var left := WithoutAll(rows, Undecodable(fetched));
    WithoutAllMeaning(rows, Undecodable(fetched));
    WithoutAllMeaning(left, gone);
    BatchSorted(rows, batch);
    forall i | 0 <= i < k ensures !Holds(Drained(rows, responses), batch[i].id) {
      assert Among(gone, batch[i].id) by { AmongIds(batch[..k], i); }
      SameIdsBumped(WithoutAll(left, gone), kept, batch[i].id);
    }
    forall i | k <= i < |batch|
      ensures Row(batch[i].id, batch[i].payload, batch[i].attempts + 1) in Drained(rows, responses)
    {
      BatchKept(rows, fetched, batch, k, i);
      RowBumped(WithoutAll(left, gone), kept, batch[i]);
    }
    forall r | r in fetched && !r.payload.Json? ensures !Holds(Drained(rows, responses), r.id) {
      SameIdsBumped(WithoutAll(left, gone), kept, r.id);
    }
    forall r | r in rows && r !in fetched ensures r in Drained(rows, responses) {
      NotFetched(rows, fetched, batch, k, r);
      RowBumped(WithoutAll(left, gone), kept, r);
    }
  }

  lemma RowBumped(rows: seq<Row>, ids: seq<nat>, r: Row)
    requires r in rows && forall i, j :: 0 <= i < j < |ids| ==> ids[i] != ids[j]
    ensures (if Among(ids, r.id) then Row(r.id, r.payload, r.attempts + 1) else r) in BumpedAll(rows, ids)
  {
    hide BumpedAll, Among;
    BumpedAllMeaning(rows, ids);
    var j :| 0 <= j < |rows| && rows[j] == r;
    assert BumpedAll(rows, ids)[j] in BumpedAll(rows, ids);
  }

  lemma {:induction false} FinalPrefix(rs: seq<Response>, k: nat)
    requires k <= |rs| && forall i :: 0 <= i < k ==> Dealt(rs[i])
    ensures Answered(rs, k) == k
    ensures k < |rs| ==> (Final(rs[k]) <==> Dealt(rs[k]))
  {
    if k > 0 {
      FinalPrefix(rs, k - 1);
    }
  }

  lemma AmongIds(rows: seq<Row>, i: nat)
    requires i < |rows|
    ensures Among(Ids(rows), rows[i].id)
  {
    assert Ids(rows)[i] == rows[i].id;
  }

  lemma SameIdsBumped(rows: seq<Row>, ids: seq<nat>, id: nat)
    ensures Holds(BumpedAll(rows, ids), id) <==> Holds(rows, id)
  {
    BumpedAllIds(rows, ids);
    SameIds(BumpedAll(rows, ids), rows);
  }

  lemma {:induction false} DecodableSorted(rows: seq<Row>)
    requires Sorted(rows)
    ensures Sorted(Decodable(rows))
  {
    if rows != [] {
      var rest := rows[1..];
      assert forall i :: 0 <= i < |rest| ==> rest[i] == rows[i + 1];
      DecodableSorted(rest);
      DecodableMeaning(rest);
      var ds := Decodable(rest);
      forall i | 0 <= i < |ds| ensures ds[i].id > rows[0].id {
        assert ds[i] in rest;
      }
    }
  }

  lemma BatchSorted(rows: seq<Row>, batch: seq<Row>)
    requires Sorted(rows) && batch == Decodable(Peek(rows, BATCH))
    ensures Sorted(batch)
    ensures forall k: nat :: k <= |batch| ==>
      forall i, j :: 0 <= i < j < |Ids(batch[k..])| ==> Ids(batch[k..])[i] != Ids(batch[k..])[j]
  {
    DecodableSorted(Peek(rows, BATCH));
  }

  /** A row of the batch from place `k` on is touched by no delete. */
  lemma BatchKept(rows: seq<Row>, fetched: seq<Row>, batch: seq<Row>, k: nat, i: nat)
    requires Sorted(rows) && fetched == Peek(rows, BATCH) && batch == Decodable(fetched) && k <= i < |batch|
    ensures batch[i] in WithoutAll(WithoutAll(rows, Undecodable(fetched)), Ids(batch[..k]))
    ensures Among(Ids(batch[k..]), batch[i].id)
  {
    hide Decodable, Undecodable, WithoutAll;
    var r := batch[i];
    DecodableMeaning(fetched);
    BatchSorted(rows, batch);
    assert r in batch && r in fetched && r in rows;
    WithoutAllMeaning(rows, Undecodable(fetched));
    WithoutAllMeaning(WithoutAll(rows, Undecodable(fetched)), Ids(batch[..k]));
    if Among(Undecodable(fetched), r.id) {
      var q :| q in fetched && q.id == r.id && !q.payload.Json?;
      SortedOnce(rows, q, r);
    }
    assert batch[k..][i - k] == r;
    AmongIds(batch[k..], i - k);
  }

  lemma NotFetched(rows: seq<Row>, fetched: seq<Row>, batch: seq<Row>, k: nat, r: Row)
    requires Sorted(rows) && fetched == Peek(rows, BATCH) && batch == Decodable(fetched) && k <= |batch|
    requires r in rows && r !in fetched
    ensures r in WithoutAll(WithoutAll(rows, Undecodable(fetched)), Ids(batch[..k]))
    ensures !Among(Ids(batch[k..]), r.id)
  {
    hide Decodable, Undecodable, WithoutAll;
    DecodableMeaning(fetched);
    FetchedById(rows, fetched, r);
    WithoutAllMeaning(rows, Undecodable(fetched));
    WithoutAllMeaning(WithoutAll(rows, Undecodable(fetched)), Ids(batch[..k]));
    forall ids | ids == batch[..k] || ids == batch[k..] ensures !Among(Ids(ids), r.id) {
      IdsMeaning(ids, r.id);
      assert forall q :: q in ids ==> q in batch;
    }
  }

  lemma {:induction false} DecodableLength(rows: seq<Row>)
    ensures |Decodable(rows)| <= |rows|
  {
    if rows != [] {
      DecodableLength(rows[1..]);
    }
  }

  lemma {:induction false} AnsweredStops(rs: seq<Response>, k: nat, n: nat)
    requires k <= n <= |rs| && Answered(rs, k) == k
    requires k < n ==> !Final(rs[k])
    ensures Answered(rs, n) == k
  {
    var m := Answered(rs, n);
    assert forall i :: 0 <= i < k ==> Final(rs[i]);
  }
}
