/** Walking all enabled channels in batches: each query takes the next rows in id order behind
    the last id of the previous batch, and a batch that is not full is the last one. */
module Batches {
  import opened Wrappers
  import opened UpstreamSync

  const BATCH_SIZE: nat := 100

  datatype Row = Row(id: int, enabled: bool, checks: bool, setup: Setup, channel: Channel)

  // The table by primary key. Ids are assigned from 1 on.
  predicate Ordered(rows: seq<Row>) {
    if rows == [] then true
    else
      var n := |rows| - 1;
      rows[n].id > (if n == 0 then 0 else rows[n - 1].id) && Ordered(rows[..n])
  }

  lemma {:induction false} IdsAscend(rows: seq<Row>)
    requires Ordered(rows)
    ensures forall i :: 0 <= i < |rows| ==> rows[i].id > 0
    ensures forall i, j :: 0 <= i < j < |rows| ==> rows[i].id < rows[j].id
  {
    if rows != [] {
      var n := |rows| - 1;
      IdsAscend(rows[..n]);
      assert forall i :: 0 <= i < n ==> rows[..n][i] == rows[i];
      assert n > 0 ==> rows[..n][n - 1].id < rows[n].id;
    }
  }

  // The condition of the query; the id is compared only when there was a batch before.
  predicate Selects(row: Row, lastID: int) {
    row.enabled && (lastID > 0 ==> row.id > lastID)
  }

  // The first selected row at or behind p.
  function FirstFrom(rows: seq<Row>, p: nat, lastID: int): (i: nat)
    requires p <= |rows|
    ensures p <= i <= |rows|
    decreases |rows| - p
  {
    if p == |rows| || Selects(rows[p], lastID) then p else FirstFrom(rows, p + 1, lastID)
  }

  lemma {:induction false} FirstFacts(rows: seq<Row>, p: nat, lastID: int)
    requires p <= |rows|
    ensures var i := FirstFrom(rows, p, lastID);
      && (forall j :: p <= j < i ==> !Selects(rows[j], lastID))
      && (i < |rows| ==> Selects(rows[i], lastID))
    decreases |rows| - p
  {
    if !(p == |rows| || Selects(rows[p], lastID)) {
      FirstFacts(rows, p + 1, lastID);
    }
  }

  // Up to `limit` selected rows at or behind p, in id order.
  function Query(rows: seq<Row>, p: nat, lastID: int, limit: nat): seq<Row>
    requires p <= |rows|
    decreases limit
  {
    if limit == 0 then []
    else
      var i := FirstFrom(rows, p, lastID);
      if i == |rows| then [] else [rows[i]] + Query(rows, i + 1, lastID, limit - 1)
  }

  // What a walk does with one row: the channel to store, and what to report about it.
  type Handler<!E> = Row -> (Channel, Option<E>)

  function Handled<E>(row: Row, handle: Handler<E>): Row {
    if row.enabled then row.(channel := handle(row).0) else row
  }

  function HandledAll<E>(rows: seq<Row>, handle: Handler<E>): seq<Row> {
    seq(|rows|, i requires 0 <= i < |rows| => Handled(rows[i], handle))
  }

  function Noted<E>(entries: seq<E>, r: Option<E>): seq<E> {
    if r.Some? then entries + [r.value] else entries
  }

  // The reports of the first n rows, in id order.
  function Reports<E>(rows: seq<Row>, n: nat, handle: Handler<E>): seq<E>
    requires n <= |rows|
  {
    if n == 0 then []
    else
      var before := Reports(rows, n - 1, handle);
      if rows[n - 1].enabled then Noted(before, handle(rows[n - 1]).1) else before
  }

  // What the first n rows come to together.
  function SumOver(rows: seq<Row>, n: nat, f: Row -> nat): nat
    requires n <= |rows|
  {
    if n == 0 then 0 else SumOver(rows, n - 1, f) + f(rows[n - 1])
  }

  lemma {:induction false} SumIsZero(rows: seq<Row>, n: nat, f: Row -> nat)
    requires n <= |rows|
    ensures SumOver(rows, n, f) == 0 <==> forall i :: 0 <= i < n ==> f(rows[i]) == 0
  {
    if n > 0 {
      SumIsZero(rows, n - 1, f);
    }
  }

  // The rows while a walk has handled the first n.
  function Partly<E>(rows: seq<Row>, n: nat, handle: Handler<E>): (r: seq<Row>)
    requires n <= |rows|
    ensures |r| == |rows|
  {
    if n == 0 then rows else Partly(rows, n - 1, handle)[n - 1 := Handled(rows[n - 1], handle)]
  }

  lemma {:induction false} PartlyAt<E>(rows: seq<Row>, n: nat, handle: Handler<E>)
    requires n <= |rows|
    ensures forall i :: 0 <= i < |rows| ==> Partly(rows, n, handle)[i] == if i < n then Handled(rows[i], handle) else rows[i]
  {
    if n > 0 {
      PartlyAt(rows, n - 1, handle);
    }
  }

  lemma FirstIsUnique(rows: seq<Row>, rows': seq<Row>, p: nat, q: nat, lastID: int, lastID': int)
    requires p <= q <= |rows| == |rows'|
    requires forall j :: p <= j < q ==> !Selects(rows[j], lastID)
    requires forall j :: q <= j < |rows| ==> (Selects(rows[j], lastID) <==> Selects(rows'[j], lastID'))
    ensures FirstFrom(rows, p, lastID) == FirstFrom(rows', q, lastID')
  {
    FirstFacts(rows, p, lastID);
    FirstFacts(rows', q, lastID');
  }

  lemma {:induction false} SameQuery(rows: seq<Row>, rows': seq<Row>, p: nat, q: nat, lastID: int, lastID': int, limit: nat)
    requires p <= q <= |rows| == |rows'|
    requires forall j :: p <= j < q ==> !Selects(rows[j], lastID)
    requires forall j :: q <= j < |rows| ==> rows[j] == rows'[j] && (Selects(rows[j], lastID) <==> Selects(rows'[j], lastID'))
    ensures Query(rows, p, lastID, limit) == Query(rows', q, lastID', limit)
    decreases limit
  {
    if limit > 0 {
      FirstIsUnique(rows, rows', p, q, lastID, lastID');
      var i := FirstFrom(rows, p, lastID);
      if i < |rows| {
        SameQuery(rows, rows', i + 1, i + 1, lastID, lastID', limit - 1);
      }
    }
  }

  // The cursor: when the first k rows lie at or before the last id, the query continues
  // with row k of the table as it was.
  lemma QueryContinues<E>(rows: seq<Row>, k: nat, lastID: int, limit: nat, handle: Handler<E>)
    requires Ordered(rows) && k <= |rows|
    requires if k == 0 then lastID == 0 else lastID == rows[k - 1].id
    ensures Query(Partly(rows, k, handle), 0, lastID, limit) == Query(rows, k, 0, limit)
  {
    var now := Partly(rows, k, handle);
    PartlyAt(rows, k, handle);
    IdsAscend(rows);
    assert forall j :: 0 <= j < |rows| ==> now[j].id == rows[j].id && now[j].enabled == rows[j].enabled;
    SameQuery(now, rows, 0, k, lastID, 0, limit);
  }

  // Rows that are not enabled change nothing and report nothing.
  lemma {:induction false} SkipDisabled<E>(rows: seq<Row>, p: nat, i: nat, handle: Handler<E>)
    requires p <= i <= |rows| && forall j :: p <= j < i ==> !rows[j].enabled
    ensures Partly(rows, i, handle) == Partly(rows, p, handle)
    ensures Reports(rows, i, handle) == Reports(rows, p, handle)
    decreases i
  {
    if p < i {
      SkipDisabled(rows, p, i - 1, handle);
      PartlyAt(rows, i - 1, handle);
    }
  }

  // The column update of one row.
  function Stored(rows: seq<Row>, id: int, channel: Channel): seq<Row> {
    seq(|rows|, i requires 0 <= i < |rows| => if rows[i].id == id then rows[i].(channel := channel) else rows[i])
  }

  lemma StoreAdvances<E>(rows: seq<Row>, i: nat, handle: Handler<E>)
    requires Ordered(rows) && i < |rows| && rows[i].enabled
    ensures Stored(Partly(rows, i, handle), rows[i].id, handle(rows[i]).0) == Partly(rows, i + 1, handle)
  {
    var before, after := Partly(rows, i, handle), Partly(rows, i + 1, handle);
    PartlyAt(rows, i, handle);
    IdsAscend(rows);
    forall j | 0 <= j < |rows| ensures Stored(before, rows[i].id, handle(rows[i]).0)[j] == after[j] {
      if j < i {
        assert rows[j].id < rows[i].id;
      } else if i < j {
        assert rows[i].id < rows[j].id;
      }
    }
  }

  // Row j of a batch is the next enabled row of the table, and the batch goes on behind it.
  lemma RowAdvances<E>(rows: seq<Row>, p: nat, batch: seq<Row>, j: nat, limit: nat, handle: Handler<E>)
    requires Ordered(rows) && p <= |rows| && j < |batch| && j <= limit
    requires batch[j..] == Query(rows, p, 0, limit - j)
    ensures j < limit
    ensures var i := FirstFrom(rows, p, 0);
      && i < |rows| && rows[i] == batch[j]
      && batch[j + 1..] == Query(rows, i + 1, 0, limit - (j + 1))
      && Stored(Partly(rows, p, handle), batch[j].id, handle(batch[j]).0) == Partly(rows, i + 1, handle)
      && Reports(rows, i + 1, handle) == Noted(Reports(rows, p, handle), handle(batch[j]).1)
  {
    var i := FirstFrom(rows, p, 0);
    assert batch[j..][0] == batch[j] && batch[j..][1..] == batch[j + 1..];
    FirstFacts(rows, p, 0);
    SkipDisabled(rows, p, i, handle);
    StoreAdvances(rows, i, handle);
  }

  class Table {
    var rows: seq<Row>

    method HandleRow<E>(row: Row, handle: Handler<E>, reported: seq<E>) returns (entries: seq<E>)
      modifies this
      ensures rows == Stored(old(rows), row.id, handle(row).0)
      ensures entries == Noted(reported, handle(row).1)
    {
      var result := handle(row);
      rows := Stored(rows, row.id, result.0);
      entries := reported;
      if result.1.Some? {
        entries := entries + [result.1.value];
      }
    }

    // The rows of one batch; p is the place in the table behind its last row.
    method HandleBatch<E>(ghost start: seq<Row>, ghost k: nat, ghost limit: nat, batch: seq<Row>, handle: Handler<E>, reported: seq<E>)
      returns (entries: seq<E>, ghost p: nat)
      requires Ordered(start) && k <= |start| && batch == Query(start, k, 0, limit) && batch != []
      requires rows == Partly(start, k, handle) && reported == Reports(start, k, handle)
      modifies this
      ensures k < p <= |start| && start[p - 1] == batch[|batch| - 1]
      ensures |batch| <= limit && Query(start, p, 0, limit - |batch|) == []
      ensures rows == Partly(start, p, handle) && entries == Reports(start, p, handle)
    {
      entries, p := reported, k;
      for j := 0 to |batch|
        invariant k <= p <= |start| && j <= limit && (j > 0 ==> k < p && start[p - 1] == batch[j - 1])
        invariant batch[j..] == Query(start, p, 0, limit - j)
        invariant rows == Partly(start, p, handle) && entries == Reports(start, p, handle)
      {
        RowAdvances(start, p, batch, j, limit, handle);
        entries := HandleRow(batch[j], handle, entries);
        p := FirstFrom(start, p, 0) + 1;
      }
    }

    // Every enabled row is handled once, in id order, as it was before the walk. A query that
    // fails ends the walk behind the rows handled so far.
    method Walk<E>(batchSize: nat, queryFails: nat -> bool, handle: Handler<E>)
      returns (entries: seq<E>, complete: bool, ghost done: nat)
      requires Ordered(rows) && batchSize > 0
      modifies this
      ensures done <= |old(rows)| && (complete ==> done == |old(rows)|)
      ensures rows == Partly(old(rows), done, handle) && entries == Reports(old(rows), done, handle)
      ensures (forall b :: !queryFails(b)) ==> complete
    {
      ghost var start := rows;
      entries, complete, done := [], true, 0;
      var lastID, queries := 0, 0;
      while true
        invariant done <= |start| && (if done == 0 then lastID == 0 else lastID == start[done - 1].id)
        invariant rows == Partly(start, done, handle) && entries == Reports(start, done, handle)
        decreases |start| - done
      {
        if queryFails(queries) {
          return entries, false, done;
        }
        QueryContinues(start, done, lastID, batchSize, handle);
        var batch := Query(rows, 0, lastID, batchSize);
        if |batch| == 0 {
          break;
        }
        lastID := batch[|batch| - 1].id;
        entries, done := HandleBatch(start, done, batchSize, batch, handle, entries);
        if |batch| < batchSize {
          break;
        }
        queries := queries + 1;
      }
      FirstFacts(start, done, 0);
      SkipDisabled(start, done, |start|, handle);
      done := |start|;
    }
  }

  // A walk that is not cut short handles all rows.
  lemma WholeWalk<E>(rows: seq<Row>, handle: Handler<E>)
    ensures Partly(rows, |rows|, handle) == HandledAll(rows, handle)
  {
    PartlyAt(rows, |rows|, handle);
  }
}
