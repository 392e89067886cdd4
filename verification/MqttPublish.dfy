/**
 Windowed publishing over several connections (examples/bench_mqtt_broker.zig,
 `publishWindowed`).

 Each batch first writes up to `window` publishes per publisher, round robin, then
 completes them in the same order.  The trace of writes and completions is the
 observable behaviour; clock readings are inputs.
 */
module MqttPublish {
  import opened Base

  /** `writePublish` with the packet id the connection chose, and `completePublish` of an id. */
  datatype Op = Write(publisher: nat, id: nat) | Complete(publisher: nat, id: nat)

  /** The packet ids a publisher wrote, or completed, in order. */
  function Written(trace: seq<Op>, p: nat): seq<nat> {
    if trace == [] then []
    else
      var last := trace[|trace| - 1];
      Written(trace[..|trace| - 1], p) + (if last.Write? && last.publisher == p then [last.id] else [])
  }

  function Completed(trace: seq<Op>, p: nat): seq<nat> {
    if trace == [] then []
    else
      var last := trace[|trace| - 1];
      Completed(trace[..|trace| - 1], p) + (if last.Complete? && last.publisher == p then [last.id] else [])
  }

  /** Completions so far follow the writes, and at most `window` writes are outstanding. */
  ghost predicate Windowed(trace: seq<Op>, p: nat, window: nat) {
    Completed(trace, p) <= Written(trace, p) && |Written(trace, p)| <= |Completed(trace, p)| + window
  }

  /** ... at every moment, for every publisher. */
  ghost predicate AlwaysWindowed(trace: seq<Op>, window: nat) {
    forall k, p: nat :: 0 <= k <= |trace| ==> Windowed(trace[..k], p, window)
  }

  lemma AlwaysWindowedStep(trace: seq<Op>, op: Op, window: nat)
    requires AlwaysWindowed(trace, window)
    requires Windowed(trace + [op], op.publisher, window)
    ensures AlwaysWindowed(trace + [op], window)
  {
    var all := trace + [op];
    forall k, p: nat | 0 <= k <= |all| ensures Windowed(all[..k], p, window) {
      if k <= |trace| {
        assert all[..k] == trace[..k];
        assert Windowed(trace[..k], p, window);
      } else {
        assert all[..k] == all;
        OpOnly(trace, op, p);
        assert trace[..|trace|] == trace;
        assert Windowed(trace[..|trace|], p, window);
      }
    }
  }

  lemma OpOnly(trace: seq<Op>, op: Op, p: nat)
    ensures Written(trace + [op], p) == Written(trace, p) + (if op.Write? && op.publisher == p then [op.id] else [])
    ensures Completed(trace + [op], p) == Completed(trace, p) + (if op.Complete? && op.publisher == p then [op.id] else [])
  {
    assert (trace + [op])[..|trace|] == trace;
  }

  // ----- Who sends what -----

  /** The packet ids of the first `n` messages of publisher `p`: messages p, p + P, p + 2P, ... */
  function Column(ids: nat -> nat, publishers: nat, p: nat, n: nat): (r: seq<nat>)
    ensures |r| == n
    ensures forall k :: 0 <= k < n ==> r[k] == ids(k * publishers + p)
  {
    seq(n, k requires 0 <= k < n => ids(k * publishers + p))
  }

  /** How many messages publisher `p` has had when `row` full turns and `col` more publishers were served. */
  function Served(row: nat, col: nat, p: nat): nat {
    row + (if p < col then 1 else 0)
  }

  /** Position `m` of the round robin as full turns and a remainder. */
  ghost predicate Position(publishers: nat, m: nat, row: nat, col: nat) {
    col < publishers && m == row * publishers + col
  }

  lemma PositionIs(publishers: nat, m: nat, row: nat, col: nat)
    requires Position(publishers, m, row, col)
    ensures m % publishers == col && m / publishers == row
  {
    QuotientIs(m, publishers, row, col);
  }

  function NextRow(publishers: nat, row: nat, col: nat): nat {
    if col + 1 < publishers then row else row + 1
  }

  function NextCol(publishers: nat, col: nat): nat {
    if col + 1 < publishers then col + 1 else 0
  }

  lemma PositionStep(publishers: nat, m: nat, row: nat, col: nat)
    requires Position(publishers, m, row, col)
    ensures Position(publishers, m + 1, NextRow(publishers, row, col), NextCol(publishers, col))
    ensures forall p :: 0 <= p < publishers ==>
      Served(NextRow(publishers, row, col), NextCol(publishers, col), p) == Served(row, col, p) + (if p == col then 1 else 0)
  {
    assert (row + 1) * publishers == row * publishers + publishers;
  }

  /** Publishers have written up to one position and completed up to another. */
  ghost predicate Progress(ids: nat -> nat, trace: seq<Op>, publishers: nat, wRow: nat, wCol: nat, cRow: nat, cCol: nat) {
    forall p :: 0 <= p < publishers ==> Stands(ids, trace, publishers, p, Served(wRow, wCol, p), Served(cRow, cCol, p))
  }

  /** One more message in a publisher's column. */
  lemma ColumnStep(ids: nat -> nat, publishers: nat, p: nat, n: nat)
    ensures Column(ids, publishers, p, n + 1) == Column(ids, publishers, p, n) + [ids(n * publishers + p)]
  {
  }

  lemma ColumnPrefix(ids: nat -> nat, publishers: nat, p: nat, m: nat, n: nat)
    requires m <= n
    ensures Column(ids, publishers, p, m) <= Column(ids, publishers, p, n)
  {
  }

  /** What serving column `col` once more means for publisher `p`. */
  lemma ServedStep(publishers: nat, row: nat, col: nat, p: nat)
    requires col < publishers && p < publishers
    ensures Served(NextRow(publishers, row, col), NextCol(publishers, col), p) == Served(row, col, p) + (if p == col then 1 else 0)
    ensures Served(row, col, col) == row
  {
  }

  /** Publisher `p` has written `w` messages of its column and completed `c` of them. */
  ghost predicate Stands(ids: nat -> nat, trace: seq<Op>, publishers: nat, p: nat, w: nat, c: nat) {
    Written(trace, p) == Column(ids, publishers, p, w) && Completed(trace, p) == Column(ids, publishers, p, c)
  }

  lemma StandsAfterWrite(ids: nat -> nat, trace: seq<Op>, publishers: nat, p: nat, w: nat, c: nat, op: Op)
    requires Stands(ids, trace, publishers, p, w, c) && op.Write? && (op.publisher == p ==> op.id == ids(w * publishers + p))
    ensures Stands(ids, trace + [op], publishers, p, if op.publisher == p then w + 1 else w, c)
  {
    OpOnly(trace, op, p);
    ColumnStep(ids, publishers, p, w);
  }

  lemma StandsAfterComplete(ids: nat -> nat, trace: seq<Op>, publishers: nat, p: nat, w: nat, c: nat, op: Op)
    requires Stands(ids, trace, publishers, p, w, c) && op.Complete? && (op.publisher == p ==> op.id == ids(c * publishers + p))
    ensures Stands(ids, trace + [op], publishers, p, w, if op.publisher == p then c + 1 else c)
  {
    OpOnly(trace, op, p);
    ColumnStep(ids, publishers, p, c);
  }

  lemma StandsIsWindowed(ids: nat -> nat, trace: seq<Op>, publishers: nat, p: nat, w: nat, c: nat, window: nat)
    requires Stands(ids, trace, publishers, p, w, c) && c <= w <= c + window
    ensures Windowed(trace, p, window)
  {
    ColumnPrefix(ids, publishers, p, c, w);
  }

  lemma WriteStep(ids: nat -> nat, trace: seq<Op>, publishers: nat, row: nat, col: nat, cRow: nat, window: nat, op: Op)
    requires Progress(ids, trace, publishers, row, col, cRow, 0) && AlwaysWindowed(trace, window)
    requires col < publishers && cRow <= row < cRow + window && op == Write(col, ids(row * publishers + col))
    ensures Progress(ids, trace + [op], publishers, NextRow(publishers, row, col), NextCol(publishers, col), cRow, 0)
    ensures AlwaysWindowed(trace + [op], window)
  {
    forall p | 0 <= p < publishers
      ensures Stands(ids, trace + [op], publishers, p, Served(NextRow(publishers, row, col), NextCol(publishers, col), p), Served(cRow, 0, p))
    {
      ServedStep(publishers, row, col, p);
      StandsAfterWrite(ids, trace, publishers, p, Served(row, col, p), Served(cRow, 0, p), op);
    }
    ServedStep(publishers, row, col, col);
    StandsIsWindowed(ids, trace + [op], publishers, col, row + 1, cRow, window);
    AlwaysWindowedStep(trace, op, window);
  }

  lemma CompleteStep(ids: nat -> nat, trace: seq<Op>, publishers: nat, wRow: nat, wCol: nat, row: nat, col: nat, window: nat, op: Op)
    requires Progress(ids, trace, publishers, wRow, wCol, row, col) && AlwaysWindowed(trace, window)
    requires col < publishers && row < Served(wRow, wCol, col) <= row + window && op == Complete(col, ids(row * publishers + col))
    ensures Progress(ids, trace + [op], publishers, wRow, wCol, NextRow(publishers, row, col), NextCol(publishers, col))
    ensures AlwaysWindowed(trace + [op], window)
  {
    forall p | 0 <= p < publishers
      ensures Stands(ids, trace + [op], publishers, p, Served(wRow, wCol, p), Served(NextRow(publishers, row, col), NextCol(publishers, col), p))
    {
      ServedStep(publishers, row, col, p);
      StandsAfterComplete(ids, trace, publishers, p, Served(wRow, wCol, p), Served(row, col, p), op);
    }
    ServedStep(publishers, row, col, col);
    StandsIsWindowed(ids, trace + [op], publishers, col, Served(wRow, wCol, col), row + 1, window);
    AlwaysWindowedStep(trace, op, window);
  }

  function SatSub(a: nat, b: nat): (r: nat)
    ensures r + b == Max(a, b)
  {
    if a < b then 0 else a - b
  }

  ghost predicate Sampled(samples: seq<Option<nat>>, n: nat, sentAt: nat -> nat, doneAt: nat -> nat) {
    forall m :: 0 <= m < |samples| ==> samples[m] == if m < n then Some(SatSub(doneAt(m), sentAt(m))) else None
  }

  // ----- Where every operation stands in the trace -----

  /** `trace'` adds `n` writes to `trace`, round robin, of the messages from `offset` on. */
  ghost predicate AddsWrites(ids: nat -> nat, trace: seq<Op>, trace': seq<Op>, publishers: nat, offset: nat, n: nat)
    requires publishers > 0
  {
    && |trace'| == |trace| + n && trace <= trace'
    && forall j :: 0 <= j < n ==> trace'[|trace| + j] == Write(j % publishers, ids(offset + j))
  }

  ghost predicate AddsCompletions(ids: nat -> nat, trace: seq<Op>, trace': seq<Op>, publishers: nat, offset: nat, n: nat)
    requires publishers > 0
  {
    && |trace'| == |trace| + n && trace <= trace'
    && forall j :: 0 <= j < n ==> trace'[|trace| + j] == Complete(j % publishers, ids(offset + j))
  }

  /**
   Batches are as wide as all windows together.  Message `m` of `count` is written after
   both operations of every message of earlier batches and the writes of its own batch
   before it, and completed after all writes of its batch.
   */
  ghost predicate Placed(ids: nat -> nat, trace: seq<Op>, publishers: nat, wide: nat, count: nat, m: nat)
    requires publishers > 0 && wide > 0
  {
    var offset := m / wide * wide;
    var written, completed := offset + m, offset + m + Min(wide, count - offset);
    && 0 <= written < |trace| && trace[written] == Write(m % publishers, ids(m))
    && 0 <= completed < |trace| && trace[completed] == Complete(m % publishers, ids(m))
  }

  ghost predicate AllPlaced(ids: nat -> nat, trace: seq<Op>, publishers: nat, wide: nat, count: nat, n: nat)
    requires publishers > 0 && wide > 0
  {
    |trace| == 2 * n && forall m :: 0 <= m < n ==> Placed(ids, trace, publishers, wide, count, m)
  }

  lemma PlaceOfMessage(publishers: nat, wide: nat, batch: nat, base: nat, j: nat)
    requires publishers > 0 && j < wide && batch * wide == base * publishers
    ensures (batch * wide + j) / wide == batch && (batch * wide + j) % publishers == j % publishers
  {
    QuotientIs(batch * wide + j, wide, batch, j);
    var row, col := j / publishers, j % publishers;
    assert (base + row) * publishers == base * publishers + row * publishers;
    QuotientIs(batch * wide + j, publishers, base + row, col);
  }

  lemma BatchPlaced(
    ids: nat -> nat, trace: seq<Op>, mid: seq<Op>, trace': seq<Op>, publishers: nat, wide: nat, count: nat,
    batch: nat, base: nat, offset: nat, n: nat, m: nat)
    requires publishers > 0 && wide > 0 && offset == batch * wide == base * publishers && offset <= m < offset + n
    requires n == Min(wide, count - offset) && |trace| == 2 * offset
    requires AddsWrites(ids, trace, mid, publishers, offset, n) && AddsCompletions(ids, mid, trace', publishers, offset, n)
    ensures Placed(ids, trace', publishers, wide, count, m)
  {
    var j := m - offset;
    PlaceOfMessage(publishers, wide, batch, base, j);
    assert mid[|trace| + j] == Write(j % publishers, ids(offset + j));
    assert trace'[|mid| + j] == Complete(j % publishers, ids(offset + j));
  }

  lemma AllPlacedStep(
    ids: nat -> nat, trace: seq<Op>, mid: seq<Op>, trace': seq<Op>, publishers: nat, wide: nat, count: nat,
    batch: nat, base: nat, offset: nat, n: nat)
    requires publishers > 0 && wide > 0 && offset == batch * wide == base * publishers && n == Min(wide, count - offset) >= 0
    requires AllPlaced(ids, trace, publishers, wide, count, offset)
    requires AddsWrites(ids, trace, mid, publishers, offset, n) && AddsCompletions(ids, mid, trace', publishers, offset, n)
    ensures AllPlaced(ids, trace', publishers, wide, count, offset + n)
  {
    forall m | 0 <= m < offset + n ensures Placed(ids, trace', publishers, wide, count, m) {
      if m < offset {
        assert Placed(ids, trace, publishers, wide, count, m);
      } else {
        BatchPlaced(ids, trace, mid, trace', publishers, wide, count, batch, base, offset, n, m);
      }
    }
  }

  // ----- The program -----

  lemma RowBound(publishers: nat, m: nat, row: nat, col: nat, rows: nat)
    requires Position(publishers, m, row, col) && m < rows * publishers
    ensures row < rows
  {
    assert row >= rows ==> row * publishers >= rows * publishers;
  }

  lemma RowsAdd(publishers: nat, a: nat, b: nat, col: nat)
    ensures (a + b) * publishers + col == a * publishers + (b * publishers + col)
  {
  }

  /** Of two positions the earlier one is in an earlier row, or in the same row and an earlier column. */
  lemma PositionOrder(publishers: nat, m: nat, row: nat, col: nat, m': nat, row': nat, col': nat)
    requires Position(publishers, m, row, col) && Position(publishers, m', row', col') && m < m'
    ensures row < row' || (row == row' && col < col')
  {
    assert row > row' ==> row * publishers >= (row' + 1) * publishers == row' * publishers + publishers;
  }

  /** At most `window` rows fit into a batch; when all do, the last one is complete. */
  lemma LastRow(publishers: nat, n: nat, row: nat, col: nat, window: nat)
    requires Position(publishers, n, row, col) && n <= window * publishers
    ensures row <= window && (row == window ==> col == 0)
  {
    assert row > window ==> row * publishers >= (window + 1) * publishers == window * publishers + publishers;
  }

  /** Place `index` of the batch that starts at row `base` is a column and a message. */
  lemma PlaceInBatch(publishers: nat, base: nat, index: nat, r: nat, c: nat)
    requires Position(publishers, index, r, c)
    ensures index % publishers == c && base * publishers + index == (base + r) * publishers + c
  {
    PositionIs(publishers, index, r, c);
    RowsAdd(publishers, base, r, c);
  }

  /** The per-batch buffers hold the ids and send times of the batch's first `n` messages. */
  ghost predicate Buffered(
    packetIds: seq<nat>, sentNs: seq<nat>, ids: nat -> nat, sentAt: nat -> nat, offset: nat, n: nat)
  {
    && n <= |packetIds| == |sentNs|
    && forall j :: 0 <= j < n ==> packetIds[j] == ids(offset + j) && sentNs[j] == sentAt(offset + j)
  }

  /** The batch's writes: `n` messages from `offset` on, their ids and send times kept in the buffers. */
  method WriteBatch(
    publishers: nat, window: nat, offset: nat, n: nat, trace: seq<Op>, ids: nat -> nat, sentAt: nat -> nat,
    packetIds: array<nat>, sentNs: array<nat>, ghost base: nat)
    returns (trace': seq<Op>, ghost row: nat, ghost col: nat)
    requires publishers > 0 && offset == base * publishers && n <= window * publishers
    requires packetIds != sentNs && n <= packetIds.Length == sentNs.Length
    requires Progress(ids, trace, publishers, base, 0, base, 0) && AlwaysWindowed(trace, window)
    modifies packetIds, sentNs
    ensures Position(publishers, n, row, col)
    ensures Progress(ids, trace', publishers, base + row, col, base, 0) && AlwaysWindowed(trace', window)
    ensures Buffered(packetIds[..], sentNs[..], ids, sentAt, offset, n)
    ensures AddsWrites(ids, trace, trace', publishers, offset, n)
  {
    trace', row, col := trace, 0, 0;
    for index := 0 to n
      invariant Position(publishers, index, row, col)
      invariant Progress(ids, trace', publishers, base + row, col, base, 0) && AlwaysWindowed(trace', window)
      invariant Buffered(packetIds[..], sentNs[..], ids, sentAt, offset, index)
      invariant AddsWrites(ids, trace, trace', publishers, offset, index)
    {
      PlaceInBatch(publishers, base, index, row, col);
      RowBound(publishers, index, row, col, window);
      var publisher := index % publishers;
      packetIds[index] := ids(offset + index);
      WriteStep(ids, trace', publishers, base + row, col, base, window, Write(publisher, packetIds[index]));
      trace' := trace' + [Write(publisher, packetIds[index])];
      sentNs[index] := sentAt(offset + index);
      PositionStep(publishers, index, row, col);
      row, col := NextRow(publishers, row, col), NextCol(publishers, col);
    }
  }

  lemma CompleteAt(
    ids: nat -> nat, trace: seq<Op>, publishers: nat, window: nat, base: nat, n: nat, row: nat, col: nat, index: nat, r: nat, c: nat, op: Op)
    requires n <= window * publishers && index < n
    requires Position(publishers, n, row, col) && Position(publishers, index, r, c)
    requires Progress(ids, trace, publishers, base + row, col, base + r, c) && AlwaysWindowed(trace, window)
    requires op == Complete(c, ids((base + r) * publishers + c))
    ensures Progress(ids, trace + [op], publishers, base + row, col, base + NextRow(publishers, r, c), NextCol(publishers, c))
    ensures AlwaysWindowed(trace + [op], window)
  {
    LastRow(publishers, n, row, col, window);
    PositionOrder(publishers, index, r, c, n, row, col);
    CompleteStep(ids, trace, publishers, base + row, col, base + r, c, window, op);
  }

  /** The batch's completions by the buffered ids, one latency sample each from the buffered times. */
  method CompleteBatch(
    publishers: nat, window: nat, offset: nat, n: nat, trace: seq<Op>, samples: seq<Option<nat>>,
    packetIds: array<nat>, sentNs: array<nat>, doneAt: nat -> nat, ghost ids: nat -> nat, ghost sentAt: nat -> nat,
    ghost base: nat, ghost row: nat, ghost col: nat)
    returns (trace': seq<Op>, samples': seq<Option<nat>>)
    requires publishers > 0 && offset == base * publishers && n <= window * publishers
    requires Buffered(packetIds[..], sentNs[..], ids, sentAt, offset, n)
    requires Position(publishers, n, row, col)
    requires Progress(ids, trace, publishers, base + row, col, base, 0) && AlwaysWindowed(trace, window)
    requires offset + n <= |samples| && Sampled(samples, offset, sentAt, doneAt)
    ensures Progress(ids, trace', publishers, base + row, col, base + row, col) && AlwaysWindowed(trace', window)
    ensures |samples'| == |samples| && Sampled(samples', offset + n, sentAt, doneAt)
    ensures AddsCompletions(ids, trace, trace', publishers, offset, n)
  {
    trace', samples' := trace, samples;
    ghost var r: nat, c: nat := 0, 0;
    for index := 0 to n
      invariant Position(publishers, index, r, c)
      invariant Progress(ids, trace', publishers, base + row, col, base + r, c) && AlwaysWindowed(trace', window)
      invariant |samples'| == |samples| && Sampled(samples', offset + index, sentAt, doneAt)
      invariant AddsCompletions(ids, trace, trace', publishers, offset, index)
    {
      PlaceInBatch(publishers, base, index, r, c);
      var publisher := index % publishers;
      assert packetIds[..][index] == packetIds[index] && sentNs[..][index] == sentNs[index];
      CompleteAt(ids, trace', publishers, window, base, n, row, col, index, r, c, Complete(publisher, packetIds[index]));
      trace' := trace' + [Complete(publisher, packetIds[index])];
      assert samples'[offset + index].None?;
      samples' := samples'[offset + index := Some(SatSub(doneAt(offset + index), sentNs[index]))];
      PositionStep(publishers, index, r, c);
      r, c := NextRow(publishers, r, c), NextCol(publishers, c);
    }
    PositionIs(publishers, n, r, c);
    PositionIs(publishers, n, row, col);
  }

  /** Every publisher has written and completed exactly its share of the first `count` messages. */
  ghost predicate Drained(ids: nat -> nat, trace: seq<Op>, publishers: nat, count: nat)
    requires publishers > 0
  {
    forall p :: 0 <= p < publishers ==>
      Written(trace, p) == Completed(trace, p) == Column(ids, publishers, p, Served(count / publishers, count % publishers, p))
  }

  lemma ProgressIsDrained(ids: nat -> nat, trace: seq<Op>, publishers: nat, count: nat, row: nat, col: nat)
    requires publishers > 0 && Position(publishers, count, row, col) && Progress(ids, trace, publishers, row, col, row, col)
    ensures Drained(ids, trace, publishers, count)
  {
    PositionIs(publishers, count, row, col);
    forall p | 0 <= p < publishers
      ensures Written(trace, p) == Completed(trace, p) == Column(ids, publishers, p, Served(row, col, p))
    {
      assert Stands(ids, trace, publishers, p, Served(row, col, p), Served(row, col, p));
    }
  }

  lemma NothingPublished(ids: nat -> nat, publishers: nat, window: nat)
    ensures Progress(ids, [], publishers, 0, 0, 0, 0) && AlwaysWindowed([], window)
  {
  }

  /**
   `publishWindowed`: message m goes to publisher m % P as its (m / P)-th, completions
   keep each publisher's order and window, everything is drained, and every latency slot
   is written exactly once, with the times of its own message.  `ids` are the packet ids
   the connections choose, `sentAt` and `doneAt` the clock readings, by message.
   */
  method PublishWindowed(publishers: nat, window: nat, count: nat, ids: nat -> nat, sentAt: nat -> nat, doneAt: nat -> nat)
    returns (ok: bool, trace: seq<Op>, samples: seq<Option<nat>>)
    requires publishers > 0 && window > 0
    ensures ok <==> count == 0 || window * publishers <= MAX_U64
    ensures AlwaysWindowed(trace, window)
    ensures ok ==> AllPlaced(ids, trace, publishers, window * publishers, count, count)
    ensures ok ==> Drained(ids, trace, publishers, count)
    ensures ok ==> |samples| == count && Sampled(samples, count, sentAt, doneAt)
  {
    trace, samples := [], seq(count, _ => None);
    ghost var row: nat, col: nat := 0, 0;
    NothingPublished(ids, publishers, window);
    if count == 0 {
      ProgressIsDrained(ids, trace, publishers, 0, 0, 0);
      return true, trace, samples;
    }
    var totalWindow := window * publishers;
    if totalWindow > MAX_U64 { return false, trace, samples; }
    var packetIds, sentNs := new nat[totalWindow], new nat[totalWindow];
    var offset: nat := 0;
    ghost var batch: nat := 0;
    while offset < count
      invariant offset <= count && Position(publishers, offset, row, col) && (offset < count ==> col == 0)
      invariant Progress(ids, trace, publishers, row, col, row, col) && AlwaysWindowed(trace, window)
      invariant |samples| == count && Sampled(samples, offset, sentAt, doneAt)
      invariant AllPlaced(ids, trace, publishers, totalWindow, count, offset) && (offset < count ==> offset == batch * totalWindow)
      decreases count - offset
    {
      var n := Min(totalWindow, count - offset);
      ghost var r: nat, c: nat;
      ghost var before := trace;
      trace, r, c := WriteBatch(publishers, window, offset, n, trace, ids, sentAt, packetIds, sentNs, row);
      ghost var mid := trace;
      trace, samples := CompleteBatch(
        publishers, window, offset, n, trace, samples, packetIds, sentNs, doneAt, ids, sentAt, row, r, c);
      AllPlacedStep(ids, before, mid, trace, publishers, totalWindow, count, batch, row, offset, n);
      batch := batch + 1;
      BatchEnds(publishers, window, n, r, c);
      RowsAdd(publishers, row, r, c);
      offset, row, col := offset + n, row + r, c;
    }
    ProgressIsDrained(ids, trace, publishers, count, row, col);
    ok := true;
  }

  lemma BatchEnds(publishers: nat, window: nat, n: nat, row: nat, col: nat)
    requires Position(publishers, n, row, col)
    ensures n == window * publishers ==> col == 0
  {
    if n == window * publishers {
      assert Position(publishers, n, window, 0);
      PositionIs(publishers, n, window, 0);
      PositionIs(publishers, n, row, col);
    }
  }
}
