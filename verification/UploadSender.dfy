/**
 The two-level round robin of the HTTP/3 upload
 (examples/bench_http3_handshake_transfer.zig, `sendUploadBodies`).

 A round lets every stream advance by `round` bytes; inside a round, passes send at
 most `pace` bytes per stream.  All unfinished streams therefore stand at one common
 level, and the whole transfer is a walk of that level up to the longest stream.
 */
module UploadSender {
  import opened Base
  import opened Partition

  datatype Config = Config(ids: seq<nat>, lens: seq<nat>, round: nat, pace: nat) {
    ghost predicate Valid() {
      && |ids| == |lens| && round > 0 && pace > 0
      && forall i, j :: 0 <= i < j < |ids| ==> ids[i] != ids[j]
    }
  }

  datatype Chunk = Chunk(id: nat, count: nat, fin: bool)

  function Longest(lens: seq<nat>): (r: nat)
    ensures forall i :: 0 <= i < |lens| ==> lens[i] <= r
    ensures r > 0 ==> exists i :: 0 <= i < |lens| && lens[i] == r
  {
    if lens == [] then 0
    else
      var m := Longest(lens[..|lens| - 1]);
      if lens[|lens| - 1] > m then lens[|lens| - 1] else m
  }

  // ----- The reference: levels -----

  /** A round that started at `base`, and the level reached in it. */
  datatype Level = Level(base: nat, at: nat)

  function Reach(c: Config, v: Level): nat {
    Min(v.base + c.round, v.at + c.pace)
  }

  function Advance(c: Config, v: Level): Level {
    var to := Reach(c, v);
    Level(if to == v.base + c.round then to else v.base, to)
  }

  ghost predicate InRound(c: Config, v: Level) {
    v.base <= v.at < v.base + c.round
  }

  function ChunkOf(c: Config, i: nat, from: nat, to: nat): (r: Chunk)
    requires i < |c.ids| == |c.lens| && from < c.lens[i] && from < to
    ensures r.count > 0
  {
    Chunk(c.ids[i], Min(c.lens[i], to) - from, c.lens[i] <= to)
  }

  /** One pass over the first `n` streams: a chunk for each that is longer than the level. */
  function Pass(c: Config, from: nat, to: nat, n: nat): seq<Chunk>
    requires n <= |c.ids| == |c.lens| && from < to
  {
    if n == 0 then []
    else
      Pass(c, from, to, n - 1) + (if from < c.lens[n - 1] then [ChunkOf(c, n - 1, from, to)] else [])
  }

  /** The batches that remain to be sent from level `v` on. */
  ghost function Batches(c: Config, v: Level): seq<seq<Chunk>>
    requires c.Valid() && InRound(c, v)
    decreases Max(0, Longest(c.lens) - v.at)
  {
    if v.at >= Longest(c.lens) then []
    else [Pass(c, v.at, Reach(c, v), |c.ids|)] + Batches(c, Advance(c, v))
  }

  function Level0(): Level {
    Level(0, 0)
  }

  // ----- What each stream gets -----

  /** The chunks of stream `id`, batch after batch. */
  function OnStream(batches: seq<seq<Chunk>>, id: nat): seq<Chunk> {
    if batches == [] then [] else Select(batches[0], id) + OnStream(batches[1..], id)
  }

  function Select(chunks: seq<Chunk>, id: nat): seq<Chunk> {
    if chunks == [] then []
    else Select(chunks[..|chunks| - 1], id) + (if chunks[|chunks| - 1].id == id then [chunks[|chunks| - 1]] else [])
  }

  function Bytes(chunks: seq<Chunk>): nat {
    if chunks == [] then 0 else chunks[0].count + Bytes(chunks[1..])
  }

  lemma SelectAppend(chunks: seq<Chunk>, chunk: Chunk, id: nat)
    ensures Select(chunks + [chunk], id) == Select(chunks, id) + (if chunk.id == id then [chunk] else [])
  {
    assert (chunks + [chunk])[..|chunks|] == chunks;
  }

  /** A pass gives an unfinished stream one chunk, and a finished one none. */
  lemma {:induction false} PassOfStream(c: Config, from: nat, to: nat, n: nat, i: nat)
    requires c.Valid() && n <= |c.ids| && from < to && i < |c.ids|
    ensures Select(Pass(c, from, to, n), c.ids[i]) ==
      if i < n && from < c.lens[i] then [ChunkOf(c, i, from, to)] else []
  {
    if n > 0 {
      var front, all := Pass(c, from, to, n - 1), Pass(c, from, to, n);
      PassOfStream(c, from, to, n - 1, i);
      SelectNext(c, from, to, n, i, front, all);
    }
  }

  lemma SelectNext(c: Config, from: nat, to: nat, n: nat, i: nat, front: seq<Chunk>, all: seq<Chunk>)
    requires c.Valid() && 0 < n <= |c.ids| && from < to && i < |c.ids|
    requires front == Pass(c, from, to, n - 1) && all == Pass(c, from, to, n)
    ensures i == n - 1 && from < c.lens[i] ==> Select(all, c.ids[i]) == Select(front, c.ids[i]) + [ChunkOf(c, i, from, to)]
    ensures !(i == n - 1 && from < c.lens[i]) ==> Select(all, c.ids[i]) == Select(front, c.ids[i])
  {
    if from < c.lens[n - 1] {
      SelectAppend(front, ChunkOf(c, n - 1, from, to), c.ids[i]);
    } else {
      assert all == front;
    }
  }

  /** The chunks stream `i` still gets from level `v` on. */
  ghost function Rest(c: Config, i: nat, v: Level): seq<Chunk>
    requires c.Valid() && InRound(c, v) && i < |c.ids|
    decreases Max(0, c.lens[i] - v.at)
  {
    if v.at >= c.lens[i] then []
    else [ChunkOf(c, i, v.at, Reach(c, v))] + Rest(c, i, Advance(c, v))
  }

  lemma {:induction false} StreamOfBatches(c: Config, i: nat, v: Level)
    requires c.Valid() && InRound(c, v) && i < |c.ids|
    ensures OnStream(Batches(c, v), c.ids[i]) == Rest(c, i, v)
    decreases Max(0, Longest(c.lens) - v.at)
  {
    if v.at < Longest(c.lens) {
      StreamOfBatches(c, i, Advance(c, v));
      PassOfStream(c, v.at, Reach(c, v), |c.ids|, i);
      assert Batches(c, v)[1..] == Batches(c, Advance(c, v));
      if v.at >= c.lens[i] {
        assert Rest(c, i, Advance(c, v)) == [];
      }
    }
  }

  lemma {:induction false} RestShape(c: Config, i: nat, v: Level)
    requires c.Valid() && InRound(c, v) && i < |c.ids|
    ensures Bytes(Rest(c, i, v)) == Max(0, c.lens[i] - v.at)
    ensures forall j :: 0 <= j < |Rest(c, i, v)| ==>
      && Rest(c, i, v)[j].count > 0
      && (Rest(c, i, v)[j].fin <==> j == |Rest(c, i, v)| - 1)
    decreases Max(0, c.lens[i] - v.at)
  {
    if v.at < c.lens[i] {
      var rest := Rest(c, i, Advance(c, v));
      RestShape(c, i, Advance(c, v));
      assert Rest(c, i, v)[1..] == rest;
      forall j | 0 <= j < |Rest(c, i, v)|
        ensures Rest(c, i, v)[j].count > 0 && (Rest(c, i, v)[j].fin <==> j == |Rest(c, i, v)| - 1)
      {
        assert j > 0 ==> Rest(c, i, v)[j] == rest[j - 1];
        assert rest == [] <==> Reach(c, v) >= c.lens[i];
      }
    }
  }

  ghost function Wire(c: Config): seq<seq<Chunk>>
    requires c.Valid()
  {
    Batches(c, Level0())
  }

  /** Every stream is sent in full, in non-empty chunks, and FIN rides on exactly its last chunk. */
  lemma EveryStreamSentInFull(c: Config, i: nat)
    requires c.Valid() && i < |c.ids|
    ensures var s := OnStream(Wire(c), c.ids[i]);
      && Bytes(s) == c.lens[i]
      && (s != [] <==> c.lens[i] > 0)
      && forall j :: 0 <= j < |s| ==> s[j].count > 0 && (s[j].fin <==> j == |s| - 1)
  {
    StreamOfBatches(c, i, Level0());
    RestShape(c, i, Level0());
  }

  /** No batch holds two chunks of one stream. */
  lemma {:induction false} OneChunkPerStream(c: Config, v: Level, n: nat, i: nat)
    requires c.Valid() && InRound(c, v) && n < |Batches(c, v)| && i < |c.ids|
    ensures |Select(Batches(c, v)[n], c.ids[i])| <= 1
    decreases n
  {
    PassOfStream(c, v.at, Reach(c, v), |c.ids|, i);
    if n > 0 {
      OneChunkPerStream(c, Advance(c, v), n - 1, i);
    }
  }

  lemma {:induction false} PassIndex(c: Config, from: nat, to: nat, n: nat, j: nat)
    requires c.Valid() && n <= |c.ids| && from < to && j < |Pass(c, from, to, n)|
    ensures var id := Pass(c, from, to, n)[j].id; id in c.ids && IndexOf(c.ids, id) < n
    ensures j >= |Pass(c, from, to, n - 1)| ==> IndexOf(c.ids, Pass(c, from, to, n)[j].id) == n - 1
    decreases n
  {
    if j < |Pass(c, from, to, n - 1)| {
      PassIndex(c, from, to, n - 1, j);
    } else {
      FirstIndex(c.ids, c.ids[n - 1], n - 1);
    }
  }

  /** A pass visits the streams in order. */
  lemma {:induction false} PassInOrder(c: Config, from: nat, to: nat, n: nat, a: nat, b: nat)
    requires c.Valid() && n <= |c.ids| && from < to && a < b < |Pass(c, from, to, n)|
    ensures var s := Pass(c, from, to, n);
      s[a].id in c.ids && s[b].id in c.ids && IndexOf(c.ids, s[a].id) < IndexOf(c.ids, s[b].id)
    decreases n
  {
    if b < |Pass(c, from, to, n - 1)| {
      PassInOrder(c, from, to, n - 1, a, b);
    } else {
      PassIndex(c, from, to, n - 1, a);
      PassIndex(c, from, to, n, b);
    }
  }

  /** No batch is empty, and its chunks are in the order of the streams. */
  lemma {:induction false} BatchesInOrder(c: Config, v: Level, n: nat, a: nat, b: nat)
    requires c.Valid() && InRound(c, v) && n < |Batches(c, v)|
    ensures var s := Batches(c, v)[n];
      && s != []
      && (a < b < |s| ==> s[a].id in c.ids && s[b].id in c.ids && IndexOf(c.ids, s[a].id) < IndexOf(c.ids, s[b].id))
    decreases n
  {
    var first := Pass(c, v.at, Reach(c, v), |c.ids|);
    if n > 0 {
      BatchesInOrder(c, Advance(c, v), n - 1, a, b);
    } else {
      PassIsEmpty(c, v.at, Reach(c, v), |c.ids|);
      if a < b < |first| {
        PassInOrder(c, v.at, Reach(c, v), |c.ids|, a, b);
      }
    }
  }

  // ----- Closed form -----

  function After(c: Config, v: Level, n: nat): Level
    decreases n
  {
    if n == 0 then v else After(c, Advance(c, v), n - 1)
  }

  lemma {:induction false} AfterSplit(c: Config, v: Level, m: nat, n: nat)
    ensures After(c, v, m + n) == After(c, After(c, v, m), n)
    decreases m
  {
    if m > 0 {
      AfterSplit(c, Advance(c, v), m - 1, n);
    }
  }

  /** The batches after the first `n` are those from the level reached by then. */
  lemma {:induction false} BatchesFrom(c: Config, v: Level, n: nat)
    requires c.Valid() && InRound(c, v) && n <= |Batches(c, v)|
    ensures InRound(c, After(c, v, n)) && Batches(c, v)[n..] == Batches(c, After(c, v, n))
    decreases n
  {
    if n > 0 {
      BatchesFrom(c, Advance(c, v), n - 1);
      assert Batches(c, v)[n..] == Batches(c, v)[1..][n - 1..];
    }
  }

  lemma {:induction false} OnStreamConcat(a: seq<seq<Chunk>>, b: seq<seq<Chunk>>, id: nat)
    ensures OnStream(a + b, id) == OnStream(a, id) + OnStream(b, id)
  {
    if a == [] {
      assert a + b == b;
    } else {
      assert (a + b)[1..] == a[1..] + b;
      OnStreamConcat(a[1..], b, id);
    }
  }

  lemma BytesFrom(c: Config, i: nat, v: Level)
    requires c.Valid() && InRound(c, v) && i < |c.ids|
    ensures Bytes(OnStream(Batches(c, v), c.ids[i])) == Max(0, c.lens[i] - v.at)
  {
    StreamOfBatches(c, i, v);
    RestShape(c, i, v);
  }

  /** After any number of batches every stream has sent up to the common level. */
  lemma SentIsLevel(c: Config, n: nat, i: nat, sent: seq<seq<Chunk>>)
    requires c.Valid() && n <= |Wire(c)| && i < |c.ids| && sent == Wire(c)[..n]
    ensures Bytes(OnStream(sent, c.ids[i])) == Min(c.lens[i], After(c, Level0(), n).at)
  {
    var left := Wire(c)[n..];
    BytesFrom(c, i, Level0());
    BatchesFrom(c, Level0(), n);
    BytesFrom(c, i, After(c, Level0(), n));
    assert Wire(c) == sent + left;
    OnStreamConcat(sent, left, c.ids[i]);
    BytesConcat(OnStream(sent, c.ids[i]), OnStream(left, c.ids[i]));
  }

  lemma {:induction false} BytesConcat(a: seq<Chunk>, b: seq<Chunk>)
    ensures Bytes(a + b) == Bytes(a) + Bytes(b)
  {
    if a == [] {
      assert a + b == b;
    } else {
      assert (a + b)[1..] == a[1..] + b;
      BytesConcat(a[1..], b);
    }
  }

  /** Inside a round: `j` passes of `pace` bytes each, the last one cut at the end of the round. */
  lemma {:induction false} PassesInRound(c: Config, base: nat, j: nat)
    requires c.round > 0 && c.pace > 0
    requires j > 0 ==> (j - 1) * c.pace < c.round
    ensures var v := After(c, Level(base, base), j);
      && v.at == base + Min(c.round, j * c.pace)
      && v.base == if j * c.pace < c.round then base else base + c.round
  {
    if j > 0 {
      assert (j - 1) * c.pace == j * c.pace - c.pace;
      assert j > 1 ==> (j - 2) * c.pace == (j - 1) * c.pace - c.pace;
      PassesInRound(c, base, j - 1);
      AfterSplit(c, Level(base, base), j - 1, 1);
      var v := After(c, Level(base, base), j - 1);
      assert After(c, v, 1) == Advance(c, v);
    }
  }

  lemma {:induction false} FullRounds(c: Config, k: nat, m: nat)
    requires c.round > 0 && c.pace > 0 && m > 0 && (m - 1) * c.pace < c.round <= m * c.pace
    ensures After(c, Level0(), k * m) == Level(k * c.round, k * c.round)
  {
    if k > 0 {
      FullRounds(c, k - 1, m);
      assert k * m == (k - 1) * m + m && k * c.round == (k - 1) * c.round + c.round;
      AfterSplit(c, Level0(), (k - 1) * m, m);
      PassesInRound(c, (k - 1) * c.round, m);
    }
  }

  lemma LevelReached(c: Config, k: nat, m: nat, j: nat)
    requires c.round > 0 && c.pace > 0 && m > 0 && (m - 1) * c.pace < c.round <= m * c.pace && j <= m
    ensures After(c, Level0(), k * m + j).at == k * c.round + Min(c.round, j * c.pace)
  {
    var start := k * m;
    AfterSplit(c, Level0(), start, j);
    FullRounds(c, k, m);
    if j > 0 {
      EarlierPass(j - 1, m - 1, c.pace);
    }
    PassesInRound(c, k * c.round, j);
  }

  lemma EarlierPass(a: nat, b: nat, pace: nat)
    requires a <= b
    ensures a * pace <= b * pace
  {
  }

  /**
   After `k` rounds of `m` passes and `j` passes more, stream `i` has sent exactly
   min(len, k * round + min(round, j * pace)) bytes.
   */
  lemma ClosedForm(c: Config, k: nat, m: nat, j: nat, i: nat)
    requires c.Valid() && i < |c.ids|
    requires m > 0 && (m - 1) * c.pace < c.round <= m * c.pace && j <= m
    requires k * m + j <= |Wire(c)|
    ensures Bytes(OnStream(Wire(c)[..k * m + j], c.ids[i])) ==
      Min(c.lens[i], k * c.round + Min(c.round, j * c.pace))
  {
    LevelReached(c, k, m, j);
    var n := k * m + j;
    SentIsLevel(c, n, i, Wire(c)[..n]);
  }

  // ----- The program's loops -----

  /** Every stream has sent up to the level. */
  ghost predicate AtLevel(c: Config, sent: seq<nat>, at: nat) {
    |sent| == |c.lens| && forall i :: 0 <= i < |sent| ==> sent[i] == Min(c.lens[i], at)
  }

  /** Set every stream's target for the round; `pending` says whether there is anything to send. */
  method SetTargets(c: Config, sent: seq<nat>, completed: seq<bool>, targets: seq<nat>, ghost base: nat)
    returns (targets': seq<nat>, pending: bool)
    requires c.Valid() && AtLevel(c, sent, base) && |completed| == |targets| == |c.lens|
    requires forall i :: 0 <= i < |c.lens| && completed[i] ==> sent[i] == c.lens[i] == targets[i]
    ensures AtLevel(c, targets', base + c.round)
    ensures pending ==> base < Longest(c.lens)
    ensures !pending ==> forall i :: 0 <= i < |c.lens| ==> completed[i] || sent[i] == c.lens[i]
  {
    targets', pending := targets, false;
    for i := 0 to |c.lens|
      invariant |targets'| == |targets|
      invariant forall k :: i <= k < |c.lens| ==> targets'[k] == targets[k]
      invariant forall k :: 0 <= k < i ==> targets'[k] == Min(c.lens[k], base + c.round)
      invariant pending ==> base < Longest(c.lens)
      invariant !pending ==> forall k :: 0 <= k < i ==> completed[k] || sent[k] == c.lens[k]
    {
      if completed[i] { continue; }
      if sent[i] == c.lens[i] {
        targets' := targets'[i := c.lens[i]];
        continue;
      }
      targets' := targets'[i := Min(c.lens[i], sent[i] + c.round)];
      pending := true;
    }
  }

  /** The level inside a round, or the start of the next round. */
  function Normalize(c: Config, base: nat, at: nat): Level {
    if at == base + c.round then Level(at, at) else Level(base, at)
  }

  /** Collect one pass of chunks; none when every stream met its target. */
  method CollectPass(c: Config, sent: seq<nat>, targets: seq<nat>, ghost base: nat, ghost at: nat)
    returns (chunks: seq<Chunk>)
    requires c.Valid() && base <= at <= base + c.round
    requires AtLevel(c, sent, at) && AtLevel(c, targets, base + c.round)
    ensures chunks == if at < base + c.round then Pass(c, at, Reach(c, Level(base, at)), |c.ids|) else []
  {
    chunks := [];
    for i := 0 to |c.ids|
      invariant chunks == if at < base + c.round then Pass(c, at, Reach(c, Level(base, at)), i) else []
    {
      if sent[i] == targets[i] { continue; }
      var count := Min(c.pace, targets[i] - sent[i]);
      var end := sent[i] + count;
      chunks := chunks + [Chunk(c.ids[i], count, end == c.lens[i])];
    }
  }

  lemma {:induction false} PassKnowsIds(c: Config, from: nat, to: nat, n: nat, j: nat)
    requires c.Valid() && n <= |c.ids| && from < to && j < |Pass(c, from, to, n)|
    ensures Pass(c, from, to, n)[j].id in c.ids
    decreases n
  {
    if j < |Pass(c, from, to, n - 1)| {
      PassKnowsIds(c, from, to, n - 1, j);
    }
  }

  lemma {:induction false} PassIsEmpty(c: Config, from: nat, to: nat, n: nat)
    requires c.Valid() && n <= |c.ids| && from < to
    ensures Pass(c, from, to, n) == [] <==> forall i :: 0 <= i < n ==> c.lens[i] <= from
  {
    if n > 0 {
      PassIsEmpty(c, from, to, n - 1);
    }
  }

  /** Bytes already added to a stream after the first `j` chunks of a pass. */
  ghost predicate Added(c: Config, before: seq<nat>, after: seq<nat>, chunks: seq<Chunk>) {
    && |before| == |after| == |c.ids|
    && forall i :: 0 <= i < |c.ids| ==> after[i] == before[i] + Bytes(Select(chunks, c.ids[i]))
  }

  lemma AddedStep(c: Config, before: seq<nat>, after: seq<nat>, chunks: seq<Chunk>, chunk: Chunk, k: nat)
    requires c.Valid() && Added(c, before, after, chunks) && k < |c.ids| && c.ids[k] == chunk.id
    ensures Added(c, before, after[k := after[k] + chunk.count], chunks + [chunk])
  {
    forall i | 0 <= i < |c.ids|
      ensures after[k := after[k] + chunk.count][i] == before[i] + Bytes(Select(chunks + [chunk], c.ids[i]))
    {
      SelectAppend(chunks, chunk, c.ids[i]);
      BytesConcat(Select(chunks, c.ids[i]), if chunk.id == c.ids[i] then [chunk] else []);
      assert Bytes([chunk]) == chunk.count;
      assert c.ids[i] == chunk.id <==> i == k;
    }
  }

  lemma AddedPass(c: Config, before: seq<nat>, after: seq<nat>, from: nat, to: nat)
    requires c.Valid() && from < to && AtLevel(c, before, from)
    requires Added(c, before, after, Pass(c, from, to, |c.ids|))
    ensures AtLevel(c, after, to)
  {
    forall i | 0 <= i < |c.ids| ensures after[i] == Min(c.lens[i], to) {
      PassOfStream(c, from, to, |c.ids|, i);
      if from < c.lens[i] {
        assert Bytes([ChunkOf(c, i, from, to)]) == ChunkOf(c, i, from, to).count;
      }
    }
  }

  /** Account for the chunks that were sent, one by one; every id is found. */
  method ApplyChunks(c: Config, sent: seq<nat>, chunks: seq<Chunk>) returns (sent': seq<nat>, ok: bool)
    requires c.Valid() && |sent| == |c.ids|
    requires forall j :: 0 <= j < |chunks| ==> chunks[j].id in c.ids
    ensures ok && Added(c, sent, sent', chunks)
  {
    sent' := sent;
    ghost var applied: seq<Chunk> := [];
    for j := 0 to |chunks|
      invariant applied == chunks[..j] && Added(c, sent, sent', applied)
    {
      sent', ok := ApplyChunk(c, sent', chunks[j], sent, applied);
      if !ok { return; }
      applied := applied + [chunks[j]];
    }
    assert applied == chunks;
    ok := true;
  }

  method ApplyChunk(c: Config, sent: seq<nat>, chunk: Chunk, ghost before: seq<nat>, ghost applied: seq<Chunk>)
    returns (sent': seq<nat>, ok: bool)
    requires c.Valid() && chunk.id in c.ids && Added(c, before, sent, applied)
    ensures ok && Added(c, before, sent', applied + [chunk])
  {
    var index := FindIndex(c.ids, chunk.id);
    if index.None? { return sent, false; }
    var k := index.value;
    AddedStep(c, before, sent, applied, chunk, k);
    sent', ok := sent[k := sent[k] + chunk.count], true;
  }

  method ApplyPass(c: Config, sent: seq<nat>, chunks: seq<Chunk>, ghost from: nat, ghost to: nat)
    returns (sent': seq<nat>, ok: bool)
    requires c.Valid() && from < to && AtLevel(c, sent, from) && chunks == Pass(c, from, to, |c.ids|)
    ensures ok && AtLevel(c, sent', to)
  {
    forall j | 0 <= j < |chunks| ensures chunks[j].id in c.ids {
      PassKnowsIds(c, from, to, |c.ids|, j);
    }
    sent', ok := ApplyChunks(c, sent, chunks);
    AddedPass(c, sent, sent', from, to);
  }

  /** One more batch of the walk. */
  lemma WalkStep(c: Config, base: nat, at: nat, to: nat)
    requires c.Valid() && base <= at < base + c.round && to == Reach(c, Level(base, at))
    requires at < Longest(c.lens)
    ensures at < to <= base + c.round
    ensures InRound(c, Normalize(c, base, at)) && InRound(c, Normalize(c, base, to))
    ensures Batches(c, Normalize(c, base, at)) == [Pass(c, at, to, |c.ids|)] + Batches(c, Normalize(c, base, to))
  {
    assert Normalize(c, base, at) == Level(base, at);
    assert Normalize(c, base, to) == Advance(c, Level(base, at));
  }

  lemma WalkOver(c: Config, base: nat, at: nat)
    requires c.Valid() && base <= at <= base + c.round
    requires at == base + c.round || at >= Longest(c.lens)
    ensures InRound(c, Normalize(c, base, at))
    ensures Batches(c, Normalize(c, base, at)) == Batches(c, Level(base + c.round, base + c.round))
  {
  }

  ghost predicate OnTheWay(c: Config, wire: seq<seq<Chunk>>, v: Level) {
    c.Valid() && InRound(c, v) && wire + Batches(c, v) == Wire(c)
  }

  lemma OnTheWayStep(c: Config, wire: seq<seq<Chunk>>, base: nat, at: nat, to: nat)
    requires c.Valid() && base <= at < base + c.round && to == Reach(c, Level(base, at)) && at < Longest(c.lens)
    requires OnTheWay(c, wire, Normalize(c, base, at))
    ensures at < to <= base + c.round
    ensures OnTheWay(c, wire + [Pass(c, at, to, |c.ids|)], Normalize(c, base, to))
  {
    WalkStep(c, base, at, to);
    var p, rest := Pass(c, at, to, |c.ids|), Batches(c, Normalize(c, base, to));
    assert wire + ([p] + rest) == (wire + [p]) + rest;
  }

  /** The passes of one round. */
  method SendRound(c: Config, sent: seq<nat>, targets: seq<nat>, pending: bool, wire: seq<seq<Chunk>>, ghost base: nat)
    returns (sent': seq<nat>, wire': seq<seq<Chunk>>, ok: bool)
    requires OnTheWay(c, wire, Level(base, base))
    requires AtLevel(c, sent, base) && AtLevel(c, targets, base + c.round)
    requires !pending ==> base >= Longest(c.lens)
    ensures ok && AtLevel(c, sent', base + c.round)
    ensures OnTheWay(c, wire', Level(base + c.round, base + c.round))
  {
    sent', wire' := sent, wire;
    var roundPending := pending;
    ghost var at := base;
    while roundPending
      invariant base <= at <= base + c.round
      invariant AtLevel(c, sent', at)
      invariant OnTheWay(c, wire', Normalize(c, base, at))
      invariant !roundPending ==> at == base + c.round || at >= Longest(c.lens)
      decreases base + c.round - at, roundPending
    {
      var chunks := CollectPass(c, sent', targets, base, at);
      roundPending := |chunks| > 0;
      if at < base + c.round {
        PassIsEmpty(c, at, Reach(c, Level(base, at)), |c.ids|);
      }
      if |chunks| == 0 { break; }
      ghost var to := Reach(c, Level(base, at));
      sent', ok := ApplyPass(c, sent', chunks, at, to);
      if !ok { return; }
      OnTheWayStep(c, wire', base, at, to);
      wire' := wire' + [chunks];
      at := to;
    }
    WalkOver(c, base, at);
    ok := true;
  }

  /** Mark the streams that are done. */
  method MarkCompleted(c: Config, sent: seq<nat>, completed: seq<bool>, finishedCount: nat)
    returns (completed': seq<bool>, finishedCount': nat)
    requires |sent| == |completed| == |c.lens| && finishedCount == CountTrue(completed)
    requires forall i :: 0 <= i < |c.lens| && completed[i] ==> sent[i] == c.lens[i]
    ensures |completed'| == |c.lens| && finishedCount' == CountTrue(completed')
    ensures forall i :: 0 <= i < |c.lens| ==> (completed'[i] <==> sent[i] == c.lens[i])
  {
    completed', finishedCount' := completed, finishedCount;
    for i := 0 to |c.lens|
      invariant |completed'| == |c.lens| && finishedCount' == CountTrue(completed')
      invariant forall k :: 0 <= k < i ==> (completed'[k] <==> sent[k] == c.lens[k])
      invariant forall k :: i <= k < |c.lens| ==> completed'[k] == completed[k]
    {
      if !completed'[i] && sent[i] == c.lens[i] {
        CountTrueSet(completed', i);
        completed' := completed'[i := true];
        finishedCount' := finishedCount' + 1;
      }
    }
  }

  /** Between rounds: the completed streams are those within the level, once a round has been played. */
  ghost predicate Between(c: Config, base: nat, sent: seq<nat>, targets: seq<nat>, completed: seq<bool>, finished: nat) {
    && |completed| == |targets| == |c.lens| && finished == CountTrue(completed)
    && AtLevel(c, sent, base)
    && (forall i :: 0 <= i < |c.lens| && completed[i] ==> sent[i] == c.lens[i] == targets[i])
    && (base > 0 ==> forall i :: 0 <= i < |c.lens| ==> (completed[i] <==> sent[i] == c.lens[i]))
    && (base == 0 ==> finished == 0)
  }

  lemma BetweenMeans(c: Config, base: nat, sent: seq<nat>, targets: seq<nat>, completed: seq<bool>, finished: nat)
    requires Between(c, base, sent, targets, completed, finished)
    ensures finished < |c.lens| && base > 0 ==> base < Longest(c.lens)
    ensures finished >= |c.lens| ==> base >= Longest(c.lens)
  {
    CountTrueIsAll(completed);
  }

  /** One round. */
  method PlayRound(
    c: Config, sent: seq<nat>, targets: seq<nat>, completed: seq<bool>, finished: nat, wire: seq<seq<Chunk>>, ghost base: nat)
    returns (sent': seq<nat>, targets': seq<nat>, completed': seq<bool>, finished': nat, wire': seq<seq<Chunk>>, ok: bool)
    requires Between(c, base, sent, targets, completed, finished) && OnTheWay(c, wire, Level(base, base))
    ensures ok
    ensures Between(c, base + c.round, sent', targets', completed', finished')
    ensures OnTheWay(c, wire', Level(base + c.round, base + c.round))
  {
    sent', completed', finished', wire' := sent, completed, finished, wire;
    var pending: bool;
    targets', pending := SetTargets(c, sent, completed, targets, base);
    sent', wire', ok := SendRound(c, sent, targets', pending, wire, base);
    if !ok { return; }
    completed', finished' := MarkCompleted(c, sent', completed, finished);
  }

  /** `sendUploadBodies`: the batches handed to the connection are exactly the walk of the level. */
  method SendUploadBodies(c: Config) returns (wire: seq<seq<Chunk>>, ok: bool)
    requires c.Valid()
    ensures ok && wire == Wire(c)
  {
    var n := |c.ids|;
    var sent: seq<nat> := seq(n, _ => 0);
    var targets: seq<nat> := seq(n, _ => 0);
    var completed := seq(n, _ => false);
    var finished: nat := 0;
    wire, ok := [], true;
    ghost var base: nat := 0;
    NoneTrue(completed);
    BetweenMeans(c, base, sent, targets, completed, finished);
    while finished < n
      invariant Between(c, base, sent, targets, completed, finished)
      invariant OnTheWay(c, wire, Level(base, base)) && ok
      invariant finished < n && base > 0 ==> base < Longest(c.lens)
      invariant finished >= n ==> base >= Longest(c.lens)
      decreases Max(0, Longest(c.lens) + 1 - base)
    {
      sent, targets, completed, finished, wire, ok := PlayRound(c, sent, targets, completed, finished, wire, base);
      if !ok { return; }
      base := base + c.round;
      BetweenMeans(c, base, sent, targets, completed, finished);
    }
    WalkDone(c, wire, base);
  }

  lemma WalkDone(c: Config, wire: seq<seq<Chunk>>, base: nat)
    requires OnTheWay(c, wire, Level(base, base)) && base >= Longest(c.lens)
    ensures wire == Wire(c)
  {
  }
}
