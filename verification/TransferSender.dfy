/**
 Multi-stream upload scheduler (examples/bench_quic_handshake_stream.zig, `sendTransfer`).

 Every iteration plans a batch against a copy of the per-stream progress, submits
 it, and commits only the packets the transport took.  `Schedule` is the plain
 round robin the batches must add up to: round after round, one packet for each
 stream that still has data.
 */
module TransferSender {
  import opened Base
  import opened Partition

  /** How many bytes each stream sends, and the most one packet carries. */
  datatype Config = Config(targets: seq<nat>, payload: nat) {
    ghost predicate Valid() {
      && |targets| > 0 && payload > 0
      && forall i :: 0 <= i < |targets| ==> targets[i] <= targets[0]
    }
  }

  datatype Packet = Packet(stream: nat, offset: nat, len: nat, fin: bool)

  /** The packet that starts at `offset` of stream `i`. */
  function PacketAt(c: Config, offset: nat, i: nat): (p: Packet)
    requires i < |c.targets| && offset < c.targets[i]
    ensures p.offset + p.len <= c.targets[i]
    ensures c.payload > 0 ==> p.len > 0
  {
    var len := Min(c.payload, c.targets[i] - offset);
    Packet(i, offset, len, offset + len == c.targets[i])
  }

  // ----- The reference: plain round robin -----

  /** The next turn: the next stream in the same round, or the first stream one payload further. */
  function NextTurn(c: Config, level: nat, i: nat): (nat, nat) {
    if i + 1 < |c.targets| then (level, i + 1) else (level + c.payload, 0)
  }

  /** The round robin from stream `i` of the round at offset `level` on. */
  ghost function Rest(c: Config, level: nat, i: nat): seq<Packet>
    requires c.Valid() && i < |c.targets|
    decreases Max(0, c.targets[0] - level), |c.targets| - i
  {
    if level >= c.targets[0] then []
    else
      var (level', i') := NextTurn(c, level, i);
      (if level < c.targets[i] then [PacketAt(c, level, i)] else []) + Rest(c, level', i')
  }

  ghost function Schedule(c: Config): seq<Packet>
    requires c.Valid()
  {
    Rest(c, 0, 0)
  }

  lemma {:induction false} RestUnfold(c: Config, level: nat, i: nat)
    requires c.Valid() && i < |c.targets|
    ensures var (level', i') := NextTurn(c, level, i);
      Rest(c, level, i) == (if level < c.targets[i] then [PacketAt(c, level, i)] else []) + Rest(c, level', i')
  {
  }

  // ----- One stream of the reference -----

  /** The packets of stream `k` from offset `level` on. */
  function Tiles(c: Config, k: nat, level: nat): seq<Packet>
    requires c.payload > 0 && k < |c.targets|
    decreases Max(0, c.targets[k] - level)
  {
    if level >= c.targets[k] then [] else [PacketAt(c, level, k)] + Tiles(c, k, level + c.payload)
  }

  function OfStream(ps: seq<Packet>, k: nat): seq<Packet> {
    if ps == [] then [] else (if ps[0].stream == k then [ps[0]] else []) + OfStream(ps[1..], k)
  }

  lemma OfStreamPrepend(p: Packet, rest: seq<Packet>, k: nat)
    ensures OfStream([p] + rest, k) == (if p.stream == k then [p] else []) + OfStream(rest, k)
  {
    assert ([p] + rest)[1..] == rest;
  }

  lemma {:induction false} StreamOfRest(c: Config, level: nat, i: nat, k: nat)
    requires c.Valid() && i < |c.targets| && k < |c.targets|
    ensures OfStream(Rest(c, level, i), k) == Tiles(c, k, if k < i then level + c.payload else level)
    decreases Max(0, c.targets[0] - level), |c.targets| - i
  {
    if level < c.targets[0] {
      var (level', i') := NextTurn(c, level, i);
      var rest := Rest(c, level', i');
      StreamOfRest(c, level', i', k);
      RestUnfold(c, level, i);
      if level < c.targets[i] {
        OfStreamPrepend(PacketAt(c, level, i), rest, k);
      } else {
        assert Rest(c, level, i) == rest;
      }
    }
  }

  lemma {:induction false} TilesShape(c: Config, k: nat, level: nat, j: nat)
    requires c.payload > 0 && k < |c.targets| && j < |Tiles(c, k, level)|
    ensures var t := Tiles(c, k, level);
      && t[j].stream == k && t[j].len >= 1
      && t[j].offset == (if j == 0 then level else t[j - 1].offset + t[j - 1].len)
      && t[j].offset + t[j].len <= c.targets[k]
      && (j + 1 == |t| <==> t[j].offset + t[j].len == c.targets[k])
      && (t[j].fin <==> j + 1 == |t|)
      && t[j].len <= c.payload && (j + 1 < |t| ==> t[j].len == c.payload)
    decreases j
  {
    if j > 0 {
      TilesShape(c, k, level + c.payload, j - 1);
    }
  }

  /**
   Each stream's packets tile [0, target) without gap or overlap, none is empty, exactly
   the last one carries FIN, and all but the last are full.
   */
  lemma ScheduleTilesEveryStream(c: Config, k: nat, j: nat)
    requires c.Valid() && k < |c.targets|
    requires j < |OfStream(Schedule(c), k)|
    ensures var t := OfStream(Schedule(c), k);
      && t[j].stream == k && t[j].len >= 1
      && t[j].offset == (if j == 0 then 0 else t[j - 1].offset + t[j - 1].len)
      && t[j].offset + t[j].len <= c.targets[k]
      && (j + 1 == |t| <==> t[j].offset + t[j].len == c.targets[k])
      && (t[j].fin <==> j + 1 == |t|)
      && t[j].len <= c.payload && (j + 1 < |t| ==> t[j].len == c.payload)
  {
    StreamOfRest(c, 0, 0, k);
    TilesShape(c, k, 0, j);
  }

  /** Earlier offsets first, and at one offset the streams in order. */
  predicate Precedes(p: Packet, q: Packet) {
    p.offset < q.offset || (p.offset == q.offset && p.stream < q.stream)
  }

  lemma {:induction false} RestStartsAt(c: Config, level: nat, i: nat, j: nat)
    requires c.Valid() && i < |c.targets| && j < |Rest(c, level, i)|
    ensures var p := Rest(c, level, i)[j]; p.offset > level || (p.offset == level && p.stream >= i)
    decreases Max(0, c.targets[0] - level), |c.targets| - i
  {
    var (level', i') := NextTurn(c, level, i);
    RestUnfold(c, level, i);
    var skipped := if level < c.targets[i] then 1 else 0;
    if j >= skipped {
      RestStartsAt(c, level', i', j - skipped);
    }
  }

  lemma {:induction false} RestInOrder(c: Config, level: nat, i: nat, a: nat, b: nat)
    requires c.Valid() && i < |c.targets| && a < b < |Rest(c, level, i)|
    ensures Precedes(Rest(c, level, i)[a], Rest(c, level, i)[b])
    decreases Max(0, c.targets[0] - level), |c.targets| - i
  {
    var (level', i') := NextTurn(c, level, i);
    RestUnfold(c, level, i);
    var skipped := if level < c.targets[i] then 1 else 0;
    if a >= skipped {
      RestInOrder(c, level', i', a - skipped, b - skipped);
    } else {
      RestStartsAt(c, level', i', b - 1);
    }
  }

  /** With the tiles this fixes the schedule: packets come by offset, and at one offset by stream. */
  lemma ScheduleIsRoundRobin(c: Config, a: nat, b: nat)
    requires c.Valid() && a < b < |Schedule(c)|
    ensures Precedes(Schedule(c)[a], Schedule(c)[b])
  {
    RestInOrder(c, 0, 0, a, b);
  }

  /** A stream appears in the schedule exactly when it has bytes to send. */
  lemma StreamAppearsIffNonEmpty(c: Config, k: nat)
    requires c.Valid() && k < |c.targets|
    ensures OfStream(Schedule(c), k) != [] <==> c.targets[k] > 0
  {
    StreamOfRest(c, 0, 0, k);
  }

  // ----- The program's cursor, one packet at a time -----

  datatype State = State(sent: seq<nat>, cursor: nat)

  ghost predicate InRange(c: Config, s: State) {
    && |s.sent| == |c.targets| && s.cursor < |c.targets|
    && forall i :: 0 <= i < |c.targets| ==> s.sent[i] <= c.targets[i]
  }

  function Wrap(a: nat, n: nat): nat {
    if a < n then a else a - n
  }

  /** The first pending stream at or after `start + delta`, wrapping around. */
  function Scan(c: Config, s: State, delta: nat): (r: Option<nat>)
    requires |s.sent| == |c.targets| && s.cursor < |c.targets| && delta <= |c.targets|
    ensures r.Some? ==> r.value < |c.targets| && s.sent[r.value] < c.targets[r.value]
    decreases |c.targets| - delta
  {
    if delta == |c.targets| then None
    else
      var index := Wrap(s.cursor + delta, |c.targets|);
      if s.sent[index] < c.targets[index] then Some(index) else Scan(c, s, delta + 1)
  }

  ghost predicate HasNext(c: Config, s: State) {
    InRange(c, s) && Scan(c, s, 0).Some?
  }

  ghost function NextPacket(c: Config, s: State): Packet
    requires HasNext(c, s)
  {
    var i := Scan(c, s, 0).value;
    PacketAt(c, s.sent[i], i)
  }

  function Commit(c: Config, s: State, p: Packet): State
    requires p.stream < |s.sent|
  {
    State(s.sent[p.stream := s.sent[p.stream] + p.len], Wrap(p.stream + 1, |c.targets|))
  }

  /** `ps` is what the one-packet-at-a-time sender emits from `s`, ending in `t`. */
  ghost predicate Sends(c: Config, s: State, ps: seq<Packet>, t: State)
    decreases |ps|
  {
    if ps == [] then s == t
    else HasNext(c, s) && ps[0] == NextPacket(c, s) && Sends(c, Commit(c, s, ps[0]), ps[1..], t)
  }

  ghost predicate Reachable(c: Config, s: State) {
    exists ps :: Sends(c, Start(c), ps, s)
  }

  function Start(c: Config): State {
    State(seq(|c.targets|, _ => 0), 0)
  }

  lemma {:induction false} SendsAppend(c: Config, s: State, ps: seq<Packet>, t: State, qs: seq<Packet>, u: State)
    requires Sends(c, s, ps, t) && Sends(c, t, qs, u)
    ensures Sends(c, s, ps + qs, u)
    decreases |ps|
  {
    if ps == [] {
      assert ps + qs == qs;
    } else {
      SendsAppend(c, Commit(c, s, ps[0]), ps[1..], t, qs, u);
      assert (ps + qs)[1..] == ps[1..] + qs;
    }
  }

  lemma SendsOne(c: Config, s: State)
    requires HasNext(c, s)
    ensures Sends(c, s, [NextPacket(c, s)], Commit(c, s, NextPacket(c, s)))
  {
  }

  // ----- Where a state stands in the reference -----

  function Level(c: Config, k: nat, level: nat): nat
    requires k < |c.targets|
  {
    Min(c.targets[k], level)
  }

  /** Streams before `i` have had their packet of the round at `level`, the others not yet. */
  ghost predicate At(c: Config, s: State, level: nat, i: nat) {
    && |s.sent| == |c.targets| && i < |c.targets|
    && forall k :: 0 <= k < |c.targets| ==> s.sent[k] == Level(c, k, if k < i then level + c.payload else level)
  }

  /** A finished stream gives up its turn: both descriptions of the state are valid. */
  lemma SkipTurn(c: Config, s: State, level: nat, i: nat)
    requires c.Valid() && At(c, s, level, i) && s.sent[i] == c.targets[i]
    ensures var (level', i') := NextTurn(c, level, i);
      At(c, s, level', i') && Rest(c, level, i) == Rest(c, level', i')
  {
    RestUnfold(c, level, i);
  }

  /** The pending stream whose turn it is sends the reference's next packet. */
  lemma TakeTurn(c: Config, s: State, level: nat, i: nat)
    requires c.Valid() && At(c, s, level, i) && s.sent[i] < c.targets[i]
    ensures s.sent[i] == level
    ensures var p, (level', i') := PacketAt(c, level, i), NextTurn(c, level, i);
      At(c, Commit(c, s, p), level', i') && Rest(c, level, i) == [p] + Rest(c, level', i')
  {
    RestUnfold(c, level, i);
  }

  /** One step of the scan, which passes a finished stream, is one turn. */
  lemma ScanTurn(c: Config, s: State, delta: nat, level: nat, i: nat)
    requires InRange(c, s) && delta < |c.targets| && i == Wrap(s.cursor + delta, |c.targets|)
    ensures s.sent[i] < c.targets[i] ==> Scan(c, s, delta) == Some(i)
    ensures s.sent[i] == c.targets[i] ==> Scan(c, s, delta) == Scan(c, s, delta + 1)
    ensures delta + 1 < |c.targets| ==> NextTurn(c, level, i).1 == Wrap(s.cursor + delta + 1, |c.targets|)
  {
  }

  lemma {:induction false} FindTurn(c: Config, s: State, delta: nat, level: nat, i: nat) returns (level': nat, i': nat)
    requires c.Valid() && InRange(c, s) && At(c, s, level, i) && delta <= |c.targets|
    requires delta < |c.targets| ==> i == Wrap(s.cursor + delta, |c.targets|)
    ensures At(c, s, level', i') && Rest(c, level, i) == Rest(c, level', i')
    ensures Scan(c, s, delta).Some? ==> Scan(c, s, delta).value == i'
    decreases |c.targets| - delta
  {
    level', i' := level, i;
    if delta < |c.targets| {
      ScanTurn(c, s, delta, level, i);
      if s.sent[i] == c.targets[i] {
        SkipTurn(c, s, level, i);
        var turn := NextTurn(c, level, i);
        level', i' := FindTurn(c, s, delta + 1, turn.0, turn.1);
      }
    }
  }

  lemma AdvanceOne(c: Config, s: State, level: nat, i: nat) returns (level': nat, i': nat)
    requires c.Valid() && HasNext(c, s) && At(c, s, level, i) && s.cursor == i
    ensures var t := Commit(c, s, NextPacket(c, s));
      InRange(c, t) && At(c, t, level', i') && t.cursor == i' && Rest(c, level, i) == [NextPacket(c, s)] + Rest(c, level', i')
  {
    var l, j := FindTurn(c, s, 0, level, i);
    TakeTurn(c, s, l, j);
    var turn := NextTurn(c, l, j);
    level', i' := turn.0, turn.1;
  }

  lemma Regroup(ps: seq<Packet>, rest: seq<Packet>)
    requires ps != []
    ensures [ps[0]] + (ps[1..] + rest) == ps + rest
  {
  }

  /** What is sent from a point of the reference is what the reference has next. */
  lemma {:induction false} Locate(c: Config, s: State, level: nat, i: nat, ps: seq<Packet>, t: State) returns (level': nat, i': nat)
    requires c.Valid() && InRange(c, s) && At(c, s, level, i) && s.cursor == i
    requires Sends(c, s, ps, t)
    ensures InRange(c, t) && At(c, t, level', i') && t.cursor == i'
    ensures Rest(c, level, i) == ps + Rest(c, level', i')
    decreases |ps|
  {
    if ps == [] {
      level', i' := level, i;
    } else {
      var l, j := AdvanceOne(c, s, level, i);
      level', i' := Locate(c, Commit(c, s, ps[0]), l, j, ps[1..], t);
      Regroup(ps, Rest(c, level', i'));
    }
  }

  lemma LocateFromStart(c: Config, ps: seq<Packet>, t: State) returns (level: nat, i: nat)
    requires c.Valid() && Sends(c, Start(c), ps, t)
    ensures InRange(c, t) && At(c, t, level, i) && t.cursor == i
    ensures Schedule(c) == ps + Rest(c, level, i)
  {
    level, i := Locate(c, Start(c), 0, 0, ps, t);
  }

  // ----- What follows for every reachable state -----

  /** Fairness: two streams with data left differ by at most one packet. */
  lemma UnfinishedStreamsAreClose(c: Config, s: State, a: nat, b: nat)
    requires c.Valid() && Reachable(c, s)
    requires |s.sent| == |c.targets| && a < |s.sent| && b < |s.sent|
    requires s.sent[a] < c.targets[a] && s.sent[b] < c.targets[b]
    ensures s.sent[a] <= s.sent[b] + c.payload
  {
    var ps :| Sends(c, Start(c), ps, s);
    var level, i := LocateFromStart(c, ps, s);
  }

  lemma {:induction false} ScanMisses(c: Config, s: State, delta: nat, d: nat)
    requires InRange(c, s) && delta <= d < |c.targets|
    requires Scan(c, s, delta).None?
    ensures var i := Wrap(s.cursor + d, |c.targets|);
      s.sent[i] == c.targets[i]
    decreases |c.targets| - delta
  {
    if d > delta {
      ScanMisses(c, s, delta + 1, d);
    }
  }

  /** `nextPendingStream` answers null only when every stream is fully sent. */
  lemma NoPendingMeansAllSent(c: Config, s: State)
    requires InRange(c, s) && Scan(c, s, 0).None?
    ensures s.sent == c.targets
  {
    forall i | 0 <= i < |c.targets| ensures s.sent[i] == c.targets[i] {
      var d := if i >= s.cursor then i - s.cursor else i + |c.targets| - s.cursor;
      ScanMisses(c, s, 0, d);
    }
  }

  /** While bytes remain some stream is pending, so an empty batch is impossible. */
  lemma BytesLeftMeansPending(c: Config, s: State)
    requires InRange(c, s)
    ensures Sum(s.sent) <= Sum(c.targets)
    ensures Sum(s.sent) < Sum(c.targets) <==> HasNext(c, s)
  {
    SumBounded(s.sent, c.targets);
    if Scan(c, s, 0).None? {
      NoPendingMeansAllSent(c, s);
    }
  }

  lemma {:induction false} FinishedRest(c: Config, s: State, level: nat, i: nat)
    requires c.Valid() && At(c, s, level, i) && s.sent == c.targets
    ensures Rest(c, level, i) == []
    decreases Max(0, c.targets[0] - level), |c.targets| - i
  {
    if level < c.targets[0] {
      SkipTurn(c, s, level, i);
      var turn := NextTurn(c, level, i);
      FinishedRest(c, s, turn.0, turn.1);
    }
  }

  /** Once every byte is sent, the whole schedule has been sent. */
  lemma AllSentIsSchedule(c: Config, ps: seq<Packet>, t: State)
    requires c.Valid() && Sends(c, Start(c), ps, t) && Sum(t.sent) >= Sum(c.targets)
    ensures ps == Schedule(c)
  {
    var level, i := LocateFromStart(c, ps, t);
    BytesLeftMeansPending(c, t);
    NoPendingMeansAllSent(c, t);
    FinishedRest(c, t, level, i);
  }

  lemma PrefixOfSchedule(c: Config, ps: seq<Packet>, t: State)
    requires c.Valid() && Sends(c, Start(c), ps, t)
    ensures ps <= Schedule(c) && InRange(c, t)
  {
    var level, i := LocateFromStart(c, ps, t);
  }

  // ----- The batching sender -----

  /** The configuration of a transfer of `total` bytes over `streams` streams. */
  function Split(total: nat, streams: nat, payload: nat): (c: Config)
    requires streams > 0 && payload > 0
    ensures c.Valid() && |c.targets| == streams
    ensures forall i :: 0 <= i < streams ==> c.targets[i] == Share(total, streams, i)
    ensures Sum(c.targets) == total
  {
    SharesSumToTotal(total, streams);
    Config(Shares(total, streams), payload)
  }

  lemma WrapIsModulo(a: nat, n: nat)
    requires 0 < n && a < 2 * n
    ensures a % n == Wrap(a, n)
  {
    if a >= n {
      assert a == n + (a - n);
      assert a / n == 1;
    }
  }

  /** The program's wrap-around of a stream index. */
  method Modulo(a: nat, n: nat) returns (r: nat)
    requires 0 < n && a < 2 * n
    ensures r == Wrap(a, n)
  {
    WrapIsModulo(a, n);
    r := a % n;
  }

  method NextPendingStream(c: Config, sent: seq<nat>, start: nat) returns (r: Option<nat>)
    requires |sent| == |c.targets| && start < |c.targets|
    ensures r == Scan(c, State(sent, start), 0)
  {
    for delta := 0 to |c.targets|
      invariant Scan(c, State(sent, start), 0) == Scan(c, State(sent, start), delta)
    {
      var index := Modulo(start + delta, |c.targets|);
      if sent[index] < c.targets[index] { return Some(index); }
    }
    r := None;
  }

  /** How the wait after a refused batch ended. */
  datatype Wait = Recovered | WaitTimedOut | WaitServerFailed | WaitFailed

  /** What the transport does with one submitted batch, or what ends the transfer. */
  datatype Outcome =
    | DeadlinePassed
    | ServerFailed
    | Backpressure(wait: Wait)
    | TransportError
    | Submitted(sentCount: nat, protectedCount: nat, sendError: bool)

  datatype SendResult =
    | Done
    | Running
    | BenchmarkTimeout
    | ServerFailure
    | TransportFailure
    | PartialDatagramSend
    | InvalidTransferSize

  /** Book one packet: advance its stream, the running total and the cursor. */
  method Book(c: Config, s: State, total: nat, p: Packet) returns (t: State, total': nat)
    requires |s.sent| == |c.targets| && p.stream < |c.targets| && total == Sum(s.sent)
    ensures t == Commit(c, s, p)
    ensures total' == Sum(t.sent) == total + p.len
  {
    SumUpdate(s.sent, p.stream, s.sent[p.stream] + p.len);
    var cursor := Modulo(p.stream + 1, |c.targets|);
    t, total' := State(s.sent[p.stream := s.sent[p.stream] + p.len], cursor), total + p.len;
  }

  method MakePacket(c: Config, s: State, streamIndex: nat) returns (p: Packet)
    requires InRange(c, s) && Scan(c, s, 0) == Some(streamIndex)
    ensures HasNext(c, s) && p == NextPacket(c, s)
  {
    var target := c.targets[streamIndex];
    var count := Min(c.payload, target - s.sent[streamIndex]);
    var end := s.sent[streamIndex] + count;
    p := Packet(streamIndex, s.sent[streamIndex], count, end == target);
  }

  lemma CommitInRange(c: Config, s: State)
    requires HasNext(c, s)
    ensures InRange(c, Commit(c, s, NextPacket(c, s)))
  {
  }

  /** A batch is a run of the one-packet sender, and falls short of `batch` packets only at the end. */
  ghost predicate PlannedTo(c: Config, batch: nat, s: State, packets: seq<Packet>, t: State) {
    Sends(c, s, packets, t) && |packets| <= batch && (|packets| < batch ==> Sum(t.sent) >= Sum(c.targets))
  }

  /** Plan against a copy of the progress, leaving the progress itself untouched. */
  method PlanBatch(c: Config, total: nat, batch: nat, s: State, totalSent: nat) returns (packets: seq<Packet>, ghost t: State)
    requires c.Valid() && batch > 0 && total == Sum(c.targets)
    requires InRange(c, s) && totalSent == Sum(s.sent) < total
    ensures |packets| >= 1 && PlannedTo(c, batch, s, packets, t)
  {
    packets := [];
    var simulated: State := s;
    var simulatedTotal: nat := totalSent;
    while |packets| < batch && simulatedTotal < total
      invariant |packets| <= batch
      invariant InRange(c, simulated) && simulatedTotal == Sum(simulated.sent)
      invariant Sends(c, s, packets, simulated)
      invariant |packets| == 0 ==> simulatedTotal < total
    {
      BytesLeftMeansPending(c, simulated);
      var found := NextPendingStream(c, simulated.sent, simulated.cursor);
      if found.None? { break; }
      var packet := MakePacket(c, simulated, found.value);
      SendsOne(c, simulated);
      SendsAppend(c, s, packets, simulated, [packet], Commit(c, simulated, packet));
      CommitInRange(c, simulated);
      packets := packets + [packet];
      simulated, simulatedTotal := Book(c, simulated, simulatedTotal, packet);
    }
    t := simulated;
  }

  /** Any prefix of a planned batch is itself a run of the one-packet sender. */
  lemma {:induction false} SendsPrefix(c: Config, s: State, ps: seq<Packet>, t: State, n: nat) returns (u: State)
    requires Sends(c, s, ps, t) && n <= |ps|
    ensures Sends(c, s, ps[..n], u)
    decreases n
  {
    if n == 0 {
      u := s;
    } else {
      u := SendsPrefix(c, Commit(c, s, ps[0]), ps[1..], t, n - 1);
      assert ps[..n][1..] == ps[1..][..n - 1];
    }
  }

  lemma SendsNext(c: Config, s: State, ps: seq<Packet>, n: nat, u: State, t: State)
    requires n < |ps| && Sends(c, s, ps[..n], u) && Sends(c, u, ps[n..], t)
    ensures HasNext(c, u) && ps[n] == NextPacket(c, u)
    ensures Sends(c, s, ps[..n + 1], Commit(c, u, ps[n])) && Sends(c, Commit(c, u, ps[n]), ps[n + 1..], t)
  {
    assert ps[n..][0] == ps[n] && ps[n..][1..] == ps[n + 1..];
    SendsOne(c, u);
    SendsAppend(c, s, ps[..n], u, [ps[n]], Commit(c, u, ps[n]));
    assert ps[..n] + [ps[n]] == ps[..n + 1];
  }

  /** Replay the accepted packets onto the committed progress. */
  method CommitBatch(c: Config, s: State, totalSent: nat, packets: seq<Packet>) returns (t: State, totalSent': nat)
    requires |s.sent| == |c.targets| && totalSent == Sum(s.sent)
    requires exists u :: Sends(c, s, packets, u)
    ensures Sends(c, s, packets, t)
    ensures |t.sent| == |c.targets| && totalSent' == Sum(t.sent)
  {
    t, totalSent' := s, totalSent;
    ghost var u :| Sends(c, s, packets, u);
    assert packets[0..] == packets && packets[..0] == [];
    for packetIndex := 0 to |packets|
      invariant |t.sent| == |c.targets| && totalSent' == Sum(t.sent)
      invariant Sends(c, s, packets[..packetIndex], t)
      invariant Sends(c, t, packets[packetIndex..], u)
    {
      SendsNext(c, s, packets, packetIndex, t, u);
      t, totalSent' := Book(c, t, totalSent', packets[packetIndex]);
    }
    assert packets[..|packets|] == packets;
  }

  // ----- The transfer as its script decides it -----

  /** What one outcome does to a batch of the next packets: the result if it ends the transfer, and how many went out. */
  function Attempt(rest: seq<Packet>, batch: nat, o: Outcome): (r: (Option<SendResult>, nat))
    ensures r.1 <= |rest|
  {
    match o
    case DeadlinePassed => (Some(BenchmarkTimeout), 0)
    case ServerFailed => (Some(ServerFailure), 0)
    case TransportError => (Some(TransportFailure), 0)
    case Backpressure(wait) =>
      (match wait
       case Recovered => (None, 0)
       case WaitTimedOut => (Some(BenchmarkTimeout), 0)
       case WaitServerFailed => (Some(ServerFailure), 0)
       case WaitFailed => (Some(TransportFailure), 0))
    case Submitted(sentCount, protectedCount, sendError) =>
      var taken := Min(sentCount, Min(batch, |rest|));
      (if sendError then Some(TransportFailure)
       else if taken != protectedCount || taken == 0 then Some(PartialDatagramSend)
       else None, taken)
  }

  /**
   The result and the packets sent, from what is left of the schedule and the outcomes
   alone.  Each attempt offers the next `batch` packets.
   */
  function SendRun(rest: seq<Packet>, batch: nat, script: seq<Outcome>): (SendResult, seq<Packet>)
    decreases |script|
  {
    if rest == [] then (Done, [])
    else if script == [] then (Running, [])
    else
      var (end, taken) := Attempt(rest, batch, script[0]);
      if end.Some? then (end.value, rest[..taken])
      else
        var (result, more) := SendRun(rest[taken..], batch, script[1..]);
        (result, rest[..taken] + more)
  }

  /** What is sent is the beginning of the schedule, all of it exactly when the transfer is done. */
  lemma {:induction false} SendRunSendsAPrefix(rest: seq<Packet>, batch: nat, script: seq<Outcome>)
    ensures SendRun(rest, batch, script).1 <= rest
    ensures SendRun(rest, batch, script).0 == Done ==> SendRun(rest, batch, script).1 == rest
    ensures SendRun(rest, batch, script).0 != InvalidTransferSize
    decreases |script|
  {
    if rest != [] && script != [] {
      var taken := Attempt(rest, batch, script[0]).1;
      SendRunSendsAPrefix(rest[taken..], batch, script[1..]);
      assert rest == rest[..taken] + rest[taken..];
    }
  }

  lemma RecoveredRun(rest: seq<Packet>, batch: nat, script: seq<Outcome>)
    requires script != [] && script[0] == Backpressure(Recovered)
    ensures SendRun(rest, batch, script) == SendRun(rest, batch, script[1..])
  {
    if rest != [] {
      assert rest[0..] == rest;
      var more := SendRun(rest, batch, script[1..]).1;
      assert rest[..0] + more == more;
    }
  }

  /** A recovered backpressure changes nothing, wherever it happens. */
  lemma {:induction false} RecoveryChangesNothing(rest: seq<Packet>, batch: nat, before: seq<Outcome>, after: seq<Outcome>)
    ensures SendRun(rest, batch, before + [Backpressure(Recovered)] + after) == SendRun(rest, batch, before + after)
    decreases |before|
  {
    var long, short := before + [Backpressure(Recovered)] + after, before + after;
    if before == [] {
      assert long[0] == Backpressure(Recovered) && long[1..] == after && short == after;
      RecoveredRun(rest, batch, long);
    } else {
      assert long[0] == before[0] == short[0];
      assert long[1..] == before[1..] + [Backpressure(Recovered)] + after && short[1..] == before[1..] + after;
      RecoveryChangesNothing(rest[Attempt(rest, batch, before[0]).1..], batch, before[1..], after);
    }
  }

  /** The result an outcome must end a transfer with, when `left` packets are to go. */
  ghost predicate EndsWith(o: Outcome, batch: nat, left: nat, r: SendResult) {
    && (o == DeadlinePassed || o == Backpressure(WaitTimedOut) ==> r == BenchmarkTimeout)
    && (o == ServerFailed || o == Backpressure(WaitServerFailed) ==> r == ServerFailure)
    && (o == TransportError || o == Backpressure(WaitFailed) ==> r == TransportFailure)
    && (o.Submitted? && o.sendError ==> r == TransportFailure)
    && (o.Submitted? && !o.sendError && o.sentCount == 0 ==> r == PartialDatagramSend)
    && (o.Submitted? && !o.sendError && o.sentCount <= batch && o.sentCount <= left && o.sentCount != o.protectedCount ==>
        r == PartialDatagramSend)
  }

  /** The first outcome that ends a running transfer names its result. */
  lemma {:induction false} NextOutcomeDecides(rest: seq<Packet>, batch: nat, before: seq<Outcome>, next: Outcome, after: seq<Outcome>)
    requires SendRun(rest, batch, before).0 == Running
    ensures |SendRun(rest, batch, before).1| < |rest|
    ensures EndsWith(next, batch, |rest| - |SendRun(rest, batch, before).1|, SendRun(rest, batch, before + [next] + after).0)
    decreases |before|
  {
    var script := before + [next] + after;
    if before == [] {
      assert script[0] == next;
    } else {
      assert script[0] == before[0] && script[1..] == before[1..] + [next] + after;
      NextOutcomeDecides(rest[Attempt(rest, batch, before[0]).1..], batch, before[1..], next, after);
    }
  }

  /** Recovered backpressure and clean submissions within what was offered. */
  ghost predicate Clean(rest: seq<Packet>, batch: nat, script: seq<Outcome>)
    decreases |script|
  {
    script != [] ==>
      match script[0]
      case Backpressure(wait) => wait == Recovered && Clean(rest, batch, script[1..])
      case Submitted(n, p, e) =>
        rest != [] ==> n == p && !e && 1 <= n <= Min(batch, |rest|) && Clean(rest[n..], batch, script[1..])
      case _ => false
  }

  function Submissions(script: seq<Outcome>): nat {
    if script == [] then 0 else (if script[0].Submitted? then 1 else 0) + Submissions(script[1..])
  }

  /** A transport that keeps recovering and taking at least one packet gets every transfer done. */
  lemma {:induction false} CleanScriptsFinish(rest: seq<Packet>, batch: nat, script: seq<Outcome>)
    requires Clean(rest, batch, script)
    ensures SendRun(rest, batch, script).0 == Done || SendRun(rest, batch, script).0 == Running
    ensures Submissions(script) >= |rest| ==> SendRun(rest, batch, script) == (Done, rest)
    decreases |script|
  {
    if rest != [] && script != [] {
      match script[0] {
        case Backpressure(wait) =>
          RecoveredRun(rest, batch, script);
          CleanScriptsFinish(rest, batch, script[1..]);
        case Submitted(n, p, e) =>
          CleanScriptsFinish(rest[n..], batch, script[1..]);
          assert rest == rest[..n] + rest[n..];
      }
    }
  }

  // ----- The program -----

  /** The planned batch is the next part of the schedule. */
  lemma BatchIsNext(c: Config, wire: seq<Packet>, s: State, batch: nat, packets: seq<Packet>, t: State, rest: seq<Packet>)
    requires c.Valid() && Sends(c, Start(c), wire, s) && PlannedTo(c, batch, s, packets, t) && Schedule(c) == wire + rest
    ensures |packets| == Min(batch, |rest|) && packets == rest[..|packets|]
  {
    SendsAppend(c, Start(c), wire, s, packets, t);
    PrefixOfSchedule(c, wire + packets, t);
    if |packets| < batch {
      AllSentIsSchedule(c, wire + packets, t);
    }
    var n := |wire|;
    assert wire + packets <= wire + rest;
    assert packets == (wire + packets)[n..] && rest == (wire + rest)[n..];
    assert |packets| <= |rest|;
    assert packets == rest[..|packets|];
  }

  /** Progress stands where `rest` is left of the schedule; nothing is left exactly when all is sent. */
  ghost predicate Standing(c: Config, wire: seq<Packet>, s: State, rest: seq<Packet>) {
    c.Valid() && Sends(c, Start(c), wire, s) && Schedule(c) == wire + rest
  }

  lemma StandingMeans(c: Config, wire: seq<Packet>, s: State, rest: seq<Packet>)
    requires Standing(c, wire, s, rest)
    ensures InRange(c, s) && (rest == [] <==> Sum(s.sent) >= Sum(c.targets))
  {
    var level, i := LocateFromStart(c, wire, s);
    assert rest == Rest(c, level, i) by {
      assert (wire + rest)[|wire|..] == rest && (wire + Rest(c, level, i))[|wire|..] == Rest(c, level, i);
    }
    BytesLeftMeansPending(c, s);
    if Sum(s.sent) >= Sum(c.targets) {
      NoPendingMeansAllSent(c, s);
      FinishedRest(c, s, level, i);
    } else {
      var l, j := FindTurn(c, s, 0, level, i);
      TakeTurn(c, s, l, j);
    }
  }

  /** Taking the first `n` packets of what is left. */
  lemma StandingStep(c: Config, wire: seq<Packet>, s: State, rest: seq<Packet>, n: nat, t: State)
    requires Standing(c, wire, s, rest) && n <= |rest| && Sends(c, s, rest[..n], t)
    ensures Standing(c, wire + rest[..n], t, rest[n..])
  {
    SendsAppend(c, Start(c), wire, s, rest[..n], t);
    assert wire + rest == (wire + rest[..n]) + rest[n..];
  }

  /** One turn of the loop, from planning to commitment. */
  method TryBatch(c: Config, total: nat, batch: nat, o: Outcome, s: State, totalSent: nat, wire: seq<Packet>, ghost rest: seq<Packet>)
    returns (end: Option<SendResult>, s': State, totalSent': nat, wire': seq<Packet>)
    requires Standing(c, wire, s, rest) && InRange(c, s) && batch > 0
    requires total == Sum(c.targets) && totalSent == Sum(s.sent) < total
    ensures var taken := Attempt(rest, batch, o).1;
      && end == Attempt(rest, batch, o).0 && wire' == wire + rest[..taken]
      && (end.None? ==> Standing(c, wire', s', rest[taken..]) && totalSent' == Sum(s'.sent))
  {
    s', totalSent', wire' := s, totalSent, wire;
    assert rest[0..] == rest && wire + rest[..0] == wire;
    if o.DeadlinePassed? { return Some(BenchmarkTimeout), s', totalSent', wire'; }
    if o.ServerFailed? { return Some(ServerFailure), s', totalSent', wire'; }
    var packets: seq<Packet>;
    ghost var planned: State;
    packets, planned := PlanBatch(c, total, batch, s, totalSent);
    if |packets| == 0 { return Some(InvalidTransferSize), s', totalSent', wire'; }
    BatchIsNext(c, wire, s, batch, packets, planned, rest);
    match o {
      case Backpressure(wait) =>
        end := match wait
          case Recovered => None
          case WaitTimedOut => Some(BenchmarkTimeout)
          case WaitServerFailed => Some(ServerFailure)
          case WaitFailed => Some(TransportFailure);
      case Submitted(sentCount, protectedCount, sendError) =>
        end, s', totalSent', wire' := TakePrefix(c, o, packets, s, totalSent, wire, planned, rest);
      case _ => end := Some(TransportFailure);
    }
  }

  /** The transport took a prefix of the batch; only a clean submission is committed. */
  method TakePrefix(
    c: Config, o: Outcome, packets: seq<Packet>, s: State, totalSent: nat, wire: seq<Packet>, ghost planned: State, ghost rest: seq<Packet>)
    returns (end: Option<SendResult>, s': State, totalSent': nat, wire': seq<Packet>)
    requires o.Submitted? && Standing(c, wire, s, rest) && |s.sent| == |c.targets| && totalSent == Sum(s.sent)
    requires Sends(c, s, packets, planned) && |packets| <= |rest| && packets == rest[..|packets|]
    ensures var taken := Min(o.sentCount, |packets|);
      && wire' == wire + rest[..taken]
      && end == (if o.sendError then Some(TransportFailure)
                 else if taken != o.protectedCount || taken == 0 then Some(PartialDatagramSend) else None)
      && (end.None? ==> Standing(c, wire', s', rest[taken..]) && totalSent' == Sum(s'.sent))
  {
    var taken := Min(o.sentCount, |packets|);
    var accepted := packets[..taken];
    assert accepted == rest[..taken];
    s', totalSent', wire' := s, totalSent, wire + accepted;
    if o.sendError { return Some(TransportFailure), s', totalSent', wire'; }
    if taken != o.protectedCount || taken == 0 { return Some(PartialDatagramSend), s', totalSent', wire'; }
    ghost var u := SendsPrefix(c, s, packets, planned, taken);
    s', totalSent' := CommitBatch(c, s, totalSent, accepted);
    StandingStep(c, wire, s, rest, taken, s');
    end := None;
  }

  /**
   The sender loop, driven by any sequence of transport outcomes: the result and the
   packets the transport made visible are exactly what the script decides over the plain
   round robin.  An empty batch, `InvalidTransferSize`, never occurs.
   */
  method SendTransfer(total: nat, streams: nat, payload: nat, batch: nat, script: seq<Outcome>)
    returns (result: SendResult, wire: seq<Packet>)
    requires streams > 0 && payload > 0 && batch > 0
    ensures (result, wire) == SendRun(Schedule(Split(total, streams, payload)), batch, script)
    ensures wire <= Schedule(Split(total, streams, payload))
    ensures result == Done ==> wire == Schedule(Split(total, streams, payload))
    ensures result != InvalidTransferSize
  {
    var c := Split(total, streams, payload);
    var progress: State := State(seq(streams, _ => 0), 0);
    var totalSent: nat := 0;
    ghost var rest := Schedule(c);
    ghost var whole := SendRun(rest, batch, script);
    wire := [];
    var step := 0;
    SumConstant(progress.sent, 0);
    assert progress == Start(c) && [] + rest == rest && [] + whole.1 == whole.1 && script[0..] == script;
    StandingMeans(c, wire, progress, rest);
    SendRunSendsAPrefix(rest, batch, script);
    while totalSent < total
      invariant 0 <= step <= |script| && totalSent == Sum(progress.sent)
      invariant Standing(c, wire, progress, rest) && InRange(c, progress) && (rest == [] <==> totalSent >= total)
      invariant Continues(whole, wire, SendRun(rest, batch, script[step..]))
      decreases |script| - step
    {
      if step == |script| {
        assert wire + [] == wire;
        return Running, wire;
      }
      ghost var taken := Attempt(rest, batch, script[step]).1;
      RunStep(whole, wire, rest, batch, script, step);
      var end: Option<SendResult>;
      end, progress, totalSent, wire := TryBatch(c, total, batch, script[step], progress, totalSent, wire, rest);
      step := step + 1;
      if end.Some? { return end.value, wire; }
      rest := rest[taken..];
      StandingMeans(c, wire, progress, rest);
    }
    assert wire + [] == wire;
    result := Done;
  }

  /** The whole run is what was sent so far followed by the run of the rest. */
  ghost predicate Continues(whole: (SendResult, seq<Packet>), sent: seq<Packet>, more: (SendResult, seq<Packet>)) {
    whole == (more.0, sent + more.1)
  }

  lemma RunStep(whole: (SendResult, seq<Packet>), sent: seq<Packet>, rest: seq<Packet>, batch: nat, script: seq<Outcome>, step: nat)
    requires step < |script| && rest != [] && Continues(whole, sent, SendRun(rest, batch, script[step..]))
    ensures var (end, taken) := Attempt(rest, batch, script[step]);
      if end.Some? then whole == (end.value, sent + rest[..taken])
      else Continues(whole, sent + rest[..taken], SendRun(rest[taken..], batch, script[step + 1..]))
  {
    var (end, taken) := Attempt(rest, batch, script[step]);
    assert script[step..][0] == script[step] && script[step..][1..] == script[step + 1..];
    if end.None? {
      var more := SendRun(rest[taken..], batch, script[step + 1..]).1;
      assert sent + (rest[..taken] + more) == (sent + rest[..taken]) + more;
    }
  }
}
