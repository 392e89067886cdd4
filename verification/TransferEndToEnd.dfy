/**
 The QUIC upload from scheduler to completion check
 (examples/bench_quic_handshake_stream.zig: `sendTransfer`, the server loop and
 `drainReceivedStreams`, over the receive streams of src/quic/stream.zig).

 The network between them may lose, repeat and reorder packets at will; it
 delivers a packet's frame unchanged or not at all.
 */
module TransferEndToEnd {
  import opened Base
  import opened Partition
  import RecvStream
  import Reassembly
  import opened TransferSender

  const PAYLOAD_BYTE: Byte := 83 // 'S'

  function Body(len: nat): (b: seq<Byte>)
    ensures |b| == len && forall i :: 0 <= i < len ==> b[i] == PAYLOAD_BYTE
  {
    seq(len, _ => PAYLOAD_BYTE)
  }

  function StreamId(index: nat): nat {
    index * 4
  }

  /** Client-initiated bidirectional ids (section 2.1 of RFC 9000), one for each stream. */
  lemma StreamIdsAreDistinct(i: nat, j: nat)
    ensures StreamId(i) == StreamId(j) <==> i == j
    ensures StreamId(0) == 0 && StreamId(i + 1) == StreamId(i) + 4
  {
  }

  function FrameOf(p: Packet): RecvStream.StreamFrame {
    RecvStream.StreamFrame(StreamId(p.stream), p.offset, Body(p.len), p.fin)
  }

  // ----- What a scheduled packet looks like -----

  ghost predicate Scheduled(c: Config, p: Packet) {
    && p.stream < |c.targets| && p.len >= 1
    && p.offset + p.len <= c.targets[p.stream]
    && (p.fin <==> p.offset + p.len == c.targets[p.stream])
  }

  lemma {:induction false} RestIsScheduled(c: Config, level: nat, i: nat, p: Packet)
    requires c.Valid() && i < |c.targets| && p in Rest(c, level, i)
    ensures Scheduled(c, p)
    decreases Max(0, c.targets[0] - level), |c.targets| - i
  {
    var (level', i') := NextTurn(c, level, i);
    if p in Rest(c, level', i') {
      RestIsScheduled(c, level', i', p);
    }
  }

  lemma {:induction false} TilesCover(c: Config, k: nat, level: nat, x: nat) returns (p: Packet)
    requires c.payload > 0 && k < |c.targets| && level <= x < c.targets[k]
    ensures p in Tiles(c, k, level) && p.offset <= x < p.offset + p.len
    decreases c.targets[k] - level
  {
    p := PacketAt(c, level, k);
    if x >= p.offset + p.len {
      p := TilesCover(c, k, level + c.payload, x);
    }
  }

  lemma {:induction false} OfStreamMember(ps: seq<Packet>, k: nat, p: Packet)
    requires p in OfStream(ps, k)
    ensures p in ps && p.stream == k
  {
    if ps[0].stream != k || p != ps[0] {
      OfStreamMember(ps[1..], k, p);
    }
  }

  /** Every byte of every stream is carried by some scheduled packet. */
  lemma ScheduleCovers(c: Config, k: nat, x: nat) returns (p: Packet)
    requires c.Valid() && k < |c.targets| && x < c.targets[k]
    ensures p in Schedule(c) && p.stream == k && p.offset <= x < p.offset + p.len
  {
    p := TilesCover(c, k, 0, x);
    StreamOfRest(c, 0, 0, k);
    OfStreamMember(Schedule(c), k, p);
  }

  lemma FrameIsCut(c: Config, p: Packet)
    requires Scheduled(c, p)
    ensures Reassembly.CutFrom(Body(c.targets[p.stream]), FrameOf(p))
  {
  }

  // ----- One receive stream of the transfer -----

  /** The stream holds bytes of its body only; it knows its final size once it has the last byte, and never if it is empty. */
  ghost predicate Good(c: Config, limit: nat, k: nat, s: RecvStream.Recv)
    requires k < |c.targets|
  {
    && RecvStream.WellFormed(s)
    && s.streamId == StreamId(k) && s.limit == limit
    && Reassembly.Faithful(s, Body(c.targets[k]))
    && (c.targets[k] > 0 && Reassembly.Has(s, c.targets[k] - 1) ==> s.finalSize.Some?)
    && (c.targets[k] == 0 ==> s.finalSize.None?)
  }

  lemma GoodInitially(c: Config, limit: nat, k: nat)
    requires k < |c.targets|
    ensures Good(c, limit, k, RecvStream.Initial(StreamId(k), limit))
  {
  }

  /** A scheduled packet is never refused, whatever arrived before. */
  lemma ArrivalIsAccepted(c: Config, limit: nat, s: RecvStream.Recv, p: Packet)
    requires Scheduled(c, p) && Good(c, limit, p.stream, s)
    requires c.targets[p.stream] <= limit && c.targets[p.stream] <= MAX_U64
    ensures RecvStream.Refusal(s, FrameOf(p)).None?
    ensures Reassembly.Faithful(RecvStream.Accept(s, FrameOf(p)), Body(c.targets[p.stream]))
  {
    FrameIsCut(c, p);
    Reassembly.DeliverKeepsFaithful(s, Body(c.targets[p.stream]), FrameOf(p));
  }

  lemma ArrivalKeepsGood(c: Config, limit: nat, s: RecvStream.Recv, p: Packet)
    requires Scheduled(c, p) && Good(c, limit, p.stream, s)
    requires RecvStream.Refusal(s, FrameOf(p)).None?
    requires Reassembly.Faithful(RecvStream.Accept(s, FrameOf(p)), Body(c.targets[p.stream]))
    ensures Good(c, limit, p.stream, RecvStream.Accept(s, FrameOf(p)))
  {
    RecvStream.AcceptKeepsWellFormed(s, FrameOf(p));
    LastByteBringsFin(c, limit, s, p);
    FinIffClosed(s, p);
  }

  /** Only the packet with FIN carries a stream's last byte. */
  lemma LastByteBringsFin(c: Config, limit: nat, s: RecvStream.Recv, p: Packet)
    requires Scheduled(c, p) && Good(c, limit, p.stream, s)
    ensures Reassembly.Has(RecvStream.Accept(s, FrameOf(p)), c.targets[p.stream] - 1) ==> s.finalSize.Some? || p.fin
  {
    var last := c.targets[p.stream] - 1;
    Reassembly.AcceptHas(s, FrameOf(p), last);
    assert Reassembly.Covers(FrameOf(p), last) <==> p.fin;
  }

  lemma FinIffClosed(s: RecvStream.Recv, p: Packet)
    ensures var t := RecvStream.Accept(s, FrameOf(p));
      && t.streamId == s.streamId && t.limit == s.limit
      && (t.finalSize.Some? <==> s.finalSize.Some? || p.fin)
  {
  }

  function Drained(s: RecvStream.Recv): RecvStream.Recv
    requires RecvStream.WellFormed(s)
  {
    RecvStream.Consume(s, RecvStream.Contiguous(s) - s.read).0
  }

  lemma DrainKeepsGood(c: Config, limit: nat, k: nat, s: RecvStream.Recv)
    requires k < |c.targets| && Good(c, limit, k, s)
    ensures Good(c, limit, k, Drained(s))
    ensures Drained(s).read == RecvStream.Contiguous(Drained(s)) == RecvStream.Contiguous(s)
    ensures Reassembly.SameBytes(s, Drained(s))
  {
    DrainReadsEverything(s);
    var len := RecvStream.Contiguous(s) - s.read;
    Reassembly.ReadKeepsBytes(s, len, Drained(s));
    Reassembly.ReadKeepsFaithful(s, Body(c.targets[k]), len);
    GoodCarriesOver(c, limit, k, s, Drained(s));
  }

  lemma GoodCarriesOver(c: Config, limit: nat, k: nat, s: RecvStream.Recv, t: RecvStream.Recv)
    requires k < |c.targets| && Good(c, limit, k, s)
    requires RecvStream.WellFormed(t) && Reassembly.Faithful(t, Body(c.targets[k])) && Reassembly.SameBytes(s, t)
    requires t.streamId == s.streamId && t.limit == s.limit && t.finalSize == s.finalSize
    ensures Good(c, limit, k, t)
  {
  }

  lemma DrainReadsEverything(s: RecvStream.Recv)
    requires RecvStream.WellFormed(s)
    ensures var t := Drained(s);
      && RecvStream.WellFormed(t)
      && t.streamId == s.streamId && t.limit == s.limit && t.finalSize == s.finalSize
      && t.read == RecvStream.Contiguous(t) == RecvStream.Contiguous(s)
  {
    var len := RecvStream.Contiguous(s) - s.read;
    RecvStream.ConsumeKeepsWellFormed(s, len);
    if len > 0 {
      var u := RecvStream.Advance(s, len);
      assert Drained(s) == RecvStream.Compact(u);
    }
  }

  /** Having read every byte implies having received FIN. */
  lemma FullyReadIsComplete(c: Config, limit: nat, k: nat, s: RecvStream.Recv)
    requires k < |c.targets| && c.targets[k] > 0 && Good(c, limit, k, s)
    requires s.read == c.targets[k]
    ensures RecvStream.Complete(s)
  {
    Reassembly.ContiguousIsFirstGap(s);
  }

  /** An empty stream is never closed: no packet, hence no FIN, is sent on it. */
  lemma EmptyStaysIncomplete(c: Config, limit: nat, k: nat, s: RecvStream.Recv)
    requires k < |c.targets| && c.targets[k] == 0 && Good(c, limit, k, s)
    ensures !RecvStream.Complete(s)
  {
  }

  // ----- The server loop -----

  datatype Arrival = Nothing | Arrives(packet: Packet)

  datatype ServerResult = Finished(received: nat) | Waiting(received: nat) | IncompleteStream | FrameRefused

  function Reads(ss: seq<RecvStream.Recv>): (r: seq<nat>)
    ensures |r| == |ss| && forall i :: 0 <= i < |ss| ==> r[i] == ss[i].read
  {
    seq(|ss|, i requires 0 <= i < |ss| => ss[i].read)
  }

  ghost predicate AllGood(c: Config, limit: nat, ss: seq<RecvStream.Recv>) {
    && |ss| == |c.targets|
    && forall k :: 0 <= k < |ss| ==> Good(c, limit, k, ss[k])
  }

  /** Release every contiguous byte of every stream and count it. */
  method DrainReceivedStreams(ghost c: Config, ghost limit: nat, ss: seq<RecvStream.Recv>, received: nat)
    returns (ss': seq<RecvStream.Recv>, received': nat)
    requires AllGood(c, limit, ss) && received == Sum(Reads(ss))
    ensures AllGood(c, limit, ss') && received' == Sum(Reads(ss'))
    ensures forall k :: 0 <= k < |ss| ==> ss'[k] == Drained(ss[k])
  {
    ss', received' := ss, received;
    for streamIndex := 0 to |ss|
      invariant AllGood(c, limit, ss') && received' == Sum(Reads(ss'))
      invariant forall k :: 0 <= k < streamIndex ==> ss'[k] == Drained(ss[k])
      invariant forall k :: streamIndex <= k < |ss| ==> ss'[k] == ss[k]
    {
      var s := ss'[streamIndex];
      var available := RecvStream.Contiguous(s) - s.read;
      DrainKeepsGood(c, limit, streamIndex, s);
      received' := CountDrained(ss', streamIndex, Drained(s), received', available);
      ss' := ss'[streamIndex := Drained(s)];
    }
  }

  method CountDrained(ss: seq<RecvStream.Recv>, i: nat, t: RecvStream.Recv, received: nat, available: nat) returns (received': nat)
    requires i < |ss| && t.read == ss[i].read + available && received == Sum(Reads(ss))
    ensures received' == Sum(Reads(ss[i := t]))
  {
    assert Reads(ss[i := t]) == Reads(ss)[i := t.read];
    SumUpdate(Reads(ss), i, t.read);
    received' := received + available;
  }

  /** The bytes of packet `p` are in its stream. */
  ghost predicate Holds(ss: seq<RecvStream.Recv>, p: Packet) {
    && p.stream < |ss|
    && forall x: nat :: p.offset <= x < p.offset + p.len ==> Reassembly.Has(ss[p.stream], x)
  }

  ghost predicate AllDrained(ss: seq<RecvStream.Recv>) {
    forall k :: 0 <= k < |ss| ==> ss[k].read == RecvStream.Contiguous(ss[k])
  }

  ghost predicate Grows(ss: seq<RecvStream.Recv>, ss': seq<RecvStream.Recv>) {
    && |ss'| == |ss|
    && forall k, x: nat {:trigger Reassembly.Has(ss[k], x)} {:trigger Reassembly.Has(ss'[k], x)} ::
      0 <= k < |ss| && Reassembly.Has(ss[k], x) ==> Reassembly.Has(ss'[k], x)
  }

  /** The stream a frame belongs to, by its id; the number of streams if there is none. */
  method FindStream(ss: seq<RecvStream.Recv>, id: nat) returns (k: nat)
    ensures k <= |ss| && (k < |ss| ==> ss[k].streamId == id)
    ensures forall j :: 0 <= j < k ==> ss[j].streamId != id
  {
    k := 0;
    while k < |ss| && ss[k].streamId != id
      invariant k <= |ss| && forall j :: 0 <= j < k ==> ss[j].streamId != id
    {
      k := k + 1;
    }
  }

  /** A packet's frame finds the stream the packet was scheduled on. */
  lemma RoutedRight(c: Config, limit: nat, ss: seq<RecvStream.Recv>, p: Packet, k: nat)
    requires AllGood(c, limit, ss) && p.stream < |ss| && k <= |ss|
    requires k < |ss| ==> ss[k].streamId == FrameOf(p).streamId
    requires forall j :: 0 <= j < k ==> ss[j].streamId != FrameOf(p).streamId
    ensures k == p.stream
  {
    assert Good(c, limit, p.stream, ss[p.stream]);
    if k < |ss| {
      assert Good(c, limit, k, ss[k]);
    }
  }

  /** One packet: insert its frame, then drain every stream. */
  method Receive(ghost c: Config, ghost limit: nat, ss: seq<RecvStream.Recv>, received: nat, p: Packet)
    returns (ss': seq<RecvStream.Recv>, received': nat, refused: bool)
    requires AllGood(c, limit, ss) && received == Sum(Reads(ss))
    requires Scheduled(c, p) && c.targets[p.stream] <= limit && c.targets[p.stream] <= MAX_U64
    ensures !refused
    ensures AllGood(c, limit, ss') && received' == Sum(Reads(ss')) && AllDrained(ss')
    ensures Grows(ss, ss') && Holds(ss', p)
  {
    var f := FrameOf(p);
    var k := FindStream(ss, f.streamId);
    RoutedRight(c, limit, ss, p, k);
    ArrivalIsAccepted(c, limit, ss[k], p);
    ArrivalKeepsGood(c, limit, ss[k], p);
    var mid := ss[k := RecvStream.Accept(ss[k], f)];
    assert Reads(mid) == Reads(ss);
    ss', received' := DrainReceivedStreams(c, limit, mid, received);
    AcceptedGrows(ss, mid, p);
    DrainedGrows(c, limit, mid, ss', p);
    refused := false;
  }

  lemma AcceptedGrows(ss: seq<RecvStream.Recv>, mid: seq<RecvStream.Recv>, p: Packet)
    requires p.stream < |ss| && RecvStream.WellFormed(ss[p.stream])
    requires RecvStream.Refusal(ss[p.stream], FrameOf(p)).None?
    requires mid == ss[p.stream := RecvStream.Accept(ss[p.stream], FrameOf(p))]
    ensures Grows(ss, mid) && Holds(mid, p)
  {
    forall x: nat ensures Reassembly.Has(mid[p.stream], x) <==> Reassembly.Has(ss[p.stream], x) || Reassembly.Covers(FrameOf(p), x) {
      Reassembly.AcceptHas(ss[p.stream], FrameOf(p), x);
    }
  }

  lemma DrainedGrows(c: Config, limit: nat, mid: seq<RecvStream.Recv>, ss': seq<RecvStream.Recv>, p: Packet)
    requires AllGood(c, limit, mid) && |ss'| == |mid| && forall k :: 0 <= k < |mid| ==> ss'[k] == Drained(mid[k])
    ensures Grows(mid, ss') && AllDrained(ss') && (Holds(mid, p) ==> Holds(ss', p))
  {
    forall k, x: nat | 0 <= k < |mid| ensures Reassembly.Has(ss'[k], x) <==> Reassembly.Has(mid[k], x) {
      DrainKeepsGood(c, limit, k, mid[k]);
    }
    forall k | 0 <= k < |ss'| ensures ss'[k].read == RecvStream.Contiguous(ss'[k]) {
      DrainKeepsGood(c, limit, k, mid[k]);
    }
  }

  /**
   The server loop and its completion check.  No frame is refused; a finished transfer has
   the total; and once every packet has arrived the server finishes if there are at least
   as many bytes as streams, and reports an incomplete stream if there are fewer.
   */
  method ServeTransfer(total: nat, streams: nat, payload: nat, limit: nat, arrivals: seq<Arrival>) returns (result: ServerResult)
    requires streams > 0 && payload > 0 && total <= limit && total <= MAX_U64
    requires forall a :: a in arrivals && a.Arrives? ==> a.packet in Schedule(Split(total, streams, payload))
    ensures result != FrameRefused
    ensures result.Finished? ==> result.received == total && streams <= total
    ensures result == IncompleteStream ==> streams > total
    ensures AllArrive(Split(total, streams, payload), arrivals) ==>
      result == if streams <= total then Finished(total) else IncompleteStream
  {
    var c := Split(total, streams, payload);
    var finished, refused, ss, received := ReceiveAll(c, total, limit, arrivals);
    if refused { return FrameRefused; }
    if !finished { return Waiting(received); }
    ReadsAreTargets(c, limit, ss);
    var complete := AllStreamsComplete(c, limit, ss);
    SharesDecide(total, streams, payload);
    if !complete { return IncompleteStream; }
    result := Finished(received);
  }

  ghost predicate AllArrive(c: Config, arrivals: seq<Arrival>)
    requires c.Valid()
  {
    forall p :: p in Schedule(c) ==> Arrives(p) in arrivals
  }

  /** The receive loop: it ends short of the total only if some packet never arrives. */
  method ReceiveAll(c: Config, total: nat, limit: nat, arrivals: seq<Arrival>)
    returns (finished: bool, refused: bool, ss: seq<RecvStream.Recv>, received: nat)
    requires c.Valid() && Sum(c.targets) == total <= limit && total <= MAX_U64
    requires forall a :: a in arrivals && a.Arrives? ==> a.packet in Schedule(c)
    ensures !refused && AllGood(c, limit, ss) && received == Sum(Reads(ss))
    ensures finished ==> received >= total
    ensures AllArrive(c, arrivals) ==> finished
  {
    ss := seq(|c.targets|, i requires 0 <= i < |c.targets| => RecvStream.Initial(StreamId(i), limit));
    received, refused := 0, false;
    StartsGood(c, limit, ss);
    var step := 0;
    while received < total
      invariant 0 <= step <= |arrivals| && !refused
      invariant AllGood(c, limit, ss) && received == Sum(Reads(ss)) && AllDrained(ss)
      invariant forall i :: 0 <= i < step && arrivals[i].Arrives? ==> Holds(ss, arrivals[i].packet)
      decreases |arrivals| - step
    {
      if step == |arrivals| {
        NothingLeftToWaitFor(c, limit, ss, arrivals);
        finished := false;
        return;
      }
      var arrival := arrivals[step];
      step := step + 1;
      if arrival.Nothing? { continue; }
      RestIsScheduled(c, 0, 0, arrival.packet);
      SumHasElement(c.targets, arrival.packet.stream);
      ghost var before := ss;
      ss, received, refused := Receive(c, limit, ss, received, arrival.packet);
      HoldsGrows(before, ss, arrivals, step - 1);
    }
    finished := true;
  }

  /** The completion check, over fully read streams. */
  method AllStreamsComplete(ghost c: Config, ghost limit: nat, ss: seq<RecvStream.Recv>) returns (complete: bool)
    requires AllGood(c, limit, ss) && forall k :: 0 <= k < |ss| ==> ss[k].read == c.targets[k]
    ensures complete <==> forall k :: 0 <= k < |c.targets| ==> c.targets[k] > 0
  {
    for streamIndex := 0 to |ss|
      invariant forall k :: 0 <= k < streamIndex ==> c.targets[k] > 0
    {
      if c.targets[streamIndex] > 0 {
        FullyReadIsComplete(c, limit, streamIndex, ss[streamIndex]);
      } else {
        EmptyStaysIncomplete(c, limit, streamIndex, ss[streamIndex]);
      }
      if !RecvStream.Complete(ss[streamIndex]) { return false; }
    }
    return true;
  }

  lemma SharesDecide(total: nat, streams: nat, payload: nat)
    requires streams > 0 && payload > 0
    ensures (forall k :: 0 <= k < streams ==> Split(total, streams, payload).targets[k] > 0) <==> streams <= total
  {
    if streams <= total {
      forall k | 0 <= k < streams ensures Split(total, streams, payload).targets[k] > 0 {
        SharesArePositive(total, streams, k);
      }
    } else {
      LastShareIsEmpty(total, streams);
      assert Split(total, streams, payload).targets[streams - 1] == 0;
    }
  }

  lemma StartsGood(c: Config, limit: nat, ss: seq<RecvStream.Recv>)
    requires |ss| == |c.targets| && forall k :: 0 <= k < |ss| ==> ss[k] == RecvStream.Initial(StreamId(k), limit)
    ensures AllGood(c, limit, ss) && AllDrained(ss) && Sum(Reads(ss)) == 0
  {
    forall k | 0 <= k < |ss| ensures Good(c, limit, k, ss[k]) {
      GoodInitially(c, limit, k);
    }
    SumConstant(Reads(ss), 0);
  }

  lemma HoldsGrows(ss: seq<RecvStream.Recv>, ss': seq<RecvStream.Recv>, arrivals: seq<Arrival>, n: nat)
    requires n <= |arrivals| && Grows(ss, ss')
    requires forall i :: 0 <= i < n && arrivals[i].Arrives? ==> Holds(ss, arrivals[i].packet)
    ensures forall i :: 0 <= i < n && arrivals[i].Arrives? ==> Holds(ss', arrivals[i].packet)
  {
  }

  /** All bytes drained in total means all bytes drained on every stream. */
  lemma ReadsAreTargets(c: Config, limit: nat, ss: seq<RecvStream.Recv>)
    requires AllGood(c, limit, ss) && Sum(Reads(ss)) >= Sum(c.targets)
    ensures Reads(ss) == c.targets && Sum(Reads(ss)) == Sum(c.targets)
    ensures forall k :: 0 <= k < |ss| ==> ss[k].read == c.targets[k]
  {
    forall k | 0 <= k < |ss| ensures ss[k].read <= c.targets[k] {
      Reassembly.AvailableIsWindow(ss[k], Body(c.targets[k]));
    }
    SumBounded(Reads(ss), c.targets);
    assert forall k :: 0 <= k < |ss| ==> Reads(ss)[k] == ss[k].read;
  }

  /** Once every scheduled packet has arrived, every byte has been drained. */
  lemma NothingLeftToWaitFor(c: Config, limit: nat, ss: seq<RecvStream.Recv>, arrivals: seq<Arrival>)
    requires c.Valid() && AllGood(c, limit, ss) && AllDrained(ss)
    requires forall i :: 0 <= i < |arrivals| && arrivals[i].Arrives? ==> Holds(ss, arrivals[i].packet)
    ensures AllArrive(c, arrivals) ==> Sum(Reads(ss)) == Sum(c.targets)
  {
    if AllArrive(c, arrivals) {
      forall k | 0 <= k < |ss| ensures ss[k].read >= c.targets[k] {
        forall x: nat | x < c.targets[k] ensures Reassembly.Has(ss[k], x) {
          var p := ScheduleCovers(c, k, x);
          assert Arrives(p) in arrivals;
          assert Holds(ss, p);
        }
        Reassembly.ContiguousIsFirstGap(ss[k]);
      }
      SumBounded(c.targets, Reads(ss));
      ReadsAreTargets(c, limit, ss);
    }
  }

  /**
   The whole upload.  `script` drives the sender's transport; `picks` is the network:
   it names, in arrival order and with any repetition, which sent packets arrive.
   No frame is ever refused and a finished transfer has exactly the bytes requested.  A
   complete send of which every packet eventually arrives finishes if and only if there
   are at least as many bytes as streams, which is what the program's arguments must
   satisfy; otherwise the server reports an incomplete stream.
   */
  method Upload(total: nat, streams: nat, payload: nat, batch: nat, limit: nat, script: seq<Outcome>, picks: seq<nat>)
    returns (sent: SendResult, wire: seq<Packet>, served: ServerResult)
    requires streams > 0 && payload > 0 && batch > 0 && total <= limit && total <= MAX_U64
    ensures (sent, wire) == SendRun(Schedule(Split(total, streams, payload)), batch, script)
    ensures served != FrameRefused
    ensures served.Finished? ==> served.received == total && streams <= total
    ensures served == IncompleteStream ==> streams > total
    ensures sent == Done && (forall i :: 0 <= i < |wire| ==> i in picks) ==>
      served == if streams <= total then Finished(total) else IncompleteStream
  {
    sent, wire := SendTransfer(total, streams, payload, batch, script);
    var arrivals := seq(|picks|, j requires 0 <= j < |picks| =>
      if picks[j] < |wire| then Arrives(wire[picks[j]]) else Nothing);
    ghost var schedule := Schedule(Split(total, streams, payload));
    assert forall p :: p in wire ==> p in schedule;
    if sent == Done && forall i :: 0 <= i < |wire| ==> i in picks {
      EveryPacketArrives(wire, picks, arrivals);
    }
    served := ServeTransfer(total, streams, payload, limit, arrivals);
  }

  lemma EveryPacketArrives(wire: seq<Packet>, picks: seq<nat>, arrivals: seq<Arrival>)
    requires |arrivals| == |picks|
    requires forall j :: 0 <= j < |picks| ==> arrivals[j] == if picks[j] < |wire| then Arrives(wire[picks[j]]) else Nothing
    requires forall i :: 0 <= i < |wire| ==> i in picks
    ensures forall p :: p in wire ==> Arrives(p) in arrivals
  {
    forall p | p in wire ensures Arrives(p) in arrivals {
      var i :| 0 <= i < |wire| && wire[i] == p;
      assert i in picks;
      var j :| 0 <= j < |picks| && picks[j] == i;
      assert arrivals[j] == Arrives(p);
    }
  }
}
