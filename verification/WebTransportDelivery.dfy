/**
 The server of the WebTransport stream benchmark at the end of a whole delivery
 (examples/bench_webtransport_stream.zig): every stream brings its bytes in pieces
 of any size and is closed by FIN or reset, the streams interleaving freely.
 */
module WebTransportDelivery {
  import opened Base
  import opened Partition
  import opened WebTransport

  // ----- Totals, stream by stream -----

  function DataBytes(e: Event): nat {
    if e.Data? then e.bytes else 0
  }

  function IsReset(e: Event): nat {
    if e.Reset? then 1 else 0
  }

  function Identified(e: Event, id: nat): bool {
    !e.Stopped? && e.id == id
  }

  /** The weight of the events of one stream. */
  function WeightOn(events: seq<Event>, weigh: Event -> nat, id: nat): nat {
    if events == [] then 0
    else
      var n := |events| - 1;
      WeightOn(events[..n], weigh, id) + (if Identified(events[n], id) then weigh(events[n]) else 0)
  }

  function WeightPerStream(events: seq<Event>, weigh: Event -> nat, streams: nat): (r: seq<nat>)
    ensures |r| == streams && forall i :: 0 <= i < streams ==> r[i] == WeightOn(events, weigh, StreamId(i))
  {
    seq(streams, i requires 0 <= i < streams => WeightOn(events, weigh, StreamId(i)))
  }

  /** Every event is about one of the streams. */
  ghost predicate OfTheStreams(streams: nat, events: seq<Event>) {
    forall n :: 0 <= n < |events| ==> exists i :: 0 <= i < streams && Identified(events[n], StreamId(i))
  }

  lemma WeightStep(events: seq<Event>, weigh: Event -> nat, streams: nat, i: nat)
    requires events != [] && i < streams && Identified(events[|events| - 1], StreamId(i))
    ensures var n := |events| - 1;
      Sum(WeightPerStream(events, weigh, streams)) == Sum(WeightPerStream(events[..n], weigh, streams)) + weigh(events[n])
  {
    var n := |events| - 1;
    var before := WeightPerStream(events[..n], weigh, streams);
    assert WeightPerStream(events, weigh, streams) == before[i := before[i] + weigh(events[n])];
    SumUpdate(before, i, before[i] + weigh(events[n]));
  }

  /** The totals the server keeps are the sums over its streams. */
  lemma {:induction false} TotalsByStream(events: seq<Event>, streams: nat)
    requires OfTheStreams(streams, events)
    ensures BytesReceived(events) == Sum(WeightPerStream(events, DataBytes, streams))
    ensures ResetsReceived(events) == Sum(WeightPerStream(events, IsReset, streams))
  {
    if events == [] {
      SumConstant(WeightPerStream(events, DataBytes, streams), 0);
      SumConstant(WeightPerStream(events, IsReset, streams), 0);
    } else {
      var n := |events| - 1;
      var i :| 0 <= i < streams && Identified(events[n], StreamId(i));
      TotalsByStream(events[..n], streams);
      WeightStep(events, DataBytes, streams, i);
      WeightStep(events, IsReset, streams, i);
    }
  }

  // ----- A whole delivery -----

  /** Stream `i` brings its bytes and is ended once, by a reset exactly if it is to be reset. */
  ghost predicate StreamDelivered(c: Config, events: seq<Event>, i: nat) {
    && WeightOn(events, DataBytes, StreamId(i)) == BytesOf(c, i)
    && Endings(events, StreamId(i)) == 1
    && WeightOn(events, IsReset, StreamId(i)) == if ShouldReset(c, i) then 1 else 0
  }

  ghost predicate NothingAfterEnd(events: seq<Event>) {
    forall n, m :: 0 <= n < m < |events| && Ends(events[n]) ==> !Identified(events[m], events[n].id)
  }

  ghost predicate Delivered(c: Config, events: seq<Event>) {
    && (forall n :: 0 <= n < |events| ==> WellFormed(events[n]))
    && OfTheStreams(c.streams, events) && NothingAfterEnd(events)
    && forall i :: 0 <= i < c.streams ==> StreamDelivered(c, events, i)
  }

  lemma {:induction false} SumOfFlags(flags: seq<bool>, counts: seq<nat>)
    requires |flags| == |counts| && forall i :: 0 <= i < |flags| ==> counts[i] == if flags[i] then 1 else 0
    ensures Sum(counts) == CountTrue(flags)
  {
    if flags != [] {
      var n := |flags| - 1;
      SumOfFlags(flags[..n], counts[..n]);
    }
  }

  /** A whole delivery carries exactly the bytes and resets the server expects. */
  lemma TotalsAreExpected(c: Config, events: seq<Event>)
    requires Delivered(c, events)
    ensures BytesReceived(events) == ExpectedReceivedBytes(c) && ResetsReceived(events) == ResetCount(c)
  {
    TotalsByStream(events, c.streams);
    ExpectedIsSum(c);
    forall i | 0 <= i < c.streams
      ensures WeightPerStream(events, DataBytes, c.streams)[i] == BytesOf(c, i)
      ensures WeightPerStream(events, IsReset, c.streams)[i] == if ShouldReset(c, i) then 1 else 0
    {
      assert StreamDelivered(c, events, i);
    }
    assert WeightPerStream(events, DataBytes, c.streams) == PerStream(c, c.streams);
    SumOfFlags(ResetFlags(c, c.streams), WeightPerStream(events, IsReset, c.streams));
  }

  lemma {:induction false} EndingsPrefix(events: seq<Event>, n: nat, id: nat)
    requires n <= |events|
    ensures Endings(events[..n], id) <= Endings(events, id)
    decreases |events| - n
  {
    if n == |events| {
      assert events[..n] == events;
    } else {
      EndingsPrefix(events, n + 1, id);
      assert events[..n + 1][..n] == events[..n];
    }
  }

  lemma EndsOnce(events: seq<Event>, n: nat)
    requires n < |events| && Ends(events[n]) && Endings(events, events[n].id) == 1
    ensures Endings(events[..n], events[n].id) == 0
  {
    EndingsPrefix(events, n + 1, events[n].id);
    assert events[..n + 1][..n] == events[..n];
  }

  lemma DeliveryIsAcceptable(c: Config, events: seq<Event>, n: nat)
    requires Delivered(c, events) && n < |events|
    ensures Acceptable(c.streams, events[..n], events[n])
  {
    var e := events[n];
    var i :| 0 <= i < c.streams && Identified(e, StreamId(i));
    assert StreamDelivered(c, events, i) && WellFormed(e);
    if Ends(events[n]) {
      EndsOnce(events, n);
    }
  }

  lemma {:induction false} EndedSomewhere(events: seq<Event>, id: nat) returns (n: nat)
    requires Endings(events, id) > 0
    ensures n < |events| && Ends(events[n]) && events[n].id == id
  {
    n := |events| - 1;
    if !(Ends(events[n]) && events[n].id == id) {
      n := EndedSomewhere(events[..n], id);
    }
  }

  /** When every stream has ended, nothing is left to come. */
  lemma AllEndedIsAll(c: Config, events: seq<Event>, n: nat)
    requires Delivered(c, events) && n <= |events| && EachEndedOnce(c.streams, events[..n])
    ensures n == |events|
  {
    if n < |events| {
      var i :| 0 <= i < c.streams && Identified(events[n], StreamId(i));
      assert Endings(events[..n], StreamId(i)) == 1;
      var k := EndedSomewhere(events[..n], StreamId(i));
    }
  }

  lemma AllEnded(c: Config, events: seq<Event>)
    requires Delivered(c, events)
    ensures EachEndedOnce(c.streams, events)
  {
    forall i | 0 <= i < c.streams ensures Endings(events, StreamId(i)) == 1 {
      assert StreamDelivered(c, events, i);
    }
  }

  /** A whole delivery leaves the server no outcome but completion, after the last event. */
  lemma DeliveryCompletes(c: Config, events: seq<Event>, r: ServerOutcome)
    requires Delivered(c, events) && Served(c.streams, ExpectedReceivedBytes(c), ResetCount(c), events, r)
    ensures r == Complete(|events|)
  {
    AllEnded(c, events);
    TotalsAreExpected(c, events);
    assert events[..|events|] == events;
    match r {
      case Refused(at, _) => DeliveryIsAcceptable(c, events, at);
      case Waiting =>
      case _ =>
        AllEndedIsAll(c, events, r.events);
    }
  }

  /** The server with the totals its arguments announce. */
  method ServeBenchmark(c: Config, maxStreams: nat, events: seq<Event>) returns (r: ServerOutcome)
    requires c.streams <= maxStreams
    ensures Served(c.streams, ExpectedReceivedBytes(c), ResetCount(c), events, r)
    ensures Delivered(c, events) ==> r == Complete(|events|)
  {
    r := Serve(c.streams, maxStreams, ExpectedReceivedBytes(c), ResetCount(c), events);
    if Delivered(c, events) {
      DeliveryCompletes(c, events, r);
    }
  }
}
