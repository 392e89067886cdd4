/**
 The event-driven body receivers of the HTTP/3 benchmark
 (examples/bench_http3_handshake_transfer.zig, `receiveUploadBodies` and
 `receiveDownloadBodies`).

 The session's events are the input; a `data_available` event carries the number of
 bytes the program skips when it sees it.  A receiver that runs out of events waits.
 */
module Receivers {
  import opened Base
  import opened Partition

  datatype Content =
    | RequestHead(length: Option<nat>)
    | ResponseHead(status: nat, length: Option<nat>)
    | Data(skipped: nat)
    | Finished
    | PromiseOrTrailers

  datatype Event = Message(id: nat, content: Content) | Reset

  /** The program answers `InvalidFrame` both to a refused event and to wrong totals at the end. */
  datatype Outcome = Received(ids: seq<nat>) | Refused | WrongTotals | Waiting

  // ----- Upload: what one event does -----

  /** The streams seen so far, in order of their heads. */
  datatype Upload = Upload(ids: seq<nat>, expected: seq<nat>, read: seq<nat>, finished: seq<bool>)

  ghost predicate Aligned(u: Upload) {
    |u.ids| == |u.expected| == |u.read| == |u.finished|
  }

  /** `None` stands for a refusal. */
  function UploadStep(body: nat, streams: nat, u: Upload, e: Event): Option<Upload>
    requires |u.ids| == |u.expected| == |u.read| == |u.finished|
  {
    if e.Reset? then None
    else
      match e.content
      case RequestHead(Some(length)) =>
        if e.id in u.ids || |u.ids| == streams || Sum(u.expected) + length > body then None
        else Some(Upload(u.ids + [e.id], u.expected + [length], u.read + [0], u.finished + [false]))
      case Data(skipped) =>
        if e.id !in u.ids then None
        else
          var k := IndexOf(u.ids, e.id);
          if u.read[k] + skipped > u.expected[k] || Sum(u.read) + skipped > body then None
          else Some(u.(read := u.read[k := u.read[k] + skipped]))
      case Finished =>
        if e.id !in u.ids then None
        else
          var k := IndexOf(u.ids, e.id);
          if u.finished[k] || u.read[k] != u.expected[k] then None
          else Some(u.(finished := u.finished[k := true]))
      case _ => None
  }

  function Conclude(body: nat, streams: nat, u: Upload): Outcome {
    if |u.ids| != streams || Sum(u.expected) != body || Sum(u.read) != body then WrongTotals else Received(u.ids)
  }

  /** The receiver from state `u` on. */
  ghost function UploadRun(body: nat, streams: nat, u: Upload, events: seq<Event>): Outcome
    requires Aligned(u)
    decreases |events|
  {
    if CountTrue(u.finished) >= streams then Conclude(body, streams, u)
    else if events == [] then Waiting
    else
      match UploadStep(body, streams, u, events[0])
      case None => Refused
      case Some(u') => UploadRun(body, streams, u', events[1..])
  }

  function NoStreams(): Upload {
    Upload([], [], [], [])
  }

  // ----- Upload: what every event keeps -----

  ghost predicate UploadInv(body: nat, streams: nat, u: Upload) {
    && Aligned(u) && |u.ids| <= streams
    && AllDistinct(u.ids)
    && Sum(u.expected) <= body
    && (forall i :: 0 <= i < |u.ids| ==> u.read[i] <= u.expected[i])
    && (forall i :: 0 <= i < |u.ids| && u.finished[i] ==> u.read[i] == u.expected[i])
  }

  /** Bytes read never exceed bytes announced, so the check against the body size never triggers by itself. */
  lemma ReadWithinExpected(body: nat, streams: nat, u: Upload)
    requires UploadInv(body, streams, u)
    ensures Sum(u.read) <= Sum(u.expected) <= body
    ensures Sum(u.read) == Sum(u.expected) <==> u.read == u.expected
  {
    SumBounded(u.read, u.expected);
  }

  lemma UploadStepKeepsInv(body: nat, streams: nat, u: Upload, e: Event)
    requires UploadInv(body, streams, u) && UploadStep(body, streams, u, e).Some?
    ensures UploadInv(body, streams, UploadStep(body, streams, u, e).value)
    ensures var u' := UploadStep(body, streams, u, e).value;
      && |u.ids| <= |u'.ids| && u'.ids[..|u.ids|] == u.ids
      && forall i :: 0 <= i < |u.ids| && u.finished[i] ==> u'.finished[i] && u'.read[i] == u.read[i]
  {
    if e.content.RequestHead? {
      SumAppend(u.expected, e.content.length.value);
    }
  }

  /**
   When the receiver stops, every expected stream was seen and is full: the final test
   can fail only because the announced lengths do not add up to the body size.
   */
  lemma UploadExit(body: nat, streams: nat, u: Upload)
    requires UploadInv(body, streams, u) && CountTrue(u.finished) >= streams
    ensures |u.ids| == streams == CountTrue(u.finished) && u.read == u.expected
    ensures Conclude(body, streams, u) == if Sum(u.expected) == body then Received(u.ids) else WrongTotals
  {
    CountTrueIsAll(u.finished);
  }

  // ----- Upload: events alone -----

  /** What the receiver hears about one stream, in order. */
  function Heard(events: seq<Event>, id: nat): seq<Content> {
    if events == [] then []
    else (if events[0].Message? && events[0].id == id then [events[0].content] else []) + Heard(events[1..], id)
  }

  function DataSum(p: seq<Content>): nat {
    if p == [] then 0
    else DataSum(p[..|p| - 1]) + (if p[|p| - 1].Data? then p[|p| - 1].skipped else 0)
  }

  lemma {:induction false} HeardAppend(events: seq<Event>, e: Event, id: nat)
    ensures Heard(events + [e], id) == Heard(events, id) + (if e.Message? && e.id == id then [e.content] else [])
  {
    if events == [] {
      assert (events + [e])[1..] == [];
    } else {
      assert (events + [e])[1..] == events[1..] + [e];
      HeardAppend(events[1..], e, id);
    }
  }

  lemma DataSumAppend(p: seq<Content>, x: Content)
    ensures DataSum(p + [x]) == DataSum(p) + (if x.Data? then x.skipped else 0)
  {
    assert (p + [x])[..|p|] == p;
  }

  /** Streams announced, their lengths in total, bytes heard, stream ends heard. */
  datatype Totals = Totals(heads: nat, announced: nat, data: nat, endings: nat)

  function Plus(a: Totals, b: Totals): Totals {
    Totals(a.heads + b.heads, a.announced + b.announced, a.data + b.data, a.endings + b.endings)
  }

  function Weigh(e: Event): Totals {
    if e.Reset? then Totals(0, 0, 0, 0)
    else
      match e.content
      case RequestHead(Some(length)) => Totals(1, length, 0, 0)
      case Data(skipped) => Totals(0, 0, skipped, 0)
      case Finished => Totals(0, 0, 0, 1)
      case _ => Totals(0, 0, 0, 0)
  }

  function TotalsHeard(events: seq<Event>): Totals {
    if events == [] then Totals(0, 0, 0, 0) else Plus(TotalsHeard(events[..|events| - 1]), Weigh(events[|events| - 1]))
  }

  /** The same totals as the program keeps them. */
  ghost function TotalsKept(u: Upload): Totals {
    Totals(|u.ids|, Sum(u.expected), Sum(u.read), CountTrue(u.finished))
  }

  function LengthOf(p: seq<Content>): nat {
    if p != [] && p[0].RequestHead? && p[0].length.Some? then p[0].length.value else 0
  }

  /** A stream with its one head, exactly the announced bytes, and its end. */
  ghost predicate HeardInFull(p: seq<Content>) {
    p != [] && p[0] == RequestHead(Some(DataSum(p))) && Finished in p
  }

  /** Event `e` may follow `heard`. */
  predicate Acceptable(body: nat, streams: nat, heard: seq<Event>, e: Event) {
    e.Message? &&
    var p := Heard(heard, e.id);
    match e.content
    case RequestHead(Some(length)) => 
      p == [] && TotalsHeard(heard).heads < streams && TotalsHeard(heard).announced + length <= body
    case Data(skipped) => p != [] && DataSum(p) + skipped <= LengthOf(p)
    case Finished => p != [] && Finished !in p && DataSum(p) == LengthOf(p)
    case _ => false
  }

  ghost predicate AllAcceptable(body: nat, streams: nat, events: seq<Event>) {
    events != [] ==>
      var n := |events| - 1;
      AllAcceptable(body, streams, events[..n]) && Acceptable(body, streams, events[..n], events[n])
  }

  lemma AllAcceptableStep(body: nat, streams: nat, events: seq<Event>, n: nat)
    requires n < |events| && AllAcceptable(body, streams, events[..n]) && Acceptable(body, streams, events[..n], events[n])
    ensures AllAcceptable(body, streams, events[..n + 1])
    ensures events[..n + 1] == events[..n] + [events[n]]
  {
    assert events[..n + 1][..n] == events[..n];
  }

  /** The program's arrays are exactly what the events say. */
  ghost predicate Tracks(heard: seq<Event>, u: Upload) {
    && Aligned(u) && TotalsKept(u) == TotalsHeard(heard)
    && StreamsTracked(HeardIn(heard), u)
  }

  ghost function HeardIn(events: seq<Event>): nat -> seq<Content> {
    (id: nat) => Heard(events, id)
  }

  /** `h` gives what was heard about each stream. */
  ghost predicate StreamsTracked(h: nat -> seq<Content>, u: Upload)
    requires Aligned(u)
  {
    && (forall k :: 0 <= k < |u.ids| ==> StreamTracked(h(u.ids[k]), u.expected[k], u.read[k], u.finished[k]))
    && (forall id: nat :: id !in u.ids ==> h(id) == [])
  }

  ghost predicate StreamTracked(p: seq<Content>, expected: nat, read: nat, finished: bool) {
    p != [] && p[0] == RequestHead(Some(expected)) && read == DataSum(p) && (finished <==> Finished in p)
  }

  lemma TracksNothing()
    ensures Tracks([], NoStreams())
  {
  }

  lemma DataFits(body: nat, streams: nat, u: Upload, k: nat, skipped: nat)
    requires UploadInv(body, streams, u) && k < |u.ids| && u.read[k] + skipped <= u.expected[k]
    ensures Sum(u.read) + skipped <= body
  {
    var read := u.read[k := u.read[k] + skipped];
    SumUpdate(u.read, k, u.read[k] + skipped);
    SumBounded(read, u.expected);
  }

  /** The tests on the arrays are exactly acceptability. */
  lemma StepIsAcceptable(body: nat, streams: nat, heard: seq<Event>, u: Upload, e: Event)
    requires UploadInv(body, streams, u) && Tracks(heard, u)
    ensures UploadStep(body, streams, u, e).Some? <==> Acceptable(body, streams, heard, e)
  {
    if e.Message? {
      if e.id in u.ids {
        var k := IndexOf(u.ids, e.id);
        assert StreamTracked(Heard(heard, e.id), u.expected[k], u.read[k], u.finished[k]);
        if e.content.Data? && u.read[k] + e.content.skipped <= u.expected[k] {
          DataFits(body, streams, u, k, e.content.skipped);
        }
      } else {
        assert Heard(heard, e.id) == [];
      }
    }
  }

  /** One event on one stream. */
  lemma StreamTrackedStep(p: seq<Content>, x: Content, expected: nat, read: nat, finished: bool)
    requires StreamTracked(p, expected, read, finished)
    ensures x.Data? ==> StreamTracked(p + [x], expected, read + x.skipped, finished)
    ensures x == Finished ==> StreamTracked(p + [x], expected, read, true)
  {
    DataSumAppend(p, x);
  }

  lemma TotalsStep(heard: seq<Event>, e: Event)
    ensures TotalsHeard(heard + [e]) == Plus(TotalsHeard(heard), Weigh(e))
  {
    assert (heard + [e])[..|heard|] == heard;
  }

  lemma StreamsTrackedStep(
    body: nat, streams: nat, h: nat -> seq<Content>, h': nat -> seq<Content>, u: Upload, e: Event, u': Upload)
    requires Aligned(u) && Aligned(u') && AllDistinct(u.ids) && StreamsTracked(h, u)
    requires UploadStep(body, streams, u, e) == Some(u')
    requires forall id: nat :: h'(id) == if id == e.id then h(id) + [e.content] else h(id)
    ensures StreamsTracked(h', u')
  {
    if e.id in u.ids {
      var k := IndexOf(u.ids, e.id);
      StreamTrackedStep(h(e.id), e.content, u.expected[k], u.read[k], u.finished[k]);
      forall i | 0 <= i < |u'.ids| ensures StreamTracked(h'(u'.ids[i]), u'.expected[i], u'.read[i], u'.finished[i]) {
        assert i != k ==> u.ids[i] != e.id && StreamTracked(h(u.ids[i]), u.expected[i], u.read[i], u.finished[i]);
      }
    } else {
      FirstHeard(h(e.id), e.content);
      forall i | 0 <= i < |u'.ids| ensures StreamTracked(h'(u'.ids[i]), u'.expected[i], u'.read[i], u'.finished[i]) {
        assert i < |u.ids| ==> StreamTracked(h(u.ids[i]), u.expected[i], u.read[i], u.finished[i]);
      }
    }
  }

  lemma FirstHeard(p: seq<Content>, x: Content)
    requires p == [] && x.RequestHead? && x.length.Some?
    ensures StreamTracked(p + [x], x.length.value, 0, false)
  {
    DataSumAppend(p, x);
  }

  lemma TotalsOfStep(body: nat, streams: nat, u: Upload, e: Event, u': Upload)
    requires Aligned(u) && UploadStep(body, streams, u, e) == Some(u')
    ensures e.Message? && Aligned(u') && TotalsKept(u') == Plus(TotalsKept(u), Weigh(e))
  {
    match e.content {
      case RequestHead(length) =>
        SumAppend(u.expected, length.value);
        SumAppend(u.read, 0);
        CountTrueAppend(u.finished);
      case Data(skipped) =>
        var k := IndexOf(u.ids, e.id);
        SumUpdate(u.read, k, u.read[k] + skipped);
      case Finished =>
        CountTrueSet(u.finished, IndexOf(u.ids, e.id));
    }
  }

  lemma TracksStep(body: nat, streams: nat, heard: seq<Event>, u: Upload, e: Event, u': Upload)
    requires UploadInv(body, streams, u) && Tracks(heard, u) && UploadStep(body, streams, u, e) == Some(u')
    ensures Tracks(heard + [e], u')
  {
    TotalsOfStep(body, streams, u, e, u');
    TotalsStep(heard, e);
    HeardInStep(heard, e);
    StreamsTrackedStep(body, streams, HeardIn(heard), HeardIn(heard + [e]), u, e, u');
  }

  lemma HeardInStep(heard: seq<Event>, e: Event)
    requires e.Message?
    ensures forall id: nat :: HeardIn(heard + [e])(id) == if id == e.id then HeardIn(heard)(id) + [e.content] else HeardIn(heard)(id)
  {
    forall id: nat ensures Heard(heard + [e], id) == if id == e.id then Heard(heard, id) + [e.content] else Heard(heard, id) {
      HeardAppend(heard, e, id);
    }
  }

  lemma AllFull(heard: seq<Event>, u: Upload)
    requires Tracks(heard, u) && u.read == u.expected && CountTrue(u.finished) == |u.ids|
    ensures forall k :: 0 <= k < |u.ids| ==> HeardInFull(Heard(heard, u.ids[k]))
  {
    CountTrueIsAll(u.finished);
  }

  /** A run that is not refused in the end was not refused on the way. */
  lemma {:induction false} NotRefusedOnTheWay(body: nat, streams: nat, u: Upload, events: seq<Event>, n: nat)
    requires Aligned(u) && n <= |events| && UploadRun(body, streams, u, events) != Refused
    ensures UploadRun(body, streams, u, events[..n]) != Refused
    decreases |events|
  {
    if CountTrue(u.finished) < streams && n > 0 {
      var step := UploadStep(body, streams, u, events[0]);
      assert events[..n][1..] == events[1..][..n - 1];
      NotRefusedOnTheWay(body, streams, step.value, events[1..], n - 1);
    }
  }

  // ----- Upload: the program -----

  /** The program's arrays together with its running totals. */
  datatype UploadBooks = UploadBooks(u: Upload, finishedCount: nat, totalExpected: nat, totalRead: nat)

  ghost predicate UploadBalanced(b: UploadBooks) {
    && Aligned(b.u)
    && b.finishedCount == CountTrue(b.u.finished)
    && b.totalExpected == Sum(b.u.expected) && b.totalRead == Sum(b.u.read)
  }

  method OnRequestHead(body: nat, streams: nat, b: UploadBooks, id: nat, length: Option<nat>) returns (r: Option<UploadBooks>)
    requires UploadBalanced(b)
    ensures r.Some? <==> UploadStep(body, streams, b.u, Message(id, RequestHead(length))).Some?
    ensures r.Some? ==>
      UploadBalanced(r.value) && Some(r.value.u) == UploadStep(body, streams, b.u, Message(id, RequestHead(length)))
  {
    var known := FindIndex(b.u.ids, id);
    if known.Some? || |b.u.ids| == streams || length.None? { return None; }
    SumAppend(b.u.expected, length.value);
    SumAppend(b.u.read, 0);
    CountTrueAppend(b.u.finished);
    var total := b.totalExpected + length.value;
    if total > body { return None; }
    var u := Upload(b.u.ids + [id], b.u.expected + [length.value], b.u.read + [0], b.u.finished + [false]);
    r := Some(b.(u := u, totalExpected := total));
  }

  method OnUploadData(body: nat, streams: nat, b: UploadBooks, id: nat, skipped: nat) returns (r: Option<UploadBooks>)
    requires UploadBalanced(b)
    ensures r.Some? <==> UploadStep(body, streams, b.u, Message(id, Data(skipped))).Some?
    ensures r.Some? ==>
      UploadBalanced(r.value) && Some(r.value.u) == UploadStep(body, streams, b.u, Message(id, Data(skipped)))
  {
    var known := FindIndex(b.u.ids, id);
    if known.None? { return None; }
    var k := known.value;
    var now: nat := b.u.read[k] + skipped;
    SumUpdate(b.u.read, k, now);
    var total := b.totalRead + skipped;
    if now > b.u.expected[k] || total > body { return None; }
    r := Some(b.(u := b.u.(read := b.u.read[k := now]), totalRead := total));
  }

  method OnUploadFinished(body: nat, streams: nat, b: UploadBooks, id: nat) returns (r: Option<UploadBooks>)
    requires UploadBalanced(b)
    ensures r.Some? <==> UploadStep(body, streams, b.u, Message(id, Finished)).Some?
    ensures r.Some? ==> UploadBalanced(r.value) && Some(r.value.u) == UploadStep(body, streams, b.u, Message(id, Finished))
  {
    var known := FindIndex(b.u.ids, id);
    if known.None? { return None; }
    var k := known.value;
    if b.u.finished[k] || b.u.read[k] != b.u.expected[k] { return None; }
    CountTrueSet(b.u.finished, k);
    r := Some(b.(u := b.u.(finished := b.u.finished[k := true]), finishedCount := b.finishedCount + 1));
  }

  method OnUploadEvent(body: nat, streams: nat, b: UploadBooks, e: Event) returns (r: Option<UploadBooks>)
    requires UploadBalanced(b)
    ensures r.Some? <==> UploadStep(body, streams, b.u, e).Some?
    ensures r.Some? ==> UploadBalanced(r.value) && Some(r.value.u) == UploadStep(body, streams, b.u, e)
  {
    if e.Reset? { return None; }
    match e.content {
      case RequestHead(length) => r := OnRequestHead(body, streams, b, e.id, length);
      case Data(skipped) => r := OnUploadData(body, streams, b, e.id, skipped);
      case Finished => r := OnUploadFinished(body, streams, b, e.id);
      case _ => return None;
    }
  }

  /**
   What an outcome says about the first `used` events, without the program's books.  A
   refusal names the first event that is not acceptable.  Success means: the accepted
   events announce and carry exactly the body, over exactly `streams` distinct streams,
   each heard in full.  The totals at the end are wrong exactly when the announced
   lengths fall short of the body size.
   */
  ghost predicate Explained(body: nat, streams: nat, events: seq<Event>, used: nat, r: Outcome) {
    && used <= |events| && AllAcceptable(body, streams, events[..used])
    && match r
       case Refused =>
         && TotalsHeard(events[..used]).endings < streams
         && used < |events| && !Acceptable(body, streams, events[..used], events[used])
       case Waiting => used == |events| && TotalsHeard(events).endings < streams
       case WrongTotals =>
         && TotalsHeard(events[..used]).endings == streams && TotalsHeard(events[..used]).announced < body
       case Received(ids) =>
         && TotalsHeard(events[..used]) == Totals(streams, body, body, streams)
         && |ids| == streams && AllDistinct(ids)
         && forall k :: 0 <= k < |ids| ==> HeardInFull(Heard(events[..used], ids[k]))
  }

  /** `receiveUploadBodies`, for every sequence of events; `used` is how many it took. */
  method ReceiveUploadBodies(body: nat, streams: nat, events: seq<Event>) returns (r: Outcome, ghost used: nat)
    ensures r == UploadRun(body, streams, NoStreams(), events)
    ensures Explained(body, streams, events, used, r)
  {
    var b := UploadBooks(NoStreams(), 0, 0, 0);
    var next: nat := 0;
    used := 0;
    StartsReceiving(body, streams, events);
    while b.finishedCount < streams
      invariant next == used <= |events| && Receiving(body, streams, events[..next], b)
      invariant UploadRun(body, streams, NoStreams(), events) == UploadRun(body, streams, b.u, events[next..])
      decreases |events| - next
    {
      if next == |events| {
        WaitsExplained(body, streams, events, b);
        return Waiting, used;
      }
      assert events[next..][0] == events[next] && events[next..][1..] == events[next + 1..];
      var step := OnUploadEvent(body, streams, b, events[next]);
      if step.None? {
        RefusalExplained(body, streams, events, next, b);
        return Refused, used;
      }
      ReceivingStep(body, streams, events, next, b, step.value);
      RunStep(body, streams, b.u, events[next..], step.value.u);
      b := step.value;
      next := next + 1;
      used := used + 1;
    }
    StopExplained(body, streams, events, next, b);
    if |b.u.ids| != streams || b.totalExpected != body || b.totalRead != body { return WrongTotals, used; }
    r := Received(b.u.ids);
  }

  lemma WaitsExplained(body: nat, streams: nat, events: seq<Event>, b: UploadBooks)
    requires Receiving(body, streams, events[..|events|], b) && b.finishedCount < streams
    ensures Explained(body, streams, events, |events|, Waiting)
  {
    assert events[..|events|] == events;
  }

  lemma RefusalExplained(body: nat, streams: nat, events: seq<Event>, n: nat, b: UploadBooks)
    requires n < |events| && Receiving(body, streams, events[..n], b) && b.finishedCount < streams
    requires UploadStep(body, streams, b.u, events[n]).None?
    ensures Explained(body, streams, events, n, Refused)
  {
    StepIsAcceptable(body, streams, events[..n], b.u, events[n]);
  }

  /** At the exit every stream was seen and is full, and only the announced total can be wrong. */
  lemma StopExplained(body: nat, streams: nat, events: seq<Event>, n: nat, b: UploadBooks)
    requires n <= |events| && Receiving(body, streams, events[..n], b) && b.finishedCount >= streams
    ensures |b.u.ids| == streams && b.totalRead == b.totalExpected
    ensures Conclude(body, streams, b.u) == if b.totalExpected == body then Received(b.u.ids) else WrongTotals
    ensures Explained(body, streams, events, n, Conclude(body, streams, b.u))
  {
    UploadExit(body, streams, b.u);
    ReadWithinExpected(body, streams, b.u);
    AllFull(events[..n], b.u);
  }

  /** The program's state after accepting `heard`. */
  ghost predicate Receiving(body: nat, streams: nat, heard: seq<Event>, b: UploadBooks) {
    UploadBalanced(b) && UploadInv(body, streams, b.u) && Tracks(heard, b.u) && AllAcceptable(body, streams, heard)
  }

  lemma StartsReceiving(body: nat, streams: nat, events: seq<Event>)
    ensures Receiving(body, streams, events[..0], UploadBooks(NoStreams(), 0, 0, 0)) && events[0..] == events
  {
    TracksNothing();
  }

  lemma RunStep(body: nat, streams: nat, u: Upload, events: seq<Event>, u': Upload)
    requires Aligned(u) && Aligned(u') && events != [] && CountTrue(u.finished) < streams
    requires UploadStep(body, streams, u, events[0]) == Some(u')
    ensures UploadRun(body, streams, u, events) == UploadRun(body, streams, u', events[1..])
  {
  }

  lemma ReceivingStep(body: nat, streams: nat, events: seq<Event>, n: nat, b: UploadBooks, b': UploadBooks)
    requires n < |events| && Receiving(body, streams, events[..n], b) && UploadBalanced(b')
    requires UploadStep(body, streams, b.u, events[n]) == Some(b'.u)
    ensures Receiving(body, streams, events[..n + 1], b')
  {
    StepIsAcceptable(body, streams, events[..n], b.u, events[n]);
    UploadStepKeepsInv(body, streams, b.u, events[n]);
    TracksStep(body, streams, events[..n], b.u, events[n], b'.u);
    AllAcceptableStep(body, streams, events, n);
  }

  // ----- Download -----

  datatype Download = Download(read: seq<nat>, sawHead: seq<bool>, finished: seq<bool>)

  ghost predicate DownloadAligned(ids: seq<nat>, lens: seq<nat>, d: Download) {
    |d.read| == |d.sawHead| == |d.finished| == |ids| == |lens|
  }

  function DownloadStep(ids: seq<nat>, lens: seq<nat>, d: Download, e: Event): Option<Download>
    requires |d.read| == |d.sawHead| == |d.finished| == |ids| == |lens|
  {
    if e.Reset? || e.id !in ids then None
    else
      var k := IndexOf(ids, e.id);
      match e.content
      case ResponseHead(status, length) =>
        if status != 200 || length != Some(lens[k]) || d.sawHead[k] then None
        else Some(d.(sawHead := d.sawHead[k := true]))
      case Data(skipped) =>
        if !d.sawHead[k] || d.read[k] + skipped > lens[k] || Sum(d.read) + skipped > Sum(lens) then None
        else Some(d.(read := d.read[k := d.read[k] + skipped]))
      case Finished =>
        if !d.sawHead[k] || d.finished[k] || d.read[k] != lens[k] then None
        else Some(d.(finished := d.finished[k := true]))
      case _ => None
  }

  datatype DownloadOutcome = Downloaded(status: nat, bytes: nat) | DownloadInvalid | DownloadWaiting

  ghost function DownloadRun(ids: seq<nat>, lens: seq<nat>, d: Download, events: seq<Event>): DownloadOutcome
    requires DownloadAligned(ids, lens, d)
    decreases |events|
  {
    if CountTrue(d.finished) >= |ids| then
      if Sum(d.read) != Sum(lens) then DownloadInvalid else Downloaded(200 * CountTrue(d.sawHead), Sum(d.read))
    else if events == [] then DownloadWaiting
    else
      match DownloadStep(ids, lens, d, events[0])
      case None => DownloadInvalid
      case Some(d') => DownloadRun(ids, lens, d', events[1..])
  }

  ghost predicate DownloadInv(ids: seq<nat>, lens: seq<nat>, d: Download) {
    && DownloadAligned(ids, lens, d)
    && (forall i :: 0 <= i < |ids| ==> d.read[i] <= lens[i])
    && (forall i :: 0 <= i < |ids| && d.finished[i] ==> d.sawHead[i] && d.read[i] == lens[i])
  }

  /** At the end every stream had one head of status 200 and all its bytes. */
  lemma DownloadExit(ids: seq<nat>, lens: seq<nat>, d: Download)
    requires DownloadInv(ids, lens, d) && CountTrue(d.finished) >= |ids|
    ensures Sum(d.read) == Sum(lens) && CountTrue(d.sawHead) == |ids|
  {
    CountTrueIsAll(d.finished);
    CountTrueIsAll(d.sawHead);
    assert d.read == lens;
  }

  lemma DownloadStepKeepsInv(ids: seq<nat>, lens: seq<nat>, d: Download, e: Event)
    requires DownloadInv(ids, lens, d)
    ensures DownloadStep(ids, lens, d, e).Some? ==> DownloadInv(ids, lens, DownloadStep(ids, lens, d, e).value)
  {
  }

  // ----- Download: events alone -----

  /** Event `e` may follow `heard` while responses of lengths `lens` are awaited on `ids`. */
  predicate DownloadAcceptable(ids: seq<nat>, lens: seq<nat>, heard: seq<Event>, e: Event)
    requires |ids| == |lens|
  {
    e.Message? && e.id in ids &&
    var p, length := Heard(heard, e.id), lens[IndexOf(ids, e.id)];
    match e.content
    case ResponseHead(status, announced) => p == [] && status == 200 && announced == Some(length)
    case Data(skipped) => p != [] && DataSum(p) + skipped <= length
    case Finished => p != [] && Finished !in p && DataSum(p) == length
    case _ => false
  }

  ghost predicate ResponseTracked(p: seq<Content>, length: nat, sawHead: bool, read: nat, finished: bool) {
    && (sawHead <==> p != []) && (p != [] ==> p[0] == ResponseHead(200, Some(length)))
    && read == DataSum(p) && (finished <==> Finished in p)
  }

  /** Every id uses the entry of its first position; `h` gives what was heard about each stream. */
  ghost predicate ResponsesTracked(ids: seq<nat>, lens: seq<nat>, h: nat -> seq<Content>, d: Download)
    requires DownloadAligned(ids, lens, d)
  {
    && (forall k :: 0 <= k < |ids| && ids[k] !in ids[..k] ==>
          ResponseTracked(h(ids[k]), lens[k], d.sawHead[k], d.read[k], d.finished[k]))
    && (forall k :: 0 <= k < |ids| && d.finished[k] ==> ids[k] !in ids[..k])
  }

  /** The program's arrays are exactly what the events say. */
  ghost predicate DownloadTracks(ids: seq<nat>, lens: seq<nat>, heard: seq<Event>, d: Download) {
    && DownloadAligned(ids, lens, d)
    && Sum(d.read) == TotalsHeard(heard).data && CountTrue(d.finished) == TotalsHeard(heard).endings
    && ResponsesTracked(ids, lens, HeardIn(heard), d)
  }

  lemma DownloadDataFits(ids: seq<nat>, lens: seq<nat>, d: Download, k: nat, skipped: nat)
    requires DownloadInv(ids, lens, d) && k < |ids| && d.read[k] + skipped <= lens[k]
    ensures Sum(d.read) + skipped <= Sum(lens)
  {
    SumUpdate(d.read, k, d.read[k] + skipped);
    SumBounded(d.read[k := d.read[k] + skipped], lens);
  }

  /** The tests on the arrays are exactly acceptability. */
  lemma DownloadStepIsAcceptable(ids: seq<nat>, lens: seq<nat>, heard: seq<Event>, d: Download, e: Event)
    requires DownloadInv(ids, lens, d) && DownloadTracks(ids, lens, heard, d)
    ensures DownloadStep(ids, lens, d, e).Some? <==> DownloadAcceptable(ids, lens, heard, e)
  {
    if e.Message? && e.id in ids {
      var k := IndexOf(ids, e.id);
      assert ResponseTracked(HeardIn(heard)(ids[k]), lens[k], d.sawHead[k], d.read[k], d.finished[k]);
      if e.content.Data? && d.read[k] + e.content.skipped <= lens[k] {
        DownloadDataFits(ids, lens, d, k, e.content.skipped);
      }
    }
  }

  /** One event on one stream. */
  lemma ResponseTrackedStep(p: seq<Content>, x: Content, length: nat, sawHead: bool, read: nat, finished: bool)
    requires ResponseTracked(p, length, sawHead, read, finished)
    ensures x == ResponseHead(200, Some(length)) && p == [] ==> ResponseTracked(p + [x], length, true, read, finished)
    ensures x.Data? && p != [] ==> ResponseTracked(p + [x], length, sawHead, read + x.skipped, finished)
    ensures x == Finished && p != [] ==> ResponseTracked(p + [x], length, sawHead, read, true)
  {
    DataSumAppend(p, x);
  }

  lemma ResponsesTrackedStep(
    ids: seq<nat>, lens: seq<nat>, h: nat -> seq<Content>, h': nat -> seq<Content>, d: Download, e: Event, d': Download)
    requires DownloadAligned(ids, lens, d) && DownloadAligned(ids, lens, d') && ResponsesTracked(ids, lens, h, d)
    requires DownloadStep(ids, lens, d, e) == Some(d')
    requires forall id: nat :: h'(id) == if id == e.id then h(id) + [e.content] else h(id)
    ensures ResponsesTracked(ids, lens, h', d')
  {
    var k := IndexOf(ids, e.id);
    ResponseTrackedStep(h(e.id), e.content, lens[k], d.sawHead[k], d.read[k], d.finished[k]);
    forall i | 0 <= i < |ids| && ids[i] !in ids[..i]
      ensures ResponseTracked(h'(ids[i]), lens[i], d'.sawHead[i], d'.read[i], d'.finished[i])
    {
      if i != k {
        assert ids[i] != e.id by {
          assert i < k ==> ids[..k][i] == ids[i];
          assert k < i ==> ids[..i][k] == e.id;
        }
        assert ResponseTracked(h(ids[i]), lens[i], d.sawHead[i], d.read[i], d.finished[i]);
      }
    }
  }

  lemma DownloadTotalsStep(ids: seq<nat>, lens: seq<nat>, d: Download, e: Event, d': Download)
    requires DownloadAligned(ids, lens, d) && DownloadStep(ids, lens, d, e) == Some(d')
    ensures e.Message? && DownloadAligned(ids, lens, d') && Sum(d'.read) == Sum(d.read) + Weigh(e).data
    ensures CountTrue(d'.finished) == CountTrue(d.finished) + Weigh(e).endings
  {
    var k := IndexOf(ids, e.id);
    if e.content.Data? {
      SumUpdate(d.read, k, d.read[k] + e.content.skipped);
    } else if e.content.Finished? {
      CountTrueSet(d.finished, k);
    }
  }

  lemma DownloadTracksStep(ids: seq<nat>, lens: seq<nat>, heard: seq<Event>, d: Download, e: Event, d': Download)
    requires DownloadTracks(ids, lens, heard, d) && DownloadStep(ids, lens, d, e) == Some(d')
    ensures DownloadTracks(ids, lens, heard + [e], d')
  {
    DownloadTotalsStep(ids, lens, d, e, d');
    TotalsStep(heard, e);
    HeardInStep(heard, e);
    var h, h' := HeardIn(heard), HeardIn(heard + [e]);
    ResponsesTrackedStep(ids, lens, h, h', d, e, d');
  }

  /** A response whole: one head of status 200, exactly `length` bytes, and the end. */
  ghost predicate HeardResponse(p: seq<Content>, length: nat) {
    p != [] && p[0] == ResponseHead(200, Some(length)) && DataSum(p) == length && Finished in p
  }

  /** The streams are distinct and each was heard in full. */
  ghost predicate AllResponsesHeard(ids: seq<nat>, lens: seq<nat>, heard: seq<Event>)
    requires |ids| == |lens|
  {
    AllDistinct(ids) && forall k :: 0 <= k < |ids| ==> HeardResponse(Heard(heard, ids[k]), lens[k])
  }

  lemma DownloadAllFull(ids: seq<nat>, lens: seq<nat>, heard: seq<Event>, d: Download)
    requires DownloadInv(ids, lens, d) && DownloadTracks(ids, lens, heard, d) && CountTrue(d.finished) >= |ids|
    ensures AllResponsesHeard(ids, lens, heard)
  {
    CountTrueIsAll(d.finished);
    forall i, j | 0 <= i < j < |ids| ensures ids[i] != ids[j] {
      assert d.finished[j] && ids[..j][i] == ids[i];
    }
    forall k | 0 <= k < |ids| ensures HeardResponse(Heard(heard, ids[k]), lens[k]) {
      assert d.finished[k] && ResponseTracked(HeardIn(heard)(ids[k]), lens[k], d.sawHead[k], d.read[k], d.finished[k]);
    }
  }

  ghost predicate AllDownloadAcceptable(ids: seq<nat>, lens: seq<nat>, events: seq<Event>, n: nat)
    requires |ids| == |lens| && n <= |events|
  {
    forall i :: 0 <= i < n ==> DownloadAcceptable(ids, lens, events[..i], events[i])
  }

  /**
   What an outcome says about the first `used` events, without the program's books.  A
   refusal names the first event that is not acceptable; there is no other refusal.
   Success means that the streams are distinct and each was heard in full.
   */
  ghost predicate DownloadExplained(ids: seq<nat>, lens: seq<nat>, events: seq<Event>, used: nat, r: DownloadOutcome)
    requires |ids| == |lens|
  {
    && used <= |events| && AllDownloadAcceptable(ids, lens, events, used)
    && match r
       case DownloadInvalid =>
         && TotalsHeard(events[..used]).endings < |ids|
         && used < |events| && !DownloadAcceptable(ids, lens, events[..used], events[used])
       case DownloadWaiting => used == |events| && TotalsHeard(events).endings < |ids|
       case Downloaded(status, bytes) =>
         && status == 200 * |ids| && bytes == Sum(lens) == TotalsHeard(events[..used]).data
         && TotalsHeard(events[..used]).endings == |ids| && AllResponsesHeard(ids, lens, events[..used])
  }

  // ----- Download: every whole delivery completes -----

  /** A response as it arrives: the head, pieces of any size adding up to `length`, the end. */
  ghost predicate CarriesResponse(p: seq<Content>, length: nat) {
    && |p| >= 2 && p[0] == ResponseHead(200, Some(length)) && p[|p| - 1] == Finished
    && (forall j :: 1 <= j < |p| - 1 ==> p[j].Data?)
    && DataSum(p) == length
  }

  /** Every response arrives whole: ordered per stream, otherwise in any interleaving. */
  ghost predicate ResponsesDelivered(ids: seq<nat>, lens: seq<nat>, events: seq<Event>)
    requires |ids| == |lens|
  {
    && AllDistinct(ids)
    && (forall n :: 0 <= n < |events| ==> events[n].Message? && events[n].id in ids)
    && forall k :: 0 <= k < |ids| ==> CarriesResponse(Heard(events, ids[k]), lens[k])
  }

  /** What was heard before event `n` is a prefix of all that is heard, and event `n` comes next. */
  lemma {:induction false} HeardBefore(events: seq<Event>, n: nat, id: nat)
    requires n < |events| && events[n].Message? && events[n].id == id
    ensures var p, full := Heard(events[..n], id), Heard(events, id);
      |p| < |full| && p == full[..|p|] && full[|p|] == events[n].content
  {
    if n > 0 {
      HeardBefore(events[1..], n - 1, id);
      assert events[..n][1..] == events[1..][..n - 1];
    }
  }

  lemma {:induction false} DataSumPrefix(p: seq<Content>, n: nat)
    requires n <= |p|
    ensures DataSum(p[..n]) <= DataSum(p)
    decreases |p| - n
  {
    if n == |p| {
      assert p[..n] == p;
    } else {
      DataSumPrefix(p, n + 1);
      assert p[..n + 1][..n] == p[..n];
    }
  }

  /** At every point of a whole response the next thing heard is acceptable. */
  lemma ResponseContinues(full: seq<Content>, k: nat, length: nat)
    requires CarriesResponse(full, length) && k < |full|
    ensures k == 0 <==> full[k] == ResponseHead(200, Some(length))
    ensures k > 0 ==> full[k].Data? || full[k] == Finished
    ensures full[k].Data? ==> DataSum(full[..k]) + full[k].skipped <= length
    ensures full[k] == Finished ==> Finished !in full[..k] && DataSum(full[..k]) == length
  {
    DataSumPrefix(full, k + 1);
    assert full[..k + 1][..k] == full[..k];
    if k == |full| - 1 {
      assert full[..k + 1] == full;
    }
  }

  lemma DeliveryIsAcceptable(ids: seq<nat>, lens: seq<nat>, events: seq<Event>, n: nat)
    requires |ids| == |lens| && ResponsesDelivered(ids, lens, events) && n < |events|
    ensures DownloadAcceptable(ids, lens, events[..n], events[n])
  {
    var e := events[n];
    var p, k := Heard(events[..n], e.id), IndexOf(ids, e.id);
    HeardBefore(events, n, e.id);
    assert CarriesResponse(Heard(events, ids[k]), lens[k]);
    ResponseContinues(Heard(events, e.id), |p|, lens[k]);
  }

  /** As many ends are counted as there are streams whose end was heard. */
  lemma {:induction false} EndingsAtLeast(events: seq<Event>, ended: set<nat>)
    requires forall id :: id in ended ==> Finished in Heard(events, id)
    ensures TotalsHeard(events).endings >= |ended|
    decreases |events|
  {
    if events == [] {
      assert ended == {};
    } else {
      var n := |events| - 1;
      var e := events[n];
      assert events == events[..n] + [e];
      var before := if e.Message? && e.content == Finished then ended - {e.id} else ended;
      forall id | id in before ensures Finished in Heard(events[..n], id) {
        HeardAppend(events[..n], e, id);
      }
      EndingsAtLeast(events[..n], before);
    }
  }

  lemma EndOfDelivered(ids: seq<nat>, lens: seq<nat>, events: seq<Event>, id: nat)
    requires |ids| == |lens| && ResponsesDelivered(ids, lens, events) && id in ids
    ensures Finished in Heard(events, id)
  {
    var k := IndexOf(ids, id);
    assert CarriesResponse(Heard(events, ids[k]), lens[k]);
  }

  lemma DeliveryEndsAll(ids: seq<nat>, lens: seq<nat>, events: seq<Event>)
    requires |ids| == |lens| && ResponsesDelivered(ids, lens, events)
    ensures TotalsHeard(events).endings >= |ids|
  {
    var ended := Members(ids);
    DistinctMembers(ids);
    forall id | id in ended ensures Finished in Heard(events, id) {
      EndOfDelivered(ids, lens, events, id);
    }
    EndingsAtLeast(events, ended);
  }

  /** A whole delivery leaves the receiver no outcome but success. */
  lemma DeliveryCompletes(ids: seq<nat>, lens: seq<nat>, events: seq<Event>, used: nat, r: DownloadOutcome)
    requires |ids| == |lens| && ResponsesDelivered(ids, lens, events) && DownloadExplained(ids, lens, events, used, r)
    ensures r == Downloaded(200 * |ids|, Sum(lens))
  {
    DeliveryEndsAll(ids, lens, events);
    if used < |events| {
      DeliveryIsAcceptable(ids, lens, events, used);
    }
  }

  // ----- Download: the program -----

  datatype DownloadBooks = DownloadBooks(d: Download, statusTotal: nat, totalRead: nat, finishedCount: nat)

  ghost predicate DownloadBalanced(ids: seq<nat>, lens: seq<nat>, b: DownloadBooks) {
    && DownloadInv(ids, lens, b.d)
    && b.finishedCount == CountTrue(b.d.finished) && b.totalRead == Sum(b.d.read)
    && b.statusTotal == 200 * CountTrue(b.d.sawHead)
  }

  method OnResponseHead(ids: seq<nat>, lens: seq<nat>, b: DownloadBooks, e: Event, k: nat) returns (r: Option<DownloadBooks>)
    requires DownloadBalanced(ids, lens, b) && e.Message? && e.content.ResponseHead? && e.id in ids && k == IndexOf(ids, e.id)
    ensures r.Some? <==> DownloadStep(ids, lens, b.d, e).Some?
    ensures r.Some? ==> DownloadBalanced(ids, lens, r.value) && Some(r.value.d) == DownloadStep(ids, lens, b.d, e)
  {
    DownloadStepKeepsInv(ids, lens, b.d, e);
    if e.content.status != 200 || e.content.length != Some(lens[k]) || b.d.sawHead[k] { return None; }
    CountTrueSet(b.d.sawHead, k);
    r := Some(b.(d := b.d.(sawHead := b.d.sawHead[k := true]), statusTotal := b.statusTotal + e.content.status));
  }

  method OnDownloadData(ids: seq<nat>, lens: seq<nat>, body: nat, b: DownloadBooks, e: Event, k: nat) returns (r: Option<DownloadBooks>)
    requires DownloadBalanced(ids, lens, b) && e.Message? && e.content.Data? && e.id in ids && k == IndexOf(ids, e.id)
    requires body == Sum(lens)
    ensures r.Some? <==> DownloadStep(ids, lens, b.d, e).Some?
    ensures r.Some? ==> DownloadBalanced(ids, lens, r.value) && Some(r.value.d) == DownloadStep(ids, lens, b.d, e)
  {
    DownloadStepKeepsInv(ids, lens, b.d, e);
    var now: nat := b.d.read[k] + e.content.skipped;
    SumUpdate(b.d.read, k, now);
    var total := b.totalRead + e.content.skipped;
    if !b.d.sawHead[k] || now > lens[k] || total > body { return None; }
    r := Some(b.(d := b.d.(read := b.d.read[k := now]), totalRead := total));
  }

  method OnDownloadFinished(ids: seq<nat>, lens: seq<nat>, b: DownloadBooks, e: Event, k: nat) returns (r: Option<DownloadBooks>)
    requires DownloadBalanced(ids, lens, b) && e.Message? && e.content == Finished && e.id in ids && k == IndexOf(ids, e.id)
    ensures r.Some? <==> DownloadStep(ids, lens, b.d, e).Some?
    ensures r.Some? ==> DownloadBalanced(ids, lens, r.value) && Some(r.value.d) == DownloadStep(ids, lens, b.d, e)
  {
    DownloadStepKeepsInv(ids, lens, b.d, e);
    if !b.d.sawHead[k] || b.d.finished[k] || b.d.read[k] != lens[k] { return None; }
    CountTrueSet(b.d.finished, k);
    r := Some(b.(d := b.d.(finished := b.d.finished[k := true]), finishedCount := b.finishedCount + 1));
  }

  method OnDownloadEvent(ids: seq<nat>, lens: seq<nat>, body: nat, b: DownloadBooks, e: Event) returns (r: Option<DownloadBooks>)
    requires DownloadBalanced(ids, lens, b) && body == Sum(lens)
    ensures r.Some? <==> DownloadStep(ids, lens, b.d, e).Some?
    ensures r.Some? ==> DownloadBalanced(ids, lens, r.value) && Some(r.value.d) == DownloadStep(ids, lens, b.d, e)
  {
    if e.Reset? { return None; }
    var known := FindIndex(ids, e.id);
    if known.None? { return None; }
    match e.content {
      case ResponseHead(_, _) => r := OnResponseHead(ids, lens, b, e, known.value);
      case Data(_) => r := OnDownloadData(ids, lens, body, b, e, known.value);
      case Finished => r := OnDownloadFinished(ids, lens, b, e, known.value);
      case _ => return None;
    }
  }

  function NothingRead(n: nat): Download {
    Download(seq(n, _ => 0), seq(n, _ => false), seq(n, _ => false))
  }

  lemma NothingReadIsBalanced(ids: seq<nat>, lens: seq<nat>)
    requires |ids| == |lens|
    ensures DownloadBalanced(ids, lens, DownloadBooks(NothingRead(|ids|), 0, 0, 0))
  {
    NoneTrue(NothingRead(|ids|).sawHead);
    SumConstant(NothingRead(|ids|).read, 0);
  }

  /** The program's state after accepting the first `n` events. */
  ghost predicate Downloading(ids: seq<nat>, lens: seq<nat>, events: seq<Event>, n: nat, b: DownloadBooks) {
    && |ids| == |lens| && n <= |events| && DownloadBalanced(ids, lens, b)
    && DownloadTracks(ids, lens, events[..n], b.d) && AllDownloadAcceptable(ids, lens, events, n)
  }

  lemma StartsDownloading(ids: seq<nat>, lens: seq<nat>, events: seq<Event>)
    requires |ids| == |lens|
    ensures Downloading(ids, lens, events, 0, DownloadBooks(NothingRead(|ids|), 0, 0, 0)) && events[0..] == events
  {
    NothingReadIsBalanced(ids, lens);
  }

  lemma OneMoreAcceptable(ids: seq<nat>, lens: seq<nat>, events: seq<Event>, n: nat)
    requires |ids| == |lens| && n < |events| && AllDownloadAcceptable(ids, lens, events, n)
    requires DownloadAcceptable(ids, lens, events[..n], events[n])
    ensures AllDownloadAcceptable(ids, lens, events, n + 1) && events[..n + 1] == events[..n] + [events[n]]
  {
  }

  lemma DownloadingStep(ids: seq<nat>, lens: seq<nat>, events: seq<Event>, n: nat, b: DownloadBooks, b': DownloadBooks)
    requires n < |events| && Downloading(ids, lens, events, n, b) && DownloadBalanced(ids, lens, b')
    requires DownloadStep(ids, lens, b.d, events[n]) == Some(b'.d)
    ensures Downloading(ids, lens, events, n + 1, b')
  {
    DownloadStepIsAcceptable(ids, lens, events[..n], b.d, events[n]);
    DownloadTracksStep(ids, lens, events[..n], b.d, events[n], b'.d);
    OneMoreAcceptable(ids, lens, events, n);
  }

  lemma DownloadRefusalExplained(ids: seq<nat>, lens: seq<nat>, events: seq<Event>, n: nat, b: DownloadBooks)
    requires n < |events| && Downloading(ids, lens, events, n, b) && b.finishedCount < |ids|
    requires DownloadStep(ids, lens, b.d, events[n]).None?
    ensures DownloadExplained(ids, lens, events, n, DownloadInvalid)
  {
    DownloadStepIsAcceptable(ids, lens, events[..n], b.d, events[n]);
  }

  lemma DownloadStopExplained(ids: seq<nat>, lens: seq<nat>, events: seq<Event>, n: nat, b: DownloadBooks)
    requires Downloading(ids, lens, events, n, b) && b.finishedCount >= |ids|
    ensures b.totalRead == Sum(lens) && b.statusTotal == 200 * |ids|
    ensures DownloadExplained(ids, lens, events, n, Downloaded(200 * |ids|, Sum(lens)))
  {
    DownloadExit(ids, lens, b.d);
    DownloadAllFull(ids, lens, events[..n], b.d);
    CountTrueIsAll(b.d.finished);
  }

  lemma DownloadRunStep(ids: seq<nat>, lens: seq<nat>, d: Download, events: seq<Event>, d': Download)
    requires DownloadAligned(ids, lens, d) && DownloadAligned(ids, lens, d') && events != [] && CountTrue(d.finished) < |ids|
    requires DownloadStep(ids, lens, d, events[0]) == Some(d')
    ensures DownloadRun(ids, lens, d, events) == DownloadRun(ids, lens, d', events[1..])
  {
  }

  /**
   `receiveDownloadBodies`, for every sequence of events; `used` is how many it took.  A
   completed download always reports status 200 per stream and the whole body, its final
   byte count test never fails, and every whole delivery completes.
   */
  method ReceiveDownloadBodies(ids: seq<nat>, body: nat, events: seq<Event>) returns (r: DownloadOutcome, ghost used: nat)
    requires |ids| > 0
    ensures r == DownloadRun(ids, Shares(body, |ids|), NothingRead(|ids|), events)
    ensures DownloadExplained(ids, Shares(body, |ids|), events, used, r)
    ensures r.Downloaded? ==> r == Downloaded(200 * |ids|, body)
    ensures ResponsesDelivered(ids, Shares(body, |ids|), events) ==> r == Downloaded(200 * |ids|, body)
  {
    var lens := Shares(body, |ids|);
    SharesSumToTotal(body, |ids|);
    r, used := DownloadLoop(ids, lens, body, events);
    if ResponsesDelivered(ids, lens, events) {
      DeliveryCompletes(ids, lens, events, used, r);
    }
  }

  method DownloadLoop(ids: seq<nat>, lens: seq<nat>, body: nat, events: seq<Event>)
    returns (r: DownloadOutcome, ghost used: nat)
    requires |ids| == |lens| && body == Sum(lens)
    ensures r == DownloadRun(ids, lens, NothingRead(|ids|), events)
    ensures DownloadExplained(ids, lens, events, used, r)
  {
    var b := DownloadBooks(NothingRead(|ids|), 0, 0, 0);
    var next: nat := 0;
    used := 0;
    StartsDownloading(ids, lens, events);
    while b.finishedCount < |ids|
      invariant next == used && Downloading(ids, lens, events, next, b)
      invariant DownloadRun(ids, lens, NothingRead(|ids|), events) == DownloadRun(ids, lens, b.d, events[next..])
      decreases |events| - next
    {
      if next == |events| {
        assert events[..next] == events;
        return DownloadWaiting, used;
      }
      assert events[next..][0] == events[next] && events[next..][1..] == events[next + 1..];
      var step := OnDownloadEvent(ids, lens, body, b, events[next]);
      if step.None? {
        DownloadRefusalExplained(ids, lens, events, next, b);
        return DownloadInvalid, used;
      }
      DownloadingStep(ids, lens, events, next, b, step.value);
      DownloadRunStep(ids, lens, b.d, events[next..], step.value.d);
      b := step.value;
      next := next + 1;
      used := used + 1;
    }
    DownloadStopExplained(ids, lens, events, next, b);
    if b.totalRead != body { return DownloadInvalid, used; }
    r := Downloaded(b.statusTotal, b.totalRead);
  }
}
