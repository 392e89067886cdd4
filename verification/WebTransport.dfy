/**
 The WebTransport stream benchmark (examples/bench_webtransport_stream.zig): which
 streams are reset, the client's batch writer, and the server's terminal events.
 */
module WebTransport {
  import opened Base
  import opened Partition

  datatype Config = Config(streams: nat, bytes: nat, resetEvery: nat, resetAfter: nat)

  predicate ShouldReset(c: Config, i: nat) {
    c.resetEvery != 0 && (i + 1) % c.resetEvery == 0
  }

  function ResetCount(c: Config): (r: nat)
    ensures r <= c.streams
  {
    if c.resetEvery == 0 then 0 else QuotientAtMost(c.streams, c.resetEvery); c.streams / c.resetEvery
  }

  function ExpectedReceivedBytes(c: Config): nat {
    var resets := ResetCount(c);
    (c.streams - resets) * c.bytes + resets * Min(c.resetAfter, c.bytes)
  }

  /** What stream `i` delivers before its FIN or reset. */
  function BytesOf(c: Config, i: nat): nat {
    if ShouldReset(c, i) then Min(c.resetAfter, c.bytes) else c.bytes
  }

  function PerStream(c: Config, n: nat): (r: seq<nat>)
    ensures |r| == n && forall i :: 0 <= i < n ==> r[i] == BytesOf(c, i)
  {
    seq(n, i requires 0 <= i < n => BytesOf(c, i))
  }

  function ResetFlags(c: Config, n: nat): (r: seq<bool>)
    ensures |r| == n && forall i :: 0 <= i < n ==> (r[i] <==> ShouldReset(c, i))
  {
    seq(n, i requires 0 <= i < n => ShouldReset(c, i))
  }

  /** Among the first `n` streams exactly n / reset_every are reset. */
  lemma {:induction false} ResetsCounted(c: Config, n: nat)
    ensures CountTrue(ResetFlags(c, n)) == if c.resetEvery == 0 then 0 else n / c.resetEvery
  {
    if n == 0 {
      if c.resetEvery > 0 { QuotientIs(0, c.resetEvery, 0, 0); }
    } else {
      ResetsCounted(c, n - 1);
      assert ResetFlags(c, n)[..n - 1] == ResetFlags(c, n - 1);
      if c.resetEvery > 0 { NextMultiple(n - 1, c.resetEvery); }
    }
  }

  lemma OneMoreStream(c: Config, n: nat)
    requires n > 0
    ensures Sum(PerStream(c, n)) == Sum(PerStream(c, n - 1)) + BytesOf(c, n - 1)
    ensures CountTrue(ResetFlags(c, n)) == CountTrue(ResetFlags(c, n - 1)) + (if ShouldReset(c, n - 1) then 1 else 0)
    ensures CountTrue(ResetFlags(c, n - 1)) <= n - 1
  {
    CountTrueIsAll(ResetFlags(c, n - 1));
    assert ResetFlags(c, n)[..n - 1] == ResetFlags(c, n - 1);
    assert PerStream(c, n)[..n - 1] == PerStream(c, n - 1);
  }

  lemma {:induction false} BytesAddUp(c: Config, n: nat, resets: nat)
    requires resets == CountTrue(ResetFlags(c, n)) <= n
    ensures Sum(PerStream(c, n)) == (n - resets) * c.bytes + resets * Min(c.resetAfter, c.bytes)
  {
    if n > 0 {
      var before := CountTrue(ResetFlags(c, n - 1));
      OneMoreStream(c, n);
      BytesAddUp(c, n - 1, before);
      OneMore(n - 1 - before, before, c.bytes, Min(c.resetAfter, c.bytes));
    }
  }

  lemma OneMore(full: nat, reset: nat, x: nat, y: nat)
    ensures (full + 1) * x + reset * y == full * x + reset * y + x
    ensures full * x + (reset + 1) * y == full * x + reset * y + y
  {
  }

  /** `expectedReceivedBytes` is the sum of what the streams deliver. */
  lemma ExpectedIsSum(c: Config)
    ensures ExpectedReceivedBytes(c) == Sum(PerStream(c, c.streams))
    ensures ResetCount(c) == CountTrue(ResetFlags(c, c.streams))
  {
    ResetsCounted(c, c.streams);
    CountTrueIsAll(ResetFlags(c, c.streams));
    BytesAddUp(c, c.streams, ResetCount(c));
  }

  // ----- Stream ids -----

  function StreamId(i: nat): nat {
    4 + 4 * i
  }

  function StreamIndex(id: nat): Option<nat> {
    if id < 4 || (id - 4) % 4 != 0 then None else Some((id - 4) / 4)
  }

  /** `streamIndex` is a bijection from 4, 8, 12, ... to 0, 1, 2, ... */
  lemma StreamIndexIsBijection(id: nat, i: nat)
    ensures StreamIndex(id) == Some(i) <==> id == StreamId(i)
  {
  }

  // ----- The client's batch writer -----

  /** One call of `writeStreams`: what it would like to take of each write, and whether the socket failed. */
  datatype Reply = Reply(wish: seq<nat>, sendError: bool)

  /** A committed prefix of every write, never more than was offered. */
  function Committed(offered: seq<nat>, wish: seq<nat>): (r: seq<nat>)
    ensures |r| == |offered| && forall i :: 0 <= i < |r| ==> r[i] <= offered[i]
  {
    seq(|offered|, i requires 0 <= i < |offered| => if i < |wish| && wish[i] < offered[i] then wish[i] else offered[i])
  }

  datatype WriterOutcome = AllWritten | SendFailed | IncompleteTransfer | Stalled

  function Unfinished(bytes: nat): nat -> nat {
    offset => if offset == bytes then 0 else 1
  }

  function Missing(bytes: nat): nat -> nat {
    offset => if offset <= bytes then bytes - offset else 0
  }

  ghost predicate Offsets(bytes: nat, offsets: seq<nat>) {
    forall i :: 0 <= i < |offsets| ==> offsets[i] <= bytes
  }

  /** Streams to be reset are skipped from the start. */
  method SkipResets(c: Config) returns (offsets: seq<nat>)
    requires c.bytes > 0
    ensures |offsets| == c.streams && Offsets(c.bytes, offsets)
    ensures forall i :: 0 <= i < c.streams ==> offsets[i] == if ShouldReset(c, i) then c.bytes else 0
    ensures Tally(offsets, Unfinished(c.bytes)) == c.streams - ResetCount(c)
  {
    offsets := seq(c.streams, _ => 0);
    for i := 0 to c.streams
      invariant |offsets| == c.streams
      invariant forall k :: 0 <= k < c.streams ==> offsets[k] == if k < i && ShouldReset(c, k) then c.bytes else 0
    {
      if !ShouldReset(c, i) { continue; }
      offsets := offsets[i := c.bytes];
    }
    ExpectedIsSum(c);
    UnfinishedAtStart(c, offsets, c.streams);
    assert offsets[..c.streams] == offsets;
  }

  lemma {:induction false} UnfinishedAtStart(c: Config, offsets: seq<nat>, n: nat)
    requires c.bytes > 0 && n <= |offsets|
    requires forall i :: 0 <= i < n ==> offsets[i] == if ShouldReset(c, i) then c.bytes else 0
    ensures Tally(offsets[..n], Unfinished(c.bytes)) + CountTrue(ResetFlags(c, n)) == n
  {
    if n > 0 {
      UnfinishedAtStart(c, offsets, n - 1);
      assert offsets[..n][..n - 1] == offsets[..n - 1];
      assert ResetFlags(c, n)[..n - 1] == ResetFlags(c, n - 1);
    }
  }

  /** Advance the offsets by what was committed; `remaining` drops once per stream that completes. */
  method Advance(bytes: nat, offsets: seq<nat>, counts: seq<nat>, remaining: nat) returns (offsets': seq<nat>, remaining': nat)
    requires |counts| == |offsets| && Offsets(bytes, offsets) && remaining == Tally(offsets, Unfinished(bytes))
    requires forall i :: 0 <= i < |offsets| ==> counts[i] <= bytes - offsets[i]
    ensures |offsets'| == |offsets| && Offsets(bytes, offsets')
    ensures forall i :: 0 <= i < |offsets| ==> offsets'[i] == offsets[i] + counts[i]
    ensures remaining' == Tally(offsets', Unfinished(bytes))
  {
    offsets', remaining' := offsets, remaining;
    for i := 0 to |offsets|
      invariant |offsets'| == |offsets|
      invariant forall k :: 0 <= k < |offsets| ==> offsets'[k] == if k < i then offsets[k] + counts[k] else offsets[k]
      invariant remaining' == Tally(offsets', Unfinished(bytes))
    {
      if offsets'[i] == bytes { continue; }
      TallyUpdate(offsets', Unfinished(bytes), i, offsets'[i] + counts[i]);
      TallyHas(offsets', Unfinished(bytes), i);
      offsets' := offsets'[i := offsets'[i] + counts[i]];
      if offsets'[i] == bytes { remaining' := remaining' - 1; }
    }
  }

  lemma {:induction false} TallyHas(s: seq<nat>, weigh: nat -> nat, i: nat)
    requires i < |s|
    ensures Tally(s, weigh) >= weigh(s[i])
  {
    if i < |s| - 1 {
      TallyHas(s[..|s| - 1], weigh, i);
    }
  }

  /** Any positive count makes progress. */
  lemma {:induction false} MissingShrinks(bytes: nat, before: seq<nat>, after: seq<nat>)
    requires |before| == |after| && forall i :: 0 <= i < |before| ==> before[i] <= after[i] <= bytes
    ensures Tally(after, Missing(bytes)) <= Tally(before, Missing(bytes))
    ensures (exists i :: 0 <= i < |before| && before[i] < after[i]) ==> Tally(after, Missing(bytes)) < Tally(before, Missing(bytes))
  {
    if before != [] {
      var n := |before| - 1;
      MissingShrinks(bytes, before[..n], after[..n]);
      if before[n] == after[n] && exists i :: 0 <= i < |before| && before[i] < after[i] {
        var i :| 0 <= i < |before| && before[i] < after[i];
        assert before[..n][i] < after[..n][i];
      }
    }
  }

  function Offered(bytes: nat, offsets: seq<nat>): (r: seq<nat>)
    requires forall i :: 0 <= i < |offsets| ==> offsets[i] <= bytes
    ensures |r| == |offsets| && forall i :: 0 <= i < |r| ==> r[i] == bytes - offsets[i]
  {
    seq(|offsets|, i requires 0 <= i < |offsets| => bytes - offsets[i])
  }

  ghost predicate AllFull(bytes: nat, offsets: seq<nat>) {
    forall i :: 0 <= i < |offsets| ==> offsets[i] == bytes
  }

  /** What a reply takes at `offsets`: at least one byte of some stream, or nothing. */
  ghost predicate TakesSomething(bytes: nat, offsets: seq<nat>, reply: Reply) {
    exists i :: 0 <= i < |offsets| && offsets[i] < bytes && (i < |reply.wish| ==> reply.wish[i] > 0)
  }

  /** A successful reply moves every unfinished stream on by the wish, or by all that is left of it. */
  ghost predicate Moves(bytes: nat, before: seq<nat>, reply: Reply, after: seq<nat>) {
    && !AllFull(bytes, before) && !reply.sendError && TakesSomething(bytes, before, reply)
    && |after| == |before|
    && forall i :: 0 <= i < |before| ==>
         after[i] == if i < |reply.wish| && before[i] + reply.wish[i] < bytes then before[i] + reply.wish[i] else bytes
  }

  /** The offsets before the first call and after every successful one. */
  ghost predicate Trail(c: Config, replies: seq<Reply>, trail: seq<seq<nat>>) {
    && 0 < |trail| <= |replies| + 1
    && |trail[0]| == c.streams && (forall i :: 0 <= i < c.streams ==> trail[0][i] == if ShouldReset(c, i) then c.bytes else 0)
    && forall k :: 0 <= k < |trail| - 1 ==> Moves(c.bytes, trail[k], replies[k], trail[k + 1])
  }

  /** What ended the loop, after the calls that succeeded. */
  ghost predicate Ended(c: Config, replies: seq<Reply>, offsets: seq<nat>, succeeded: nat, r: WriterOutcome, calls: nat)
    requires succeeded <= |replies|
  {
    match r
    case AllWritten => calls == succeeded && AllFull(c.bytes, offsets)
    case Stalled => calls == succeeded == |replies| && !AllFull(c.bytes, offsets)
    case SendFailed =>
      && calls == succeeded + 1 <= |replies| && !AllFull(c.bytes, offsets) && replies[succeeded].sendError
    case IncompleteTransfer =>
      && calls == succeeded + 1 <= |replies| && !AllFull(c.bytes, offsets)
      && !replies[succeeded].sendError && !TakesSomething(c.bytes, offsets, replies[succeeded])
  }

  lemma NothingTaken(bytes: nat, offsets: seq<nat>, reply: Reply, counts: seq<nat>)
    requires Offsets(bytes, offsets) && counts == Committed(Offered(bytes, offsets), reply.wish)
    ensures (exists i :: 0 <= i < |counts| && counts[i] != 0) <==> TakesSomething(bytes, offsets, reply)
  {
    if TakesSomething(bytes, offsets, reply) {
      var i :| 0 <= i < |offsets| && offsets[i] < bytes && (i < |reply.wish| ==> reply.wish[i] > 0);
      assert counts[i] != 0;
    }
  }

  lemma TrailGrows(c: Config, replies: seq<Reply>, trail: seq<seq<nat>>, after: seq<nat>)
    requires Trail(c, replies, trail) && |trail| <= |replies|
    requires Moves(c.bytes, trail[|trail| - 1], replies[|trail| - 1], after)
    ensures Trail(c, replies, trail + [after])
  {
  }

  lemma FullMeansNoneUnfinished(bytes: nat, offsets: seq<nat>)
    ensures AllFull(bytes, offsets) <==> Tally(offsets, Unfinished(bytes)) == 0
  {
    if Tally(offsets, Unfinished(bytes)) == 0 {
      NothingUnfinished(bytes, offsets);
    }
    if AllFull(bytes, offsets) {
      TallyZero(offsets, Unfinished(bytes));
    }
  }

  /**
   The write loop under any behaviour of `writeStreams`.  Every successful call moves
   every stream by what was committed; a failing call stops the loop, a call without
   progress too, and nothing else does but completion.  The loop makes at most one call
   more than there are bytes, and the counter of unfinished streams never underflows.
   */
  method WriteAll(c: Config, replies: seq<Reply>)
    returns (r: WriterOutcome, offsets: seq<nat>, calls: nat, ghost trail: seq<seq<nat>>)
    requires c.bytes > 0
    ensures |offsets| == c.streams && Offsets(c.bytes, offsets)
    ensures Trail(c, replies, trail) && offsets == trail[|trail| - 1]
    ensures Ended(c, replies, offsets, |trail| - 1, r, calls)
    ensures calls <= c.streams * c.bytes + 1
  {
    offsets := SkipResets(c);
    var remaining: nat := c.streams - ResetCount(c);
    calls, trail := 0, [offsets];
    MissingAtMost(c.bytes, offsets);
    while remaining != 0
      invariant |offsets| == c.streams && Offsets(c.bytes, offsets)
      invariant remaining == Tally(offsets, Unfinished(c.bytes))
      invariant calls <= |replies| && calls + Tally(offsets, Missing(c.bytes)) <= c.streams * c.bytes
      invariant Trail(c, replies, trail) && offsets == trail[|trail| - 1] && calls == |trail| - 1
      decreases Tally(offsets, Missing(c.bytes))
    {
      FullMeansNoneUnfinished(c.bytes, offsets);
      if calls == |replies| { return Stalled, offsets, calls, trail; }
      var reply := replies[calls];
      if reply.sendError { return SendFailed, offsets, calls + 1, trail; }
      var progressed: bool;
      ghost var before := offsets;
      progressed, offsets, remaining := TakeReply(c.bytes, offsets, reply, remaining);
      if !progressed { return IncompleteTransfer, offsets, calls + 1, trail; }
      calls := calls + 1;
      TrailGrows(c, replies, trail, offsets);
      trail := trail + [offsets];
    }
    FullMeansNoneUnfinished(c.bytes, offsets);
    r := AllWritten;
  }

  /** One call that did not fail. */
  method TakeReply(bytes: nat, offsets: seq<nat>, reply: Reply, remaining: nat)
    returns (progressed: bool, offsets': seq<nat>, remaining': nat)
    requires Offsets(bytes, offsets) && remaining == Tally(offsets, Unfinished(bytes)) && remaining > 0 && !reply.sendError
    ensures |offsets'| == |offsets| && Offsets(bytes, offsets') && remaining' == Tally(offsets', Unfinished(bytes))
    ensures progressed <==> TakesSomething(bytes, offsets, reply)
    ensures !progressed ==> offsets' == offsets
    ensures progressed ==>
      Moves(bytes, offsets, reply, offsets') && Tally(offsets', Missing(bytes)) < Tally(offsets, Missing(bytes))
  {
    FullMeansNoneUnfinished(bytes, offsets);
    var counts := Committed(Offered(bytes, offsets), reply.wish);
    NothingTaken(bytes, offsets, reply, counts);
    if forall i :: 0 <= i < |counts| ==> counts[i] == 0 { return false, offsets, remaining; }
    offsets', remaining' := Advance(bytes, offsets, counts, remaining);
    MissingShrinks(bytes, offsets, offsets');
    progressed := true;
  }

  lemma {:induction false} MissingAtMost(bytes: nat, offsets: seq<nat>)
    ensures Tally(offsets, Missing(bytes)) <= |offsets| * bytes
  {
    if offsets != [] {
      var n := |offsets| - 1;
      MissingAtMost(bytes, offsets[..n]);
      assert (n + 1) * bytes == n * bytes + bytes;
    }
  }

  lemma NothingUnfinished(bytes: nat, offsets: seq<nat>)
    requires Tally(offsets, Unfinished(bytes)) == 0
    ensures forall i :: 0 <= i < |offsets| ==> offsets[i] == bytes
  {
    forall i | 0 <= i < |offsets| ensures offsets[i] == bytes {
      TallyHas(offsets, Unfinished(bytes), i);
    }
  }

  // ----- The server's terminal events -----

  datatype Event =
    | Data(id: nat, fromPeer: bool, bytes: nat, fin: bool)
    | Reset(id: nat, fromPeer: bool, code: nat)
    | Stopped

  const CANCELLATION_CODE: nat := 42

  predicate Ends(e: Event) {
    e.Reset? || (e.Data? && e.fin)
  }

  /** Peer-initiated bidirectional stream events; a reset carries the agreed code. */
  predicate WellFormed(e: Event) {
    match e
    case Data(_, fromPeer, _, _) => fromPeer
    case Reset(_, fromPeer, code) => fromPeer && code == CANCELLATION_CODE
    case Stopped => false
  }

  /** How many events so far ended stream `id`. */
  function Endings(events: seq<Event>, id: nat): nat {
    if events == [] then 0
    else
      var last := events[|events| - 1];
      Endings(events[..|events| - 1], id) + (if Ends(last) && last.id == id then 1 else 0)
  }

  function BytesReceived(events: seq<Event>): nat {
    if events == [] then 0
    else
      var last := events[|events| - 1];
      BytesReceived(events[..|events| - 1]) + (if last.Data? then last.bytes else 0)
  }

  function ResetsReceived(events: seq<Event>): nat {
    if events == [] then 0
    else ResetsReceived(events[..|events| - 1]) + (if events[|events| - 1].Reset? then 1 else 0)
  }

  /** Event `e` may follow `events`: well formed, and an ending ends one of the streams for the first time. */
  predicate Acceptable(streams: nat, events: seq<Event>, e: Event) {
    WellFormed(e) && (Ends(e) ==> Endings(events, e.id) == 0 && exists i :: 0 <= i < streams && e.id == StreamId(i))
  }

  ghost predicate AllAcceptable(streams: nat, events: seq<Event>) {
    forall n :: 0 <= n < |events| ==> Acceptable(streams, events[..n], events[n])
  }

  ghost predicate EachEndedOnce(streams: nat, events: seq<Event>) {
    forall i :: 0 <= i < streams ==> Endings(events, StreamId(i)) == 1
  }

  datatype ServerError = UnexpectedStream | UnexpectedStreamEvent

  datatype ServerOutcome = Complete(events: nat) | Incomplete(events: nat) | Refused(at: nat, error: ServerError) | Waiting

  /** The error a refused event is reported with. */
  function ErrorFor(e: Event): ServerError {
    match e
    case Data(id, fromPeer, _, _) => if !fromPeer || StreamIndex(id).None? then UnexpectedStream else UnexpectedStreamEvent
    case Reset(id, fromPeer, code) =>
      if fromPeer && code == CANCELLATION_CODE && StreamIndex(id).None? then UnexpectedStream else UnexpectedStreamEvent
    case Stopped => UnexpectedStreamEvent
  }

  /** The peer opens streams 4, 8, 12, ...; anything else is an unexpected stream, and every other fault an unexpected event. */
  lemma ErrorMeans(e: Event)
    ensures ErrorFor(e) == UnexpectedStream <==>
      || (e.Data? && !e.fromPeer)
      || (!e.Stopped? && e.fromPeer && (e.Reset? ==> e.code == 42) && (e.id < 4 || e.id % 4 != 0))
  {
  }

  /** The flags say which streams have ended. */
  ghost predicate Flags(streams: nat, events: seq<Event>, terminal: seq<bool>) {
    |terminal| == streams && forall i :: 0 <= i < streams ==> Endings(events, StreamId(i)) == if terminal[i] then 1 else 0
  }

  lemma FlagsStep(streams: nat, events: seq<Event>, e: Event, terminal: seq<bool>)
    requires Flags(streams, events, terminal)
    ensures !Ends(e) ==> Flags(streams, events + [e], terminal)
    ensures Ends(e) && StreamIndex(e.id).Some? && StreamIndex(e.id).value < streams && !terminal[StreamIndex(e.id).value] ==>
      Flags(streams, events + [e], terminal[StreamIndex(e.id).value := true])
  {
    assert (events + [e])[..|events|] == events;
    if Ends(e) && StreamIndex(e.id).Some? {
      StreamIndexIsBijection(e.id, StreamIndex(e.id).value);
    }
  }

  /** The program's test is exactly acceptability. */
  lemma TestIsExact(streams: nat, events: seq<Event>, e: Event, terminal: seq<bool>)
    requires Flags(streams, events, terminal) && Ends(e)
    ensures Acceptable(streams, events, e) <==>
      WellFormed(e) && StreamIndex(e.id).Some? && StreamIndex(e.id).value < streams && !terminal[StreamIndex(e.id).value]
  {
    if StreamIndex(e.id).Some? {
      var i := StreamIndex(e.id).value;
      StreamIndexIsBijection(e.id, i);
    }
    if exists i :: 0 <= i < streams && e.id == StreamId(i) {
      var i :| 0 <= i < streams && e.id == StreamId(i);
      StreamIndexIsBijection(e.id, i);
    }
  }

  lemma AllAcceptableStep(streams: nat, events: seq<Event>, n: nat)
    requires n < |events| && AllAcceptable(streams, events[..n]) && Acceptable(streams, events[..n], events[n])
    ensures AllAcceptable(streams, events[..n + 1])
  {
    var now := events[..n + 1];
    forall k | 0 <= k < |now| ensures Acceptable(streams, now[..k], now[k]) {
      assert now[..k] == events[..k];
      assert k < n ==> events[..n][..k] == events[..k] && events[..n][k] == events[k];
    }
  }

  lemma PrefixStep(events: seq<Event>, n: nat)
    requires n < |events|
    ensures events[..n + 1] == events[..n] + [events[n]]
    ensures BytesReceived(events[..n + 1]) == BytesReceived(events[..n]) + (if events[n].Data? then events[n].bytes else 0)
    ensures ResetsReceived(events[..n + 1]) == ResetsReceived(events[..n]) + (if events[n].Reset? then 1 else 0)
  {
    assert events[..n + 1][..n] == events[..n];
  }

  /** Set the flag of a stream that ends; every access to the flags is in bounds. */
  method EndStream(streams: nat, terminal: array<bool>, e: Event, ghost heard: seq<Event>, finished: nat)
    returns (refusal: Option<ServerError>, finished': nat)
    requires streams <= terminal.Length && Ends(e) && WellFormed(e)
    requires Flags(streams, heard, terminal[..streams]) && finished == CountTrue(terminal[..streams])
    modifies terminal
    ensures refusal.None? <==> Acceptable(streams, heard, e)
    ensures refusal.Some? ==> refusal == Some(ErrorFor(e))
    ensures refusal.None? ==> Flags(streams, heard + [e], terminal[..streams]) && finished' == CountTrue(terminal[..streams])
  {
    ghost var before := terminal[..streams];
    TestIsExact(streams, heard, e, before);
    FlagsStep(streams, heard, e, before);
    var index := StreamIndex(e.id);
    if index.None? { return Some(UnexpectedStream), finished; }
    if index.value >= streams || terminal[index.value] { return Some(UnexpectedStreamEvent), finished; }
    CountTrueSet(before, index.value);
    terminal[index.value] := true;
    assert terminal[..streams] == before[index.value := true];
    refusal, finished' := None, finished + 1;
  }

  /** One event of the server loop. */
  method OnEvent(streams: nat, terminal: array<bool>, e: Event, ghost heard: seq<Event>, finished: nat)
    returns (refusal: Option<ServerError>, finished': nat)
    requires streams <= terminal.Length
    requires Flags(streams, heard, terminal[..streams]) && finished == CountTrue(terminal[..streams])
    modifies terminal
    ensures refusal.None? <==> Acceptable(streams, heard, e)
    ensures refusal.Some? ==> refusal == Some(ErrorFor(e))
    ensures refusal.None? ==> Flags(streams, heard + [e], terminal[..streams]) && finished' == CountTrue(terminal[..streams])
  {
    match e {
      case Data(_, fromPeer, _, fin) =>
        if !fromPeer { return Some(UnexpectedStream), finished; }
        if !fin {
          FlagsStep(streams, heard, e, terminal[..streams]);
          return None, finished;
        }
      case Reset(_, fromPeer, code) =>
        if !fromPeer || code != CANCELLATION_CODE { return Some(UnexpectedStreamEvent), finished; }
      case Stopped =>
        return Some(UnexpectedStreamEvent), finished;
    }
    refusal, finished' := EndStream(streams, terminal, e, heard, finished);
  }

  /** What an outcome of the server loop says about the events. */
  ghost predicate Served(streams: nat, expectedBytes: nat, expectedResets: nat, events: seq<Event>, r: ServerOutcome) {
    match r
    case Refused(at, error) =>
      && at < |events| && AllAcceptable(streams, events[..at]) && !Acceptable(streams, events[..at], events[at])
      && !EachEndedOnce(streams, events[..at]) && error == ErrorFor(events[at])
    case Waiting => AllAcceptable(streams, events) && !EachEndedOnce(streams, events)
    case _ =>
      && r.events <= |events| && AllAcceptable(streams, events[..r.events]) && EachEndedOnce(streams, events[..r.events])
      && (r.events > 0 ==> !EachEndedOnce(streams, events[..r.events - 1]))
      && (r.Complete? <==> BytesReceived(events[..r.events]) == expectedBytes && ResetsReceived(events[..r.events]) == expectedResets)
  }

  /**
   The server loop.  A refusal names the first unacceptable event and its error; otherwise
   every accepted prefix is acceptable throughout, the loop stops exactly when each of the
   streams has ended once, and the transfer is complete if and only if the byte and
   reset totals are as announced.
   */
  method Serve(streams: nat, maxStreams: nat, expectedBytes: nat, expectedResets: nat, events: seq<Event>) returns (r: ServerOutcome)
    requires streams <= maxStreams
    ensures Served(streams, expectedBytes, expectedResets, events, r)
  {
    var terminal := new bool[maxStreams](_ => false);
    var finished: nat, resets: nat, received: nat, n: nat := 0, 0, 0, 0;
    NoneTrue(terminal[..streams]);
    FlagsAtStart(streams, terminal[..streams]);
    while finished < streams
      invariant Serving(streams, events, n, terminal[..streams], finished, received, resets)
      decreases |events| - n
    {
      ghost var flags := terminal[..streams];
      if n == |events| {
        ServingWaits(streams, expectedBytes, expectedResets, events, flags, finished, received, resets);
        return Waiting;
      }
      var e := events[n];
      var refusal: Option<ServerError>, now: nat;
      refusal, now := OnEvent(streams, terminal, e, events[..n], finished);
      if refusal.Some? {
        ServingRefuses(streams, expectedBytes, expectedResets, events, n, flags, finished, received, resets);
        return Refused(n, refusal.value);
      }
      ServingStep(streams, events, n, flags, finished, received, resets, terminal[..streams], now);
      finished := now;
      if e.Data? { received := received + e.bytes; }
      if e.Reset? { resets := resets + 1; }
      n := n + 1;
    }
    FlagsMean(streams, events[..n], terminal[..streams]);
    if received != expectedBytes || resets != expectedResets { return Incomplete(n); }
    r := Complete(n);
  }

  /** The server's state after accepting the first `n` events. */
  ghost predicate Serving(
    streams: nat, events: seq<Event>, n: nat, terminal: seq<bool>, finished: nat, received: nat, resets: nat)
  {
    && n <= |events| && AllAcceptable(streams, events[..n])
    && Flags(streams, events[..n], terminal) && finished == CountTrue(terminal)
    && received == BytesReceived(events[..n]) && resets == ResetsReceived(events[..n])
    && (n > 0 ==> !EachEndedOnce(streams, events[..n - 1]))
  }

  lemma ServingStep(
    streams: nat, events: seq<Event>, n: nat, terminal: seq<bool>, finished: nat, received: nat, resets: nat,
    terminal': seq<bool>, finished': nat)
    requires Serving(streams, events, n, terminal, finished, received, resets) && n < |events| && finished < streams
    requires Acceptable(streams, events[..n], events[n])
    requires Flags(streams, events[..n] + [events[n]], terminal') && finished' == CountTrue(terminal')
    ensures Serving(streams, events, n + 1, terminal', finished',
                    received + (if events[n].Data? then events[n].bytes else 0), resets + (if events[n].Reset? then 1 else 0))
  {
    FlagsMean(streams, events[..n], terminal);
    PrefixStep(events, n);
    AllAcceptableStep(streams, events, n);
  }

  lemma ServingWaits(
    streams: nat, expectedBytes: nat, expectedResets: nat, events: seq<Event>, terminal: seq<bool>,
    finished: nat, received: nat, resets: nat)
    requires Serving(streams, events, |events|, terminal, finished, received, resets) && finished < streams
    ensures Served(streams, expectedBytes, expectedResets, events, Waiting)
  {
    assert events[..|events|] == events;
    FlagsMean(streams, events, terminal);
  }

  lemma ServingRefuses(
    streams: nat, expectedBytes: nat, expectedResets: nat, events: seq<Event>, n: nat, terminal: seq<bool>,
    finished: nat, received: nat, resets: nat)
    requires Serving(streams, events, n, terminal, finished, received, resets) && n < |events| && finished < streams
    requires !Acceptable(streams, events[..n], events[n])
    ensures Served(streams, expectedBytes, expectedResets, events, Refused(n, ErrorFor(events[n])))
  {
    FlagsMean(streams, events[..n], terminal);
  }

  lemma FlagsMean(streams: nat, events: seq<Event>, terminal: seq<bool>)
    requires Flags(streams, events, terminal)
    ensures CountTrue(terminal) <= streams
    ensures EachEndedOnce(streams, events) <==> CountTrue(terminal) == streams
  {
    CountTrueIsAll(terminal);
    forall i | 0 <= i < streams ensures terminal[i] <==> Endings(events, StreamId(i)) == 1 {
    }
  }

  lemma FlagsAtStart(streams: nat, terminal: seq<bool>)
    requires |terminal| == streams && forall i :: 0 <= i < streams ==> !terminal[i]
    ensures Flags(streams, [], terminal)
  {
  }
}
