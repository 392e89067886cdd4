/**
 Transactional validation of the STREAM frames of one packet
 (src/quic/stream.zig, `RecvState.Preflight`).

 A packet must be validated in full before any frame changes connection state.
 Instead of cloning receive buffers, the preflight borrows them and remembers the
 packet's earlier frames.  The results here say that this shadow is exact: it
 answers, frame by frame, what inserting into the real receive states answers.
 */
module Preflight {
  import opened Base
  import opened RecvStream

  /** The fields of one stream's preflight, without the shared list of earlier frames. */
  datatype Shadow = Shadow(
    streamId: nat,
    limit: nat,
    base: nat,
    cells: seq<Option<Byte>>,
    finalSize: Option<nat>,
    total: nat,
    high: nat)

  function ShadowOf(s: Recv): Shadow {
    Shadow(s.streamId, s.limit, s.base, s.cells, s.finalSize, Total(s), High(s))
  }

  function Holds(f: StreamFrame, id: nat, x: nat): bool {
    f.streamId == id && f.offset <= x < f.End()
  }

  /** The byte the first earlier frame of the stream carries at offset `x`. */
  function FirstPending(pending: seq<StreamFrame>, id: nat, x: nat): Option<Byte> {
    if pending == [] then None
    else if Holds(pending[0], id, x) then Some(pending[0].data[x - pending[0].offset])
    else FirstPending(pending[1..], id, x)
  }

  /** The byte known at offset `x`: buffered, or carried by an earlier frame of the packet. */
  function Lookup(p: Shadow, pending: seq<StreamFrame>, x: nat): Option<Byte> {
    if p.base <= x < p.base + |p.cells| && p.cells[x - p.base].Some? then p.cells[x - p.base]
    else FirstPending(pending, p.streamId, x)
  }

  /** Number of offsets in [lo, hi) at which no byte is known. */
  function Unknown(p: Shadow, pending: seq<StreamFrame>, lo: nat, hi: nat): (n: nat)
    requires lo <= hi
    decreases hi
  {
    if lo == hi then 0
    else Unknown(p, pending, lo, hi - 1) + (if Lookup(p, pending, hi - 1).Some? then 0 else 1)
  }

  /** A byte other than the frame's is known at offset `x`. */
  predicate DisagreesAt(p: Shadow, pending: seq<StreamFrame>, f: StreamFrame, x: nat) {
    && Max(f.offset, p.base) <= x < f.End()
    && Lookup(p, pending, x).Some? && Lookup(p, pending, x).value != f.data[x - f.offset]
  }

  ghost predicate Disagrees(p: Shadow, pending: seq<StreamFrame>, f: StreamFrame) {
    exists x: nat :: DisagreesAt(p, pending, f, x)
  }

  function ShadowHeader(p: Shadow, f: StreamFrame): Option<StreamError> {
    if f.streamId != p.streamId then Some(WrongStream)
    else if f.End() > MAX_U64 then Some(InvalidStreamRange)
    else if ViolatesFinalSize(p.finalSize, f) then Some(FinalSizeMismatch)
    else if f.End() > p.base && f.End() - p.base > p.limit then Some(StreamBufferTooLarge)
    else None
  }

  ghost function ShadowRefusal(p: Shadow, pending: seq<StreamFrame>, f: StreamFrame): Option<StreamError> {
    if ShadowHeader(p, f).Some? then ShadowHeader(p, f)
    else if f.End() > p.base && Disagrees(p, pending, f) then Some(ConflictingStreamData)
    else if f.fin && f.End() < p.high then Some(FinalSizeMismatch)
    else None
  }

  function ShadowGain(p: Shadow, pending: seq<StreamFrame>, f: StreamFrame): nat {
    if f.End() <= p.base then 0 else Unknown(p, pending, Max(f.offset, p.base), f.End())
  }

  function ShadowAccept(p: Shadow, pending: seq<StreamFrame>, f: StreamFrame): Shadow {
    var closed := if f.fin then p.(finalSize := Some(f.End())) else p;
    if f.End() <= p.base then closed
    else closed.(total := Min(p.total + ShadowGain(p, pending, f), MAX_U64), high := Max(p.high, f.End()))
  }

  function Remember(p: Shadow, pending: seq<StreamFrame>, f: StreamFrame): seq<StreamFrame> {
    if f.End() <= p.base then pending else pending + [f]
  }

  // ----- The program's nested loops -----

  class PreflightFrames {
    var items: seq<StreamFrame>

    constructor ()
      ensures items == []
    {
      items := [];
    }
  }

  class PreflightState {
    const streamId: nat
    const storageOffset: nat
    const buffer: seq<Byte>
    const received: seq<bool>
    const maxBuffered: nat
    const pending: PreflightFrames
    var finalSize: Option<nat>
    var receivedTotal: nat
    var highestReceivedEnd: nat
    ghost const cells: seq<Option<Byte>>

    ghost predicate Valid() {
      Represents(buffer, received, cells)
    }

    ghost function View(): Shadow
      reads this
    {
      Shadow(streamId, maxBuffered, storageOffset, cells, finalSize, receivedTotal, highestReceivedEnd)
    }

    constructor (state: RecvState, pending: PreflightFrames)
      requires state.Valid()
      ensures Valid() && this.pending == pending
      ensures View() == ShadowOf(state.View())
    {
      streamId, storageOffset, maxBuffered := state.streamId, state.storageOffset, state.maxBuffered;
      buffer, received, cells := state.buffer, state.received, state.cells;
      this.pending := pending;
      finalSize, receivedTotal, highestReceivedEnd := state.finalSize, state.receivedTotal, state.highestReceivedEnd;
    }

    method InsertTracked(frame: StreamFrame) returns (r: Result<nat>)
      requires Valid()
      modifies this, pending
      ensures Valid()
      ensures match ShadowRefusal(old(View()), old(pending.items), frame)
        case Some(e) => r == Err(e) && View() == old(View()) && pending.items == old(pending.items)
        case None =>
          && r == Ok(ShadowGain(old(View()), old(pending.items), frame))
          && View() == ShadowAccept(old(View()), old(pending.items), frame)
          && pending.items == Remember(old(View()), old(pending.items), frame)
    {
      if frame.streamId != streamId { return Err(WrongStream); }
      var absoluteEnd := frame.offset + |frame.data|;
      if absoluteEnd > MAX_U64 { return Err(InvalidStreamRange); }
      if finalSize.Some? {
        if absoluteEnd > finalSize.value { return Err(FinalSizeMismatch); }
        if frame.fin && absoluteEnd != finalSize.value { return Err(FinalSizeMismatch); }
      }
      if absoluteEnd <= storageOffset {
        if frame.fin && absoluteEnd < highestReceivedEnd { return Err(FinalSizeMismatch); }
        if frame.fin { finalSize := Some(absoluteEnd); }
        return Ok(0);
      }
      if absoluteEnd - storageOffset > maxBuffered { return Err(StreamBufferTooLarge); }
      var scan := Scan(frame);
      if scan.Err? { return scan; }
      if frame.fin && absoluteEnd < highestReceivedEnd { return Err(FinalSizeMismatch); }
      pending.items := pending.items + [frame];
      receivedTotal := Min(receivedTotal + scan.value, MAX_U64);
      highestReceivedEnd := Max(highestReceivedEnd, absoluteEnd);
      if frame.fin { finalSize := Some(absoluteEnd); }
      r := scan;
    }

    /** Visit every incoming byte: compare it with what is known, or count it as new. */
    method Scan(frame: StreamFrame) returns (r: Result<nat>)
      requires Valid()
      requires storageOffset < frame.End()
      ensures r == if Disagrees(View(), pending.items, frame) then Err(ConflictingStreamData)
                   else Ok(Unknown(View(), pending.items, Max(frame.offset, storageOffset), frame.End()))
    {
      ghost var p, items := View(), pending.items;
      var retainedOffset := Max(frame.offset, storageOffset);
      var newlyReceived: nat := 0;
      var absolute := retainedOffset;
      while absolute < frame.End()
        invariant retainedOffset <= absolute <= frame.End()
        invariant newlyReceived == Unknown(p, items, retainedOffset, absolute)
        invariant forall x :: retainedOffset <= x < absolute && Lookup(p, items, x).Some? ==>
          Lookup(p, items, x).value == frame.data[x - frame.offset]
      {
        var incoming := frame.data[absolute - frame.offset];
        var relative := absolute - storageOffset;
        if relative < |received| && received[relative] {
          if buffer[relative] != incoming {
            assert DisagreesAt(p, items, frame, absolute);
            return Err(ConflictingStreamData);
          }
        } else {
          var known := FindPending(absolute);
          if known.Some? && known.value != incoming {
            assert DisagreesAt(p, items, frame, absolute);
            return Err(ConflictingStreamData);
          }
          if known.None? { newlyReceived := newlyReceived + 1; }
        }
        absolute := absolute + 1;
      }
      r := Ok(newlyReceived);
    }

    method FindPending(absolute: nat) returns (r: Option<Byte>)
      ensures r == FirstPending(pending.items, streamId, absolute)
    {
      var i := 0;
      while i < |pending.items|
        invariant 0 <= i <= |pending.items|
        invariant FirstPending(pending.items, streamId, absolute) == FirstPending(pending.items[i..], streamId, absolute)
      {
        var prior := pending.items[i];
        if prior.streamId == streamId && prior.offset <= absolute < prior.End() {
          return Some(prior.data[absolute - prior.offset]);
        }
        assert pending.items[i..][1..] == pending.items[i + 1..];
        i := i + 1;
      }
      r := None;
    }
  }

  // ----- Simulation -----

  ghost predicate Simulates(p: Shadow, pending: seq<StreamFrame>, s: Recv) {
    && p.streamId == s.streamId && p.limit == s.limit && p.base == s.base
    && p.finalSize == s.finalSize
    && p.total == Total(s) && p.high == High(s)
    && forall x :: x >= p.base ==> Lookup(p, pending, x) == ByteAt(s, x)
  }

  lemma ShadowStartsExact(s: Recv)
    ensures Simulates(ShadowOf(s), [], s)
  {
  }

  lemma {:induction false} FirstPendingAppend(pending: seq<StreamFrame>, f: StreamFrame, id: nat, x: nat)
    ensures FirstPending(pending + [f], id, x) ==
      if FirstPending(pending, id, x).Some? then FirstPending(pending, id, x)
      else if Holds(f, id, x) then Some(f.data[x - f.offset]) else None
  {
    if pending == [] {
      assert [f][1..] == [];
    } else {
      assert (pending + [f])[1..] == pending[1..] + [f];
      FirstPendingAppend(pending[1..], f, id, x);
    }
  }

  lemma {:induction false} UnknownIsFresh(p: Shadow, pending: seq<StreamFrame>, s: Recv, at: nat, n: nat)
    requires Simulates(p, pending, s)
    ensures Unknown(p, pending, s.base + at, s.base + at + n) == Fresh(s.cells, at, n)
  {
    if n > 0 {
      UnknownIsFresh(p, pending, s, at, n - 1);
      assert Lookup(p, pending, s.base + at + n - 1) == ByteAt(s, s.base + at + n - 1);
    }
  }

  /** At one offset, the shadow and the receive state see the same clash. */
  lemma SameClash(p: Shadow, pending: seq<StreamFrame>, s: Recv, f: StreamFrame, at: nat, data: seq<Byte>, k: nat)
    requires p.base == s.base < f.End() && Lookup(p, pending, s.base + k) == ByteAt(s, s.base + k)
    requires at == Slot(s.base, f) && data == Retained(s.base, f)
    ensures DisagreesAt(p, pending, f, s.base + k) <==> ConflictAt(s.cells, at, data, k)
  {
    var x := s.base + k;
    assert Max(f.offset, s.base) <= x < f.End() <==> at <= k < at + |data|;
    if at <= k < at + |data| {
      RetainedAt(s.base, f, x);
    }
  }

  lemma DisagreesIffConflicts(p: Shadow, pending: seq<StreamFrame>, s: Recv, f: StreamFrame)
    requires Simulates(p, pending, s) && s.base < f.End()
    ensures Disagrees(p, pending, f) <==> Conflicts(s.cells, Slot(s.base, f), Retained(s.base, f))
  {
    var at, data := Slot(s.base, f), Retained(s.base, f);
    if Disagrees(p, pending, f) {
      var x: nat :| DisagreesAt(p, pending, f, x);
      assert Lookup(p, pending, x) == ByteAt(s, x);
      SameClash(p, pending, s, f, at, data, x - s.base);
    }
    if Conflicts(s.cells, at, data) {
      var k: nat :| ConflictAt(s.cells, at, data, k);
      assert Lookup(p, pending, s.base + k) == ByteAt(s, s.base + k);
      SameClash(p, pending, s, f, at, data, k);
    }
  }

  /** The shadow refuses exactly the frames the receive state refuses, for the same reason. */
  lemma SameVerdict(p: Shadow, pending: seq<StreamFrame>, s: Recv, f: StreamFrame)
    requires Simulates(p, pending, s)
    ensures ShadowRefusal(p, pending, f) == Refusal(s, f)
    ensures ShadowGain(p, pending, f) == Gain(s, f)
  {
    if s.base < f.End() {
      DisagreesIffConflicts(p, pending, s, f);
      UnknownIsFresh(p, pending, s, Slot(s.base, f), |Retained(s.base, f)|);
    }
  }

  /** A write that conflicts with nothing keeps every filled cell. */
  lemma OverlayAt(cells: seq<Option<Byte>>, at: nat, data: seq<Byte>, k: nat)
    requires !Conflicts(cells, at, data)
    ensures var after := Overlay(cells, at, data);
      (if k < |after| then after[k] else None) ==
      (if k < |cells| && cells[k].Some? then cells[k] else if at <= k < at + |data| then Some(data[k - at]) else None)
  {
    var after := Overlay(cells, at, data);
    assert !ConflictAt(cells, at, data, k);
  }

  lemma AcceptedByte(s: Recv, f: StreamFrame, t: Recv, at: nat, data: seq<Byte>, x: nat)
    requires s.base <= x && !Conflicts(s.cells, at, data)
    requires at <= x - s.base < at + |data| <==> f.offset <= x < f.End()
    requires f.offset <= x < f.End() ==> data[x - s.base - at] == f.data[x - f.offset]
    requires t.base == s.base && t.cells == Overlay(s.cells, at, data)
    ensures ByteAt(t, x) ==
      if ByteAt(s, x).Some? then ByteAt(s, x)
      else if f.offset <= x < f.End() then Some(f.data[x - f.offset]) else None
  {
    OverlayAt(s.cells, at, data, x - s.base);
  }

  /** Looking a byte up among the frames with one more at the end. */
  lemma LookupRemembered(p: Shadow, pending: seq<StreamFrame>, f: StreamFrame, x: nat)
    requires f.streamId == p.streamId
    ensures Lookup(p, pending + [f], x) ==
      if Lookup(p, pending, x).Some? then Lookup(p, pending, x)
      else if f.offset <= x < f.End() then Some(f.data[x - f.offset]) else None
  {
    FirstPendingAppend(pending, f, p.streamId, x);
  }

  lemma AcceptKeepsBytes(p: Shadow, pending: seq<StreamFrame>, s: Recv, f: StreamFrame, x: nat)
    requires p.base == s.base && p.streamId == s.streamId && Lookup(p, pending, x) == ByteAt(s, x)
    requires Refusal(s, f).None? && x >= s.base
    ensures Lookup(p, Remember(p, pending, f), x) == ByteAt(Accept(s, f), x)
  {
    if s.base < f.End() {
      LookupRemembered(p, pending, f, x);
      RetainedByte(s.base, f, Slot(s.base, f), Retained(s.base, f), x);
      AcceptedByte(s, f, Accept(s, f), Slot(s.base, f), Retained(s.base, f), x);
    }
  }

  /** Accepting a frame on both sides keeps the shadow exact. */
  lemma AcceptKeepsSimulation(p: Shadow, pending: seq<StreamFrame>, s: Recv, f: StreamFrame)
    requires WellFormed(s) && Simulates(p, pending, s) && Refusal(s, f).None?
    ensures Simulates(ShadowAccept(p, pending, f), Remember(p, pending, f), Accept(s, f))
  {
    AcceptKeepsCounters(p, pending, s, f);
    var p', list := ShadowAccept(p, pending, f), Remember(p, pending, f);
    SameBorrowedBytes(p, pending, f, list);
    forall x: nat | x >= p.base ensures Lookup(p', list, x) == ByteAt(Accept(s, f), x) {
      assert Lookup(p, pending, x) == ByteAt(s, x);
      AcceptKeepsBytes(p, pending, s, f, x);
    }
  }

  lemma AcceptKeepsCounters(p: Shadow, pending: seq<StreamFrame>, s: Recv, f: StreamFrame)
    requires WellFormed(s) && Simulates(p, pending, s) && Refusal(s, f).None?
    ensures var p', s' := ShadowAccept(p, pending, f), Accept(s, f);
      && p'.streamId == s'.streamId && p'.limit == s'.limit && p'.base == s'.base
      && p'.finalSize == s'.finalSize && p'.total == Total(s') && p'.high == High(s')
  {
    SameVerdict(p, pending, s, f);
    AcceptKeepsWellFormed(s, f);
  }

  lemma SameBorrowedBytes(p: Shadow, pending: seq<StreamFrame>, f: StreamFrame, list: seq<StreamFrame>)
    ensures var p' := ShadowAccept(p, pending, f);
      && p'.streamId == p.streamId && p'.base == p.base && p'.cells == p.cells
      && forall x :: Lookup(p', list, x) == Lookup(p, list, x)
  {
  }

  /** Frames of other streams in the shared list do not matter. */
  lemma ForeignFrameKeepsSimulation(p: Shadow, pending: seq<StreamFrame>, s: Recv, f: StreamFrame)
    requires Simulates(p, pending, s) && f.streamId != p.streamId
    ensures Simulates(p, pending + [f], s)
  {
    forall x | x >= p.base ensures Lookup(p, pending + [f], x) == ByteAt(s, x) {
      assert Lookup(p, pending, x) == ByteAt(s, x);
      FirstPendingAppend(pending, f, p.streamId, x);
    }
  }

  // ----- Whole packets over many streams -----

  /** The receive state of a stream; the first frame of a stream creates it. */
  function StateOf(m: map<nat, Recv>, limit: nat, id: nat): Recv {
    if id in m then m[id] else Initial(id, limit)
  }

  function ShadowFor(m: map<nat, Recv>, shadows: map<nat, Shadow>, limit: nat, id: nat): Shadow {
    if id in shadows then shadows[id] else ShadowOf(StateOf(m, limit, id))
  }

  /** Insert a packet's frames one by one, stopping at the first refusal. */
  ghost function ApplyPacket(m: map<nat, Recv>, limit: nat, fs: seq<StreamFrame>): seq<Result<nat>>
    decreases |fs|
  {
    if fs == [] then []
    else
      var s := StateOf(m, limit, fs[0].streamId);
      match Refusal(s, fs[0])
      case Some(e) => [Err(e)]
      case None => [Ok(Gain(s, fs[0]))] + ApplyPacket(m[fs[0].streamId := Accept(s, fs[0])], limit, fs[1..])
  }

  /** Validate a packet's frames against shadows of `m`, which stays untouched. */
  ghost function PreflightPacket(
    m: map<nat, Recv>, limit: nat, shadows: map<nat, Shadow>, pending: seq<StreamFrame>, fs: seq<StreamFrame>): seq<Result<nat>>
    decreases |fs|
  {
    if fs == [] then []
    else
      var f := fs[0];
      var p := ShadowFor(m, shadows, limit, f.streamId);
      match ShadowRefusal(p, pending, f)
      case Some(e) => [Err(e)]
      case None =>
        [Ok(ShadowGain(p, pending, f))] +
        PreflightPacket(m, limit, shadows[f.streamId := ShadowAccept(p, pending, f)], Remember(p, pending, f), fs[1..])
  }

  ghost predicate SimulatedAt(
    m0: map<nat, Recv>, shadows: map<nat, Shadow>, pending: seq<StreamFrame>, m: map<nat, Recv>, limit: nat, id: nat)
  {
    && WellFormed(StateOf(m, limit, id)) && StateOf(m, limit, id).streamId == id
    && Simulates(ShadowFor(m0, shadows, limit, id), pending, StateOf(m, limit, id))
  }

  lemma SimulatedAtNext(
    m0: map<nat, Recv>, shadows: map<nat, Shadow>, pending: seq<StreamFrame>, m: map<nat, Recv>, limit: nat, f: StreamFrame, id: nat)
    requires SimulatedAt(m0, shadows, pending, m, limit, f.streamId)
    requires SimulatedAt(m0, shadows, pending, m, limit, id)
    requires Refusal(StateOf(m, limit, f.streamId), f).None?
    ensures var p, s := ShadowFor(m0, shadows, limit, f.streamId), StateOf(m, limit, f.streamId);
      SimulatedAt(m0, shadows[f.streamId := ShadowAccept(p, pending, f)], Remember(p, pending, f),
                  m[f.streamId := Accept(s, f)], limit, id)
  {
    var p, s := ShadowFor(m0, shadows, limit, f.streamId), StateOf(m, limit, f.streamId);
    if id == f.streamId {
      AcceptKeepsSimulation(p, pending, s, f);
      AcceptKeepsWellFormed(s, f);
    } else {
      ForeignFrameKeepsSimulation(ShadowFor(m0, shadows, limit, id), pending, StateOf(m, limit, id), f);
    }
  }

  lemma {:induction false} PreflightAgreesFrom(
    m0: map<nat, Recv>, shadows: map<nat, Shadow>, pending: seq<StreamFrame>, m: map<nat, Recv>, limit: nat, fs: seq<StreamFrame>)
    requires forall id: nat :: SimulatedAt(m0, shadows, pending, m, limit, id)
    ensures PreflightPacket(m0, limit, shadows, pending, fs) == ApplyPacket(m, limit, fs)
    decreases |fs|
  {
    if fs != [] {
      var f := fs[0];
      var p, s := ShadowFor(m0, shadows, limit, f.streamId), StateOf(m, limit, f.streamId);
      assert SimulatedAt(m0, shadows, pending, m, limit, f.streamId);
      SameVerdict(p, pending, s, f);
      if Refusal(s, f).None? {
        var shadows' := shadows[f.streamId := ShadowAccept(p, pending, f)];
        var m' := m[f.streamId := Accept(s, f)];
        forall id: nat ensures SimulatedAt(m0, shadows', Remember(p, pending, f), m', limit, id) {
          SimulatedAtNext(m0, shadows, pending, m, limit, f, id);
        }
        PreflightAgreesFrom(m0, shadows', Remember(p, pending, f), m', limit, fs[1..]);
      }
    }
  }

  /**
   Validating a packet of any frames over any streams gives, frame by frame, the
   credit or the refusal that applying it gives.  In particular a packet that
   passes preflight is applied without any refusal: it is all or nothing.
   */
  lemma PreflightIsExact(m: map<nat, Recv>, limit: nat, fs: seq<StreamFrame>)
    requires forall id :: id in m ==> WellFormed(m[id]) && m[id].streamId == id
    ensures PreflightPacket(m, limit, map[], [], fs) == ApplyPacket(m, limit, fs)
  {
    forall id: nat ensures SimulatedAt(m, map[], [], m, limit, id) {
      ShadowStartsExact(StateOf(m, limit, id));
    }
    PreflightAgreesFrom(m, map[], [], m, limit, fs);
  }
}
