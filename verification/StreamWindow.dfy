/**
 The receive window over whole runs (src/quic/stream.zig, `compactConsumedPrefix` and the
 window test of `insertTracked`): reading moves it, so a stream of any length passes
 through a window of any size; and a final size, once known, never changes.
 */
module StreamWindow {
  import opened Base
  import opened RecvStream
  import opened Reassembly

  // ----- Bytes read but still held -----

  /** The window starts at the cursor, or holds less than half of itself, and of the limit, in read bytes. */
  ghost predicate SlackIsSmall(s: Recv) {
    s.base == s.read || (s.base < s.read && s.read - s.base < |s.cells| / 2 && s.read - s.base < s.limit / 2)
  }

  lemma DeliverKeepsSlackSmall(s: Recv, f: StreamFrame, t: Recv)
    requires SlackIsSmall(s) && t == Accept(s, f)
    ensures SlackIsSmall(t) && t.limit == s.limit
  {
    assert t.base == s.base && t.read == s.read && |t.cells| >= |s.cells|;
  }

  lemma ReadKeepsSlackSmall(s: Recv, len: nat, t: Recv)
    requires WellFormed(s) && SlackIsSmall(s) && t == Consume(s, len).0
    ensures SlackIsSmall(t) && t.limit == s.limit
  {
    ConsumeExactly(s, len);
  }

  lemma StepKeepsSlackSmall(s: Recv, e: Event)
    requires WellFormed(s) && SlackIsSmall(s)
    ensures SlackIsSmall(Step(s, e)) && Step(s, e).limit == s.limit
  {
    match e {
      case Deliver(f) => DeliverKeepsSlackSmall(s, f, Accept(s, f));
      case Read(len) => ReadKeepsSlackSmall(s, len, Consume(s, len).0);
    }
  }

  lemma {:induction false} SlackIsAlwaysSmall(id: nat, limit: nat, es: seq<Event>)
    ensures SlackIsSmall(After(Initial(id, limit), es)) && After(Initial(id, limit), es).limit == limit
  {
    if es != [] {
      SlackIsAlwaysSmall(id, limit, es[..|es| - 1]);
      StepKeepsSlackSmall(After(Initial(id, limit), es[..|es| - 1]), es[|es| - 1]);
    }
  }

  // ----- Which frames of a body of any length fit -----

  /** A frame of the body is refused exactly when it ends beyond the window. */
  lemma RefusedExactlyBeyondWindow(id: nat, limit: nat, body: seq<Byte>, es: seq<Event>, f: StreamFrame)
    requires |body| <= MAX_U64
    requires forall i :: 0 <= i < |es| ==> Fits(id, body, es[i])
    requires f.streamId == id && CutFrom(body, f)
    ensures var s := After(Initial(id, limit), es);
      Refusal(s, f) == if f.End() > s.base && f.End() > s.base + limit then Some(StreamBufferTooLarge) else None
  {
    ApplicationReadsAPrefix(id, limit, body, es);
    DeliverKeepsFaithful(After(Initial(id, limit), es), body, f);
    RefusalExactly(After(Initial(id, limit), es), f, f.End());
  }

  /** From the cursor on at least half the limit is always open, however long the body and the run. */
  lemma HalfTheWindowIsOpen(id: nat, limit: nat, body: seq<Byte>, es: seq<Event>, f: StreamFrame)
    requires |body| <= MAX_U64
    requires forall i :: 0 <= i < |es| ==> Fits(id, body, es[i])
    requires f.streamId == id && CutFrom(body, f)
    requires f.End() <= After(Initial(id, limit), es).read + (limit - limit / 2)
    ensures Refusal(After(Initial(id, limit), es), f).None?
  {
    SlackIsAlwaysSmall(id, limit, es);
    RefusedExactlyBeyondWindow(id, limit, body, es, f);
  }

  /** Once all that was received has been read, the whole limit is open. */
  lemma WholeWindowIsOpenAfterDrain(id: nat, limit: nat, body: seq<Byte>, es: seq<Event>, f: StreamFrame)
    requires |body| <= MAX_U64
    requires forall i :: 0 <= i < |es| ==> Fits(id, body, es[i])
    requires f.streamId == id && CutFrom(body, f)
    requires var s := After(Initial(id, limit), es); s.read == High(s) && f.End() <= s.read + limit
    ensures Refusal(After(Initial(id, limit), es), f).None?
  {
    SlackIsAlwaysSmall(id, limit, es);
    RefusedExactlyBeyondWindow(id, limit, body, es, f);
  }

  /** Byte 0 and, behind a gap, byte 4 in a window of 8. */
  function GapState(read: nat): Recv {
    Recv(0, 8, 0, [Some(7), None, None, None, Some(7)], read, None)
  }

  lemma GapStateFacts(read: nat)
    requires read <= 1
    ensures WellFormed(GapState(read)) && Contiguous(GapState(read)) == 1
  {
    RunUnique(GapState(read).cells, 1);
  }

  lemma GapRead()
    requires WellFormed(GapState(0)) && Contiguous(GapState(0)) == 1
    ensures Consume(GapState(0), 1).0 == GapState(1)
  {
    var s, t := GapState(0), Consume(GapState(0), 1).0;
    ConsumeExactly(s, 1);
    assert t.cells == s.cells[0..] == s.cells;
  }

  lemma GapRefuses(f: StreamFrame)
    requires f == StreamFrame(0, 8, [7], false)
    ensures Refusal(GapState(1), f) == Some(StreamBufferTooLarge)
  {
    RefusalExactly(GapState(1), f, 9);
  }

  /** Reading all contiguous bytes is not enough for that while later bytes are held behind a gap. */
  lemma GapHoldsTheWindowBack()
    ensures WellFormed(GapState(0)) && Consume(GapState(0), 1).0 == GapState(1) && Contiguous(GapState(1)) == 1
    ensures Refusal(GapState(1), StreamFrame(0, 8, [7], false)) == Some(StreamBufferTooLarge)
  {
    GapStateFacts(0);
    GapStateFacts(1);
    GapRead();
    GapRefuses(StreamFrame(0, 8, [7], false));
  }

  // ----- Any body through any window -----

  /** Where the `n`-th piece of at most `size` bytes starts. */
  function Cut(body: seq<Byte>, size: nat, n: nat): (o: nat)
    ensures o <= |body|
  {
    if n == 0 then 0 else Min(Cut(body, size, n - 1) + size, |body|)
  }

  function Piece(id: nat, body: seq<Byte>, size: nat, n: nat): (f: StreamFrame)
    ensures f.offset == Cut(body, size, n) && f.End() == Cut(body, size, n + 1)
  {
    var from, to := Cut(body, size, n), Cut(body, size, n + 1);
    StreamFrame(id, from, body[from..to], to == |body|)
  }

  /** Deliver the first `n` pieces in order, reading each as it comes. */
  function Feed(id: nat, body: seq<Byte>, size: nat, n: nat): seq<Event> {
    if n == 0 then []
    else
      var f := Piece(id, body, size, n - 1);
      Feed(id, body, size, n - 1) + [Deliver(f)] + [Read(|f.data|)]
  }

  lemma AfterNext(s: Recv, es: seq<Event>, e: Event)
    requires WellFormed(s)
    ensures After(s, es + [e]) == Step(After(s, es), e)
    ensures Output(s, es + [e]) == Output(s, es) + Handed(After(s, es), e)
  {
    assert (es + [e])[..|es|] == es;
  }

  function Filled(data: seq<Byte>): (r: seq<Option<Byte>>)
    ensures |r| == |data| && forall k :: 0 <= k < |r| ==> r[k] == Some(data[k])
  {
    seq(|data|, k requires 0 <= k < |data| => Some(data[k]))
  }

  /** An empty window at offset `at`. */
  function Empty(id: nat, limit: nat, at: nat, finalSize: Option<nat>): Recv {
    Recv(id, limit, at, [], at, finalSize)
  }

  /** A frame at the start of an empty window is accepted and fills it with its bytes. */
  lemma DeliverIntoEmpty(s: Recv, f: StreamFrame)
    requires s == Empty(f.streamId, s.limit, f.offset, s.finalSize)
    requires |f.data| <= s.limit && f.End() <= MAX_U64
    requires s.finalSize.Some? ==> s.finalSize.value == f.End() && f.fin
    ensures WellFormed(s) && Refusal(s, f).None?
    ensures Accept(s, f) == s.(cells := Filled(f.data), finalSize := if f.fin then Some(f.End()) else s.finalSize)
  {
    RefusalExactly(s, f, f.End());
    if f.data != [] {
      assert Retained(s.base, f) == f.data;
      assert Overlay([], 0, f.data) == Filled(f.data);
    }
  }

  lemma FilledIsContiguous(s: Recv, data: seq<Byte>)
    requires WellFormed(s) && s.cells == Filled(data) && s.read == s.base
    ensures Contiguous(s) == s.base + |data| && Available(s) == data
  {
    RunUnique(s.cells, |s.cells|);
    assert forall k :: 0 <= k < |Available(s)| ==> Some(Available(s)[k]) == s.cells[k];
  }

  /** Reading all that a window holds leaves it empty. */
  lemma DrainAll(s: Recv, len: nat)
    requires WellFormed(s) && s.read == s.base && len == |s.cells| && Contiguous(s) == s.base + len
    ensures Consume(s, len).0 == Empty(s.streamId, s.limit, s.base + len, s.finalSize)
  {
    ConsumeExactly(s, len);
    var t := Consume(s, len).0;
    if len > 0 {
      assert !(len < len / 2);
      assert t.base == t.read == s.base + len && t.cells == [];
    }
  }

  /** One piece into an empty window: all of it comes out, and the window is empty again. */
  lemma OnePiece(s: Recv, f: StreamFrame, t: Recv)
    requires s == Empty(f.streamId, s.limit, f.offset, s.finalSize)
    requires |f.data| <= s.limit && f.End() <= MAX_U64
    requires s.finalSize.Some? ==> s.finalSize.value == f.End() && f.fin
    requires t == s.(cells := Filled(f.data), finalSize := if f.fin then Some(f.End()) else s.finalSize)
    ensures WellFormed(s) && Refusal(s, f).None? && Accept(s, f) == t
    ensures WellFormed(t) && Available(t) == f.data
    ensures Consume(t, |f.data|).0 == Empty(f.streamId, s.limit, f.End(), t.finalSize)
  {
    DeliverIntoEmpty(s, f);
    AcceptKeepsWellFormed(s, f);
    FilledIsContiguous(t, f.data);
    DrainAll(t, |f.data|);
  }

  lemma FeedStep(s0: Recv, es: seq<Event>, f: StreamFrame, s: Recv, t: Recv)
    requires WellFormed(s0) && After(s0, es) == s && WellFormed(s) && Refusal(s, f).None? && Accept(s, f) == t
    requires WellFormed(t) && Available(t) == f.data
    ensures After(s0, es + [Deliver(f)] + [Read(|f.data|)]) == Consume(t, |f.data|).0
    ensures Output(s0, es + [Deliver(f)] + [Read(|f.data|)]) == Output(s0, es) + [] + f.data
  {
    AfterNext(s0, es, Deliver(f));
    AfterNext(s0, es + [Deliver(f)], Read(|f.data|));
    assert f.data[..|f.data|] == f.data;
  }

  /**
   A stream of any length passes through a window of any positive size: fed in order in
   pieces no larger than the window, every piece is accepted, and the application has read
   everything fed so far.
   */
  lemma {:induction false} AnyBodyFitsAnyWindow(id: nat, limit: nat, body: seq<Byte>, size: nat, n: nat)
    requires 0 < size <= limit && |body| <= MAX_U64
    ensures After(Initial(id, limit), Feed(id, body, size, n)) ==
      Empty(id, limit, Cut(body, size, n), if n > 0 && Cut(body, size, n) == |body| then Some(|body|) else None)
    ensures Output(Initial(id, limit), Feed(id, body, size, n)) == body[..Cut(body, size, n)]
  {
    if n > 0 {
      AnyBodyFitsAnyWindow(id, limit, body, size, n - 1);
      var s0, es, f := Initial(id, limit), Feed(id, body, size, n - 1), Piece(id, body, size, n - 1);
      var s := After(s0, es);
      var t := s.(cells := Filled(f.data), finalSize := if f.fin then Some(f.End()) else s.finalSize);
      OnePiece(s, f, t);
      FeedStep(s0, es, f, s, t);
      OutputGrows(body, f.offset, f.End(), f.data);
    }
  }

  lemma OutputGrows(body: seq<Byte>, from: nat, to: nat, data: seq<Byte>)
    requires from <= to <= |body| && data == body[from..to]
    ensures body[..from] + [] + data == body[..to]
  {
  }

  /** Enough pieces deliver the whole body and complete the stream. */
  lemma FeedingCompletes(id: nat, limit: nat, body: seq<Byte>, size: nat, n: nat)
    requires 0 < size <= limit && |body| <= MAX_U64 && n > 0 && n >= |body|
    ensures Output(Initial(id, limit), Feed(id, body, size, n)) == body
    ensures Complete(After(Initial(id, limit), Feed(id, body, size, n)))
  {
    AnyBodyFitsAnyWindow(id, limit, body, size, n);
    CutReaches(body, size, n);
    assert body[..|body|] == body;
  }

  lemma {:induction false} CutReaches(body: seq<Byte>, size: nat, n: nat)
    requires size > 0
    ensures Cut(body, size, n) >= Min(n, |body|)
  {
    if n > 0 {
      CutReaches(body, size, n - 1);
    }
  }

  // ----- The final size -----

  /** Once known, the final size never changes, and no byte beyond it is ever accepted. */
  lemma {:induction false} FinalSizeIsFixed(s: Recv, es: seq<Event>)
    requires WellFormed(s) && s.finalSize.Some?
    ensures After(s, es).finalSize == s.finalSize
    ensures forall i :: 0 <= i < |Accepted(s, es)| ==>
      Accepted(s, es)[i].End() <= s.finalSize.value && (Accepted(s, es)[i].fin ==> Accepted(s, es)[i].End() == s.finalSize.value)
  {
    if es != [] {
      var front, last := es[..|es| - 1], es[|es| - 1];
      FinalSizeIsFixed(s, front);
      match last {
        case Deliver(f) => RefusalExactly(After(s, front), f, f.End());
        case Read(len) => ConsumeExactly(After(s, front), len);
      }
    }
  }
}
