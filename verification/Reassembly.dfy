/**
 Whole runs of a receive stream: any number of STREAM frames, delivered in any
 order, repeated or overlapping, interleaved with application reads of any size.
 */
module Reassembly {
  import opened Base
  import opened RecvStream

  datatype Event = Deliver(frame: StreamFrame) | Read(len: nat)

  /** Absolute offset `x` has been received. */
  ghost predicate Has(s: Recv, x: nat) {
    x < s.base || (x < High(s) && s.cells[x - s.base].Some?)
  }

  predicate Covers(f: StreamFrame, x: nat) {
    f.offset <= x < f.End()
  }

  ghost predicate CoveredBy(fs: seq<StreamFrame>, x: nat) {
    exists i :: 0 <= i < |fs| && Covers(fs[i], x)
  }

  ghost predicate ClosedBy(fs: seq<StreamFrame>) {
    exists i :: 0 <= i < |fs| && fs[i].fin
  }

  ghost function Step(s: Recv, e: Event): (r: Recv)
    requires WellFormed(s)
    ensures WellFormed(r)
  {
    match e
    case Deliver(f) =>
      if Refusal(s, f).None? then AcceptKeepsWellFormed(s, f); Accept(s, f) else s
    case Read(len) =>
      ConsumeKeepsWellFormed(s, len); Consume(s, len).0
  }

  ghost function After(s: Recv, es: seq<Event>): (r: Recv)
    requires WellFormed(s)
    ensures WellFormed(r)
  {
    if es == [] then s else Step(After(s, es[..|es| - 1]), es[|es| - 1])
  }

  /** The frames of `es` the stream accepted, in order. */
  ghost function Accepted(s: Recv, es: seq<Event>): seq<StreamFrame>
    requires WellFormed(s)
  {
    if es == [] then []
    else
      var front, last := es[..|es| - 1], es[|es| - 1];
      Accepted(s, front) + (if last.Deliver? && Refusal(After(s, front), last.frame).None? then [last.frame] else [])
  }

  /** The bytes handed to the application, in order. */
  ghost function Output(s: Recv, es: seq<Event>): seq<Byte>
    requires WellFormed(s)
  {
    if es == [] then []
    else
      var t, last := After(s, es[..|es| - 1]), es[|es| - 1];
      Output(s, es[..|es| - 1]) + Handed(t, last)
  }

  /** The bytes one event hands to the application. */
  ghost function Handed(s: Recv, e: Event): seq<Byte>
    requires WellFormed(s)
  {
    if e.Read? && e.len <= |Available(s)| then Available(s)[..e.len] else []
  }

  // ----- One step -----

  lemma AcceptHas(s: Recv, f: StreamFrame, x: nat)
    ensures Has(Accept(s, f), x) <==> Has(s, x) || Covers(f, x)
  {
    if s.base < f.End() {
      OverlayHas(s, Accept(s, f), Slot(s.base, f), Retained(s.base, f), x);
    }
  }

  lemma OverlayHas(s: Recv, t: Recv, at: nat, data: seq<Byte>, x: nat)
    requires t.base == s.base && t.cells == Overlay(s.cells, at, data)
    ensures Has(t, x) <==> Has(s, x) || s.base + at <= x < s.base + at + |data|
  {
  }

  ghost predicate SameBytes(s: Recv, t: Recv) {
    forall x: nat :: Has(s, x) <==> Has(t, x)
  }

  /** Dropping an already read prefix forgets no received byte. */
  lemma DropKeepsBytes(s: Recv, t: Recv)
    requires WellFormed(s) && t.base == s.read && t.cells == s.cells[s.read - s.base..]
    ensures SameBytes(s, t)
  {
  }

  lemma ReadKeepsBytes(s: Recv, len: nat, t: Recv)
    requires WellFormed(s) && t == Consume(s, len).0
    ensures SameBytes(s, t)
  {
    if t.base != s.base || t.cells != s.cells {
      DropKeepsBytes(Advance(s, len), t);
    }
  }

  /** The contiguous end is the least offset not received. */
  lemma ContiguousIsFirstGap(s: Recv)
    requires WellFormed(s)
    ensures forall x: nat :: x < Contiguous(s) ==> Has(s, x)
    ensures !Has(s, Contiguous(s))
  {
  }

  // ----- Every run -----

  /** What has been received is exactly what the accepted frames cover. */
  lemma {:induction false} ReceivedIsUnionOfFrames(id: nat, limit: nat, es: seq<Event>, x: nat)
    ensures Has(After(Initial(id, limit), es), x) <==> CoveredBy(Accepted(Initial(id, limit), es), x)
  {
    if es != [] {
      var s0 := Initial(id, limit);
      var front, last := es[..|es| - 1], es[|es| - 1];
      ReceivedIsUnionOfFrames(id, limit, front, x);
      var s, fs := After(s0, front), Accepted(s0, front);
      if last.Read? {
        ReadKeepsBytes(s, last.len, Consume(s, last.len).0);
        assert Accepted(s0, es) == fs;
      } else if Refusal(s, last.frame).None? {
        AcceptHas(s, last.frame, x);
        CoveredByAppend(fs, last.frame, x);
      } else {
        assert Accepted(s0, es) == fs;
      }
    }
  }

  lemma CoveredByAppend(fs: seq<StreamFrame>, f: StreamFrame, x: nat)
    ensures CoveredBy(fs + [f], x) <==> CoveredBy(fs, x) || Covers(f, x)
  {
    if CoveredBy(fs, x) {
      var i :| 0 <= i < |fs| && Covers(fs[i], x);
      assert (fs + [f])[i] == fs[i];
    }
    if Covers(f, x) {
      assert (fs + [f])[|fs|] == f;
    }
  }

  lemma {:induction false} FinalSizeKnownIffFinAccepted(id: nat, limit: nat, es: seq<Event>)
    ensures After(Initial(id, limit), es).finalSize.Some? <==> ClosedBy(Accepted(Initial(id, limit), es))
  {
    if es != [] {
      var s0 := Initial(id, limit);
      var front, last := es[..|es| - 1], es[|es| - 1];
      FinalSizeKnownIffFinAccepted(id, limit, front);
      var s, fs := After(s0, front), Accepted(s0, front);
      if last.Deliver? && Refusal(s, last.frame).None? {
        ClosedByAppend(fs, last.frame);
      } else {
        assert Accepted(s0, es) == fs;
      }
    }
  }

  lemma ClosedByAppend(fs: seq<StreamFrame>, f: StreamFrame)
    ensures ClosedBy(fs + [f]) <==> ClosedBy(fs) || f.fin
  {
    if ClosedBy(fs) {
      var i :| 0 <= i < |fs| && fs[i].fin;
      assert (fs + [f])[i] == fs[i];
    }
    if f.fin {
      assert (fs + [f])[|fs|] == f;
    }
  }

  /**
   The contiguous extent depends only on which frames were accepted: not on their
   order, not on repetition, not on when or how much the application reads.
   */
  lemma OrderDoesNotMatter(id: nat, limit: nat, es: seq<Event>, es': seq<Event>)
    requires forall f :: f in Accepted(Initial(id, limit), es) <==> f in Accepted(Initial(id, limit), es')
    ensures Contiguous(After(Initial(id, limit), es)) == Contiguous(After(Initial(id, limit), es'))
  {
    var s0 := Initial(id, limit);
    var s, s' := After(s0, es), After(s0, es');
    var fs, fs' := Accepted(s0, es), Accepted(s0, es');
    forall x: nat ensures Has(s, x) <==> Has(s', x) {
      ReceivedIsUnionOfFrames(id, limit, es, x);
      ReceivedIsUnionOfFrames(id, limit, es', x);
      CoverageByMembership(fs, fs', x);
      CoverageByMembership(fs', fs, x);
    }
    ContiguousIsFirstGap(s);
    ContiguousIsFirstGap(s');
  }

  lemma CoverageByMembership(fs: seq<StreamFrame>, fs': seq<StreamFrame>, x: nat)
    requires forall f :: f in fs ==> f in fs'
    ensures CoveredBy(fs, x) ==> CoveredBy(fs', x)
  {
    if CoveredBy(fs, x) {
      var i :| 0 <= i < |fs| && Covers(fs[i], x);
      assert fs[i] in fs';
    }
  }

  // ----- Runs over one stream content -----

  /** A frame cut from `body`, closing the stream only at its end. */
  predicate CutFrom(body: seq<Byte>, f: StreamFrame) {
    && f.End() <= |body|
    && f.data == body[f.offset..f.End()]
    && (f.fin ==> f.End() == |body|)
  }

  /** The event reads, or delivers a frame of stream `id` cut from `body`. */
  predicate Fits(id: nat, body: seq<Byte>, e: Event) {
    e.Deliver? ==> e.frame.streamId == id && CutFrom(body, e.frame)
  }

  ghost predicate Matches(cells: seq<Option<Byte>>, base: nat, body: seq<Byte>) {
    && base + |cells| <= |body|
    && forall k :: 0 <= k < |cells| && cells[k].Some? ==> cells[k].value == body[base + k]
  }

  ghost predicate Faithful(s: Recv, body: seq<Byte>) {
    && Matches(s.cells, s.base, body)
    && (s.finalSize.Some? ==> s.finalSize.value == |body|)
  }

  /** `data` is what `body` has from absolute offset `base + at` on. */
  ghost predicate Agrees(data: seq<Byte>, at: nat, base: nat, body: seq<Byte>) {
    && base + at + |data| <= |body|
    && forall j :: 0 <= j < |data| ==> data[j] == body[base + at + j]
  }

  lemma OverlayMatches(cells: seq<Option<Byte>>, base: nat, body: seq<Byte>, at: nat, data: seq<Byte>)
    requires Matches(cells, base, body) && Agrees(data, at, base, body)
    ensures !Conflicts(cells, at, data)
    ensures Matches(Overlay(cells, at, data), base, body)
  {
  }

  lemma RetainedAgrees(base: nat, body: seq<Byte>, f: StreamFrame)
    requires base < f.End() && CutFrom(body, f)
    ensures Agrees(Retained(base, f), Slot(base, f), base, body)
  {
    var at, data := Slot(base, f), Retained(base, f);
    forall j | 0 <= j < |data| ensures data[j] == body[base + at + j] {
      RetainedAt(base, f, base + at + j);
    }
  }

  lemma DeliverKeepsFaithful(s: Recv, body: seq<Byte>, f: StreamFrame)
    requires Faithful(s, body) && CutFrom(body, f) && |body| <= MAX_U64
    requires f.streamId == s.streamId
    ensures Refusal(s, f).Some? ==> Refusal(s, f).value == StreamBufferTooLarge && f.End() > s.base + s.limit
    ensures Faithful(Accept(s, f), body)
  {
    if s.base < f.End() {
      var at, data := Slot(s.base, f), Retained(s.base, f);
      RetainedAgrees(s.base, body, f);
      OverlayMatches(s.cells, s.base, body, at, data);
      assert Accept(s, f).base == s.base && Accept(s, f).cells == Overlay(s.cells, at, data);
    }
  }

  lemma AvailableIsWindow(s: Recv, body: seq<Byte>)
    requires WellFormed(s) && Faithful(s, body)
    ensures Contiguous(s) <= |body|
    ensures Available(s) == body[s.read..Contiguous(s)]
  {
    forall k | 0 <= k < |Available(s)| ensures Available(s)[k] == body[s.read + k] {
      assert s.cells[s.read - s.base + k] == Some(Available(s)[k]);
    }
  }

  lemma ReadKeepsFaithful(s: Recv, body: seq<Byte>, len: nat)
    requires WellFormed(s) && Faithful(s, body)
    ensures Faithful(Consume(s, len).0, body)
    ensures s.read <= Consume(s, len).0.read <= |body|
    ensures (if len <= |Available(s)| then Available(s)[..len] else []) == body[s.read..Consume(s, len).0.read]
  {
    AvailableIsWindow(s, body);
    if 0 < len <= |Available(s)| {
      CompactKeepsFaithful(Advance(s, len), body);
    }
  }

  lemma CompactKeepsFaithful(s: Recv, body: seq<Byte>)
    requires WellFormed(s) && Faithful(s, body) && s.read <= |body|
    ensures Faithful(Compact(s), body)
    ensures Compact(s).read == s.read
  {
    MatchesSuffix(s.cells, s.base, body, s.read - s.base);
  }

  lemma MatchesSuffix(cells: seq<Option<Byte>>, base: nat, body: seq<Byte>, n: nat)
    requires Matches(cells, base, body) && n <= |cells|
    ensures Matches(cells[n..], base + n, body)
  {
  }

  lemma ConsumeKeepsIdentity(s: Recv, len: nat)
    requires WellFormed(s)
    ensures Consume(s, len).0.streamId == s.streamId && Consume(s, len).0.limit == s.limit
  {
  }

  lemma StepHandsNextBytes(s: Recv, body: seq<Byte>, e: Event)
    requires |body| <= MAX_U64
    requires WellFormed(s) && Faithful(s, body)
    requires Fits(s.streamId, body, e)
    ensures var t := Step(s, e);
      && Faithful(t, body)
      && t.streamId == s.streamId && t.limit == s.limit
      && s.read <= t.read <= |body|
      && Handed(s, e) == body[s.read..t.read]
  {
    match e {
      case Deliver(f) =>
        DeliverKeepsFaithful(s, body, f);
        AvailableIsWindow(s, body);
        assert Handed(s, e) == [] == body[s.read..s.read];
      case Read(len) =>
        ReadKeepsFaithful(s, body, len);
        ConsumeKeepsIdentity(s, len);
    }
  }

  /** The state belongs to `body` and `out`, what the application has read, is its first `read` bytes. */
  ghost predicate OnTrack(body: seq<Byte>, id: nat, limit: nat, s: Recv, out: seq<Byte>) {
    && Faithful(s, body)
    && s.streamId == id && s.limit == limit
    && s.read <= |body|
    && out == body[..s.read]
  }

  lemma StepStaysOnTrack(body: seq<Byte>, id: nat, limit: nat, s: Recv, out: seq<Byte>, e: Event)
    requires |body| <= MAX_U64
    requires WellFormed(s) && OnTrack(body, id, limit, s, out) && Fits(id, body, e)
    ensures OnTrack(body, id, limit, Step(s, e), out + Handed(s, e))
  {
    StepHandsNextBytes(s, body, e);
    var next := Step(s, e).read;
    assert body[..s.read] + body[s.read..next] == body[..next];
  }

  /**
   In-order, exactly-once delivery: whatever the network does with frames cut from
   `body`, the application has read exactly the first `read` bytes of `body`.
   */
  lemma {:induction false} ApplicationReadsAPrefix(id: nat, limit: nat, body: seq<Byte>, es: seq<Event>)
    requires |body| <= MAX_U64
    requires forall i :: 0 <= i < |es| ==> Fits(id, body, es[i])
    ensures OnTrack(body, id, limit, After(Initial(id, limit), es), Output(Initial(id, limit), es))
  {
    if es != [] {
      var s0 := Initial(id, limit);
      var front, last := es[..|es| - 1], es[|es| - 1];
      ApplicationReadsAPrefix(id, limit, body, front);
      StepStaysOnTrack(body, id, limit, After(s0, front), Output(s0, front), last);
    }
  }

  ghost predicate AllCovered(fs: seq<StreamFrame>, body: seq<Byte>) {
    forall x: nat :: x < |body| ==> CoveredBy(fs, x)
  }

  /**
   Completeness: the stream is complete exactly when the accepted frames cover the body,
   one of them carried FIN, and everything contiguous was read; and then the application
   has read the whole body.
   */
  lemma CompleteIffAllDelivered(id: nat, limit: nat, body: seq<Byte>, es: seq<Event>)
    requires |body| <= MAX_U64
    requires forall i :: 0 <= i < |es| ==> Fits(id, body, es[i])
    ensures var s, fs := After(Initial(id, limit), es), Accepted(Initial(id, limit), es);
      Complete(s) <==> AllCovered(fs, body) && ClosedBy(fs) && s.read == Contiguous(s)
    ensures Complete(After(Initial(id, limit), es)) ==> Output(Initial(id, limit), es) == body
  {
    var s, fs := After(Initial(id, limit), es), Accepted(Initial(id, limit), es);
    ApplicationReadsAPrefix(id, limit, body, es);
    AvailableIsWindow(s, body);
    FinalSizeKnownIffFinAccepted(id, limit, es);
    forall x: nat ensures Has(s, x) <==> CoveredBy(fs, x) {
      ReceivedIsUnionOfFrames(id, limit, es, x);
    }
    ContiguousIsFirstGap(s);
    assert AllCovered(fs, body) <==> Contiguous(s) == |body|;
    assert s.read == |body| ==> body[..s.read] == body;
  }

  /** With a window as large as the stream no frame cut from it is ever refused. */
  lemma LargeWindowRefusesNothing(id: nat, limit: nat, body: seq<Byte>, es: seq<Event>, f: StreamFrame)
    requires |body| <= MAX_U64 && |body| <= limit
    requires forall i :: 0 <= i < |es| ==> Fits(id, body, es[i])
    requires f.streamId == id && CutFrom(body, f)
    ensures Refusal(After(Initial(id, limit), es), f).None?
  {
    ApplicationReadsAPrefix(id, limit, body, es);
    DeliverKeepsFaithful(After(Initial(id, limit), es), body, f);
  }
}
