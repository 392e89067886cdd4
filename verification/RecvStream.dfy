/**
 Receive half of a QUIC stream (src/quic/stream.zig, `RecvState`).

 `Recv` is the abstract receive state: a window of cells that starts at absolute
 offset `base`, each cell holding a byte or nothing.  Everything else the program
 caches (contiguous end, byte count, highest offset) is derived from the cells.
 The class `RecvState` below is the program's own representation, with its
 parallel arrays, cached cursors and fast paths, proved against `Insert` and
 `Consume`.
 */
module RecvStream {
  import opened Base

  datatype StreamFrame = StreamFrame(streamId: nat, offset: nat, data: seq<Byte>, fin: bool) {
    function End(): nat {
      offset + |data|
    }
  }

  datatype StreamError =
    | WrongStream
    | InvalidStreamRange
    | FinalSizeMismatch
    | StreamBufferTooLarge
    | ConflictingStreamData
    | NothingAvailable

  datatype Result<+T> = Ok(value: T) | Err(error: StreamError)

  datatype Recv = Recv(
    streamId: nat,
    limit: nat,
    base: nat,
    cells: seq<Option<Byte>>,
    read: nat,
    finalSize: Option<nat>)

  // ----- Cells -----

  /** First empty cell at or after index `i`, given as an index. */
  function RunFrom(cells: seq<Option<Byte>>, i: nat): (n: nat)
    requires i <= |cells|
    ensures i <= n <= |cells|
    ensures forall k :: i <= k < n ==> cells[k].Some?
    ensures n < |cells| ==> cells[n].None?
    decreases |cells| - i
  {
    if i < |cells| && cells[i].Some? then RunFrom(cells, i + 1) else i
  }

  /** Length of the longest prefix of filled cells. */
  function Run(cells: seq<Option<Byte>>): nat {
    RunFrom(cells, 0)
  }

  /** Number of filled cells among the first `n`. */
  function Known(cells: seq<Option<Byte>>, n: nat): (c: nat)
    requires n <= |cells|
    ensures c <= n
  {
    if n == 0 then 0 else Known(cells, n - 1) + (if cells[n - 1].Some? then 1 else 0)
  }

  /** The cells after writing `data` at index `at`, padding any gap with empty cells. */
  function Overlay(cells: seq<Option<Byte>>, at: nat, data: seq<Byte>): (r: seq<Option<Byte>>)
    ensures |r| == Max(|cells|, at + |data|)
    ensures forall k :: 0 <= k < |r| ==>
      r[k] == (if at <= k < at + |data| then Some(data[k - at]) else if k < |cells| then cells[k] else None)
  {
    seq(Max(|cells|, at + |data|), k requires 0 <= k < Max(|cells|, at + |data|) =>
      if at <= k < at + |data| then Some(data[k - at]) else if k < |cells| then cells[k] else None)
  }

  /** Cell `k` holds a byte other than the one `data`, placed at `at`, has for it. */
  predicate ConflictAt(cells: seq<Option<Byte>>, at: nat, data: seq<Byte>, k: nat) {
    at <= k < at + |data| && k < |cells| && cells[k].Some? && cells[k].value != data[k - at]
  }

  ghost predicate Conflicts(cells: seq<Option<Byte>>, at: nat, data: seq<Byte>) {
    exists k: nat :: ConflictAt(cells, at, data, k)
  }

  // ----- Abstract receive state -----

  function High(s: Recv): nat {
    s.base + |s.cells|
  }

  function Contiguous(s: Recv): nat {
    s.base + Run(s.cells)
  }

  function Total(s: Recv): nat {
    s.base + Known(s.cells, |s.cells|)
  }

  ghost predicate WellFormed(s: Recv) {
    && s.base <= s.read <= Contiguous(s)
    && |s.cells| <= s.limit
    && High(s) <= MAX_U64
    && (s.finalSize.Some? ==> High(s) <= s.finalSize.value)
  }

  function Initial(streamId: nat, limit: nat): (s: Recv)
    ensures WellFormed(s)
  {
    Recv(streamId, limit, 0, [], 0, None)
  }

  predicate ViolatesFinalSize(known: Option<nat>, f: StreamFrame) {
    known.Some? && (f.End() > known.value || (f.fin && f.End() != known.value))
  }

  /** The part of a frame's data at or above the retained window. */
  function Retained(base: nat, f: StreamFrame): (data: seq<Byte>)
    requires base < f.End()
    ensures Max(f.offset, base) + |data| == f.End()
  {
    f.data[Max(f.offset, base) - f.offset..]
  }

  /** Checks on identity, arithmetic range, final size and window, before any byte is compared. */
  function HeaderRefusal(s: Recv, f: StreamFrame): Option<StreamError> {
    if f.streamId != s.streamId then Some(WrongStream)
    else if f.End() > MAX_U64 then Some(InvalidStreamRange)
    else if ViolatesFinalSize(s.finalSize, f) then Some(FinalSizeMismatch)
    else if f.End() > s.base && f.End() - s.base > s.limit then Some(StreamBufferTooLarge)
    else None
  }

  /** Why a frame is refused, if it is. A conflict is reported before a shrinking FIN. */
  ghost function Refusal(s: Recv, f: StreamFrame): Option<StreamError> {
    if HeaderRefusal(s, f).Some? then HeaderRefusal(s, f)
    else if f.End() > s.base && Conflicts(s.cells, Slot(s.base, f), Retained(s.base, f)) then Some(ConflictingStreamData)
    else if f.fin && f.End() < High(s) then Some(FinalSizeMismatch)
    else None
  }

  /** Index, in the retained window, of the frame's first retained byte. */
  function Slot(base: nat, f: StreamFrame): nat {
    Max(f.offset, base) - base
  }

  function Accept(s: Recv, f: StreamFrame): Recv {
    if f.End() <= s.base then Close(s, f) else Close(Fill(s, Slot(s.base, f), Retained(s.base, f)), f)
  }

  /** Bytes the frame adds to the stream, duplicates excluded. */
  function Gain(s: Recv, f: StreamFrame): nat {
    if f.End() <= s.base then 0 else Fresh(s.cells, Slot(s.base, f), |Retained(s.base, f)|)
  }

  /** What accepting or refusing one STREAM frame means, without the program's bookkeeping. */
  ghost function Insert(s: Recv, f: StreamFrame): (r: (Recv, Result<nat>)) {
    match Refusal(s, f)
    case Some(e) => (s, Err(e))
    case None => (Accept(s, f), Ok(Gain(s, f)))
  }

  function Fill(s: Recv, at: nat, data: seq<Byte>): Recv {
    s.(cells := Overlay(s.cells, at, data))
  }

  function Close(s: Recv, f: StreamFrame): Recv {
    if f.fin then s.(finalSize := Some(f.End())) else s
  }

  function Available(s: Recv): (r: seq<Byte>)
    requires WellFormed(s)
    ensures |r| == Contiguous(s) - s.read
    ensures forall k :: 0 <= k < |r| ==> s.cells[s.read - s.base + k] == Some(r[k])
  {
    seq(Contiguous(s) - s.read, k requires 0 <= k < Contiguous(s) - s.read => s.cells[s.read - s.base + k].value)
  }

  function Advance(s: Recv, len: nat): (r: Recv)
    requires WellFormed(s)
    requires len <= Contiguous(s) - s.read
    ensures WellFormed(r)
    ensures Contiguous(r) == Contiguous(s) && Total(r) == Total(s) && High(r) == High(s)
  {
    s.(read := s.read + len)
  }

  /** Advance the application cursor; the window may keep or drop the consumed prefix. */
  function Consume(s: Recv, len: nat): (r: (Recv, Result<()>))
    requires WellFormed(s)
  {
    if len == 0 then (s, Ok(()))
    else if len > Contiguous(s) - s.read then (s, Err(NothingAvailable))
    else (Compact(Advance(s, len)), Ok(()))
  }

  function Compact(s: Recv): Recv
    requires s.base <= s.read <= s.base + |s.cells|
  {
    var consumed := s.read - s.base;
    if consumed == 0 || (consumed < |s.cells| / 2 && consumed < s.limit / 2) then s
    else s.(base := s.read, cells := s.cells[consumed..])
  }

  predicate Complete(s: Recv) {
    s.finalSize.Some? && Contiguous(s) >= s.finalSize.value && s.read >= s.finalSize.value
  }

  /** Number of cells among the `n` starting at `at` that are not yet filled. */
  function Fresh(cells: seq<Option<Byte>>, at: nat, n: nat): (c: nat)
    ensures c <= n
  {
    if n == 0 then 0
    else Fresh(cells, at, n - 1) + (if at + n - 1 < |cells| && cells[at + n - 1].Some? then 0 else 1)
  }

  // ----- Cell lemmas -----

  lemma RunUnique(cells: seq<Option<Byte>>, n: nat)
    requires n <= |cells|
    requires forall k :: 0 <= k < n ==> cells[k].Some?
    requires n < |cells| ==> cells[n].None?
    ensures Run(cells) == n
  {
  }

  lemma {:induction false} KnownAgree(a: seq<Option<Byte>>, b: seq<Option<Byte>>, n: nat)
    requires n <= |a| && n <= |b|
    requires forall k :: 0 <= k < n ==> a[k].Some? == b[k].Some?
    ensures Known(a, n) == Known(b, n)
  {
    if n > 0 {
      KnownAgree(a, b, n - 1);
    }
  }

  lemma {:induction false} KnownAllFilled(cells: seq<Option<Byte>>, n: nat)
    requires n <= Run(cells)
    ensures Known(cells, n) == n
  {
    if n > 0 {
      KnownAllFilled(cells, n - 1);
    }
  }

  lemma {:induction false} KnownPadding(cells: seq<Option<Byte>>, m: nat, n: nat)
    requires m <= n <= |cells|
    requires forall k :: m <= k < n ==> cells[k].None?
    ensures Known(cells, n) == Known(cells, m)
  {
    if m < n {
      KnownPadding(cells, m, n - 1);
    }
  }

  lemma {:induction false} KnownUpdate(cells: seq<Option<Byte>>, k: nat, b: Byte, n: nat)
    requires k < |cells| && n <= |cells|
    ensures Known(cells[k := Some(b)], n) == Known(cells, n) + (if k < n && cells[k].None? then 1 else 0)
  {
    if n > 0 {
      KnownUpdate(cells, k, b, n - 1);
    }
  }

  lemma {:induction false} KnownSuffix(cells: seq<Option<Byte>>, m: nat, n: nat)
    requires m + n <= |cells|
    ensures Known(cells[m..], n) == Known(cells, m + n) - Known(cells, m)
  {
    if n > 0 {
      KnownSuffix(cells, m, n - 1);
    }
  }

  lemma KnownOverlayStep(cells: seq<Option<Byte>>, at: nat, front: seq<Byte>, b: Byte)
    ensures var before, after := Overlay(cells, at, front), Overlay(cells, at, front + [b]);
      Known(after, |after|) == Known(before, |before|) + (if at + |front| < |cells| && cells[at + |front|].Some? then 0 else 1)
  {
    var before, after := Overlay(cells, at, front), Overlay(cells, at, front + [b]);
    var k := at + |front|;
    if k < |before| {
      assert after == before[k := Some(b)];
      KnownUpdate(before, k, b, |before|);
    } else {
      KnownAgree(before, after, |before|);
    }
  }

  /** Writing nothing, however far out, fills no cell. */
  lemma KnownOverlayNothing(cells: seq<Option<Byte>>, at: nat)
    ensures var after := Overlay(cells, at, []);
      Known(after, |after|) == Known(cells, |cells|)
  {
    var after := Overlay(cells, at, []);
    KnownAgree(cells, after, |cells|);
    KnownPadding(after, |cells|, |after|);
  }

  /** Writing a span fills exactly the cells that were not filled before. */
  lemma {:induction false} KnownOverlay(cells: seq<Option<Byte>>, at: nat, data: seq<Byte>)
    ensures var after := Overlay(cells, at, data);
      Known(after, |after|) == Known(cells, |cells|) + Fresh(cells, at, |data|)
  {
    if data == [] {
      KnownOverlayNothing(cells, at);
    } else {
      var n := |data| - 1;
      var front := data[..n];
      KnownOverlay(cells, at, front);
      KnownOverlayStep(cells, at, front, data[n]);
      assert front + [data[n]] == data;
    }
  }

  lemma {:induction false} FreshBeyond(cells: seq<Option<Byte>>, at: nat, m: nat, n: nat)
    requires m <= n && |cells| <= at + m
    ensures Fresh(cells, at, n) == Fresh(cells, at, m) + (n - m)
  {
    if m < n {
      FreshBeyond(cells, at, m, n - 1);
    }
  }

  lemma {:induction false} FreshNone(cells: seq<Option<Byte>>, at: nat, n: nat)
    requires at + n <= Run(cells)
    ensures Fresh(cells, at, n) == 0
  {
    if n > 0 {
      FreshNone(cells, at, n - 1);
    }
  }

  // ----- What every operation keeps -----

  lemma RetainedAt(base: nat, f: StreamFrame, x: nat)
    requires base < f.End() && Max(f.offset, base) <= x < f.End()
    ensures var at := Slot(base, f);
      at <= x - base < at + |Retained(base, f)| && Retained(base, f)[x - base - at] == f.data[x - f.offset]
  {
  }

  /** A write never empties a cell, so the contiguous prefix only grows. */
  lemma RunMonotone(cells: seq<Option<Byte>>, at: nat, data: seq<Byte>)
    ensures Run(cells) <= Run(Overlay(cells, at, data))
  {
    var after := Overlay(cells, at, data);
    assert forall k :: 0 <= k < Run(cells) ==> after[k].Some?;
  }

  lemma FillKeeps(s: Recv, at: nat, data: seq<Byte>)
    requires WellFormed(s)
    ensures Contiguous(s) <= Contiguous(Fill(s, at, data))
    ensures Total(Fill(s, at, data)) == Total(s) + Fresh(s.cells, at, |data|)
    ensures High(Fill(s, at, data)) == Max(High(s), s.base + at + |data|)
  {
    RunMonotone(s.cells, at, data);
    KnownOverlay(s.cells, at, data);
  }

  lemma AcceptKeepsWellFormed(s: Recv, f: StreamFrame)
    requires WellFormed(s)
    requires Refusal(s, f).None?
    ensures WellFormed(Accept(s, f))
    ensures Contiguous(s) <= Contiguous(Accept(s, f))
    ensures Total(Accept(s, f)) == Total(s) + Gain(s, f)
    ensures High(Accept(s, f)) == Max(High(s), f.End())
  {
    if s.base < f.End() {
      FillKeeps(s, Slot(s.base, f), Retained(s.base, f));
    }
  }

  lemma AcceptOfDuplicate(s: Recv, f: StreamFrame)
    requires WellFormed(s)
    requires Refusal(s, f).None?
    requires f.End() <= s.base || Overlay(s.cells, Slot(s.base, f), Retained(s.base, f)) == s.cells
    ensures Accept(s, f) == Close(s, f)
    ensures WellFormed(Close(s, f))
  {
    AcceptKeepsWellFormed(s, f);
    if s.base < f.End() {
      assert Fill(s, Slot(s.base, f), Retained(s.base, f)) == s;
    }
  }

  lemma AcceptByWriting(s: Recv, f: StreamFrame)
    requires WellFormed(s)
    requires Refusal(s, f).None? && s.base < f.End()
    ensures var t, cells := Accept(s, f), Overlay(s.cells, Slot(s.base, f), Retained(s.base, f));
      && t == Recv(s.streamId, s.limit, s.base, cells, s.read, if f.fin then Some(f.End()) else s.finalSize)
      && Cached(t, s.base + Run(cells), Min(Total(s) + Gain(s, f), MAX_U64), Max(High(s), f.End()))
  {
    AcceptKeepsWellFormed(s, f);
  }

  /** What inserting a frame above the window's start comes down to. */
  lemma InsertCases(s: Recv, f: StreamFrame, at: nat, data: seq<Byte>)
    requires HeaderRefusal(s, f).None? && s.base < f.End()
    requires at == Max(f.offset, s.base) - s.base && data == f.data[Max(f.offset, s.base) - f.offset..]
    ensures at == Slot(s.base, f) && data == Retained(s.base, f)
    ensures Insert(s, f) ==
      if Conflicts(s.cells, at, data) then (s, Err(ConflictingStreamData))
      else if f.fin && f.End() < High(s) then (s, Err(FinalSizeMismatch))
      else (Accept(s, f), Ok(Fresh(s.cells, at, |data|)))
  {
  }

  /** Dropping a consumed prefix changes no derived quantity. */
  lemma CompactKeeps(s: Recv)
    requires WellFormed(s)
    ensures WellFormed(Compact(s))
    ensures Contiguous(Compact(s)) == Contiguous(s)
    ensures Total(Compact(s)) == Total(s)
    ensures High(Compact(s)) == High(s)
  {
    DropFilledPrefix(s.cells, s.read - s.base);
  }

  lemma DropFilledPrefix(cells: seq<Option<Byte>>, n: nat)
    requires n <= Run(cells)
    ensures Run(cells[n..]) == Run(cells) - n
    ensures Known(cells[n..], |cells[n..]|) == Known(cells, |cells|) - n
  {
    KnownSuffix(cells, n, |cells| - n);
    KnownAllFilled(cells, n);
    RunUnique(cells[n..], Run(cells) - n);
  }

  lemma ConsumeKeepsWellFormed(s: Recv, len: nat)
    requires WellFormed(s)
    ensures WellFormed(Consume(s, len).0)
    ensures Contiguous(Consume(s, len).0) == Contiguous(s)
    ensures Total(Consume(s, len).0) == Total(s)
    ensures High(Consume(s, len).0) == High(s)
  {
    if 0 < len <= Contiguous(s) - s.read {
      var t := Advance(s, len);
      CompactKeeps(t);
    }
  }

  /**
   Reading, spelled out: it succeeds exactly within the contiguous bytes and moves the
   cursor by what was asked; the window follows the cursor unless what it then holds of
   read bytes is below half the buffer and below half the limit.
   */
  lemma ConsumeExactly(s: Recv, len: nat)
    requires WellFormed(s)
    ensures Consume(s, len).1 == if len <= Contiguous(s) - s.read then Ok(()) else Err(NothingAvailable)
    ensures len == 0 || len > Contiguous(s) - s.read ==> Consume(s, len).0 == s
    ensures 0 < len <= Contiguous(s) - s.read ==>
      var t, held := Consume(s, len).0, s.read + len - s.base;
      && t.streamId == s.streamId && t.limit == s.limit && t.finalSize == s.finalSize
      && t.read == s.read + len
      && t.base == (if held < |s.cells| / 2 && held < s.limit / 2 then s.base else t.read)
      && t.cells == s.cells[t.base - s.base..]
  {
  }

  /** The byte held at absolute offset `x`, if any. */
  function ByteAt(s: Recv, x: nat): Option<Byte> {
    if s.base <= x < High(s) then s.cells[x - s.base] else None
  }

  /** At offset `x` the frame has another byte than the one held. */
  predicate ContradictsAt(s: Recv, f: StreamFrame, x: nat) {
    f.offset <= x < f.offset + |f.data| && ByteAt(s, x).Some? && ByteAt(s, x).value != f.data[x - f.offset]
  }

  ghost predicate Contradicts(s: Recv, f: StreamFrame) {
    exists x: nat :: ContradictsAt(s, f, x)
  }

  /** The retained data has, at offset `x`, the frame's byte for `x`. */
  lemma RetainedByte(base: nat, f: StreamFrame, at: nat, data: seq<Byte>, x: nat)
    requires base < f.End() && base <= x && at == Slot(base, f) && data == Retained(base, f)
    ensures at <= x - base < at + |data| <==> f.offset <= x < f.End()
    ensures f.offset <= x < f.End() ==> data[x - base - at] == f.data[x - f.offset]
  {
    if f.offset <= x < f.End() {
      RetainedAt(base, f, x);
    }
  }

  lemma ClashExactly(s: Recv, f: StreamFrame, at: nat, data: seq<Byte>, k: nat)
    requires s.base < f.End() && at == Slot(s.base, f) && data == Retained(s.base, f)
    ensures ConflictAt(s.cells, at, data, k) <==> ContradictsAt(s, f, s.base + k)
  {
    RetainedByte(s.base, f, at, data, s.base + k);
  }

  lemma ConflictsExactly(s: Recv, f: StreamFrame)
    requires s.base < f.End()
    ensures Conflicts(s.cells, Slot(s.base, f), Retained(s.base, f)) <==> Contradicts(s, f)
  {
    var at, data := Slot(s.base, f), Retained(s.base, f);
    if Conflicts(s.cells, at, data) {
      var k: nat :| ConflictAt(s.cells, at, data, k);
      ClashExactly(s, f, at, data, k);
    }
    if Contradicts(s, f) {
      var x: nat :| ContradictsAt(s, f, x);
      ClashExactly(s, f, at, data, x - s.base);
    }
  }

  /** Every reason to refuse a frame, in the program's order, in absolute offsets. */
  lemma RefusalExactly(s: Recv, f: StreamFrame, end: nat)
    requires end == f.offset + |f.data|
    ensures Refusal(s, f) ==
      if f.streamId != s.streamId then Some(WrongStream)
      else if end > 0xFFFF_FFFF_FFFF_FFFF then Some(InvalidStreamRange)
      else if s.finalSize.Some? && end > s.finalSize.value then Some(FinalSizeMismatch)
      else if s.finalSize.Some? && f.fin && end != s.finalSize.value then Some(FinalSizeMismatch)
      else if end > s.base && end > s.base + s.limit then Some(StreamBufferTooLarge)
      else if Contradicts(s, f) then Some(ConflictingStreamData)
      else if f.fin && end < s.base + |s.cells| then Some(FinalSizeMismatch)
      else None
  {
    if s.base < f.End() {
      ConflictsExactly(s, f);
    }
  }

  // ----- The program's representation -----

  /** The parallel arrays represent `cells`. */
  ghost predicate Represents(buffer: seq<Byte>, received: seq<bool>, cells: seq<Option<Byte>>) {
    && |buffer| == |received| == |cells|
    && forall k :: 0 <= k < |cells| ==> cells[k] == (if received[k] then Some(buffer[k]) else None)
  }

  /** Growing the arrays with unreceived zero bytes and copying `data` in is one overlay. */
  lemma WrittenRepresents(buffer: seq<Byte>, received: seq<bool>, cells: seq<Option<Byte>>, at: nat, data: seq<Byte>)
    requires Represents(buffer, received, cells)
    requires at + |data| <= |cells|
    ensures Represents(
      buffer[..at] + data + buffer[at + |data|..],
      received[..at] + seq(|data|, _ => true) + received[at + |data|..],
      Overlay(cells, at, data))
  {
  }

  lemma PaddedRepresents(buffer: seq<Byte>, received: seq<bool>, cells: seq<Option<Byte>>, n: nat)
    requires Represents(buffer, received, cells)
    ensures Represents(buffer + seq(n, _ => 0), received + seq(n, _ => false), Overlay(cells, |cells| + n, []))
  {
  }

  lemma OverlayAfterPadding(cells: seq<Option<Byte>>, at: nat, data: seq<Byte>)
    requires |cells| <= at + |data|
    ensures Overlay(Overlay(cells, at + |data|, []), at, data) == Overlay(cells, at, data)
  {
  }

  lemma SuffixRepresents(buffer: seq<Byte>, received: seq<bool>, cells: seq<Option<Byte>>, n: nat)
    requires Represents(buffer, received, cells) && n <= |cells|
    ensures Represents(buffer[n..], received[n..], cells[n..])
  {
  }

  /** The cached cursors are those of the abstract state. */
  ghost predicate Cached(s: Recv, contiguousEnd: nat, total: nat, high: nat) {
    WellFormed(s) && contiguousEnd == Contiguous(s) && total == Total(s) && high == High(s)
  }

  class RecvState {
    const streamId: nat
    const maxBuffered: nat
    var storageOffset: nat
    var buffer: seq<Byte>
    var received: seq<bool>
    var readOffset: nat
    var contiguousEnd: nat
    var finalSize: Option<nat>
    var receivedTotal: nat
    var highestReceivedEnd: nat
    ghost var cells: seq<Option<Byte>>

    ghost predicate Valid()
      reads this
    {
      Represents(buffer, received, cells) && Cached(View(), contiguousEnd, receivedTotal, highestReceivedEnd)
    }

    ghost function View(): Recv
      reads this
    {
      Recv(streamId, maxBuffered, storageOffset, cells, readOffset, finalSize)
    }

    constructor (streamId: nat, maxBuffered: nat)
      ensures Valid()
      ensures View() == Initial(streamId, maxBuffered)
    {
      this.streamId, this.maxBuffered := streamId, maxBuffered;
      storageOffset, buffer, received, cells := 0, [], [], [];
      readOffset, contiguousEnd, finalSize := 0, 0, None;
      receivedTotal, highestReceivedEnd := 0, 0;
    }

    method InsertTracked(frame: StreamFrame) returns (r: Result<nat>)
      requires Valid()
      modifies this
      ensures Valid()
      ensures (View(), r) == Insert(old(View()), frame)
    {
      var refusal := CheckHeader(frame);
      if refusal.Some? { return Err(refusal.value); }
      var absoluteEnd := frame.offset + |frame.data|;
      if absoluteEnd <= storageOffset {
        if frame.fin && absoluteEnd < highestReceivedEnd { return Err(FinalSizeMismatch); }
        AcceptDuplicate(frame);
        return Ok(0);
      }
      r := InsertRetained(frame);
    }

    method CheckHeader(frame: StreamFrame) returns (r: Option<StreamError>)
      requires Valid()
      ensures r == HeaderRefusal(View(), frame)
    {
      if frame.streamId != streamId { return Some(WrongStream); }
      var absoluteEnd := frame.offset + |frame.data|;
      if absoluteEnd > MAX_U64 { return Some(InvalidStreamRange); }
      if finalSize.Some? {
        if absoluteEnd > finalSize.value { return Some(FinalSizeMismatch); }
        if frame.fin && absoluteEnd != finalSize.value { return Some(FinalSizeMismatch); }
      }
      if absoluteEnd > storageOffset && absoluteEnd - storageOffset > maxBuffered { return Some(StreamBufferTooLarge); }
      r := None;
    }

    method InsertRetained(frame: StreamFrame) returns (r: Result<nat>)
      requires Valid()
      requires HeaderRefusal(View(), frame).None? && storageOffset < frame.End()
      modifies this
      ensures Valid()
      ensures (View(), r) == Insert(old(View()), frame)
    {
      var absoluteEnd := frame.offset + |frame.data|;
      var retainedOffset := Max(frame.offset, storageOffset);
      var data := frame.data[retainedOffset - frame.offset..];
      var relativeOffset := retainedOffset - storageOffset;
      InsertCases(View(), frame, relativeOffset, data);
      var duplicate := CheckDuplicate(relativeOffset, data);
      if duplicate.Some? {
        r := InsertKnown(frame, absoluteEnd, relativeOffset, data, duplicate.value);
      } else {
        r := InsertNew(frame, absoluteEnd, relativeOffset, data);
      }
    }

    /** A frame inside the contiguous prefix: `equal` says whether its bytes are those held. */
    method InsertKnown(frame: StreamFrame, absoluteEnd: nat, ghost at: nat, ghost data: seq<Byte>, equal: bool) returns (r: Result<nat>)
      requires Valid() && HeaderRefusal(View(), frame).None? && storageOffset < frame.End() == absoluteEnd
      requires at == Slot(storageOffset, frame) && data == Retained(storageOffset, frame)
      requires equal <==> !Conflicts(cells, at, data)
      requires equal ==> Overlay(cells, at, data) == cells && Fresh(cells, at, |data|) == 0
      modifies this
      ensures Valid()
      ensures (View(), r) == Insert(old(View()), frame)
    {
      InsertCases(View(), frame, at, data);
      if !equal { return Err(ConflictingStreamData); }
      if frame.fin && absoluteEnd < highestReceivedEnd { return Err(FinalSizeMismatch); }
      AcceptDuplicate(frame);
      r := Ok(0);
    }

    method InsertNew(frame: StreamFrame, absoluteEnd: nat, relativeOffset: nat, data: seq<Byte>) returns (r: Result<nat>)
      requires Valid() && HeaderRefusal(View(), frame).None? && storageOffset < frame.End() == absoluteEnd
      requires relativeOffset == Slot(storageOffset, frame) && data == Retained(storageOffset, frame)
      modifies this
      ensures Valid()
      ensures (View(), r) == Insert(old(View()), frame)
    {
      InsertCases(View(), frame, relativeOffset, data);
      var scan := CountFresh(relativeOffset, data);
      if scan.Err? { return scan; }
      if frame.fin && absoluteEnd < highestReceivedEnd { return Err(FinalSizeMismatch); }
      AcceptByWriting(View(), frame);
      Commit(Accept(View(), frame), frame.fin, absoluteEnd, relativeOffset, data, scan.value);
      r := scan;
    }

    method AcceptDuplicate(frame: StreamFrame)
      requires Valid()
      requires Refusal(View(), frame).None?
      requires frame.End() <= storageOffset || Overlay(cells, Slot(storageOffset, frame), Retained(storageOffset, frame)) == cells
      modifies this`finalSize
      ensures Valid()
      ensures View() == Accept(old(View()), frame)
    {
      ghost var s := View();
      AcceptOfDuplicate(s, frame);
      if frame.fin { finalSize := Some(frame.End()); }
      assert View() == Close(s, frame);
    }

    /** Write the bytes and bring every cache up to date; `t` is the state this leads to. */
    method Commit(ghost t: Recv, fin: bool, absoluteEnd: nat, relativeOffset: nat, data: seq<Byte>, newlyReceived: nat)
      requires Represents(buffer, received, cells) && contiguousEnd == storageOffset + Run(cells)
      requires t.cells == Overlay(cells, relativeOffset, data)
      requires t == View().(cells := t.cells, finalSize := if fin then Some(absoluteEnd) else finalSize)
      requires Cached(t, storageOffset + Run(t.cells), Min(receivedTotal + newlyReceived, MAX_U64), Max(highestReceivedEnd, absoluteEnd))
      modifies this
      ensures Valid() && View() == t
    {
      Write(relativeOffset, data);
      highestReceivedEnd := Max(highestReceivedEnd, absoluteEnd);
      receivedTotal := Min(receivedTotal + newlyReceived, MAX_U64);
      if fin { finalSize := Some(absoluteEnd); }
      assert View() == t;
    }

    /** Fast path: a frame inside the contiguous prefix is compared as one slice. */
    method CheckDuplicate(relativeOffset: nat, data: seq<Byte>) returns (r: Option<bool>)
      requires Represents(buffer, received, cells)
      requires storageOffset + Run(cells) == contiguousEnd
      ensures r.Some? <==> relativeOffset + |data| <= Run(cells)
      ensures r.Some? ==> (r.value <==> !Conflicts(cells, relativeOffset, data))
      ensures r == Some(true) ==>
        && Overlay(cells, relativeOffset, data) == cells
        && Fresh(cells, relativeOffset, |data|) == 0
    {
      var relativeEnd := relativeOffset + |data|;
      if relativeEnd > |received| || storageOffset + relativeEnd > contiguousEnd { return None; }
      FreshNone(cells, relativeOffset, |data|);
      var slice := buffer[relativeOffset..relativeEnd];
      if slice != data {
        ghost var k :| 0 <= k < |data| && slice[k] != data[k];
        assert ConflictAt(cells, relativeOffset, data, relativeOffset + k);
        return Some(false);
      }
      assert forall k :: relativeOffset <= k < relativeEnd ==> cells[k] == Some(slice[k - relativeOffset]);
      r := Some(true);
    }

    /** Scan the overlap with buffered cells: refuse a conflict, count the unfilled cells. */
    method CountFresh(relativeOffset: nat, data: seq<Byte>) returns (r: Result<nat>)
      requires Represents(buffer, received, cells)
      ensures r.Err? <==> Conflicts(cells, relativeOffset, data)
      ensures r.Err? ==> r.error == ConflictingStreamData
      ensures r.Ok? ==> r.value == Fresh(cells, relativeOffset, |data|)
    {
      var relativeEnd := relativeOffset + |data|;
      var oldLen := |received|;
      if relativeOffset >= oldLen {
        FreshBeyond(cells, relativeOffset, 0, |data|);
        return Ok(|data|);
      }
      var newlyReceived: nat := 0;
      var overlapEnd := Min(relativeEnd, oldLen);
      var relative := relativeOffset;
      while relative < overlapEnd
        invariant relativeOffset <= relative <= overlapEnd
        invariant newlyReceived == Fresh(cells, relativeOffset, relative - relativeOffset)
        invariant forall k :: relativeOffset <= k < relative && cells[k].Some? ==> cells[k].value == data[k - relativeOffset]
      {
        if received[relative] {
          if buffer[relative] != data[relative - relativeOffset] {
            assert ConflictAt(cells, relativeOffset, data, relative);
            return Err(ConflictingStreamData);
          }
        } else {
          newlyReceived := newlyReceived + 1;
        }
        relative := relative + 1;
      }
      if relativeEnd > oldLen {
        newlyReceived := newlyReceived + (relativeEnd - oldLen);
        FreshBeyond(cells, relativeOffset, oldLen - relativeOffset, |data|);
      }
      r := Ok(newlyReceived);
    }

    /** Store accepted bytes and advance the contiguous end over every filled cell. */
    method Write(relativeOffset: nat, data: seq<Byte>)
      requires Represents(buffer, received, cells)
      requires contiguousEnd == storageOffset + Run(cells)
      modifies this`buffer, this`received, this`cells, this`contiguousEnd
      ensures Represents(buffer, received, cells)
      ensures cells == Overlay(old(cells), relativeOffset, data)
      ensures contiguousEnd == storageOffset + Run(cells)
    {
      Store(relativeOffset, data);
      RunMonotone(old(cells), relativeOffset, data);
      var relativeEnd := relativeOffset + |data|;
      var contiguousRelative := contiguousEnd - storageOffset;
      if relativeOffset <= contiguousRelative < relativeEnd {
        contiguousEnd := storageOffset + relativeEnd;
        contiguousRelative := relativeEnd;
      }
      while contiguousRelative < |received| && received[contiguousRelative]
        invariant contiguousRelative <= |received|
        invariant contiguousEnd == storageOffset + contiguousRelative
        invariant forall k :: 0 <= k < contiguousRelative ==> cells[k].Some?
        modifies this`contiguousEnd
      {
        contiguousRelative := contiguousRelative + 1;
        contiguousEnd := contiguousEnd + 1;
      }
      RunUnique(cells, contiguousRelative);
    }

    method Store(relativeOffset: nat, data: seq<Byte>)
      requires Represents(buffer, received, cells)
      modifies this`buffer, this`received, this`cells
      ensures Represents(buffer, received, cells)
      ensures cells == Overlay(old(cells), relativeOffset, data)
    {
      var relativeEnd := relativeOffset + |data|;
      if relativeEnd > |buffer| {
        var growth := relativeEnd - |buffer|;
        PaddedRepresents(buffer, received, cells, growth);
        OverlayAfterPadding(cells, relativeOffset, data);
        buffer := buffer + seq(growth, _ => 0);
        received := received + seq(growth, _ => false);
        cells := Overlay(cells, |cells| + growth, []);
      }
      WrittenRepresents(buffer, received, cells, relativeOffset, data);
      buffer := buffer[..relativeOffset] + data + buffer[relativeEnd..];
      received := received[..relativeOffset] + seq(|data|, _ => true) + received[relativeEnd..];
      cells := Overlay(cells, relativeOffset, data);
    }

    method GetAvailable() returns (r: seq<Byte>)
      requires Valid()
      ensures r == Available(View())
    {
      var relativeStart := readOffset - storageOffset;
      var relativeEnd := contiguousEnd - storageOffset;
      r := buffer[relativeStart..relativeEnd];
    }

    method ConsumeBytes(len: nat) returns (r: Result<()>)
      requires Valid()
      modifies this
      ensures Valid()
      ensures (View(), r) == Consume(old(View()), len)
    {
      ConsumeKeepsWellFormed(View(), len);
      if len == 0 { return Ok(()); }
      var available := GetAvailable();
      if len > |available| { return Err(NothingAvailable); }
      ghost var s := View();
      readOffset := readOffset + len;
      assert View() == Advance(s, len);
      CompactConsumedPrefix();
      r := Ok(());
    }

    method CompactConsumedPrefix()
      requires Valid()
      modifies this`buffer, this`received, this`cells, this`storageOffset
      ensures Valid()
      ensures View() == Compact(old(View()))
    {
      var consumed := readOffset - storageOffset;
      if consumed == 0 { return; }
      if consumed < |buffer| / 2 && consumed < maxBuffered / 2 { return; }
      DropPrefix(consumed);
    }

    method DropPrefix(consumed: nat)
      requires Valid()
      requires readOffset == storageOffset + consumed
      modifies this`buffer, this`received, this`cells, this`storageOffset
      ensures Valid()
      ensures View() == old(View()).(base := old(readOffset), cells := old(cells)[consumed..])
    {
      DropFilledPrefix(cells, consumed);
      SuffixRepresents(buffer, received, cells, consumed);
      buffer, received, cells := buffer[consumed..], received[consumed..], cells[consumed..];
      storageOffset := readOffset;
    }

    method IsComplete() returns (done: bool)
      requires Valid()
      ensures done == Complete(View())
    {
      done := finalSize.Some? && contiguousEnd >= finalSize.value && readOffset >= finalSize.value;
    }
  }
}
