/**
 Two chunk generators that must agree: the stateful stream of
 tools/hyper_http1_body/src/main.rs and the slice table of examples/bench_http1_body.zig.
 */
module Chunks {
  import opened Base

  type Bytes = seq<Byte>

  /** Cut what is left after `offset` into pieces of `size`, the last one possibly shorter. */
  function Pieces(payload: Bytes, size: nat, offset: nat): seq<Bytes>
    requires size > 0 && offset <= |payload|
    decreases |payload| - offset
  {
    if offset == |payload| then []
    else
      var end := Min(offset + size, |payload|);
      [payload[offset..end]] + Pieces(payload, size, end)
  }

  function Join(pieces: seq<Bytes>): Bytes {
    if pieces == [] then [] else pieces[0] + Join(pieces[1..])
  }

  /** The pieces tile the payload, whatever the size; none is empty or too long. */
  lemma {:induction false} PiecesTile(payload: Bytes, size: nat, offset: nat)
    requires size > 0 && offset <= |payload|
    ensures Join(Pieces(payload, size, offset)) == payload[offset..]
    ensures forall i :: 0 <= i < |Pieces(payload, size, offset)| ==> 0 < |Pieces(payload, size, offset)[i]| <= size
    decreases |payload| - offset
  {
    if offset < |payload| {
      var end := Min(offset + size, |payload|);
      PiecesTile(payload, size, end);
      assert Pieces(payload, size, offset)[1..] == Pieces(payload, size, end);
      assert payload[offset..] == payload[offset..end] + payload[end..];
    }
  }

  /** All pieces but the last are full. */
  lemma {:induction false} PiecesAreFull(payload: Bytes, size: nat, offset: nat, i: nat)
    requires size > 0 && offset <= |payload| && i + 1 < |Pieces(payload, size, offset)|
    ensures |Pieces(payload, size, offset)[i]| == size
    decreases i
  {
    var end := Min(offset + size, |payload|);
    if i > 0 {
      PiecesAreFull(payload, size, end, i - 1);
    } else {
      assert end < |payload|;
    }
  }

  /** The `i`-th full slice. */
  ghost predicate IsSlice(payload: Bytes, size: nat, i: nat, slice: Bytes) {
    i * size + size <= |payload| && slice == payload[i * size..i * size + size]
  }

  /** On a whole number of chunks, piece `i` is slice `i`. */
  lemma {:induction false} PiecesAreSlices(payload: Bytes, size: nat, done: nat, count: nat)
    requires size > 0 && done <= count && count * size == |payload| && done * size <= |payload|
    ensures |Pieces(payload, size, done * size)| == count - done
    ensures forall i :: 0 <= i < count - done ==> IsSlice(payload, size, done + i, Pieces(payload, size, done * size)[i])
    decreases count - done
  {
    if done < count {
      var here := done * size;
      SlicesLeft(size, done, count);
      PiecesAreSlices(payload, size, done + 1, count);
      var rest := Pieces(payload, size, here + size);
      assert Pieces(payload, size, here) == [payload[here..here + size]] + rest;
      forall i | 0 <= i < count - done ensures IsSlice(payload, size, done + i, Pieces(payload, size, here)[i]) {
        assert i > 0 ==> IsSlice(payload, size, (done + 1) + (i - 1), rest[i - 1]);
      }
    }
  }

  lemma SlicesLeft(size: nat, done: nat, count: nat)
    requires done < count
    ensures (done + 1) * size == done * size + size <= count * size
  {
    assert count * size == (done + 1) * size + (count - done - 1) * size;
  }

  /** `ChunkStream`: each poll yields the next piece and moves the offset. */
  class ChunkStream {
    const payload: Bytes
    const size: nat
    var offset: nat

    ghost predicate Valid()
      reads this
    {
      size > 0 && offset <= |payload|
    }

    constructor (payload: Bytes, size: nat)
      requires size > 0
      ensures Valid() && this.payload == payload && this.size == size && offset == 0
    {
      this.payload, this.size, this.offset := payload, size, 0;
    }

    method PollNext() returns (r: Option<Bytes>)
      requires Valid()
      modifies this
      ensures Valid()
      ensures r.None? <==> old(offset) == |payload|
      ensures r.None? ==> offset == old(offset)
      ensures r.Some? ==> offset > old(offset) && Pieces(payload, size, old(offset)) == [r.value] + Pieces(payload, size, offset)
    {
      if offset == |payload| { return None; }
      var end: nat := Min(offset + size, |payload|);
      var chunk := payload[offset..end];
      offset := end;
      r := Some(chunk);
    }
  }

  /** Polling until the end yields exactly the pieces. */
  method PollAll(payload: Bytes, size: nat) returns (out: seq<Bytes>)
    requires size > 0
    ensures out == Pieces(payload, size, 0) && Join(out) == payload
  {
    var stream := new ChunkStream(payload, size);
    out := [];
    var more := true;
    while more
      invariant stream.Valid() && fresh(stream) && stream.payload == payload && stream.size == size
      invariant out + Pieces(payload, size, stream.offset) == Pieces(payload, size, 0)
      invariant !more ==> stream.offset == |payload|
      decreases |payload| - stream.offset, more
    {
      ghost var before := stream.offset;
      var next := stream.PollNext();
      if next.None? {
        more := false;
      } else {
        assert out + ([next.value] + Pieces(payload, size, stream.offset)) == (out + [next.value]) + Pieces(payload, size, stream.offset);
        out := out + [next.value];
      }
    }
    PiecesTile(payload, size, 0);
    assert payload[0..] == payload;
  }

  /** `chunkSlices`: one table entry per full chunk. */
  method ChunkSlices(payload: Bytes, size: nat) returns (table: array<Bytes>)
    requires size > 0
    ensures table.Length == |payload| / size
    ensures forall i :: 0 <= i < table.Length ==> IsSlice(payload, size, i, table[i])
  {
    var count := |payload| / size;
    QuotientAtMost(|payload|, size);
    table := new Bytes[count](_ => []);
    for index := 0 to count
      invariant forall i :: 0 <= i < index ==> IsSlice(payload, size, i, table[i])
    {
      SliceFits(|payload|, size, index);
      var start := index * size;
      table[index] := payload[start..][..size];
      assert payload[start..][..size] == payload[start..start + size];
    }
  }

  lemma SliceFits(n: nat, size: nat, i: nat)
    requires size > 0 && i < n / size
    ensures 0 <= i * size && i * size + size <= n
  {
    var q := n / size;
    assert q * size == (i + 1) * size + (q - i - 1) * size;
    assert (i + 1) * size == i * size + size;
    assert q * size + n % size == n;
  }

  /**
   The guard of the benchmark (a positive chunk size that divides the body) is exactly
   what makes the two generators agree, element by element.
   */
  lemma GeneratorsAgree(payload: Bytes, size: nat, table: seq<Bytes>)
    requires size > 0 && |table| == |payload| / size
    requires forall i :: 0 <= i < |table| ==> IsSlice(payload, size, i, table[i])
    ensures table == Pieces(payload, size, 0) <==> |payload| % size == 0
  {
    var count := |payload| / size;
    assert count * size + |payload| % size == |payload|;
    if |payload| % size == 0 {
      SlicesArePieces(payload, size, table, count);
    }
    if table == Pieces(payload, size, 0) {
      PiecesFillUp(payload, size, table);
    }
  }

  lemma SlicesArePieces(payload: Bytes, size: nat, table: seq<Bytes>, count: nat)
    requires size > 0 && |table| == count && count * size == |payload|
    requires forall i :: 0 <= i < |table| ==> IsSlice(payload, size, i, table[i])
    ensures table == Pieces(payload, size, 0)
  {
    assert 0 * size == 0;
    PiecesAreSlices(payload, size, 0, count);
    forall i | 0 <= i < count ensures table[i] == Pieces(payload, size, 0)[i] {
      assert IsSlice(payload, size, 0 + i, Pieces(payload, size, 0)[i]);
    }
  }

  lemma PiecesFillUp(payload: Bytes, size: nat, table: seq<Bytes>)
    requires size > 0 && table == Pieces(payload, size, 0)
    requires forall i :: 0 <= i < |table| ==> IsSlice(payload, size, i, table[i])
    ensures |table| * size == |payload|
  {
    PiecesTile(payload, size, 0);
    forall i | 0 <= i < |table| ensures |table[i]| == size {
      assert IsSlice(payload, size, i, table[i]);
    }
    JoinLength(table, size);
    assert payload[0..] == payload;
  }

  lemma {:induction false} JoinLength(pieces: seq<Bytes>, size: nat)
    requires forall i :: 0 <= i < |pieces| ==> |pieces[i]| == size
    ensures |Join(pieces)| == |pieces| * size
  {
    if pieces != [] {
      JoinLength(pieces[1..], size);
    }
  }
}
