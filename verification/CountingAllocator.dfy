/**
 Allocation accounting (examples/bench_http3_handshake_transfer.zig,
 `CountingAllocator`) against the blocks that are really live.

 The backing allocator's answers are inputs: a new address or a failure.
 */
module CountingAllocator {
  import opened Base
  import opened Partition

  type Blocks = map<nat, nat>

  /** Bytes in live blocks. */
  ghost function Total(live: Blocks): nat {
    if live == map[] then 0
    else
      var p :| p in live;
      live[p] + Total(live - {p})
  }

  lemma {:induction false} TotalWithout(live: Blocks, p: nat)
    requires p in live
    ensures Total(live) == live[p] + Total(live - {p})
    decreases |live|
  {
    var q :| q in live && Total(live) == live[q] + Total(live - {q});
    if p != q {
      TotalWithout(live - {q}, p);
      TotalWithout(live - {p}, q);
      assert live - {q} - {p} == live - {p} - {q};
    }
  }

  lemma TotalSet(live: Blocks, p: nat, len: nat)
    ensures p !in live ==> Total(live[p := len]) == Total(live) + len
    ensures p in live ==> Total(live[p := len]) == Total(live) - live[p] + len
  {
    TotalWithout(live[p := len], p);
    if p in live {
      TotalWithout(live, p);
      assert live[p := len] - {p} == live - {p};
    } else {
      assert live[p := len] - {p} == live;
    }
  }

  /** The most bytes that were ever live. */
  ghost function Highest(history: seq<Blocks>): nat {
    if history == [] then 0 else Max(Highest(history[..|history| - 1]), Total(history[|history| - 1]))
  }

  lemma {:induction false} HighestIsMaximum(history: seq<Blocks>)
    ensures forall i :: 0 <= i < |history| ==> Total(history[i]) <= Highest(history)
    ensures Highest(history) > 0 ==> exists i :: 0 <= i < |history| && Total(history[i]) == Highest(history)
  {
    if history != [] {
      var n := |history| - 1;
      HighestIsMaximum(history[..n]);
      forall i | 0 <= i < |history| ensures Total(history[i]) <= Highest(history) {
        assert i < n ==> history[i] == history[..n][i];
      }
      if Highest(history) > 0 && Total(history[n]) != Highest(history) {
        var i :| 0 <= i < n && Total(history[..n][i]) == Highest(history[..n]);
        assert Total(history[i]) == Highest(history);
      }
    }
  }

  lemma HighestAppend(history: seq<Blocks>, live: Blocks)
    ensures Highest(history + [live]) == Max(Highest(history), Total(live))
  {
    assert (history + [live])[..|history|] == history;
  }

  const BUCKETS: nat := 7

  /** The size class of a request: at most 64, 256, 1K, 4K, 16K, 64K, or more. */
  function BucketIndex(len: nat): (i: nat)
    ensures i < BUCKETS && Admits(i, len)
  {
    assert Power(4, 1) == 4 && Power(4, 2) == 16 && Power(4, 3) == 64 && Power(4, 4) == 256 && Power(4, 5) == 1024;
    if len <= 64 then 0
    else if len <= 256 then 1
    else if len <= 1024 then 2
    else if len <= 4096 then 3
    else if len <= 16 * 1024 then 4
    else if len <= 64 * 1024 then 5
    else 6
  }

  /** The byte counters agree with the live blocks and their history. */
  ghost predicate Exact(current: nat, peak: nat, gained: nat, freed: nat, live: Blocks, history: seq<Blocks>) {
    && current == Total(live) && current + freed == gained
    && peak == Highest(history) && peak >= current
  }

  lemma ChargeExact(
    current: nat, peak: nat, gained: nat, freed: nat, live: Blocks, history: seq<Blocks>, delta: nat, now: Blocks, history': seq<Blocks>)
    requires Exact(current, peak, gained, freed, live, history) && Total(now) == Total(live) + delta
    requires history' == history + [now]
    ensures Exact(current + delta, Max(peak, current + delta), gained + delta, freed, now, history')
  {
    HighestAppend(history, now);
  }

  lemma DischargeExact(
    current: nat, peak: nat, gained: nat, freed: nat, live: Blocks, history: seq<Blocks>, delta: nat, now: Blocks, history': seq<Blocks>)
    requires Exact(current, peak, gained, freed, live, history) && Total(now) + delta == Total(live)
    requires history' == history + [now]
    ensures Exact(Max(0, current - delta), peak, gained, freed + delta, now, history')
  {
    HighestAppend(history, now);
  }

  /** The buckets add up to the number and the bytes of requests. */
  ghost predicate Balanced(buckets: seq<nat>, bytes: seq<nat>, count: nat, requested: nat) {
    |buckets| == |bytes| == BUCKETS && Sum(buckets) == count && Sum(bytes) == requested
  }

  /** A size class takes a request that its limit admits and the one below does not. */
  predicate Admits(i: nat, len: nat) {
    (i < BUCKETS - 1 ==> len <= 64 * Power(4, i)) && (i > 0 ==> len > 64 * Power(4, i - 1))
  }

  function Power(b: nat, k: nat): nat {
    if k == 0 then 1 else b * Power(b, k - 1)
  }

  /** Exactly the class of a request of `len` bytes grew, by `delta`. */
  ghost predicate Grew(before: seq<nat>, after: seq<nat>, len: nat, delta: nat) {
    && |before| == |after| == BUCKETS
    && forall i :: 0 <= i < BUCKETS ==> after[i] == before[i] + (if Admits(i, len) then delta else 0)
  }

  /** One request more, of `len` bytes. */
  ghost predicate Recorded(buckets: seq<nat>, bytes: seq<nat>, buckets': seq<nat>, bytes': seq<nat>, len: nat) {
    Grew(buckets, buckets', len, 1) && Grew(bytes, bytes', len, len)
  }

  lemma AdmitsExactly(i: nat, len: nat)
    requires i < BUCKETS
    ensures Admits(i, len) <==> i == BucketIndex(len)
  {
    assert Power(4, 0) == 1 && Power(4, 1) == 4 && Power(4, 2) == 16;
    assert Power(4, 3) == 64 && Power(4, 4) == 256 && Power(4, 5) == 1024;
  }

  class Allocator {
    var currentBytes: nat
    var peakBytes: nat
    var totalAllocated: nat
    var totalFreed: nat
    var allocCount: nat
    var freeCount: nat
    var resizeCount: nat
    var remapCount: nat
    var buckets: seq<nat>
    var bucketBytes: seq<nat>

    ghost var live: Blocks
    ghost var history: seq<Blocks>
    ghost var requested: nat

    ghost predicate BytesExact()
      reads this
    {
      Exact(currentBytes, peakBytes, totalAllocated, totalFreed, live, history)
    }

    ghost predicate Valid()
      reads this
    {
      BytesExact() && Balanced(buckets, bucketBytes, allocCount, requested)
    }

    constructor ()
      ensures Valid() && live == map[] && history == [] && requested == 0
      ensures allocCount == freeCount == resizeCount == remapCount == 0
    {
      currentBytes, peakBytes, totalAllocated, totalFreed := 0, 0, 0, 0;
      allocCount, freeCount, resizeCount, remapCount := 0, 0, 0, 0;
      buckets, bucketBytes := seq(BUCKETS, _ => 0), seq(BUCKETS, _ => 0);
      live, history, requested := map[], [], 0;
      new;
      SumConstant(buckets, 0);
      SumConstant(bucketBytes, 0);
    }

    /** `alloc`: the backing allocator answers with an address that is not in use, or fails. */
    method Alloc(len: nat, answer: Option<nat>)
      requires Valid() && (answer.Some? ==> answer.value !in live)
      modifies this
      ensures Valid()
      ensures live == if answer.Some? then old(live)[answer.value := len] else old(live)
      ensures history == if answer.Some? then old(history) + [live] else old(history)
      ensures requested == old(requested) + (if answer.Some? then len else 0)
      ensures totalAllocated == old(totalAllocated) + (if answer.Some? then len else 0) && totalFreed == old(totalFreed)
      ensures if answer.Some? then Recorded(old(buckets), old(bucketBytes), buckets, bucketBytes, len)
        else buckets == old(buckets) && bucketBytes == old(bucketBytes)
      ensures allocCount == old(allocCount) + (if answer.Some? then 1 else 0)
      ensures freeCount == old(freeCount) && resizeCount == old(resizeCount) && remapCount == old(remapCount)
    {
      if answer.None? { return; }
      CountRequest(len);
      TotalSet(live, answer.value, len);
      Charge(len, live[answer.value := len]);
    }

    /** One more request was granted. */
    method CountRequest(len: nat)
      requires Balanced(buckets, bucketBytes, allocCount, requested)
      modifies this`allocCount, this`buckets, this`bucketBytes, this`requested
      ensures Balanced(buckets, bucketBytes, allocCount, requested)
      ensures allocCount == old(allocCount) + 1 && requested == old(requested) + len
      ensures Recorded(old(buckets), old(bucketBytes), buckets, bucketBytes, len)
    {
      allocCount := allocCount + 1;
      RecordAllocBucket(len);
      requested := requested + len;
    }

    /** More bytes are live than before. */
    method Charge(delta: nat, ghost now: Blocks)
      requires BytesExact() && Total(now) == Total(live) + delta
      modifies this`currentBytes, this`peakBytes, this`totalAllocated, this`live, this`history
      ensures BytesExact() && live == now && history == old(history) + [now]
      ensures totalAllocated == old(totalAllocated) + delta
    {
      ChargeExact(currentBytes, peakBytes, totalAllocated, totalFreed, live, history, delta, now, history + [now]);
      totalAllocated := totalAllocated + delta;
      currentBytes := currentBytes + delta;
      peakBytes := Max(peakBytes, currentBytes);
      live, history := now, history + [now];
    }

    /** Fewer bytes are live; the subtraction saturates in the program and never has to. */
    method Discharge(delta: nat, ghost now: Blocks)
      requires BytesExact() && Total(now) + delta == Total(live)
      modifies this`currentBytes, this`totalFreed, this`live, this`history
      ensures BytesExact() && live == now && history == old(history) + [now]
      ensures totalFreed == old(totalFreed) + delta
    {
      DischargeExact(currentBytes, peakBytes, totalAllocated, totalFreed, live, history, delta, now, history + [now]);
      totalFreed := totalFreed + delta;
      currentBytes := Max(0, currentBytes - delta);
      live, history := now, history + [now];
    }

    method RecordAllocBucket(len: nat)
      requires |buckets| == |bucketBytes| == BUCKETS
      modifies this`buckets, this`bucketBytes
      ensures |buckets| == |bucketBytes| == BUCKETS
      ensures Recorded(old(buckets), old(bucketBytes), buckets, bucketBytes, len)
      ensures Sum(buckets) == Sum(old(buckets)) + 1 && Sum(bucketBytes) == Sum(old(bucketBytes)) + len
    {
      var i := BucketIndex(len);
      SumUpdate(buckets, i, buckets[i] + 1);
      SumUpdate(bucketBytes, i, bucketBytes[i] + len);
      forall k | 0 <= k < BUCKETS ensures Admits(k, len) <==> k == i {
        AdmitsExactly(k, len);
      }
      buckets := buckets[i := buckets[i] + 1];
      bucketBytes := bucketBytes[i := bucketBytes[i] + len];
    }

    /** `resize` of a live block in place; a refusal changes nothing. */
    method Resize(p: nat, len: nat, newLen: nat, granted: bool)
      requires Valid() && p in live && live[p] == len
      modifies this
      ensures Valid()
      ensures live == if granted then old(live)[p := newLen] else old(live)
      ensures history == if granted then old(history) + [live] else old(history)
      ensures totalAllocated == old(totalAllocated) + (if granted && newLen > len then newLen - len else 0)
      ensures totalFreed == old(totalFreed) + (if granted && newLen < len then len - newLen else 0)
      ensures requested == old(requested) && buckets == old(buckets) && bucketBytes == old(bucketBytes)
      ensures resizeCount == old(resizeCount) + (if granted then 1 else 0)
      ensures allocCount == old(allocCount) && freeCount == old(freeCount) && remapCount == old(remapCount)
    {
      if !granted { return; }
      resizeCount := resizeCount + 1;
      RecordResize(len, newLen, p, p);
      assert live == old(live)[p := newLen];
    }

    /** `remap` of a live block, which may move to an address that is not in use. */
    method Remap(p: nat, len: nat, newLen: nat, answer: Option<nat>)
      requires Valid() && p in live && live[p] == len
      requires answer.Some? ==> answer.value == p || answer.value !in live
      modifies this
      ensures Valid()
      ensures live == if answer.Some? then (old(live) - {p})[answer.value := newLen] else old(live)
      ensures history == if answer.Some? then old(history) + [live] else old(history)
      ensures totalAllocated == old(totalAllocated) + (if answer.Some? && newLen > len then newLen - len else 0)
      ensures totalFreed == old(totalFreed) + (if answer.Some? && newLen < len then len - newLen else 0)
      ensures requested == old(requested) && buckets == old(buckets) && bucketBytes == old(bucketBytes)
      ensures remapCount == old(remapCount) + (if answer.Some? then 1 else 0)
      ensures allocCount == old(allocCount) && freeCount == old(freeCount) && resizeCount == old(resizeCount)
    {
      if answer.None? { return; }
      remapCount := remapCount + 1;
      RecordResize(len, newLen, p, answer.value);
    }

    /** `recordResize`: both directions of a size change. */
    method RecordResize(oldLen: nat, newLen: nat, ghost p: nat, ghost q: nat)
      requires BytesExact() && p in live && live[p] == oldLen && (q == p || q !in live)
      modifies this`currentBytes, this`peakBytes, this`totalAllocated, this`totalFreed, this`live, this`history
      ensures BytesExact() && live == (old(live) - {p})[q := newLen] && history == old(history) + [live]
      ensures totalAllocated == old(totalAllocated) + (if newLen > oldLen then newLen - oldLen else 0)
      ensures totalFreed == old(totalFreed) + (if newLen < oldLen then oldLen - newLen else 0)
    {
      ghost var now := (live - {p})[q := newLen];
      TotalWithout(live, p);
      TotalSet(live - {p}, q, newLen);
      if newLen > oldLen {
        Charge(newLen - oldLen, now);
      } else {
        Discharge(oldLen - newLen, now);
      }
    }

    /** `free` of a live block. */
    method Free(p: nat, len: nat)
      requires Valid() && p in live && live[p] == len
      modifies this
      ensures Valid()
      ensures live == old(live) - {p} && history == old(history) + [live] && requested == old(requested)
      ensures totalFreed == old(totalFreed) + len && totalAllocated == old(totalAllocated)
      ensures buckets == old(buckets) && bucketBytes == old(bucketBytes)
      ensures freeCount == old(freeCount) + 1
      ensures allocCount == old(allocCount) && resizeCount == old(resizeCount) && remapCount == old(remapCount)
    {
      freeCount := freeCount + 1;
      TotalWithout(live, p);
      Discharge(len, live - {p});
    }
  }
}
