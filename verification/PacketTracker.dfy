/**
 Which received packet numbers are fresh (src/quic/packet_space.zig,
 `ReceivedPacketTracker`).

 The tracker keeps a bounded number of ranges; numbers it had to forget are
 summarised by a floor below which everything counts as already seen.  `Record`
 and `Prune` say what the operations mean; the class holds the program's
 range-editing code with its fast paths.
 */
module PacketTracker {
  import opened Base
  import opened AckRanges

  datatype Tracker = Tracker(ranges: seq<Range>, floor: Option<nat>, maxRanges: nat)

  datatype Verdict = Fresh | Stale | InvalidPacketNumber

  predicate Below(floor: Option<nat>, x: nat) {
    floor.Some? && x <= floor.value
  }

  function Raise(floor: Option<nat>, x: nat): Option<nat> {
    if floor.Some? then Some(Max(floor.value, x)) else Some(x)
  }

  /** Put one number into normal ranges, joining neighbours. */
  function Add(rs: seq<Range>, pn: nat): seq<Range> {
    if rs == [] then [Range(pn, pn)]
    else if pn > rs[0].end + 1 then [Range(pn, pn)] + rs
    else if pn == rs[0].end + 1 then [Range(rs[0].start, pn)] + rs[1..]
    else if pn >= rs[0].start then rs
    else if pn + 1 < rs[0].start then [rs[0]] + Add(rs[1..], pn)
    else if |rs| > 1 && rs[1].end + 1 == pn then [Range(rs[1].start, rs[0].end)] + rs[2..]
    else [Range(pn, rs[0].end)] + rs[1..]
  }

  /** Record one number; past capacity the oldest range is forgotten, be it the new one. */
  function Record(t: Tracker, pn: nat): (Tracker, Verdict) {
    if pn > MAX_PACKET_NUMBER then (t, InvalidPacketNumber)
    else if Below(t.floor, pn) || Covers(t.ranges, pn) || t.maxRanges == 0 then (t, Stale)
    else
      var rs := Add(t.ranges, pn);
      if |rs| <= t.maxRanges then (t.(ranges := rs), Fresh)
      else if |rs| == 0 then (t, Stale)
      else
        var oldest := rs[|rs| - 1];
        if oldest.end == pn then (t.(floor := Raise(t.floor, pn)), Stale)
        else (t.(ranges := rs[..|rs| - 1], floor := Raise(t.floor, oldest.end)), Fresh)
  }

  /** The part of normal ranges above `n`. */
  function Trim(rs: seq<Range>, n: nat): seq<Range> {
    if rs == [] then []
    else if rs[0].start > n then [rs[0]] + Trim(rs[1..], n)
    else if rs[0].end > n then [Range(n + 1, rs[0].end)]
    else []
  }

  function Prune(t: Tracker, n: nat): Tracker {
    t.(ranges := Trim(t.ranges, n), floor := Raise(t.floor, n))
  }

  // ----- Add -----

  lemma {:induction false} AddIsNormal(rs: seq<Range>, pn: nat)
    requires Normal(rs)
    ensures Normal(Add(rs, pn)) && Add(rs, pn) != []
    ensures Add(rs, pn)[0].end == if rs == [] then pn else Max(rs[0].end, pn)
  {
    if rs != [] && pn + 1 < rs[0].start {
      AddIsNormal(rs[1..], pn);
      assert Add(rs, pn)[1..] == Add(rs[1..], pn);
    } else if rs != [] {
      assert rs[1..] == [] || rs[1..][1..] == rs[2..];
    }
  }

  lemma {:induction false} AddCovers(rs: seq<Range>, pn: nat, x: nat)
    requires Normal(rs)
    ensures Covers(Add(rs, pn), x) <==> Covers(rs, x) || x == pn
  {
    if rs != [] && pn + 1 < rs[0].start {
      AddCovers(rs[1..], pn, x);
      assert Add(rs, pn)[1..] == Add(rs[1..], pn);
    } else if |rs| > 1 {
      assert rs[1..][1..] == rs[2..];
    }
  }

  lemma {:induction false} AddSize(rs: seq<Range>, pn: nat)
    requires Normal(rs) && !Covers(rs, pn)
    ensures Size(Add(rs, pn)) == Size(rs) + 1
    ensures |Add(rs, pn)| <= |rs| + 1
  {
    if rs != [] && pn + 1 < rs[0].start {
      AddSize(rs[1..], pn);
      assert Add(rs, pn)[1..] == Add(rs[1..], pn);
    } else if |rs| > 1 {
      assert rs[1..][1..] == rs[2..];
    }
  }

  /** If adding made one more range and the number ends up oldest, it stands alone. */
  lemma {:induction false} LongerMeansAlone(rs: seq<Range>, pn: nat)
    requires Normal(rs) && |Add(rs, pn)| == |rs| + 1 && Add(rs, pn)[|rs|].end == pn
    ensures Add(rs, pn)[|rs|] == Range(pn, pn)
  {
    if rs != [] && pn + 1 < rs[0].start {
      LongerMeansAlone(rs[1..], pn);
    } else if rs != [] {
      NormalAt(rs, 0, |rs| - 1);
    }
  }

  /** Ranges well above the number stay as they are. */
  lemma {:induction false} AddSkips(rs: seq<Range>, pn: nat, i: nat)
    requires i <= |rs| && forall j :: 0 <= j < i ==> pn + 1 < rs[j].start <= rs[j].end
    ensures Add(rs, pn) == rs[..i] + Add(rs[i..], pn)
    decreases i
  {
    if i > 0 {
      AddSkips(rs[1..], pn, i - 1);
      assert rs[1..][i - 1..] == rs[i..];
      assert rs[..i] == [rs[0]] + rs[1..][..i - 1];
    } else {
      assert rs[0..] == rs;
    }
  }

  // ----- Trim -----

  lemma {:induction false} TrimFacts(rs: seq<Range>, n: nat, x: nat)
    requires Normal(rs)
    ensures Normal(Trim(rs, n)) && |Trim(rs, n)| <= |rs|
    ensures rs != [] && Trim(rs, n) != [] ==> Trim(rs, n)[0].end == rs[0].end
    ensures Covers(Trim(rs, n), x) <==> Covers(rs, x) && x > n
  {
    if rs != [] {
      if rs[0].start > n {
        TrimFacts(rs[1..], n, x);
        assert Trim(rs, n)[1..] == Trim(rs[1..], n);
      } else if Covers(rs[1..], x) {
        CoveredIsBelowFirst(rs[1..], x);
      }
    }
  }

  lemma {:induction false} CoveredIsBelowFirst(rs: seq<Range>, x: nat)
    requires Normal(rs) && Covers(rs, x)
    ensures x <= rs[0].end
  {
    if !(rs[0].start <= x <= rs[0].end) {
      CoveredIsBelowFirst(rs[1..], x);
    }
  }

  // ----- What every operation keeps -----

  predicate Seen(t: Tracker, x: nat) {
    Below(t.floor, x) || Covers(t.ranges, x)
  }

  ghost predicate Inv(t: Tracker) {
    && Normal(t.ranges) && |t.ranges| <= t.maxRanges
    && forall x: nat :: Covers(t.ranges, x) ==> x <= MAX_PACKET_NUMBER && !Below(t.floor, x)
  }

  lemma {:induction false} DropOldest(rs: seq<Range>, x: nat)
    requires Normal(rs) && rs != []
    ensures Normal(rs[..|rs| - 1])
    ensures Covers(rs[..|rs| - 1], x) <==> Covers(rs, x) && x > rs[|rs| - 1].end
    ensures Size(rs[..|rs| - 1]) == Size(rs) - (rs[|rs| - 1].end - rs[|rs| - 1].start + 1)
  {
    var n := |rs| - 1;
    NormalSplit(rs, n);
    assert rs == rs[..n] + [rs[n]];
    CoversConcat(rs[..n], [rs[n]], x);
    SizeConcat(rs[..n], [rs[n]]);
    if Covers(rs[..n], x) {
      CoveredIsAboveLater(rs, n, x);
    }
  }

  lemma {:induction false} CoveredIsAboveLater(rs: seq<Range>, n: nat, x: nat)
    requires Normal(rs) && n < |rs| && Covers(rs[..n], x)
    ensures x > rs[n].end
    decreases n
  {
    NormalAt(rs, 0, n);
    if !(rs[0].start <= x <= rs[0].end) {
      assert rs[..n][1..] == rs[1..][..n - 1];
      CoveredIsAboveLater(rs[1..], n - 1, x);
    }
  }

  /** The effect of `Record` on any number `x`, and when it answers fresh. */
  lemma RecordEffect(t: Tracker, pn: nat, x: nat)
    requires Inv(t)
    ensures var (t', v) := Record(t, pn);
      && Normal(t'.ranges) && |t'.ranges| <= t'.maxRanges == t.maxRanges
      && (Covers(t'.ranges, x) <==> (Covers(t.ranges, x) || (v.Fresh? && x == pn)) && !Below(t'.floor, x))
      && (Below(t.floor, x) ==> Below(t'.floor, x))
      && (v.Fresh? ==> !Seen(t, pn) && pn <= MAX_PACKET_NUMBER && Seen(t', pn))
  {
    if pn <= MAX_PACKET_NUMBER && !Seen(t, pn) && t.maxRanges > 0 {
      var rs := Add(t.ranges, pn);
      AddFacts(t.ranges, pn, x, rs);
      AddFacts(t.ranges, pn, pn, rs);
      if |rs| > t.maxRanges {
        OverflowFacts(t.ranges, pn, x, rs);
        OverflowFacts(t.ranges, pn, pn, rs);
      }
    }
  }

  lemma AddFacts(before: seq<Range>, pn: nat, x: nat, rs: seq<Range>)
    requires Normal(before) && !Covers(before, pn) && rs == Add(before, pn)
    ensures Normal(rs) && 0 < |rs| <= |before| + 1
    ensures Covers(rs, x) <==> Covers(before, x) || x == pn
  {
    AddIsNormal(before, pn);
    AddCovers(before, pn, x);
    AddSize(before, pn);
  }

  lemma OverflowFacts(before: seq<Range>, pn: nat, x: nat, rs: seq<Range>)
    requires Normal(before) && !Covers(before, pn) && rs == Add(before, pn) && |rs| == |before| + 1
    ensures Normal(rs[..|rs| - 1])
    ensures Covers(rs[..|rs| - 1], x) <==> (Covers(before, x) || x == pn) && x > rs[|rs| - 1].end
    ensures rs[|rs| - 1].end == pn && Covers(before, x) ==> x > pn
  {
    AddFacts(before, pn, x, rs);
    DropOldest(rs, x);
    if rs[|rs| - 1].end == pn && Covers(before, x) {
      LongerMeansAlone(before, pn);
      OldestIsLeast(rs, x);
    }
  }

  lemma {:induction false} OldestIsLeast(rs: seq<Range>, x: nat)
    requires Normal(rs) && Covers(rs, x)
    ensures x >= rs[|rs| - 1].start
  {
    if rs[0].start <= x <= rs[0].end {
      NormalAt(rs, 0, |rs| - 1);
    } else {
      OldestIsLeast(rs[1..], x);
    }
  }

  /** A new range is the oldest one exactly when the number lies well below all ranges. */
  lemma {:induction false} AddAtTheOldEnd(rs: seq<Range>, pn: nat)
    requires Normal(rs) && rs != [] && !Covers(rs, pn)
    ensures |Add(rs, pn)| <= |rs| + 1
    ensures pn + 1 < rs[|rs| - 1].start ==> |Add(rs, pn)| == |rs| + 1 && Add(rs, pn)[|rs|].end == pn
    ensures pn + 1 >= rs[|rs| - 1].start ==> |Add(rs, pn)| <= |rs| || Add(rs, pn)[|rs|].end < pn
  {
    NormalAt(rs, |rs| - 1, |rs| - 1);
    if |rs| > 1 {
      NormalAt(rs, 0, |rs| - 1);
      if pn + 1 < rs[0].start {
        AddAtTheOldEnd(rs[1..], pn);
      }
    }
  }

  /** Exactly when a packet is processed: a test on the state before the call. */
  lemma FreshExactlyWhen(t: Tracker, pn: nat)
    requires Inv(t)
    ensures Record(t, pn).1 == InvalidPacketNumber <==> pn > 0x3FFF_FFFF_FFFF_FFFF
    ensures Record(t, pn).1 == Fresh <==>
      && pn <= MAX_PACKET_NUMBER && !Seen(t, pn) && t.maxRanges > 0
      && (|t.ranges| == t.maxRanges ==> pn + 1 >= t.ranges[|t.ranges| - 1].start)
  {
    if pn <= MAX_PACKET_NUMBER && !Seen(t, pn) && t.maxRanges > 0 {
      AddSize(t.ranges, pn);
      if t.ranges != [] {
        AddAtTheOldEnd(t.ranges, pn);
      }
    }
  }

  /** The number needs a range of its own and there is no room for one more. */
  ghost predicate Overflows(t: Tracker, pn: nat) {
    && pn <= MAX_PACKET_NUMBER && !Seen(t, pn) && |t.ranges| == t.maxRanges > 0
    && !(pn > 0 && Covers(t.ranges, pn - 1)) && !Covers(t.ranges, pn + 1)
  }

  /** What recording `pn` then forgets: the number itself if it lies below all ranges, else the oldest range. */
  ghost predicate ForgetsThrough(t: Tracker, pn: nat, x: nat)
    requires t.ranges != []
  {
    var oldest := t.ranges[|t.ranges| - 1];
    x <= if pn < oldest.start then pn else oldest.end
  }

  /** Adding makes one more range exactly when neither neighbour is there. */
  lemma {:induction false} AddLengthens(rs: seq<Range>, pn: nat)
    requires Normal(rs) && !Covers(rs, pn)
    ensures |Add(rs, pn)| == |rs| + 1 <==> !(pn > 0 && Covers(rs, pn - 1)) && !Covers(rs, pn + 1)
    ensures |Add(rs, pn)| <= |rs| + 1
    ensures rs != [] && |Add(rs, pn)| == |rs| + 1 ==>
      Add(rs, pn)[|rs|].end == if pn < rs[|rs| - 1].start then pn else rs[|rs| - 1].end
  {
    if rs != [] {
      NormalAt(rs, |rs| - 1, |rs| - 1);
      NormalAt(rs, 0, |rs| - 1);
      if pn > 0 && Covers(rs, pn - 1) {
        CoveredIsBelowFirst(rs, pn - 1);
      }
      if Covers(rs, pn + 1) {
        CoveredIsBelowFirst(rs, pn + 1);
      }
      if rs[1..] != [] && Covers(rs[1..], pn + 1) {
        CoveredIsBelowFirst(rs[1..], pn + 1);
      }
      if rs[1..] != [] && pn > 0 && Covers(rs[1..], pn - 1) {
        CoveredIsBelowFirst(rs[1..], pn - 1);
      }
      if pn + 1 < rs[0].start {
        AddLengthens(rs[1..], pn);
      }
    }
  }

  /** The floor rises exactly when a range must be given up, and exactly to its end. */
  lemma RecordFloor(t: Tracker, pn: nat, x: nat)
    requires Inv(t)
    ensures Below(Record(t, pn).0.floor, x) <==> Below(t.floor, x) || (Overflows(t, pn) && ForgetsThrough(t, pn, x))
  {
    if pn <= MAX_PACKET_NUMBER && !Seen(t, pn) && t.maxRanges > 0 {
      AddLengthens(t.ranges, pn);
    }
  }

  lemma RecordKeepsInv(t: Tracker, pn: nat)
    requires Inv(t)
    ensures Inv(Record(t, pn).0)
  {
    RecordEffect(t, pn, 0);
    forall x: nat ensures Covers(Record(t, pn).0.ranges, x) ==> x <= MAX_PACKET_NUMBER && !Below(Record(t, pn).0.floor, x) {
      RecordEffect(t, pn, x);
    }
  }

  /** Pruning forgets exactly the numbers up to `n`, and nothing above. */
  lemma PruneEffect(t: Tracker, n: nat, x: nat)
    requires Inv(t)
    ensures var t' := Prune(t, n);
      && Normal(t'.ranges) && |t'.ranges| <= t'.maxRanges == t.maxRanges
      && (Covers(t'.ranges, x) <==> Covers(t.ranges, x) && x > n)
      && (Below(t'.floor, x) <==> Below(t.floor, x) || x <= n)
  {
    TrimFacts(t.ranges, n, x);
  }

  lemma PruneKeepsInv(t: Tracker, n: nat)
    requires Inv(t)
    ensures Inv(Prune(t, n))
  {
    PruneEffect(t, n, 0);
    forall x: nat ensures Covers(Prune(t, n).ranges, x) ==> x <= MAX_PACKET_NUMBER && !Below(Prune(t, n).floor, x) {
      PruneEffect(t, n, x);
    }
  }

  // ----- Every run -----

  datatype Op = Receive(pn: nat) | AckedThrough(n: nat)

  ghost function After(maxRanges: nat, ops: seq<Op>): (t: Tracker)
    ensures Inv(t) && t.maxRanges == maxRanges
  {
    if ops == [] then Tracker([], None, maxRanges)
    else
      var t := After(maxRanges, ops[..|ops| - 1]);
      match ops[|ops| - 1]
      case Receive(pn) => RecordKeepsInv(t, pn); Record(t, pn).0
      case AckedThrough(n) => PruneKeepsInv(t, n); Prune(t, n)
  }

  /** How often packet number `x` was reported fresh. */
  ghost function TimesFresh(maxRanges: nat, ops: seq<Op>, x: nat): nat {
    if ops == [] then 0
    else
      var t, last := After(maxRanges, ops[..|ops| - 1]), ops[|ops| - 1];
      TimesFresh(maxRanges, ops[..|ops| - 1], x) + (if last == Receive(x) && Record(t, x).1 == Fresh then 1 else 0)
  }

  /**
   No packet number is ever processed twice, whatever the order, repetition,
   eviction and pruning; and the retained ranges are exactly the numbers that were
   reported fresh and lie above the floor.
   */
  lemma {:induction false} FreshAtMostOnce(maxRanges: nat, ops: seq<Op>, x: nat)
    ensures TimesFresh(maxRanges, ops, x) <= 1
    ensures TimesFresh(maxRanges, ops, x) == 1 ==> Seen(After(maxRanges, ops), x)
    ensures Covers(After(maxRanges, ops).ranges, x) <==>
      TimesFresh(maxRanges, ops, x) == 1 && !Below(After(maxRanges, ops).floor, x)
  {
    if ops != [] {
      var front, last := ops[..|ops| - 1], ops[|ops| - 1];
      FreshAtMostOnce(maxRanges, front, x);
      var t := After(maxRanges, front);
      match last {
        case Receive(pn) => RecordEffect(t, pn, x);
        case AckedThrough(n) => PruneEffect(t, n, x);
      }
    }
  }

  // ----- The floor and freshness, over whole histories -----

  /** Some operation so far made the tracker forget `x`: an ACK through it, or giving up a range at or above it. */
  ghost predicate Forgotten(maxRanges: nat, ops: seq<Op>, x: nat) {
    ops != [] &&
      var front, last := ops[..|ops| - 1], ops[|ops| - 1];
      || Forgotten(maxRanges, front, x)
      || match last
         case AckedThrough(n) => x <= n
         case Receive(pn) => Overflows(After(maxRanges, front), pn) && ForgetsThrough(After(maxRanges, front), pn, x)
  }

  /** After any history exactly the forgotten numbers lie below the floor. */
  lemma {:induction false} BelowFloorIffForgotten(maxRanges: nat, ops: seq<Op>, x: nat)
    ensures Below(After(maxRanges, ops).floor, x) <==> Forgotten(maxRanges, ops, x)
  {
    if ops != [] {
      var front, last := ops[..|ops| - 1], ops[|ops| - 1];
      BelowFloorIffForgotten(maxRanges, front, x);
      match last {
        case Receive(pn) => RecordFloor(After(maxRanges, front), pn, x);
        case AckedThrough(n) => PruneEffect(After(maxRanges, front), n, x);
      }
    }
  }

  predicate ReceivedIn(ops: seq<Op>, pn: nat) {
    exists i :: 0 <= i < |ops| && ops[i] == Receive(pn)
  }

  predicate AckedIn(ops: seq<Op>, pn: nat) {
    exists i :: 0 <= i < |ops| && ops[i].AckedThrough? && pn <= ops[i].n
  }

  /** The tracker never has more ranges than there were receipts. */
  lemma {:induction false} RangesAtMostReceipts(maxRanges: nat, ops: seq<Op>)
    ensures |After(maxRanges, ops).ranges| <= |ops|
  {
    if ops != [] {
      var front, last := ops[..|ops| - 1], ops[|ops| - 1];
      RangesAtMostReceipts(maxRanges, front);
      var t := After(maxRanges, front);
      match last {
        case Receive(pn) =>
          if !Covers(t.ranges, pn) {
            AddSize(t.ranges, pn);
          }
        case AckedThrough(n) => TrimFacts(t.ranges, n, 0);
      }
    }
  }

  /** With room for every receipt, only an ACK makes the tracker forget. */
  lemma {:induction false} ForgottenIffAcked(maxRanges: nat, ops: seq<Op>, x: nat)
    requires |ops| <= maxRanges
    ensures Forgotten(maxRanges, ops, x) <==> AckedIn(ops, x)
  {
    if ops != [] {
      var front, last := ops[..|ops| - 1], ops[|ops| - 1];
      ForgottenIffAcked(maxRanges, front, x);
      RangesAtMostReceipts(maxRanges, front);
      AckedInStep(ops, x);
    }
  }

  lemma AckedInStep(ops: seq<Op>, x: nat)
    requires ops != []
    ensures var front, last := ops[..|ops| - 1], ops[|ops| - 1];
      AckedIn(ops, x) <==> AckedIn(front, x) || (last.AckedThrough? && x <= last.n)
  {
    var front, last := ops[..|ops| - 1], ops[|ops| - 1];
    if AckedIn(front, x) {
      var i :| 0 <= i < |front| && front[i].AckedThrough? && x <= front[i].n;
      assert ops[i] == front[i];
    }
    if AckedIn(ops, x) {
      var i :| 0 <= i < |ops| && ops[i].AckedThrough? && x <= ops[i].n;
      assert i < |front| ==> front[i] == ops[i];
    }
  }

  lemma ReceivedInStep(ops: seq<Op>, x: nat)
    requires ops != []
    ensures ReceivedIn(ops, x) <==> ReceivedIn(ops[..|ops| - 1], x) || ops[|ops| - 1] == Receive(x)
  {
    var front := ops[..|ops| - 1];
    if ReceivedIn(front, x) {
      var i :| 0 <= i < |front| && front[i] == Receive(x);
      assert ops[i] == Receive(x);
    }
    if ReceivedIn(ops, x) {
      var i :| 0 <= i < |ops| && ops[i] == Receive(x);
      assert i < |front| ==> front[i] == Receive(x);
    }
  }

  /** With room for every receipt, a valid number is seen exactly if it was received or an ACK passed it. */
  lemma {:induction false} SeenIffReceivedOrAcked(maxRanges: nat, ops: seq<Op>, x: nat)
    requires |ops| <= maxRanges && x <= MAX_PACKET_NUMBER
    ensures Seen(After(maxRanges, ops), x) <==> ReceivedIn(ops, x) || AckedIn(ops, x)
  {
    if ops != [] {
      var front, last := ops[..|ops| - 1], ops[|ops| - 1];
      SeenIffReceivedOrAcked(maxRanges, front, x);
      RangesAtMostReceipts(maxRanges, front);
      AckedInStep(ops, x);
      ReceivedInStep(ops, x);
      SeenStep(After(maxRanges, front), last, x);
    }
  }

  lemma SeenStep(t: Tracker, op: Op, x: nat)
    requires Inv(t) && |t.ranges| < t.maxRanges && x <= MAX_PACKET_NUMBER
    ensures match op
      case Receive(pn) => Seen(Record(t, pn).0, x) <==> Seen(t, x) || x == pn
      case AckedThrough(n) => Seen(Prune(t, n), x) <==> Seen(t, x) || x <= n
  {
    match op {
      case Receive(pn) =>
        RecordEffect(t, pn, x);
        RecordFloor(t, pn, x);
        FreshExactlyWhen(t, pn);
      case AckedThrough(n) => PruneEffect(t, n, x);
    }
  }

  /**
   In terms of the operations alone, with room for every receipt: a packet is processed
   exactly when its number is valid, it is its first receipt, and no ACK passed it before.
   */
  lemma FreshIffFirstReceipt(maxRanges: nat, ops: seq<Op>, pn: nat)
    requires |ops| < maxRanges
    ensures Record(After(maxRanges, ops), pn).1 ==
      if pn > 0x3FFF_FFFF_FFFF_FFFF then InvalidPacketNumber
      else if ReceivedIn(ops, pn) || AckedIn(ops, pn) then Stale
      else Fresh
  {
    if pn <= MAX_PACKET_NUMBER {
      SeenIffReceivedOrAcked(maxRanges, ops, pn);
      RangesAtMostReceipts(maxRanges, ops);
      FreshExactlyWhen(After(maxRanges, ops), pn);
    }
  }

  /** The peer decodes from our ACK exactly the numbers reported fresh and not yet forgotten. */
  lemma AckNamesWhatWasReceived(maxRanges: nat, ops: seq<Op>, x: nat)
    requires After(maxRanges, ops).ranges != []
    ensures var t := After(maxRanges, ops);
      && Decode(Encode(t.ranges)).Some?
      && (Covers(Decode(Encode(t.ranges)).value, x) <==> TimesFresh(maxRanges, ops, x) == 1 && !Below(t.floor, x))
  {
    FreshAtMostOnce(maxRanges, ops, x);
    DecodeInvertsEncode(After(maxRanges, ops).ranges);
  }

  // ----- What one number does at its place -----

  predicate AllAbove(rs: seq<Range>, i: nat, pn: nat) {
    i <= |rs| && forall j :: 0 <= j < i ==> pn + 1 < rs[j].start <= rs[j].end
  }

  lemma {:induction false} SizeNonNegative(rs: seq<Range>)
    requires Normal(rs)
    ensures Size(rs) >= 0
  {
    if rs != [] {
      SizeNonNegative(rs[1..]);
    }
  }

  lemma AllAboveNext(rs: seq<Range>, i: nat, pn: nat)
    requires Normal(rs) && AllAbove(rs, i, pn) && i < |rs| && pn + 1 < rs[i].start
    ensures AllAbove(rs, i + 1, pn)
  {
    NormalAt(rs, i, i);
  }

  /** A number below the first `i` ranges is covered iff the others cover it. */
  lemma {:induction false} CoversSkips(rs: seq<Range>, i: nat, pn: nat)
    requires AllAbove(rs, i, pn)
    ensures Covers(rs, pn) <==> Covers(rs[i..], pn)
    decreases i
  {
    if i > 0 {
      CoversSkips(rs[1..], i - 1, pn);
      assert rs[1..][i - 1..] == rs[i..];
    } else {
      assert rs[0..] == rs;
    }
  }

  /** Above the end of the range at its place, a number is not covered. */
  lemma GapIsFresh(rs: seq<Range>, i: nat, pn: nat)
    requires Normal(rs) && AllAbove(rs, i, pn)
    requires i < |rs| ==> pn > rs[i].end
    ensures !Covers(rs, pn)
  {
    CoversSkips(rs, i, pn);
    NormalSplit(rs, i);
    NotCoveredOutside(rs[i..], pn);
  }

  /** A number that joins or grows an existing range never causes an eviction. */
  lemma RecordJoins(t: Tracker, pn: nat, rs: seq<Range>)
    requires Inv(t) && !Seen(t, pn) && pn <= MAX_PACKET_NUMBER && t.maxRanges > 0
    requires rs == Add(t.ranges, pn) && |rs| <= |t.ranges|
    ensures Record(t, pn) == (t.(ranges := rs), Fresh)
    ensures Size(rs) == Size(t.ranges) + 1
  {
    AddSize(t.ranges, pn);
  }

  lemma AddGrowsUp(rs: seq<Range>, i: nat, pn: nat)
    requires Normal(rs) && AllAbove(rs, i, pn) && i < |rs| && pn == rs[i].end + 1
    ensures Add(rs, pn) == rs[i := Range(rs[i].start, pn)]
  {
    AddSkips(rs, pn, i);
    var tail := rs[i..];
    assert Add(tail, pn) == [Range(rs[i].start, pn)] + tail[1..];
  }

  lemma AddGrowsDown(rs: seq<Range>, i: nat, pn: nat)
    requires Normal(rs) && AllAbove(rs, i, pn) && i < |rs| && pn + 1 == rs[i].start
    ensures !Covers(rs, pn)
    ensures i + 1 < |rs| ==> rs[i + 1].end < pn
    ensures Add(rs, pn) ==
      if i + 1 < |rs| && rs[i + 1].end + 1 == pn
      then rs[..i] + [Range(rs[i + 1].start, rs[i].end)] + rs[i + 2..]
      else rs[i := Range(pn, rs[i].end)]
  {
    AddSkips(rs, pn, i);
    CoversSkips(rs, i, pn);
    NormalSplit(rs, i);
    var tail := rs[i..];
    assert tail[0] == rs[i];
    if |tail| > 1 {
      NormalAt(rs, i, i + 1);
      NotCoveredOutside(tail[1..], pn);
      assert tail[2..] == rs[i + 2..];
    }
    assert tail[1..] == rs[i + 1..];
  }

  lemma AddInserts(rs: seq<Range>, i: nat, pn: nat)
    requires Normal(rs) && AllAbove(rs, i, pn) && (i < |rs| ==> pn > rs[i].end + 1)
    ensures Add(rs, pn) == rs[..i] + [Range(pn, pn)] + rs[i..]
  {
    AddSkips(rs, pn, i);
  }

  function Inserted(rs: seq<Range>, i: nat, pn: nat): (r: seq<Range>)
    requires i <= |rs|
    ensures |r| == |rs| + 1 && r[i] == Range(pn, pn)
    ensures i < |rs| ==> r[|rs|] == rs[|rs| - 1]
  {
    rs[..i] + [Range(pn, pn)] + rs[i..]
  }

  /** Recording a number that needs a range of its own, at place `i`. */
  lemma RecordInserts(t: Tracker, i: nat, pn: nat)
    requires Inv(t) && !Seen(t, pn) && pn <= MAX_PACKET_NUMBER && t.maxRanges > 0
    requires AllAbove(t.ranges, i, pn) && (i < |t.ranges| ==> pn > t.ranges[i].end + 1)
    ensures |t.ranges| < t.maxRanges ==>
      && Record(t, pn) == (t.(ranges := Inserted(t.ranges, i, pn)), Fresh)
      && Size(Inserted(t.ranges, i, pn)) == Size(t.ranges) + 1
    ensures |t.ranges| == t.maxRanges && i == |t.ranges| ==>
      Record(t, pn) == (t.(floor := Raise(t.floor, pn)), Stale)
  {
    AddInserts(t.ranges, i, pn);
    AddSize(t.ranges, pn);
  }

  lemma RecordOverflows(t: Tracker, pn: nat, rs: seq<Range>)
    requires !Seen(t, pn) && pn <= MAX_PACKET_NUMBER && t.maxRanges > 0
    requires rs == Add(t.ranges, pn) && |rs| == t.maxRanges + 1 && rs[|rs| - 1].end != pn
    ensures Record(t, pn) == (t.(ranges := rs[..|rs| - 1], floor := Raise(t.floor, rs[|rs| - 1].end)), Fresh)
  {
  }

  lemma RecordEvicts(t: Tracker, i: nat, pn: nat, front: seq<Range>, oldest: Range)
    requires Normal(t.ranges) && !Seen(t, pn) && pn <= MAX_PACKET_NUMBER && |t.ranges| == t.maxRanges > 0
    requires i < |t.ranges| && AllAbove(t.ranges, i, pn) && pn > t.ranges[i].end + 1
    requires front == t.ranges[..|t.ranges| - 1] && oldest == t.ranges[|t.ranges| - 1]
    ensures Record(t, pn) == (t.(ranges := Inserted(front, i, pn), floor := Raise(t.floor, oldest.end)), Fresh)
  {
    var rs := Inserted(t.ranges, i, pn);
    AddInserts(t.ranges, i, pn);
    OldestEndsBelow(t.ranges, i, pn);
    RecordOverflows(t, pn, rs);
    assert rs[..|rs| - 1] == Inserted(front, i, pn);
  }

  lemma OldestEndsBelow(rs: seq<Range>, i: nat, pn: nat)
    requires Normal(rs) && i < |rs| && pn > rs[i].end + 1
    ensures rs[|rs| - 1].end < pn
  {
    NormalAt(rs, i, i);
    NormalAt(rs, i, |rs| - 1);
  }

  lemma SizeAfterEviction(rs: seq<Range>, i: nat, pn: nat)
    requires Normal(rs) && i < |rs|
    ensures var front, oldest := rs[..|rs| - 1], rs[|rs| - 1];
      && 0 <= Size(front) == Size(rs) - (oldest.end - oldest.start + 1)
      && Size(Inserted(front, i, pn)) == Size(front) + 1
  {
    DropOldest(rs, 0);
    SizeNonNegative(rs[..|rs| - 1]);
    SizeInserted(rs[..|rs| - 1], i, pn);
  }

  lemma {:induction false} SizeInserted(rs: seq<Range>, i: nat, pn: nat)
    requires i <= |rs|
    ensures Size(Inserted(rs, i, pn)) == Size(rs) + 1
    decreases i
  {
    if i > 0 {
      SizeInserted(rs[1..], i - 1, pn);
      assert Inserted(rs, i, pn)[1..] == Inserted(rs[1..], i - 1, pn);
    } else {
      assert Inserted(rs, i, pn)[1..] == rs;
    }
  }

  // ----- The program's range editing -----

  predicate ImmediatelyBefore(a: nat, b: nat) {
    a != MAX_U64 && a + 1 == b
  }

  /** `rangesOverlapOrAdjacent`. */
  predicate Touching(lower: Range, higher: Range) {
    lower.end >= higher.start || ImmediatelyBefore(lower.end, higher.start)
  }

  /** The scan stops at the first range a number touches, so growing that range up never reaches a newer one. */
  lemma NothingToMergeForward(rs: seq<Range>, i: nat, pn: nat)
    requires AllAbove(rs, i, pn) && i < |rs|
    ensures i > 0 ==> !Touching(Range(rs[i].start, pn), rs[i - 1])
  {
  }

  class ReceivedPacketTracker {
    var ranges: seq<Range>
    const maxRanges: nat
    var forgottenThrough: Option<nat>
    var retainedPacketCount: int

    ghost function View(): Tracker
      reads this
    {
      Tracker(ranges, forgottenThrough, maxRanges)
    }

    ghost predicate Valid()
      reads this
    {
      Inv(View()) && retainedPacketCount == Size(ranges)
    }

    constructor (maxRanges: nat)
      ensures Valid()
      ensures View() == Tracker([], None, maxRanges)
    {
      this.maxRanges := maxRanges;
      ranges, forgottenThrough, retainedPacketCount := [], None, 0;
    }

    method ForgetThrough(n: nat)
      modifies this`forgottenThrough
      ensures forgottenThrough == Raise(old(forgottenThrough), n)
    {
      forgottenThrough := if forgottenThrough.Some? then Some(Max(forgottenThrough.value, n)) else Some(n);
    }

    /** `insertRange`: a new one-packet range, evicting the oldest range when full. */
    method InsertRange(index: nat, pn: nat) returns (r: Verdict)
      requires Valid() && pn <= MAX_PACKET_NUMBER && !Seen(View(), pn)
      requires AllAbove(ranges, index, pn) && (index < |ranges| ==> pn > ranges[index].end + 1)
      modifies this
      ensures Valid()
      ensures (View(), r) == Record(old(View()), pn)
    {
      ghost var t := View();
      RecordKeepsInv(t, pn);
      if maxRanges == 0 { return Stale; }
      RecordInserts(t, index, pn);
      if |ranges| >= maxRanges {
        if index == |ranges| {
          ForgetThrough(pn);
          return Stale;
        }
        EvictOldest(index, pn, t);
      }
      ranges := ranges[..index] + [Range(pn, pn)] + ranges[index..];
      retainedPacketCount := retainedPacketCount + 1;
      r := Fresh;
    }

    /** Make room: the subtraction saturates in the program, and never has to. */
    method EvictOldest(ghost index: nat, ghost pn: nat, ghost t: Tracker)
      requires t == View() && Valid() && pn <= MAX_PACKET_NUMBER && !Seen(t, pn)
      requires |ranges| == maxRanges > 0
      requires index < |ranges| && AllAbove(ranges, index, pn) && pn > ranges[index].end + 1
      modifies this
      ensures index <= |ranges| == |t.ranges| - 1
      ensures Record(t, pn) == (View().(ranges := Inserted(ranges, index, pn)), Fresh)
      ensures Size(Inserted(ranges, index, pn)) == retainedPacketCount + 1
    {
      var oldest := ranges[|ranges| - 1];
      RecordEvicts(t, index, pn, ranges[..|ranges| - 1], oldest);
      SizeAfterEviction(ranges, index, pn);
      ForgetThrough(oldest.end);
      retainedPacketCount := Max(0, retainedPacketCount - (oldest.end - oldest.start + 1));
      ranges := ranges[..|ranges| - 1];
    }

    /** `mergeForward`: the scan order leaves a gap above, so there is never anything to join. */
    method MergeForward(i: nat) returns (merged: bool)
      requires i < |ranges|
      requires i > 0 ==> !Touching(ranges[i], ranges[i - 1])
      ensures !merged
    {
      if i == 0 { return false; }
      merged := ranges[i].end >= ranges[i - 1].start || ImmediatelyBefore(ranges[i].end, ranges[i - 1].start);
    }

    /** `mergeBackward`: join range `i` with the next older one if they touch. */
    method MergeBackward(i: nat)
      requires i < |ranges| && ranges[i].start <= ranges[i].end <= MAX_PACKET_NUMBER
      requires i + 1 < |ranges| ==> ranges[i + 1].start <= ranges[i + 1].end < ranges[i].start
      modifies this`ranges
      ensures ranges ==
        if i + 1 < |old(ranges)| && old(ranges)[i + 1].end + 1 == old(ranges)[i].start
        then old(ranges)[..i] + [Range(old(ranges)[i + 1].start, old(ranges)[i].end)] + old(ranges)[i + 2..]
        else old(ranges)
    {
      if i + 1 >= |ranges| { return; }
      var current, next := ranges[i], ranges[i + 1];
      if next.end >= current.start || ImmediatelyBefore(next.end, current.start) {
        ranges := ranges[i := Range(Min(current.start, next.start), Max(current.end, next.end))];
        ranges := ranges[..i + 1] + ranges[i + 2..];
      }
    }

    /** Range `i` takes in the number just above it. */
    method GrowUp(i: nat, pn: nat)
      requires Valid() && pn <= MAX_PACKET_NUMBER && !Seen(View(), pn)
      requires AllAbove(ranges, i, pn) && i < |ranges| && pn == ranges[i].end + 1
      modifies this
      ensures Valid()
      ensures (View(), Fresh) == Record(old(View()), pn)
    {
      ghost var t := View();
      AddGrowsUp(ranges, i, pn);
      RecordJoins(t, pn, Add(ranges, pn));
      RecordKeepsInv(t, pn);
      NothingToMergeForward(ranges, i, pn);
      ranges := ranges[i := Range(ranges[i].start, pn)];
      retainedPacketCount := retainedPacketCount + 1;
      var merged := MergeForward(i);
    }

    /** Range `i` takes in the number just below it. */
    method GrowDown(i: nat, pn: nat)
      requires Valid() && pn <= MAX_PACKET_NUMBER && !Below(forgottenThrough, pn)
      requires AllAbove(ranges, i, pn) && i < |ranges| && pn + 1 == ranges[i].start
      modifies this
      ensures Valid()
      ensures (View(), Fresh) == Record(old(View()), pn)
    {
      ghost var t := View();
      AddGrowsDown(ranges, i, pn);
      RecordJoins(t, pn, Add(ranges, pn));
      RecordKeepsInv(t, pn);
      NormalAt(ranges, i, i);
      CoversAt(ranges, ranges[i].end, i);
      if i + 1 < |ranges| { NormalAt(ranges, i, i + 1); }
      ranges := ranges[i := Range(pn, ranges[i].end)];
      retainedPacketCount := retainedPacketCount + 1;
      MergeBackward(i);
    }

    /** `recordFresh`: fast paths at both ends, then a scan from the newest range. */
    method RecordFresh(pn: nat) returns (r: Verdict)
      requires Valid()
      modifies this
      ensures Valid()
      ensures (View(), r) == Record(old(View()), pn)
    {
      if pn > MAX_PACKET_NUMBER { return InvalidPacketNumber; }
      if forgottenThrough.Some? && pn <= forgottenThrough.value { return Stale; }
      if |ranges| == 0 {
        r := InsertRange(0, pn);
        return;
      }
      if pn > ranges[0].end {
        GapIsFresh(ranges, 0, pn);
        if ImmediatelyBefore(ranges[0].end, pn) {
          GrowUp(0, pn);
          return Fresh;
        }
        r := InsertRange(0, pn);
        return;
      }
      if pn >= ranges[0].start { return Stale; }
      var oldest := |ranges| - 1;
      if pn < ranges[oldest].start {
        BelowOldest(ranges, pn);
        if ImmediatelyBefore(pn, ranges[oldest].start) {
          GrowDown(oldest, pn);
          return Fresh;
        }
        AllAboveNext(ranges, oldest, pn);
        r := InsertRange(|ranges|, pn);
        return;
      }
      if pn <= ranges[oldest].end {
        CoversAt(ranges, pn, oldest);
        return Stale;
      }
      r := ScanFromNewest(pn);
    }

    method ScanFromNewest(pn: nat) returns (r: Verdict)
      requires Valid() && pn <= MAX_PACKET_NUMBER && !Below(forgottenThrough, pn)
      modifies this
      ensures Valid()
      ensures (View(), r) == Record(old(View()), pn)
    {
      for i := 0 to |ranges|
        invariant AllAbove(ranges, i, pn)
        invariant Valid() && View() == old(View())
      {
        if pn >= ranges[i].start && pn <= ranges[i].end {
          CoversAt(ranges, pn, i);
          return Stale;
        }
        if ImmediatelyBefore(ranges[i].end, pn) {
          GapIsFresh(ranges, i, pn);
          GrowUp(i, pn);
          return Fresh;
        }
        if ImmediatelyBefore(pn, ranges[i].start) {
          GrowDown(i, pn);
          return Fresh;
        }
        if pn > ranges[i].end {
          GapIsFresh(ranges, i, pn);
          r := InsertRange(i, pn);
          return;
        }
        AllAboveNext(ranges, i, pn);
      }
      GapIsFresh(ranges, |ranges|, pn);
      r := InsertRange(|ranges|, pn);
    }

    /** `wouldRecordFresh`: foretells the verdict of `RecordFresh` without recording. */
    method WouldRecordFresh(pn: nat) returns (r: Verdict)
      requires Valid()
      ensures r == Record(View(), pn).1
    {
      if pn > MAX_PACKET_NUMBER { return InvalidPacketNumber; }
      if maxRanges == 0 { return Stale; }
      if forgottenThrough.Some? && pn <= forgottenThrough.value { return Stale; }
      if |ranges| == 0 {
        RecordInserts(View(), 0, pn);
        return Fresh;
      }
      if pn > ranges[0].end {
        GapIsFresh(ranges, 0, pn);
        ForetellAbove(View(), 0, pn);
        return Fresh;
      }
      if pn >= ranges[0].start { return Stale; }
      var oldest := |ranges| - 1;
      if pn < ranges[oldest].start {
        BelowOldest(ranges, pn);
        if ImmediatelyBefore(pn, ranges[oldest].start) {
          ForetellBelow(View(), oldest, pn);
          return Fresh;
        }
        AllAboveNext(ranges, oldest, pn);
        RecordInserts(View(), |ranges|, pn);
        return if |ranges| < maxRanges then Fresh else Stale;
      }
      if pn <= ranges[oldest].end {
        CoversAt(ranges, pn, oldest);
        return Stale;
      }
      for i := 0 to |ranges|
        invariant AllAbove(ranges, i, pn)
      {
        if pn >= ranges[i].start && pn <= ranges[i].end {
          CoversAt(ranges, pn, i);
          return Stale;
        }
        if ImmediatelyBefore(ranges[i].end, pn) {
          ForetellAbove(View(), i, pn);
          return Fresh;
        }
        if ImmediatelyBefore(pn, ranges[i].start) {
          ForetellBelow(View(), i, pn);
          return Fresh;
        }
        if pn > ranges[i].end {
          ForetellAbove(View(), i, pn);
          return Fresh;
        }
        AllAboveNext(ranges, i, pn);
      }
      assert false;
      return if |ranges| < maxRanges then Fresh else Stale;
    }

    /** `pruneAckedRanges`: pop or shorten from the oldest end. */
    method PruneAckedRanges(n: nat)
      requires Valid()
      modifies this
      ensures Valid()
      ensures View() == Prune(old(View()), n)
    {
      ghost var t := View();
      PruneKeepsInv(t, n);
      ForgetThrough(n);
      if |ranges| == 0 { return; }
      if n < ranges[|ranges| - 1].start {
        TrimOldest(ranges, n);
        return;
      }
      while |ranges| != 0
        invariant Normal(ranges) && retainedPacketCount == Size(ranges)
        invariant Trim(ranges, n) == Trim(t.ranges, n)
        invariant forgottenThrough == Raise(t.floor, n)
        decreases |ranges|
      {
        var last := |ranges| - 1;
        var oldest := ranges[last];
        TrimOldest(ranges, n);
        if oldest.end <= n {
          retainedPacketCount := Max(0, retainedPacketCount - (oldest.end - oldest.start + 1));
          ranges := ranges[..last];
          continue;
        }
        if oldest.start <= n {
          retainedPacketCount := Max(0, retainedPacketCount - (n - oldest.start + 1));
          ranges := ranges[last := Range(n + 1, oldest.end)];
        }
        break;
      }
    }
  }

  lemma BelowOldest(rs: seq<Range>, pn: nat)
    requires Normal(rs) && rs != [] && pn < rs[|rs| - 1].start
    ensures AllAbove(rs, |rs| - 1, pn) && !Covers(rs, pn)
  {
    forall j | 0 <= j < |rs| - 1 ensures pn + 1 < rs[j].start <= rs[j].end {
      NormalAt(rs, j, |rs| - 1);
      NormalAt(rs, j, j);
      NormalAt(rs, |rs| - 1, |rs| - 1);
    }
    NotCoveredOutside(rs, pn);
  }

  lemma ForetellAbove(t: Tracker, i: nat, pn: nat)
    requires Inv(t) && !Below(t.floor, pn) && pn <= MAX_PACKET_NUMBER && t.maxRanges > 0
    requires i < |t.ranges| && AllAbove(t.ranges, i, pn) && pn > t.ranges[i].end
    ensures Record(t, pn).1 == Fresh
  {
    GapIsFresh(t.ranges, i, pn);
    if pn == t.ranges[i].end + 1 {
      AddGrowsUp(t.ranges, i, pn);
      RecordJoins(t, pn, Add(t.ranges, pn));
    } else if |t.ranges| < t.maxRanges {
      RecordInserts(t, i, pn);
    } else {
      RecordEvicts(t, i, pn, t.ranges[..|t.ranges| - 1], t.ranges[|t.ranges| - 1]);
    }
  }

  lemma ForetellBelow(t: Tracker, i: nat, pn: nat)
    requires Inv(t) && !Below(t.floor, pn) && pn <= MAX_PACKET_NUMBER && t.maxRanges > 0
    requires i < |t.ranges| && AllAbove(t.ranges, i, pn) && pn + 1 == t.ranges[i].start
    ensures Record(t, pn).1 == Fresh
  {
    AddGrowsDown(t.ranges, i, pn);
    RecordJoins(t, pn, Add(t.ranges, pn));
  }

  /** Trimming can be done from the oldest range. */
  lemma {:induction false} TrimOldest(rs: seq<Range>, n: nat)
    requires Normal(rs) && rs != []
    ensures var last := |rs| - 1; var oldest := rs[last];
      && oldest.start <= oldest.end
      && Normal(rs[..last])
      && Size(rs[..last]) == Size(rs) - (oldest.end - oldest.start + 1) >= 0
      && (oldest.end <= n ==> Trim(rs, n) == Trim(rs[..last], n))
      && (oldest.start <= n < oldest.end ==>
          Trim(rs, n) == rs[last := Range(n + 1, oldest.end)]
          && Size(Trim(rs, n)) == Size(rs) - (n - oldest.start + 1) >= 0)
      && (n < oldest.start ==> Trim(rs, n) == rs)
  {
    var last := |rs| - 1;
    NormalAt(rs, last, last);
    DropOldest(rs, 0);
    SizeNonNegative(rs[..last]);
    if last > 0 {
      NormalAt(rs, 0, last);
      TrimOldest(rs[1..], n);
      var tail := rs[1..];
      assert tail[..last - 1] == rs[..last][1..];
      assert rs == [rs[0]] + tail;
    }
  }
}
