/**
 Packet-number ranges and their ACK frame form (src/quic/packet_space.zig,
 section 19.3.1 of RFC 9000).

 Ranges are kept newest first, each separated from the next by at least one
 missing packet number.
 */
module AckRanges {
  import opened Base

  datatype Range = Range(start: nat, end: nat)

  // Largest packet number a QUIC variable-length integer can carry.
  const MAX_PACKET_NUMBER: nat := 0x3FFF_FFFF_FFFF_FFFF

  ghost predicate Normal(rs: seq<Range>) {
    |rs| > 0 ==>
      && rs[0].start <= rs[0].end
      && (|rs| > 1 ==> rs[1].end + 1 < rs[0].start)
      && Normal(rs[1..])
  }

  predicate Covers(rs: seq<Range>, x: nat) {
    |rs| > 0 && (rs[0].start <= x <= rs[0].end || Covers(rs[1..], x))
  }

  /** How many packet numbers the ranges hold. */
  function Size(rs: seq<Range>): int {
    if rs == [] then 0 else rs[0].end - rs[0].start + 1 + Size(rs[1..])
  }

  // ----- Positions -----

  lemma {:induction false} NormalAt(rs: seq<Range>, i: nat, j: nat)
    requires Normal(rs) && i <= j < |rs|
    ensures rs[j].start <= rs[j].end
    ensures i < j ==> rs[j].end + 1 < rs[i].start
  {
    if i > 0 {
      NormalAt(rs[1..], i - 1, j - 1);
    } else if j > 0 {
      NormalAt(rs[1..], 0, j - 1);
    }
  }

  lemma {:induction false} CoversAt(rs: seq<Range>, x: nat, i: nat)
    requires i < |rs| && rs[i].start <= x <= rs[i].end
    ensures Covers(rs, x)
  {
    if i > 0 {
      CoversAt(rs[1..], x, i - 1);
    }
  }

  /** A number above the newest range, or below the oldest one, is not covered. */
  lemma {:induction false} NotCoveredOutside(rs: seq<Range>, x: nat)
    requires Normal(rs)
    requires |rs| > 0 ==> x > rs[0].end || x < rs[|rs| - 1].start
    ensures !Covers(rs, x)
  {
    if |rs| > 0 {
      NormalAt(rs, 0, |rs| - 1);
      if |rs| > 1 {
        NormalAt(rs, 1, |rs| - 1);
        NotCoveredOutside(rs[1..], x);
      }
    }
  }

  lemma {:induction false} NormalSplit(rs: seq<Range>, i: nat)
    requires Normal(rs) && i <= |rs|
    ensures Normal(rs[..i]) && Normal(rs[i..])
    decreases i
  {
    if i > 0 {
      NormalSplit(rs[1..], i - 1);
      assert rs[..i][1..] == rs[1..][..i - 1];
    } else {
      assert rs[0..] == rs;
    }
  }

  lemma {:induction false} CoversConcat(a: seq<Range>, b: seq<Range>, x: nat)
    ensures Covers(a + b, x) <==> Covers(a, x) || Covers(b, x)
  {
    if a == [] {
      assert a + b == b;
    } else {
      assert (a + b)[1..] == a[1..] + b;
      CoversConcat(a[1..], b, x);
    }
  }

  lemma {:induction false} SizeConcat(a: seq<Range>, b: seq<Range>)
    ensures Size(a + b) == Size(a) + Size(b)
  {
    if a == [] {
      assert a + b == b;
    } else {
      assert (a + b)[1..] == a[1..] + b;
      SizeConcat(a[1..], b);
    }
  }

  // ----- ACK frames -----

  datatype AckRange = AckRange(gap: nat, length: nat)
  datatype AckFrame = AckFrame(largest: nat, firstRange: nat, ranges: seq<AckRange>)

  ghost function EncodeTail(above: nat, rs: seq<Range>): seq<AckRange>
    requires Normal(rs) && (|rs| > 0 ==> rs[0].end + 1 < above)
  {
    if rs == [] then []
    else [AckRange(above - rs[0].end - 2, rs[0].end - rs[0].start)] + EncodeTail(rs[0].start, rs[1..])
  }

  /** The frame that acknowledges exactly `rs`. */
  ghost function Encode(rs: seq<Range>): AckFrame
    requires Normal(rs) && rs != []
  {
    AckFrame(rs[0].end, rs[0].end - rs[0].start, EncodeTail(rs[0].start, rs[1..]))
  }

  /** The ranges below packet number `above`, or nothing if one would fall below zero. */
  function DecodeTail(above: nat, ars: seq<AckRange>): Option<seq<Range>> {
    if ars == [] then Some([])
    else if above < ars[0].gap + 2 || above - ars[0].gap - 2 < ars[0].length then None
    else
      var end := above - ars[0].gap - 2;
      match DecodeTail(end - ars[0].length, ars[1..])
      case None => None
      case Some(rest) => Some([Range(end - ars[0].length, end)] + rest)
  }

  function Decode(a: AckFrame): Option<seq<Range>> {
    if a.largest < a.firstRange then None
    else
      match DecodeTail(a.largest - a.firstRange, a.ranges)
      case None => None
      case Some(rest) => Some([Range(a.largest - a.firstRange, a.largest)] + rest)
  }

  lemma {:induction false} DecodeEncodeTail(above: nat, rs: seq<Range>)
    requires Normal(rs) && (|rs| > 0 ==> rs[0].end + 1 < above)
    ensures DecodeTail(above, EncodeTail(above, rs)) == Some(rs)
  {
    if rs != [] {
      DecodeEncodeTail(rs[0].start, rs[1..]);
      assert EncodeTail(above, rs)[1..] == EncodeTail(rs[0].start, rs[1..]);
      assert rs == [rs[0]] + rs[1..];
    }
  }

  lemma {:induction false} EncodeDecodeTail(above: nat, ars: seq<AckRange>)
    requires DecodeTail(above, ars).Some?
    ensures var rs := DecodeTail(above, ars).value;
      && Normal(rs) && (|rs| > 0 ==> rs[0].end + 1 < above)
      && EncodeTail(above, rs) == ars
  {
    if ars != [] {
      var end := above - ars[0].gap - 2;
      EncodeDecodeTail(end - ars[0].length, ars[1..]);
      var rs, rest := DecodeTail(above, ars).value, DecodeTail(end - ars[0].length, ars[1..]).value;
      assert rs[1..] == rest;
      assert ars == [ars[0]] + ars[1..];
    }
  }

  /** ACK frames and range lists correspond one to one, in both directions. */
  lemma DecodeInvertsEncode(rs: seq<Range>)
    requires Normal(rs) && rs != []
    ensures Decode(Encode(rs)) == Some(rs)
  {
    DecodeEncodeTail(rs[0].start, rs[1..]);
    assert rs == [rs[0]] + rs[1..];
  }

  lemma EncodeInvertsDecode(a: AckFrame)
    requires Decode(a).Some?
    ensures var rs := Decode(a).value;
      Normal(rs) && rs != [] && Encode(rs) == a
  {
    EncodeDecodeTail(a.largest - a.firstRange, a.ranges);
    assert Decode(a).value[1..] == DecodeTail(a.largest - a.firstRange, a.ranges).value;
  }

  lemma {:induction false} DecodedTailAt(above: nat, ars: seq<AckRange>, rs: seq<Range>, i: nat)
    requires DecodeTail(above, ars) == Some(rs)
    ensures |rs| == |ars|
    ensures i < |ars| ==>
      && rs[i].end + ars[i].gap + 2 == (if i == 0 then above else rs[i - 1].start)
      && rs[i].start + ars[i].length == rs[i].end
    decreases |ars|
  {
    if ars != [] {
      var start := above - ars[0].gap - 2 - ars[0].length;
      DecodedTailAt(start, ars[1..], rs[1..], if i == 0 then 0 else i - 1);
    }
  }

  /** The meaning of a frame: gaps count the missing numbers less one, lengths the numbers of a range less one. */
  lemma DecodedAt(a: AckFrame, rs: seq<Range>, i: nat)
    requires Decode(a) == Some(rs)
    ensures |rs| == |a.ranges| + 1 && rs[0].end == a.largest && rs[0].start + a.firstRange == a.largest
    ensures i < |a.ranges| ==>
      rs[i + 1].end + a.ranges[i].gap + 2 == rs[i].start && rs[i + 1].start + a.ranges[i].length == rs[i + 1].end
  {
    DecodedTailAt(a.largest - a.firstRange, a.ranges, rs[1..], i);
  }

  // ----- The program's loops -----

  datatype AckError = TooManyAckRanges | InvalidAckFrame

  datatype AckResult = Built(frame: AckFrame) | Failed(error: AckError)

  /** `ackFrameInto`: build the frame in caller storage of `capacity` extra ranges. */
  method AckFrameInto(rs: seq<Range>, capacity: nat) returns (r: AckResult)
    requires Normal(rs)
    ensures rs == [] ==> r == Failed(InvalidAckFrame)
    ensures rs != [] && |rs| - 1 > capacity ==> r == Failed(TooManyAckRanges)
    ensures rs != [] && |rs| - 1 <= capacity ==> r == Built(Encode(rs))
  {
    if |rs| == 0 { return Failed(InvalidAckFrame); }
    var largest := rs[0];
    var extraCount := |rs| - 1;
    if capacity < extraCount { return Failed(TooManyAckRanges); }
    var previous := largest;
    var out: seq<AckRange> := [];
    ghost var whole := EncodeTail(largest.start, rs[1..]);
    assert [] + whole == whole;
    for i := 1 to |rs|
      invariant previous == rs[i - 1] && Continues(rs[i..], previous.start, out, whole)
    {
      var range := rs[i];
      assert rs[i..][0] == range && rs[i..][1..] == rs[i + 1..];
      var ok: bool;
      ok, out := AppendRange(previous, range, out, rs[i..], whole);
      if !ok { return Failed(InvalidAckFrame); }
      previous := range;
    }
    ContinuesDone(rs[|rs|..], previous.start, out, whole);
    r := Built(AckFrame(largest.end, largest.end - largest.start, out));
  }

  /** One more range below the previous one; the gap between them always fits. */
  method AppendRange(previous: Range, range: Range, out: seq<AckRange>, ghost rs: seq<Range>, ghost whole: seq<AckRange>)
    returns (ok: bool, out': seq<AckRange>)
    requires rs != [] && rs[0] == range && Continues(rs, previous.start, out, whole)
    ensures ok && Continues(rs[1..], range.start, out', whole)
  {
    if previous.start < range.end + 2 { return false, out; }
    ContinuesStep(rs, previous.start, out, whole);
    ok, out' := true, out + [AckRange(previous.start - range.end - 2, range.end - range.start)];
  }

  lemma ContinuesDone(rs: seq<Range>, above: nat, out: seq<AckRange>, whole: seq<AckRange>)
    requires rs == [] && Continues(rs, above, out, whole)
    ensures out == whole
  {
    assert out + [] == out;
  }

  /** With `out` written, the ranges below `above` complete the frame's tail. */
  ghost predicate Continues(rs: seq<Range>, above: nat, out: seq<AckRange>, whole: seq<AckRange>) {
    Normal(rs) && (|rs| > 0 ==> rs[0].end + 1 < above) && out + EncodeTail(above, rs) == whole
  }

  lemma ContinuesStep(rs: seq<Range>, above: nat, out: seq<AckRange>, whole: seq<AckRange>)
    requires rs != [] && Continues(rs, above, out, whole)
    ensures Continues(rs[1..], rs[0].start, out + [AckRange(above - rs[0].end - 2, rs[0].end - rs[0].start)], whole)
  {
    var item, rest := AckRange(above - rs[0].end - 2, rs[0].end - rs[0].start), EncodeTail(rs[0].start, rs[1..]);
    assert EncodeTail(above, rs) == [item] + rest;
    assert out + ([item] + rest) == (out + [item]) + rest;
  }

  /** `decodeAckRanges`: walk the gaps downwards, rejecting any underflow. */
  method DecodeAckRanges(a: AckFrame) returns (r: Option<seq<Range>>)
    ensures r == Decode(a)
  {
    if a.largest < a.firstRange { return None; }
    var start: nat := a.largest - a.firstRange;
    var end: nat := a.largest;
    var out := [Range(start, end)];
    ghost var first := out;
    assert a.ranges[0..] == a.ranges;
    for i := 0 to |a.ranges|
      invariant match DecodeTail(start, a.ranges[i..])
        case None => Decode(a).None?
        case Some(rest) => Decode(a) == Some(out + rest)
    {
      var range := a.ranges[i];
      assert a.ranges[i..][0] == range && a.ranges[i..][1..] == a.ranges[i + 1..];
      var skipped := range.gap + 2;
      if start < skipped { return None; }
      end := start - skipped;
      if end < range.length { return None; }
      ghost var tail := DecodeTail(end - range.length, a.ranges[i + 1..]);
      start := end - range.length;
      if tail.Some? {
        assert out + ([Range(start, end)] + tail.value) == (out + [Range(start, end)]) + tail.value;
      }
      out := out + [Range(start, end)];
    }
    assert out + [] == out;
    r := Some(out);
  }
}
