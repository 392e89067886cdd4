/**
 MQTT packet framing as read by tools/interop/mqtt_mosquitto_vectors.py: the fixed
 header byte, the Remaining Length of section 1.5.5 of MQTT Version 5.0, the body.

 A socket hands out its bytes in pieces of its own choosing; `Parse` says what the
 reader makes of the bytes, whatever the pieces.
 */
module MqttFraming {
  import opened Base

  type Bytes = seq<Byte>

  const MAX_REMAINING: nat := 268_435_455

  // ----- The Remaining Length -----

  /** Base 128, least significant digit first, with a continuation bit on all but the last. */
  function EncodeLength(n: nat): (r: Bytes)
    ensures |r| > 0
  {
    if n < 128 then [n] else [n % 128 + 128] + EncodeLength(n / 128)
  }

  datatype Length = Length(value: nat, used: nat) | TooShort | TooLong

  /** Read at most `digits` digits. */
  function DecodeLength(s: Bytes, digits: nat): Length
    decreases digits
  {
    if digits == 0 then TooLong
    else if s == [] then TooShort
    else if s[0] < 128 then Length(s[0], 1)
    else
      match DecodeLength(s[1..], digits - 1)
      case Length(value, used) => Length(s[0] - 128 + 128 * value, used + 1)
      case TooShort => TooShort
      case TooLong => TooLong
  }

  function Capacity(digits: nat): (r: nat)
    ensures r >= 1
  {
    if digits == 0 then 1 else 128 * Capacity(digits - 1)
  }

  lemma {:induction false} LengthRoundTrip(n: nat, digits: nat, rest: Bytes)
    requires digits > 0 && n < Capacity(digits)
    ensures DecodeLength(EncodeLength(n) + rest, digits) == Length(n, |EncodeLength(n)|)
    ensures |EncodeLength(n)| <= digits
    decreases digits
  {
    var s := EncodeLength(n) + rest;
    if n >= 128 {
      LengthRoundTrip(n / 128, digits - 1, rest);
      assert s[1..] == EncodeLength(n / 128) + rest;
      assert s[0] == n % 128 + 128;
    } else {
      assert s[0] == n;
    }
  }

  /** Four digits reach exactly up to 268,435,455. */
  lemma FourDigits(n: nat)
    ensures |EncodeLength(n)| <= 4 <==> n <= MAX_REMAINING
  {
    CapacityOfFour();
    if n <= MAX_REMAINING {
      LengthRoundTrip(n, 4, []);
    } else {
      LongLength(n, 4);
    }
  }

  lemma CapacityOfFour()
    ensures Capacity(4) == MAX_REMAINING + 1
  {
    assert Capacity(1) == 128 && Capacity(2) == 16384 && Capacity(3) == 2097152;
  }

  lemma {:induction false} LongLength(n: nat, digits: nat)
    requires n >= Capacity(digits)
    ensures |EncodeLength(n)| > digits
    decreases digits
  {
    if digits > 0 {
      LongLength(n / 128, digits - 1);
    }
  }

  /** What the reader accepts is bounded too. */
  lemma {:induction false} DecodedIsBounded(s: Bytes, digits: nat)
    ensures DecodeLength(s, digits).Length? ==>
      && 0 < DecodeLength(s, digits).used <= digits && DecodeLength(s, digits).used <= |s|
      && DecodeLength(s, digits).value < Capacity(digits)
    decreases digits
  {
    if digits > 0 && s != [] {
      DecodedIsBounded(s[1..], digits - 1);
    }
  }

  /** The four lengths of length, spelled out; more digits than needed are accepted, a fifth is not. */
  lemma LengthExactly(s: Bytes)
    ensures |s| >= 1 && s[0] < 128 ==> DecodeLength(s, 4) == Length(s[0], 1)
    ensures |s| >= 2 && s[0] >= 128 && s[1] < 128 ==> DecodeLength(s, 4) == Length(s[0] as int - 128 + 128 * (s[1] as int), 2)
    ensures |s| >= 3 && s[0] >= 128 && s[1] >= 128 && s[2] < 128 ==>
      DecodeLength(s, 4) == Length(s[0] as int - 128 + 128 * (s[1] as int - 128) + 16384 * (s[2] as int), 3)
    ensures |s| >= 4 && s[0] >= 128 && s[1] >= 128 && s[2] >= 128 && s[3] < 128 ==>
      DecodeLength(s, 4) == Length(s[0] as int - 128 + 128 * (s[1] as int - 128) + 16384 * (s[2] as int - 128) + 2097152 * (s[3] as int), 4)
    ensures |s| >= 4 && s[0] >= 128 && s[1] >= 128 && s[2] >= 128 && s[3] >= 128 ==> DecodeLength(s, 4) == TooLong
    ensures |s| < 4 && (forall i :: 0 <= i < |s| ==> s[i] >= 128) ==> DecodeLength(s, 4) == TooShort
  {
    if |s| >= 1 {
      OneDigit(s, 4);
      if |s| >= 2 {
        OneDigit(s[1..], 3);
        if |s| >= 3 {
          OneDigit(s[1..][1..], 2);
          if |s| >= 4 {
            OneDigit(s[1..][1..][1..], 1);
          }
        }
      }
    }
  }

  lemma OneDigit(s: Bytes, digits: nat)
    requires s != [] && digits > 0
    ensures DecodeLength(s, digits) ==
      if s[0] < 128 then Length(s[0], 1)
      else
        match DecodeLength(s[1..], digits - 1)
        case Length(value, used) => Length(s[0] - 128 + 128 * value, used + 1)
        case other => other
  {
  }

  // ----- Packets -----

  datatype Parsed = Packet(bytes: Bytes, rest: Bytes) | Closed | Malformed

  function Parse(s: Bytes): Parsed {
    if s == [] then Closed
    else
      match DecodeLength(s[1..], 4)
      case TooShort => Closed
      case TooLong => Malformed
      case Length(value, used) =>
        var end := 1 + used + value;
        if |s| < end then Closed else Packet(s[..end], s[end..])
  }

  /** A packet is the first byte, the length as read, and as many bytes as it says; it is missing bytes, or its length is too long. */
  lemma ParseExactly(s: Bytes)
    ensures Parse(s).Packet? ==>
      var length := DecodeLength(s[1..], 4);
      && length.Length? && Parse(s).bytes + Parse(s).rest == s && |Parse(s).bytes| == 1 + length.used + length.value
    ensures Parse(s) == Malformed <==> |s| >= 5 && s[1] >= 128 && s[2] >= 128 && s[3] >= 128 && s[4] >= 128
    ensures Parse(s) == Closed <==>
      || s == [] || DecodeLength(s[1..], 4) == TooShort
      || (DecodeLength(s[1..], 4).Length? && |s| < 1 + DecodeLength(s[1..], 4).used + DecodeLength(s[1..], 4).value)
  {
    if s != [] {
      LengthExactly(s[1..]);
    }
  }

  /** A well-formed packet: first byte, minimal length, body. */
  function Frame(first: Byte, body: Bytes): Bytes {
    [first] + EncodeLength(|body|) + body
  }

  ghost predicate IsFrame(p: Bytes) {
    exists first: Byte, body: Bytes :: |body| <= MAX_REMAINING && p == Frame(first, body)
  }

  /** Reading inverts framing, for every body a packet can have. */
  lemma ParseInvertsFrame(first: Byte, body: Bytes, rest: Bytes)
    requires |body| <= MAX_REMAINING
    ensures Parse(Frame(first, body) + rest) == Packet(Frame(first, body), rest)
  {
    var s := Frame(first, body) + rest;
    assert s[1..] == EncodeLength(|body|) + (body + rest);
    CapacityOfFour();
    LengthRoundTrip(|body|, 4, body + rest);
    var end := |Frame(first, body)|;
    assert s[..end] == Frame(first, body) && s[end..] == rest;
  }

  /** The next `n` packets. */
  function ParseMany(s: Bytes, n: nat): Option<seq<Bytes>> {
    if n == 0 then Some([])
    else
      match Parse(s)
      case Packet(p, rest) =>
        (match ParseMany(rest, n - 1)
         case Some(ps) => Some([p] + ps)
         case None => None)
      case _ => None
  }

  function Concat(ps: seq<Bytes>): Bytes {
    if ps == [] then [] else ps[0] + Concat(ps[1..])
  }

  ghost predicate AllFrames(ps: seq<Bytes>) {
    forall i :: 0 <= i < |ps| ==> IsFrame(ps[i])
  }

  lemma ParseManyStep(s: Bytes, p: Bytes, rest: Bytes, ps: seq<Bytes>, n: nat)
    requires Parse(s) == Packet(p, rest) && ParseMany(rest, n) == Some(ps)
    ensures ParseMany(s, n + 1) == Some([p] + ps)
  {
  }

  /** Any list of well-formed packets comes back exactly, in order. */
  lemma {:induction false} ParseManyInvertsConcat(ps: seq<Bytes>, rest: Bytes)
    requires AllFrames(ps)
    ensures ParseMany(Concat(ps) + rest, |ps|) == Some(ps)
  {
    if ps != [] {
      var p, tail := ps[0], ps[1..];
      var more := Concat(tail) + rest;
      ParseManyInvertsConcat(tail, rest);
      ParseFrame(p, more);
      ParseManyStep(p + more, p, more, tail, |tail|);
      ConcatFront(ps, rest);
    }
  }

  lemma ConcatFront(ps: seq<Bytes>, rest: Bytes)
    requires ps != []
    ensures Concat(ps) + rest == ps[0] + (Concat(ps[1..]) + rest) && ps == [ps[0]] + ps[1..]
  {
    assert Concat(ps) == ps[0] + Concat(ps[1..]);
  }

  lemma ParseFrame(p: Bytes, rest: Bytes)
    requires IsFrame(p)
    ensures Parse(p + rest) == Packet(p, rest)
  {
    var first: Byte, body: Bytes :| |body| <= MAX_REMAINING && p == Frame(first, body);
    ParseInvertsFrame(first, body, rest);
  }

  // ----- The program -----

  /** A connection: the bytes still to come and how many each `recv` will hand out. */
  class Socket {
    var data: Bytes
    var pieces: seq<nat>

    constructor (data: Bytes, pieces: seq<nat>)
      ensures this.data == data
    {
      this.data, this.pieces := data, pieces;
    }

    /** `recv`: some of the next bytes, at least one unless the peer closed. */
    method Recv(n: nat) returns (part: Bytes)
      requires n > 0
      modifies this
      ensures part + data == old(data) && |part| <= n
      ensures part == [] <==> old(data) == []
    {
      var size := if |pieces| > 0 then pieces[0] else n;
      if |pieces| > 0 { pieces := pieces[1..]; }
      size := Max(1, Min(size, n));
      size := Min(size, |data|);
      part, data := data[..size], data[size..];
    }

    /** `recv_exact`: exactly `count` bytes, whatever the pieces. */
    method RecvExact(count: nat) returns (r: Option<Bytes>)
      modifies this
      ensures |old(data)| >= count ==> r == Some(old(data)[..count]) && data == old(data)[count..]
      ensures |old(data)| < count ==> r == None && data == []
    {
      var result: Bytes := [];
      while |result| < count
        invariant |result| <= count && result + data == old(data)
      {
        var part := Recv(count - |result|);
        if |part| == 0 { return None; }
        result := result + part;
      }
      assert old(data)[..count] == result;
      r := Some(result);
    }

    /** Append the next byte to the digits read so far. */
    method ReadDigit(digits: Bytes, ghost s: Bytes) returns (encoded: Option<Byte>, digits': Bytes)
      requires digits + data == s
      modifies this
      ensures encoded.None? ==> old(data) == []
      ensures encoded.Some? ==> old(data) != [] && encoded.value == old(data)[0] && data == old(data)[1..]
      ensures encoded.Some? ==> |digits'| == |digits| + 1 && digits' + data == s
    {
      var one := RecvExact(1);
      if one.None? { return None, digits; }
      encoded, digits' := Some(one.value[0]), digits + one.value;
      assert digits + (one.value + data) == digits' + data;
    }

    /** The length bytes, read one at a time. */
    method ReadLength() returns (r: Length, digits: Bytes)
      modifies this
      ensures r == DecodeLength(old(data), 4)
      ensures r.Length? ==> r.used == |digits| && digits + data == old(data)
    {
      var multiplier: nat, remaining: nat := 1, 0;
      digits := [];
      ghost var s, left: nat := data, 4;
      ghost var whole := DecodeLength(s, 4);
      ReadingStarts(s);
      while true
        invariant digits + data == s && |digits| + left == 4
        invariant Reading(whole, data, left, remaining, |digits|, multiplier)
        decreases left
      {
        ReadingStep(whole, data, left, remaining, |digits|, multiplier);
        var encoded: Option<Byte>;
        encoded, digits := ReadDigit(digits, s);
        if encoded.None? { return TooShort, digits; }
        remaining := remaining + Weighted(encoded.value, multiplier);
        if encoded.value < 128 { return Length(remaining, |digits|), digits; }
        multiplier := multiplier * 128;
        left := left - 1;
        if multiplier > 128 * 128 * 128 { return TooLong, digits; }
      }
    }

    /** `read_packet`. */
    method ReadPacket() returns (r: Parsed)
      modifies this
      ensures r == Parse(old(data))
      ensures r.Packet? ==> data == r.rest
    {
      ghost var s := data;
      var fixed := RecvExact(1);
      if fixed.None? { return Closed; }
      var length, digits := ReadLength();
      if length.TooShort? { return Closed; }
      if length.TooLong? { return Malformed; }
      ghost var tail := data;
      var body := RecvExact(length.value);
      ParseFrom(s, fixed.value, digits, tail, length.value);
      if body.None? { return Closed; }
      r := Packet(fixed.value + digits + body.value, data);
    }

    /** Read one packet and strike it off the list. */
    method ExpectOne(remaining: seq<Bytes>, ghost whole: Option<seq<Bytes>>, ghost seen: seq<Bytes>, ghost expected: seq<Bytes>, ghost n: nat)
      returns (ok: bool, remaining': seq<Bytes>, ghost p: Bytes)
      requires n > 0 && Prefixed(whole, seen, ParseMany(data, n)) && Accounted(remaining, seen, expected)
      modifies this
      ensures !ok ==> !Matches(whole, expected)
      ensures ok ==> |remaining'| == |remaining| - 1 && Accounted(remaining', seen + [p], expected)
      ensures ok ==> Prefixed(whole, seen + [p], ParseMany(data, n - 1))
    {
      ghost var before := data;
      remaining', p := remaining, [];
      var actual := ReadPacket();
      if !actual.Packet? { return false, remaining', p; }
      p := actual.bytes;
      MoreSeen(whole, before, data, p, seen, n);
      var at := FindIndex(remaining, actual.bytes);
      if at.None? {
        NotExpected(whole, seen, p, ParseMany(data, n - 1), remaining, expected);
        return false, remaining', p;
      }
      remaining' := RemovePacket(remaining, at.value);
      AccountedStep(remaining, remaining', seen, p, expected);
      ok := true;
    }

    /** `expect_packets_unordered`: the next packets are the expected ones, in any order. */
    method ExpectUnordered(expected: seq<Bytes>) returns (ok: bool)
      modifies this
      ensures ok <==> Matches(ParseMany(old(data), |expected|), expected)
    {
      var remaining := expected;
      ghost var seen: seq<Bytes> := [];
      ghost var whole := ParseMany(data, |expected|);
      StartSeen(whole);
      for i := 0 to |expected|
        invariant |remaining| == |expected| - i && Accounted(remaining, seen, expected)
        invariant Prefixed(whole, seen, ParseMany(data, |expected| - i))
      {
        ghost var p: Bytes;
        ok, remaining, p := ExpectOne(remaining, whole, seen, expected, |expected| - i);
        if !ok { return; }
        seen := seen + [p];
      }
      AllSeen(whole, seen, remaining, expected);
      ok := true;
    }
  }

  /** Once header and length are read, the packet is decided by what follows. */
  lemma ParseFrom(s: Bytes, fixed: Bytes, digits: Bytes, tail: Bytes, value: nat)
    requires |fixed| == 1 && s == fixed + (digits + tail)
    requires DecodeLength(digits + tail, 4) == Length(value, |digits|)
    ensures |tail| < value ==> Parse(s) == Closed
    ensures |tail| >= value ==> Parse(s) == Packet(fixed + digits + tail[..value], tail[value..])
  {
    assert s[1..] == digits + tail;
    if |tail| >= value {
      Regroup(fixed, digits, tail, value);
      ParseCut(s, fixed + digits + tail[..value], tail[value..], value, |digits|);
    }
  }

  lemma Regroup(fixed: Bytes, digits: Bytes, tail: Bytes, value: nat)
    requires value <= |tail|
    ensures fixed + (digits + tail) == (fixed + digits + tail[..value]) + tail[value..]
  {
    assert tail == tail[..value] + tail[value..];
  }

  lemma ParseCut(s: Bytes, front: Bytes, back: Bytes, value: nat, used: nat)
    requires s != [] && DecodeLength(s[1..], 4) == Length(value, used)
    requires s == front + back && |front| == 1 + used + value
    ensures Parse(s) == Packet(front, back)
  {
    SplitAt(s, front, back);
  }

  lemma SplitAt(s: Bytes, front: Bytes, back: Bytes)
    requires s == front + back
    ensures s[..|front|] == front && s[|front|..] == back
  {
  }

  /** Every expected packet was either seen or is still remaining. */
  ghost predicate Accounted(remaining: seq<Bytes>, seen: seq<Bytes>, expected: seq<Bytes>) {
    multiset(remaining) + multiset(seen) == multiset(expected)
  }

  lemma AccountedStep(had: seq<Bytes>, remaining: seq<Bytes>, seen: seq<Bytes>, p: Bytes, expected: seq<Bytes>)
    requires Accounted(had, seen, expected) && multiset(had) == multiset(remaining) + multiset([p])
    ensures Accounted(remaining, seen + [p], expected)
  {
  }

  ghost predicate Matches(packets: Option<seq<Bytes>>, expected: seq<Bytes>) {
    packets.Some? && multiset(packets.value) == multiset(expected)
  }

  /** The weight of the next digit, with `left` digits to go. */
  ghost predicate Weight(left: nat, multiplier: nat) {
    || (left == 4 && multiplier == 1)
    || (left == 3 && multiplier == 128)
    || (left == 2 && multiplier == 16384)
    || (left == 1 && multiplier == 2097152)
  }

  /** The whole reading follows from the part still to be read. */
  ghost predicate Continues(whole: Length, rest: Length, value: nat, used: nat, multiplier: nat) {
    match rest
    case Length(v, u) => whole == Length(value + v * multiplier, used + u)
    case TooShort => whole == TooShort
    case TooLong => whole == TooLong
  }

  /** The contribution of one digit: its low seven bits. */
  function Weighted(encoded: Byte, multiplier: nat): nat {
    (encoded % 128) * multiplier
  }

  ghost predicate Reading(whole: Length, s: Bytes, left: nat, value: nat, used: nat, multiplier: nat) {
    Weight(left, multiplier) && Continues(whole, DecodeLength(s, left), value, used, multiplier)
  }

  lemma ReadingStarts(s: Bytes)
    ensures Reading(DecodeLength(s, 4), s, 4, 0, 0, 1)
  {
  }

  lemma DigitShift(digit: nat, value: nat, multiplier: nat)
    ensures (digit + 128 * value) * multiplier == digit * multiplier + value * (multiplier * 128)
  {
  }

  lemma ReadingStep(whole: Length, s: Bytes, left: nat, value: nat, used: nat, multiplier: nat)
    requires Reading(whole, s, left, value, used, multiplier)
    ensures s == [] ==> whole == TooShort
    ensures s != [] && s[0] < 128 ==> whole == Length(value + Weighted(s[0], multiplier), used + 1)
    ensures s != [] && s[0] >= 128 && left == 1 ==> whole == TooLong
    ensures s != [] && s[0] >= 128 && left > 1 ==>
      Reading(whole, s[1..], left - 1, value + Weighted(s[0], multiplier), used + 1, multiplier * 128)
    ensures left == 1 <==> multiplier * 128 > 128 * 128 * 128
  {
    if s != [] && s[0] >= 128 {
      var rest := DecodeLength(s[1..], left - 1);
      assert s[0] % 128 == s[0] - 128;
      if rest.Length? {
        DigitShift(s[0] - 128, rest.value, multiplier);
      }
    }
  }

  ghost predicate Prefixed(whole: Option<seq<Bytes>>, seen: seq<Bytes>, rest: Option<seq<Bytes>>) {
    match rest
    case Some(ps) => whole == Some(seen + ps)
    case None => whole == None
  }

  lemma StartSeen(whole: Option<seq<Bytes>>)
    ensures Prefixed(whole, [], whole)
  {
    if whole.Some? {
      assert [] + whole.value == whole.value;
    }
  }

  lemma MoreSeen(whole: Option<seq<Bytes>>, before: Bytes, after: Bytes, p: Bytes, seen: seq<Bytes>, n: nat)
    requires n > 0 && Prefixed(whole, seen, ParseMany(before, n)) && Parse(before) == Packet(p, after)
    ensures Prefixed(whole, seen + [p], ParseMany(after, n - 1))
  {
    var rest := ParseMany(after, n - 1);
    if rest.Some? {
      assert seen + ([p] + rest.value) == (seen + [p]) + rest.value;
    }
  }

  lemma NotExpected(
    whole: Option<seq<Bytes>>, seen: seq<Bytes>, p: Bytes, rest: Option<seq<Bytes>>, remaining: seq<Bytes>, expected: seq<Bytes>)
    requires Prefixed(whole, seen + [p], rest) && p !in remaining && Accounted(remaining, seen, expected)
    ensures !Matches(whole, expected)
  {
    if rest.Some? {
      var all := (seen + [p]) + rest.value;
      assert multiset(all)[p] == multiset(seen)[p] + 1 + multiset(rest.value)[p];
      assert multiset(expected)[p] == multiset(seen)[p] + multiset(remaining)[p];
    }
  }

  lemma AllSeen(whole: Option<seq<Bytes>>, seen: seq<Bytes>, remaining: seq<Bytes>, expected: seq<Bytes>)
    requires Prefixed(whole, seen, Some([])) && remaining == [] && Accounted(remaining, seen, expected)
    ensures Matches(whole, expected)
  {
    assert seen + [] == seen;
  }

  method RemovePacket(ps: seq<Bytes>, i: nat) returns (r: seq<Bytes>)
    requires i < |ps|
    ensures |r| == |ps| - 1 && multiset(ps) == multiset(r) + multiset([ps[i]])
  {
    assert ps == ps[..i] + [ps[i]] + ps[i + 1..];
    r := ps[..i] + ps[i + 1..];
  }
}
