/** Sums and counts over sequences, and the split of a byte count over streams (`bytesForStream`, `transferBytesForStream`). */
module Partition {
  import opened Base

  function Sum(s: seq<nat>): nat {
    if s == [] then 0 else Sum(s[..|s| - 1]) + s[|s| - 1]
  }

  lemma {:induction false} SumUpdate(s: seq<nat>, i: nat, v: nat)
    requires i < |s|
    ensures Sum(s[i := v]) == Sum(s) - s[i] + v
  {
    var n := |s| - 1;
    if i < n {
      assert s[i := v][..n] == s[..n][i := v];
      SumUpdate(s[..n], i, v);
    } else {
      assert s[i := v][..n] == s[..n];
    }
  }

  lemma SumAppend(s: seq<nat>, v: nat)
    ensures Sum(s + [v]) == Sum(s) + v
  {
    assert (s + [v])[..|s|] == s;
  }

  lemma {:induction false} SumBounded(a: seq<nat>, b: seq<nat>)
    requires |a| == |b| && forall i :: 0 <= i < |a| ==> a[i] <= b[i]
    ensures Sum(a) <= Sum(b)
    ensures Sum(a) == Sum(b) ==> a == b
  {
    if a != [] {
      var n := |a| - 1;
      SumBounded(a[..n], b[..n]);
      if Sum(a) == Sum(b) {
        assert a == a[..n] + [a[n]] && b == b[..n] + [b[n]];
      }
    }
  }

  lemma {:induction false} SumHasElement(s: seq<nat>, i: nat)
    requires i < |s|
    ensures s[i] <= Sum(s)
  {
    if i < |s| - 1 {
      SumHasElement(s[..|s| - 1], i);
    }
  }

  lemma {:induction false} SumConstant(s: seq<nat>, v: nat)
    requires forall i :: 0 <= i < |s| ==> s[i] == v
    ensures Sum(s) == |s| * v
  {
    if s != [] {
      SumConstant(s[..|s| - 1], v);
    }
  }

  /** How many flags are set. */
  function CountTrue(s: seq<bool>): nat {
    if s == [] then 0 else CountTrue(s[..|s| - 1]) + (if s[|s| - 1] then 1 else 0)
  }

  lemma {:induction false} CountTrueIsAll(s: seq<bool>)
    ensures CountTrue(s) <= |s|
    ensures CountTrue(s) == |s| <==> forall i :: 0 <= i < |s| ==> s[i]
  {
    if s != [] {
      CountTrueIsAll(s[..|s| - 1]);
      var front := s[..|s| - 1];
      assert forall i :: 0 <= i < |front| ==> front[i] == s[i];
    }
  }

  lemma {:induction false} CountTrueSet(s: seq<bool>, i: nat)
    requires i < |s| && !s[i]
    ensures CountTrue(s[i := true]) == CountTrue(s) + 1
  {
    var n := |s| - 1;
    if i < n {
      CountTrueSet(s[..n], i);
      assert s[i := true][..n] == s[..n][i := true];
    } else {
      assert s[i := true][..n] == s[..n];
    }
  }

  lemma {:induction false} NoneTrue(s: seq<bool>)
    requires forall i :: 0 <= i < |s| ==> !s[i]
    ensures CountTrue(s) == 0
  {
    if s != [] {
      NoneTrue(s[..|s| - 1]);
    }
  }

  lemma CountTrueAppend(s: seq<bool>)
    ensures CountTrue(s + [false]) == CountTrue(s)
  {
    assert (s + [false])[..|s|] == s;
  }

  /** The total weight of the elements. */
  function Tally<P>(ts: seq<P>, weigh: P -> nat): nat {
    if ts == [] then 0 else Tally(ts[..|ts| - 1], weigh) + weigh(ts[|ts| - 1])
  }

  lemma {:induction false} TallyUpdate<P>(ts: seq<P>, weigh: P -> nat, i: nat, p: P)
    requires i < |ts|
    ensures Tally(ts[i := p], weigh) + weigh(ts[i]) == Tally(ts, weigh) + weigh(p)
    decreases |ts|
  {
    var n := |ts| - 1;
    if i == n {
      assert ts[i := p][..n] == ts[..n];
    } else {
      TallyUpdate(ts[..n], weigh, i, p);
      assert ts[i := p][..n] == ts[..n][i := p];
    }
  }

  lemma {:induction false} TallyZero<P>(ts: seq<P>, weigh: P -> nat)
    requires forall i :: 0 <= i < |ts| ==> weigh(ts[i]) == 0
    ensures Tally(ts, weigh) == 0
  {
    if ts != [] {
      TallyZero(ts[..|ts| - 1], weigh);
    }
  }

  lemma {:induction false} TallyOne<P>(ts: seq<P>, weigh: P -> nat)
    requires forall i :: 0 <= i < |ts| ==> weigh(ts[i]) <= 1
    ensures Tally(ts, weigh) <= |ts|
    ensures Tally(ts, weigh) == |ts| <==> forall i :: 0 <= i < |ts| ==> weigh(ts[i]) == 1
  {
    if ts != [] {
      var front := ts[..|ts| - 1];
      TallyOne(front, weigh);
      assert forall i :: 0 <= i < |front| ==> front[i] == ts[i];
    }
  }

  /** Bytes assigned to one stream: an even split, the remainder going to the first streams. */
  function Share(total: nat, streams: nat, index: nat): nat
    requires streams > 0
  {
    total / streams + (if index < total % streams then 1 else 0)
  }

  function Shares(total: nat, streams: nat): (s: seq<nat>)
    requires streams > 0
    ensures |s| == streams
    ensures forall i :: 0 <= i < streams ==> s[i] == Share(total, streams, i)
  {
    seq(streams, i requires 0 <= i < streams => Share(total, streams, i))
  }

  lemma {:induction false} SharesPrefixSum(total: nat, streams: nat, k: nat)
    requires 0 < streams && k <= streams
    ensures Sum(Shares(total, streams)[..k]) == k * (total / streams) + (if k < total % streams then k else total % streams)
  {
    var s := Shares(total, streams);
    if k > 0 {
      SharesPrefixSum(total, streams, k - 1);
      assert s[..k][..k - 1] == s[..k - 1];
      assert k * (total / streams) == (k - 1) * (total / streams) + total / streams;
    }
  }

  /** No byte is lost or assigned twice. */
  lemma SharesSumToTotal(total: nat, streams: nat)
    requires streams > 0
    ensures Sum(Shares(total, streams)) == total
  {
    SharesPrefixSum(total, streams, streams);
    assert Shares(total, streams)[..streams] == Shares(total, streams);
  }

  lemma SharesArePositive(total: nat, streams: nat, index: nat)
    requires 0 < streams <= total
    ensures Share(total, streams, index) >= 1
  {
    var q := total / streams;
    assert total == streams * q + total % streams;
    assert q == 0 ==> streams * q == 0;
  }

  /** With fewer bytes than streams the last stream gets none. */
  lemma LastShareIsEmpty(total: nat, streams: nat)
    requires total < streams
    ensures Share(total, streams, streams - 1) == 0
  {
    QuotientIs(total, streams, 0, total);
  }
}
