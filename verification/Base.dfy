/** Shared vocabulary: optional values, octets and the word size of the modelled target. */
module Base {
  datatype Option<+T> = None | Some(value: T)

  type Byte = b: int | 0 <= b < 256

  // `usize` and `u64` on the 64-bit targets the program is built for.
  const MAX_U64: nat := 0xFFFF_FFFF_FFFF_FFFF

  function Min(a: int, b: int): int {
    if a <= b then a else b
  }

  function Max(a: int, b: int): int {
    if a <= b then b else a
  }

  ghost predicate AllDistinct<T(!new)>(s: seq<T>) {
    forall i, j :: 0 <= i < j < |s| ==> s[i] != s[j]
  }

  /** The sequence without position `k`. */
  function Dropped<T>(s: seq<T>, k: nat): (r: seq<T>)
    requires k < |s|
    ensures |r| == |s| - 1
    ensures forall i :: 0 <= i < k ==> r[i] == s[i]
    ensures forall i :: k <= i < |r| ==> r[i] == s[i + 1]
  {
    s[..k] + s[k + 1..]
  }

  /** The first position of a value. */
  function IndexOf<T(==)>(s: seq<T>, x: T): (i: nat)
    requires x in s
    ensures i < |s| && s[i] == x && x !in s[..i]
  {
    if s[0] == x then 0 else 1 + IndexOf(s[1..], x)
  }

  lemma {:induction false} FirstIndex<T>(s: seq<T>, x: T, i: nat)
    requires i < |s| && s[i] == x && x !in s[..i]
    ensures IndexOf(s, x) == i
    decreases i
  {
    if i > 0 {
      assert s[..i][0] == s[0];
      assert s[1..][..i - 1] == s[..i][1..];
      FirstIndex(s[1..], x, i - 1);
    }
  }

  ghost function Members(s: seq<nat>): (r: set<nat>)
    ensures forall x :: x in r <==> x in s
  {
    set x | x in s
  }

  lemma {:induction false} DistinctMembers(s: seq<nat>)
    requires AllDistinct(s)
    ensures |Members(s)| == |s|
  {
    if s == [] {
      assert Members(s) == {};
    } else {
      var n := |s| - 1;
      DistinctMembers(s[..n]);
      assert s == s[..n] + [s[n]];
      assert Members(s) == Members(s[..n]) + {s[n]};
    }
  }

  lemma QuotientIs(n: int, d: int, q: int, r: int)
    requires d > 0 && 0 <= r < d && n == q * d + r
    ensures n / d == q && n % d == r
  {
    var k := n / d - q;
    assert k * d == r - n % d;
    assert k >= 1 ==> k * d >= d;
    assert k <= -1 ==> k * d <= -d;
  }

  /** Counting up, the quotient grows exactly at the multiples. */
  lemma NextMultiple(n: nat, d: nat)
    requires d > 0
    ensures (n + 1) / d == n / d + (if (n + 1) % d == 0 then 1 else 0)
  {
    var q, r := n / d, n % d;
    if r + 1 == d {
      assert n + 1 == (q + 1) * d;
      QuotientIs(n + 1, d, q + 1, 0);
    } else {
      QuotientIs(n + 1, d, q, r + 1);
    }
  }

  lemma {:induction false} QuotientAtMost(n: nat, d: nat)
    requires d > 0
    ensures 0 <= n / d <= n
    decreases n
  {
    if n == 0 {
      QuotientIs(0, d, 0, 0);
    } else {
      QuotientAtMost(n - 1, d);
      NextMultiple(n - 1, d);
    }
  }

  /** A loop that returns the first position, shared by every linear search over stream ids. */
  method FindIndex<T(==)>(s: seq<T>, x: T) returns (r: Option<nat>)
    ensures r == if x in s then Some(IndexOf(s, x)) else None
  {
    for i := 0 to |s|
      invariant x !in s[..i]
    {
      if s[i] == x {
        FirstIndex(s, x, i);
        return Some(i);
      }
    }
    assert s[..|s|] == s;
    return None;
  }
}
