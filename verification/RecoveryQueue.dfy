/**
 Payloads awaiting acknowledgment (src/quic/recovery.zig, `Queue`).

 A group is one encoded payload together with every outstanding packet number
 that carried it.  The groups stay in sending order; two indexes map packet
 numbers and group ids to positions and must follow every shift of the list.
 */
module RecoveryQueue {
  import opened Base
  import opened AckRanges

  datatype Group = Group(id: nat, original: Option<nat>, copies: seq<nat>, newest: nat, payload: seq<Byte>)

  predicate Holds(g: Group, pn: nat) {
    g.original == Some(pn) || pn in g.copies
  }

  function Count(g: Group): nat {
    (if g.original.Some? then 1 else 0) + |g.copies|
  }

  ghost predicate GroupOk(g: Group) {
    && AllDistinct(g.copies)
    && (g.original.Some? ==> g.original.value !in g.copies)
    && Count(g) > 0 && g.payload != []
  }

  // ----- One group losing a number -----

  /** Swap-remove, as the program does for all but the last copy. */
  function Without(copies: seq<nat>, i: nat): (r: seq<nat>)
    requires i < |copies|
    ensures |r| == |copies| - 1
  {
    var last := |copies| - 1;
    if i == last then copies[..last] else copies[..last][i := copies[last]]
  }

  function Refreshed(g: Group): Group {
    if g.copies != [] then g.(newest := g.copies[|g.copies| - 1])
    else if g.original.Some? then g.(newest := g.original.value)
    else g
  }

  /** Forget one of several outstanding numbers. */
  function ForgetCopy(g: Group, i: nat): Group
    requires i < |g.copies|
  {
    var g' := g.(copies := Without(g.copies, i));
    if i == |g.copies| - 1 then Refreshed(g') else g'
  }

  function ForgetOriginal(g: Group): Group {
    g.(original := None)
  }

  lemma WithoutLosesExactly(copies: seq<nat>, i: nat, pn: nat)
    requires i < |copies| && AllDistinct(copies)
    ensures AllDistinct(Without(copies, i))
    ensures pn in Without(copies, i) <==> pn in copies && pn != copies[i]
  {
    var r, last := Without(copies, i), |copies| - 1;
    if pn in copies && pn != copies[i] {
      var j :| 0 <= j < |copies| && copies[j] == pn;
      assert j < last ==> r[j] == pn;
      assert j == last ==> r[i] == pn;
    }
    if pn in r {
      var j :| 0 <= j < |r| && r[j] == pn;
      assert j == i ==> copies[last] == pn;
      assert j != i ==> copies[j] == pn;
    }
  }

  lemma ForgetCopyLosesExactly(g: Group, i: nat, pn: nat)
    requires GroupOk(g) && i < |g.copies| && Count(g) > 1
    ensures GroupOk(ForgetCopy(g, i))
    ensures Holds(ForgetCopy(g, i), pn) <==> Holds(g, pn) && pn != g.copies[i]
    ensures ForgetCopy(g, i).id == g.id && ForgetCopy(g, i).payload == g.payload
    ensures Count(ForgetCopy(g, i)) == Count(g) - 1
  {
    WithoutLosesExactly(g.copies, i, pn);
    if g.original.Some? {
      WithoutLosesExactly(g.copies, i, g.original.value);
    }
  }

  // ----- The newest copy -----

  ghost predicate Above(x: nat, s: seq<nat>) {
    forall i :: 0 <= i < |s| ==> s[i] <= x
  }

  /** `newest` is the largest outstanding number, and the first sending came first. */
  ghost predicate NewestIsRight(g: Group) {
    && Holds(g, g.newest)
    && Above(g.newest, g.copies)
    && (g.original.Some? ==> g.original.value <= g.newest)
  }

  ghost predicate OriginalFirst(g: Group) {
    g.original.Some? ==> forall i :: 0 <= i < |g.copies| ==> g.original.value < g.copies[i]
  }

  /**
   Forgetting copy `i` leaves the newest copy right exactly when: copy `i` is not the
   newest one, unless it also stands last; and if it stands last, the copy before it
   is the largest of those that remain.
   */
  ghost predicate SafeToForget(g: Group, i: nat)
    requires i < |g.copies|
  {
    var last := |g.copies| - 1;
    if i < last then g.copies[i] != g.newest
    else last > 0 ==> Above(g.copies[last - 1], g.copies[..last])
  }

  lemma NewestRightIffSafe(g: Group, i: nat)
    requires GroupOk(g) && NewestIsRight(g) && OriginalFirst(g)
    requires i < |g.copies| && Count(g) > 1
    ensures NewestIsRight(ForgetCopy(g, i)) <==> SafeToForget(g, i)
  {
    var last, g' := |g.copies| - 1, ForgetCopy(g, i);
    ForgetCopyLosesExactly(g, i, g.newest);
    if i == last && last > 0 {
      assert g'.newest == g.copies[last - 1] && g'.copies[last - 1] == g.copies[last - 1];
    }
  }

  ghost predicate Ascending(s: seq<nat>) {
    forall i, j :: 0 <= i < j < |s| ==> s[i] < s[j]
  }

  /** Copies in sending order are always safe, and one forgetting keeps that order only at the last two places. */
  lemma AscendingIsSafe(g: Group, i: nat)
    requires GroupOk(g) && NewestIsRight(g) && OriginalFirst(g) && Ascending(g.copies)
    requires i < |g.copies| && Count(g) > 1
    ensures NewestIsRight(ForgetCopy(g, i))
    ensures Ascending(ForgetCopy(g, i).copies) <==> i + 2 >= |g.copies|
  {
    NewestRightIffSafe(g, i);
    var last, r := |g.copies| - 1, Without(g.copies, i);
    if i + 1 < last {
      assert r[i] > r[i + 1];
    }
  }

  /** A larger number makes a resend right, and nothing else does. */
  lemma ResendRightIff(g: Group, pn: nat)
    requires NewestIsRight(g) && OriginalFirst(g) && !Holds(g, pn)
    ensures var g' := g.(copies := g.copies + [pn], newest := pn);
      && (NewestIsRight(g') <==> pn > g.newest)
      && (pn > g.newest ==> OriginalFirst(g'))
  {
    var g' := g.(copies := g.copies + [pn], newest := pn);
    assert g'.copies[|g.copies|] == pn;
    if g.newest in g.copies {
      var i :| 0 <= i < |g.copies| && g.copies[i] == g.newest;
      assert g'.copies[i] == g.newest;
    }
  }

  /** The first sending is never the newest of several, so forgetting it is always safe. */
  lemma ForgetOriginalStaysRight(g: Group)
    requires NewestIsRight(g) && OriginalFirst(g) && g.copies != []
    ensures NewestIsRight(ForgetOriginal(g)) && OriginalFirst(ForgetOriginal(g))
  {
    assert g.original.Some? ==> g.original.value < g.copies[0];
  }

  lemma ForgetCopyKeepsOriginalFirst(g: Group, i: nat)
    requires GroupOk(g) && OriginalFirst(g) && i < |g.copies|
    ensures OriginalFirst(ForgetCopy(g, i))
  {
  }

  // ----- Indexes -----

  /** What an index is keyed by: outstanding packet numbers, or group ids. */
  datatype Key = ByNumber | ById

  predicate Names(g: Group, x: nat, key: Key) {
    match key
    case ByNumber => Holds(g, x)
    case ById => g.id == x
  }

  predicate At(ps: seq<Group>, i: int, x: nat, key: Key) {
    0 <= i < |ps| && Names(ps[i], x, key)
  }

  /** The index leads every key, and nothing else, to its one position. */
  ghost predicate Indexed(ps: seq<Group>, ix: map<nat, nat>, key: Key) {
    && (forall x :: x in ix ==> At(ps, ix[x], x, key))
    && (forall i, x :: At(ps, i, x, key) ==> x in ix && ix[x] == i)
  }

  ghost predicate Outstanding(ps: seq<Group>, pn: nat) {
    exists i :: At(ps, i, pn, ByNumber)
  }

  lemma OutstandingIffIndexed(ps: seq<Group>, ix: map<nat, nat>, pn: nat)
    requires Indexed(ps, ix, ByNumber)
    ensures Outstanding(ps, pn) <==> pn in ix
  {
  }

  /** `now` is `before` without the keys of `g`. */
  ghost predicate Stripped(before: map<nat, nat>, now: map<nat, nat>, g: Group, key: Key) {
    && (forall x :: x in now ==> x in before && !Names(g, x, key) && now[x] == before[x])
    && (forall x :: x in before && !Names(g, x, key) ==> x in now)
  }

  /** `now` also leads the keys of `g` to `at`. */
  ghost predicate Placed(before: map<nat, nat>, now: map<nat, nat>, g: Group, at: nat, key: Key) {
    && (forall x :: x in now ==> if Names(g, x, key) then now[x] == at else x in before && now[x] == before[x])
    && (forall x :: x in before ==> x in now)
    && (forall x: nat :: Names(g, x, key) ==> x in now)
  }

  /** Positions below `done` are right; from there on they are one too high. */
  ghost predicate Lag(ps: seq<Group>, ix: map<nat, nat>, done: nat, key: Key) {
    && (forall x :: x in ix ==> ix[x] != done && At(ps, if ix[x] < done then ix[x] else ix[x] - 1, x, key))
    && (forall i, x :: At(ps, i, x, key) ==> x in ix && ix[x] == if i < done then i else i + 1)
  }

  lemma LagAfterRemoval(ps: seq<Group>, k: nat, ix: map<nat, nat>, left: map<nat, nat>, key: Key)
    requires k < |ps| && Indexed(ps, ix, key) && Stripped(ix, left, ps[k], key)
    ensures Lag(Dropped(ps, k), left, k, key)
  {
    var rest := Dropped(ps, k);
    forall x | x in left ensures left[x] != k && At(rest, if left[x] < k then left[x] else left[x] - 1, x, key) {
      assert At(ps, ix[x], x, key);
    }
    forall i, x | At(rest, i, x, key) ensures x in left && left[x] == if i < k then i else i + 1 {
      var j := if i < k then i else i + 1;
      assert At(ps, j, x, key);
      assert Names(ps[k], x, key) ==> At(ps, k, x, key);
    }
  }

  lemma LagStep(ps: seq<Group>, ix: map<nat, nat>, now: map<nat, nat>, done: nat, key: Key)
    requires done < |ps| && Lag(ps, ix, done, key) && Placed(ix, now, ps[done], done, key)
    ensures Lag(ps, now, done + 1, key)
  {
    forall x | x in now ensures now[x] != done + 1 && At(ps, if now[x] < done + 1 then now[x] else now[x] - 1, x, key) {
      if Names(ps[done], x, key) {
        assert At(ps, done, x, key);
      }
    }
    forall i, x | At(ps, i, x, key) ensures x in now && now[x] == if i < done + 1 then i else i + 1 {
      assert x in ix && ix[x] == if i < done then i else i + 1;
      if Names(ps[done], x, key) {
        assert At(ps, done, x, key);
      }
    }
  }

  lemma NothingLags(ps: seq<Group>, ix: map<nat, nat>, key: Key)
    requires Lag(ps, ix, |ps|, key)
    ensures Indexed(ps, ix, key)
  {
    forall x | x in ix ensures At(ps, ix[x], x, key) {
    }
  }

  lemma IndexedAfterAppend(ps: seq<Group>, g: Group, ix: map<nat, nat>, now: map<nat, nat>, key: Key)
    requires Indexed(ps, ix, key) && Placed(ix, now, g, |ps|, key)
    requires forall x: nat :: Names(g, x, key) ==> x !in ix
    ensures Indexed(ps + [g], now, key)
  {
    var all := ps + [g];
    forall x | x in now ensures At(all, now[x], x, key) {
      assert !Names(g, x, key) ==> At(ps, ix[x], x, key);
    }
    forall i, x | At(all, i, x, key) ensures x in now && now[x] == i {
      assert i < |ps| ==> At(ps, i, x, key);
    }
  }

  /** Group `k` becomes `g`: its old keys are stripped, then those of `g` lead to `k`. */
  lemma IndexedAfterUpdate(ps: seq<Group>, k: nat, g: Group, ix: map<nat, nat>, now: map<nat, nat>, key: Key)
    requires k < |ps| && Indexed(ps, ix, key)
    requires forall x: nat :: Names(g, x, key) ==> x in now && now[x] == k
    requires forall x :: x in now && !Names(g, x, key) ==> x in ix && now[x] == ix[x] != k
    requires forall x :: x in ix && ix[x] != k ==> x in now && now[x] == ix[x]
    ensures Indexed(ps[k := g], now, key)
  {
    var all := ps[k := g];
    forall x | x in now ensures At(all, now[x], x, key) {
      assert !Names(g, x, key) ==> At(ps, ix[x], x, key);
    }
    forall i, x | At(all, i, x, key) ensures x in now && now[x] == i {
      assert i != k ==> At(ps, i, x, key);
    }
  }

  lemma IdsAfterUpdate(ps: seq<Group>, k: nat, g: Group, ix: map<nat, nat>)
    requires k < |ps| && Indexed(ps, ix, ById) && g.id == ps[k].id
    ensures Indexed(ps[k := g], ix, ById)
  {
    assert At(ps, k, g.id, ById);
    forall x | x in ix && ix[x] == k ensures x == g.id {
      assert At(ps, ix[x], x, ById);
    }
    IndexedAfterUpdate(ps, k, g, ix, ix, ById);
  }

  // ----- Counters -----

  datatype Tally = Tally(numbers: int, retransmissions: int, bytes: int)

  function Weigh(g: Group): Tally {
    Tally(Count(g), |g.copies|, |g.payload|)
  }

  function Plus(a: Tally, b: Tally): Tally {
    Tally(a.numbers + b.numbers, a.retransmissions + b.retransmissions, a.bytes + b.bytes)
  }

  function Minus(a: Tally, b: Tally): Tally {
    Tally(a.numbers - b.numbers, a.retransmissions - b.retransmissions, a.bytes - b.bytes)
  }

  /** The program's saturating subtraction. */
  function SatMinus(a: Tally, b: Tally): Tally {
    Tally(Max(0, a.numbers - b.numbers), Max(0, a.retransmissions - b.retransmissions), Max(0, a.bytes - b.bytes))
  }

  function Totals(ps: seq<Group>): Tally {
    if ps == [] then Tally(0, 0, 0) else Plus(Totals(ps[..|ps| - 1]), Weigh(ps[|ps| - 1]))
  }

  predicate AtMost(a: Tally, b: Tally) {
    a.numbers <= b.numbers && a.retransmissions <= b.retransmissions && a.bytes <= b.bytes
  }

  lemma {:induction false} TotalsMonotone(ps: seq<Group>, n: nat)
    requires n <= |ps|
    ensures AtMost(Tally(0, 0, 0), Totals(ps[..n])) && AtMost(Totals(ps[..n]), Totals(ps))
    decreases |ps|
  {
    if n == |ps| {
      assert ps[..n] == ps;
      if n > 0 {
        TotalsMonotone(ps[..n - 1], n - 1);
        assert ps[..n - 1][..n - 1] == ps[..n - 1];
      }
    } else {
      TotalsMonotone(ps[..|ps| - 1], n);
      assert ps[..|ps| - 1][..n] == ps[..n];
    }
  }

  lemma TotalsAppend(ps: seq<Group>, g: Group)
    ensures Totals(ps + [g]) == Plus(Totals(ps), Weigh(g))
  {
    assert (ps + [g])[..|ps|] == ps;
  }

  lemma {:induction false} TotalsDropped(ps: seq<Group>, k: nat)
    requires k < |ps|
    ensures Totals(ps) == Plus(Totals(Dropped(ps, k)), Weigh(ps[k]))
    decreases |ps|
  {
    var last := |ps| - 1;
    if k < last {
      TotalsDropped(ps[..last], k);
      assert Dropped(ps, k)[..last - 1] == Dropped(ps[..last], k);
    } else {
      assert Dropped(ps, k) == ps[..last];
    }
  }

  lemma TotalsUpdate(ps: seq<Group>, k: nat, g: Group)
    requires k < |ps|
    ensures Totals(ps[k := g]) == Plus(Minus(Totals(ps), Weigh(ps[k])), Weigh(g))
  {
    TotalsDropped(ps, k);
    TotalsDropped(ps[k := g], k);
    assert Dropped(ps[k := g], k) == Dropped(ps, k);
  }

  lemma CountersCover(ps: seq<Group>, k: nat)
    requires k < |ps|
    ensures AtMost(Weigh(ps[k]), Totals(ps))
  {
    TotalsDropped(ps, k);
    TotalsMonotone(Dropped(ps, k), |ps| - 1);
    assert Dropped(ps, k)[..|ps| - 1] == Dropped(ps, k);
  }

  // ----- Acknowledgment -----

  ghost predicate Acked(g: Group, rs: seq<Range>) {
    exists pn: nat :: Holds(g, pn) && Covers(rs, pn)
  }

  /** The groups no number of which is acknowledged, in their old order. */
  ghost function Retain(ps: seq<Group>, rs: seq<Range>): seq<Group> {
    if ps == [] then []
    else
      var front, last := Retain(ps[..|ps| - 1], rs), ps[|ps| - 1];
      if Acked(last, rs) then front else front + [last]
  }

  lemma {:induction false} RetainIsFilter(ps: seq<Group>, rs: seq<Range>, g: Group)
    ensures g in Retain(ps, rs) <==> g in ps && !Acked(g, rs)
    ensures |Retain(ps, rs)| <= |ps|
    ensures |Retain(ps, rs)| == |ps| ==> Retain(ps, rs) == ps
  {
    if ps != [] {
      var front, last := ps[..|ps| - 1], ps[|ps| - 1];
      RetainIsFilter(front, rs, g);
      assert ps == front + [last];
    }
  }

  /** Survivors come from distinct old positions, so their keys stay apart. */
  ghost predicate Apart(ps: seq<Group>) {
    && (forall i, j, x: nat :: At(ps, i, x, ByNumber) && At(ps, j, x, ByNumber) ==> i == j)
    && (forall i, j, x: nat :: At(ps, i, x, ById) && At(ps, j, x, ById) ==> i == j)
  }

  lemma IndexedIsApart(ps: seq<Group>, gix: map<nat, nat>, pix: map<nat, nat>)
    requires Indexed(ps, gix, ById) && Indexed(ps, pix, ByNumber)
    ensures Apart(ps)
  {
  }

  lemma {:induction false} RetainIsApart(ps: seq<Group>, rs: seq<Range>)
    requires Apart(ps)
    ensures Apart(Retain(ps, rs))
  {
    if ps != [] {
      var front, last := ps[..|ps| - 1], ps[|ps| - 1];
      var kept := Retain(front, rs);
      forall i, x: nat, key | At(front, i, x, key) ensures At(ps, i, x, key) {
      }
      RetainIsApart(front, rs);
      forall i, x: nat, key | At(kept, i, x, key) && At(ps, |ps| - 1, x, key) ensures false {
        RetainIsFilter(front, rs, kept[i]);
        var j :| 0 <= j < |front| && front[j] == kept[i];
        assert At(ps, j, x, key);
      }
      var all := kept + [last];
      forall i, x: nat, key | At(all, i, x, key)
        ensures if i == |kept| then At(ps, |ps| - 1, x, key) else At(kept, i, x, key)
      {
      }
    }
  }

  /** The state of the in-place compaction after reading `read` groups. */
  ghost predicate Compacting(ps: seq<Group>, rs: seq<Range>, items: seq<Group>, kept: nat, read: nat, t: Tally) {
    && kept <= read <= |ps| == |items|
    && items[..kept] == Retain(ps[..read], rs)
    && (forall i :: read <= i < |ps| ==> items[i] == ps[i])
    && t == Plus(Minus(Totals(ps), Totals(ps[..read])), Totals(items[..kept]))
  }

  lemma CompactDrop(ps: seq<Group>, rs: seq<Range>, items: seq<Group>, kept: nat, read: nat, t: Tally, t': Tally)
    requires Compacting(ps, rs, items, kept, read, t) && read < |ps| && Acked(ps[read], rs)
    requires t' == SatMinus(t, Weigh(ps[read]))
    ensures Compacting(ps, rs, items, kept, read + 1, t')
  {
    RetainStep(ps, rs, read);
    TotalsMonotone(ps, read + 1);
    TotalsMonotone(items, kept);
    DropBalance(Totals(ps), Totals(ps[..read]), Totals(items[..kept]), Weigh(ps[read]), t);
  }

  lemma DropBalance(all: Tally, before: Tally, kept: Tally, w: Tally, t: Tally)
    requires t == Plus(Minus(all, before), kept)
    requires AtMost(Plus(before, w), all) && AtMost(Tally(0, 0, 0), kept)
    ensures SatMinus(t, w) == Plus(Minus(all, Plus(before, w)), kept)
  {
  }

  lemma CompactKeep(ps: seq<Group>, rs: seq<Range>, items: seq<Group>, kept: nat, read: nat, t: Tally, items': seq<Group>)
    requires Compacting(ps, rs, items, kept, read, t) && read < |ps| && !Acked(ps[read], rs)
    requires items' == items[kept := ps[read]]
    ensures Compacting(ps, rs, items', kept + 1, read + 1, t)
  {
    var g, front := ps[read], items[..kept];
    assert items'[..kept + 1] == front + [g];
    KeepTotals(ps, rs, front, read, g, t);
  }

  lemma KeepTotals(ps: seq<Group>, rs: seq<Range>, front: seq<Group>, read: nat, g: Group, t: Tally)
    requires read < |ps| && g == ps[read] && !Acked(g, rs) && front == Retain(ps[..read], rs)
    requires t == Plus(Minus(Totals(ps), Totals(ps[..read])), Totals(front))
    ensures Retain(ps[..read + 1], rs) == front + [g]
    ensures t == Plus(Minus(Totals(ps), Totals(ps[..read + 1])), Totals(front + [g]))
  {
    RetainStep(ps, rs, read);
    TotalsAppend(front, g);
    KeepBalance(Totals(ps), Totals(ps[..read]), Totals(front), Weigh(g));
  }

  lemma KeepBalance(all: Tally, before: Tally, kept: Tally, w: Tally)
    ensures Plus(Minus(all, Plus(before, w)), Plus(kept, w)) == Plus(Minus(all, before), kept)
  {
  }

  lemma CompactStart(ps: seq<Group>, rs: seq<Range>, t: Tally)
    requires t == Totals(ps)
    ensures Compacting(ps, rs, ps, 0, 0, t)
  {
  }

  lemma CompactDone(ps: seq<Group>, rs: seq<Range>, items: seq<Group>, kept: nat, t: Tally)
    requires Compacting(ps, rs, items, kept, |ps|, t)
    ensures items[..kept] == Retain(ps, rs) && t == Totals(items[..kept])
  {
    assert ps[..|ps|] == ps;
  }

  lemma RetainStep(ps: seq<Group>, rs: seq<Range>, n: nat)
    requires n < |ps|
    ensures Retain(ps[..n + 1], rs) == if Acked(ps[n], rs) then Retain(ps[..n], rs) else Retain(ps[..n], rs) + [ps[n]]
    ensures Totals(ps[..n + 1]) == Plus(Totals(ps[..n]), Weigh(ps[n]))
  {
    assert ps[..n + 1][..n] == ps[..n];
  }

  // ----- The whole state -----

  ghost predicate GroupsOk(ps: seq<Group>, nextId: nat) {
    forall i :: 0 <= i < |ps| ==> GroupOk(ps[i]) && ps[i].id < nextId
  }

  ghost predicate Consistent(ps: seq<Group>, gix: map<nat, nat>, pix: map<nat, nat>, t: Tally, nextId: nat) {
    && GroupsOk(ps, nextId) && nextId <= MAX_U64
    && Indexed(ps, gix, ById) && Indexed(ps, pix, ByNumber)
    && t == Totals(ps)
  }

  lemma NumbersOfGroup(ps: seq<Group>, ix: map<nat, nat>, k: nat)
    requires Indexed(ps, ix, ByNumber) && k < |ps|
    ensures forall x: nat :: Holds(ps[k], x) <==> x in ix && ix[x] == k
  {
    forall x: nat ensures Holds(ps[k], x) <==> x in ix && ix[x] == k {
      assert At(ps, k, x, ByNumber) <==> Holds(ps[k], x);
    }
  }

  // ----- What the counters count -----

  ghost function NumbersOf(g: Group): (r: set<nat>)
    ensures forall x :: x in r <==> Holds(g, x)
  {
    (if g.original.Some? then {g.original.value} else {}) + Members(g.copies)
  }

  ghost function NumbersOfAll(ps: seq<Group>): set<nat> {
    if ps == [] then {} else NumbersOfAll(ps[..|ps| - 1]) + NumbersOf(ps[|ps| - 1])
  }

  lemma {:induction false} NumbersAreHeld(ps: seq<Group>, x: nat)
    ensures x in NumbersOfAll(ps) <==> exists k :: 0 <= k < |ps| && Holds(ps[k], x)
  {
    if ps != [] {
      var n := |ps| - 1;
      NumbersAreHeld(ps[..n], x);
      assert forall k :: 0 <= k < n ==> ps[..n][k] == ps[k];
    }
  }

  lemma CountIsNumbers(g: Group)
    requires GroupOk(g)
    ensures |NumbersOf(g)| == Count(g)
  {
    DistinctMembers(g.copies);
  }

  /** No number is outstanding in two groups. */
  lemma EarlierNumbersDiffer(ps: seq<Group>, ix: map<nat, nat>, n: nat, x: nat)
    requires Indexed(ps, ix, ByNumber) && n < |ps| && x in NumbersOfAll(ps[..n])
    ensures !Holds(ps[n], x)
  {
    NumbersAreHeld(ps[..n], x);
    var k :| 0 <= k < n && Holds(ps[..n][k], x);
    assert At(ps, k, x, ByNumber);
    assert At(ps, n, x, ByNumber) <==> Holds(ps[n], x);
  }

  lemma DisjointSizes(a: set<nat>, b: set<nat>)
    requires a !! b
    ensures |a + b| == |a| + |b|
  {
  }

  lemma {:induction false} NumbersCounted(ps: seq<Group>, nextId: nat, ix: map<nat, nat>, n: nat)
    requires GroupsOk(ps, nextId) && Indexed(ps, ix, ByNumber) && n <= |ps|
    ensures |NumbersOfAll(ps[..n])| == Totals(ps[..n]).numbers
  {
    if n > 0 {
      NumbersCounted(ps, nextId, ix, n - 1);
      var before, g := NumbersOfAll(ps[..n - 1]), ps[n - 1];
      forall x | x in before ensures x !in NumbersOf(g) {
        EarlierNumbersDiffer(ps, ix, n - 1, x);
      }
      CountIsNumbers(g);
      DisjointSizes(before, NumbersOf(g));
      NumbersUnfold(ps, n);
    }
  }

  lemma NumbersUnfold(ps: seq<Group>, n: nat)
    requires 0 < n <= |ps|
    ensures NumbersOfAll(ps[..n]) == NumbersOfAll(ps[..n - 1]) + NumbersOf(ps[n - 1])
    ensures Totals(ps[..n]).numbers == Totals(ps[..n - 1]).numbers + Count(ps[n - 1])
  {
    assert ps[..n][..n - 1] == ps[..n - 1];
  }

  /** All payloads, one after the other. */
  ghost function Payloads(ps: seq<Group>): seq<Byte> {
    if ps == [] then [] else Payloads(ps[..|ps| - 1]) + ps[|ps| - 1].payload
  }

  /** All copies, one group after the other. */
  ghost function Copies(ps: seq<Group>): seq<nat> {
    if ps == [] then [] else Copies(ps[..|ps| - 1]) + ps[|ps| - 1].copies
  }

  lemma {:induction false} JoinedLengths(ps: seq<Group>)
    ensures Totals(ps).retransmissions == |Copies(ps)| && Totals(ps).bytes == |Payloads(ps)|
  {
    if ps != [] {
      JoinedLengths(ps[..|ps| - 1]);
    }
  }

  /** The counters are the outstanding numbers, the copies among them, and the bytes held, of the list as it stands. */
  lemma CountersMean(ps: seq<Group>, gix: map<nat, nat>, pix: map<nat, nat>, t: Tally, nextId: nat, numbers: set<nat>)
    requires Consistent(ps, gix, pix, t, nextId) && forall x: nat :: x in numbers <==> Outstanding(ps, x)
    ensures t == Tally(|numbers|, |Copies(ps)|, |Payloads(ps)|)
  {
    NumbersCounted(ps, nextId, pix, |ps|);
    JoinedLengths(ps);
    assert ps[..|ps|] == ps;
    forall x: nat ensures x in numbers <==> x in NumbersOfAll(ps) {
      NumbersAreHeld(ps, x);
      assert forall k :: 0 <= k < |ps| ==> (At(ps, k, x, ByNumber) <==> Holds(ps[k], x));
    }
    assert numbers == NumbersOfAll(ps);
  }

  /** Replacing group `k` by one with the same identity and numbers indexed in `now`. */
  lemma UpdateKeepsConsistent(
    ps: seq<Group>, gix: map<nat, nat>, pix: map<nat, nat>, t: Tally, nextId: nat, k: nat, g: Group, now: map<nat, nat>)
    requires Consistent(ps, gix, pix, t, nextId) && k < |ps|
    requires GroupOk(g) && g.id == ps[k].id && Indexed(ps[k := g], now, ByNumber)
    ensures Consistent(ps[k := g], gix, now, Plus(Minus(t, Weigh(ps[k])), Weigh(g)), nextId)
  {
    IdsAfterUpdate(ps, k, g, gix);
    TotalsUpdate(ps, k, g);
  }

  lemma RetransmissionKeepsConsistent(
    ps: seq<Group>, gix: map<nat, nat>, pix: map<nat, nat>, t: Tally, nextId: nat, k: nat, g: Group, pn: nat)
    requires Consistent(ps, gix, pix, t, nextId) && k < |ps| && pn !in pix
    requires g == ps[k].(copies := ps[k].copies + [pn], newest := pn)
    ensures Consistent(ps[k := g], gix, pix[pn := k], Plus(t, Tally(1, 1, 0)), nextId)
  {
    forall x: nat ensures Holds(g, x) <==> Holds(ps[k], x) || x == pn {
    }
    NumbersOfGroup(ps, pix, k);
    IndexedAfterUpdate(ps, k, g, pix, pix[pn := k], ByNumber);
    UpdateKeepsConsistent(ps, gix, pix, t, nextId, k, g, pix[pn := k]);
  }

  lemma AppendKeepsIndexes(
    ps: seq<Group>, gix: map<nat, nat>, pix: map<nat, nat>, nextId: nat, g: Group, pn: nat)
    requires GroupsOk(ps, nextId) && Indexed(ps, gix, ById) && Indexed(ps, pix, ByNumber) && pn !in pix
    requires g.original == Some(pn) && g.copies == [] && g.id == nextId
    ensures nextId !in gix
    ensures Indexed(ps + [g], gix[nextId := |ps|], ById) && Indexed(ps + [g], pix[pn := |ps|], ByNumber)
  {
    forall x | x in gix ensures x != nextId {
      assert At(ps, gix[x], x, ById);
    }
    IndexedAfterAppend(ps, g, pix, pix[pn := |ps|], ByNumber);
    IndexedAfterAppend(ps, g, gix, gix[nextId := |ps|], ById);
  }

  lemma AppendKeepsConsistent(
    ps: seq<Group>, gix: map<nat, nat>, pix: map<nat, nat>, t: Tally, nextId: nat, g: Group, pn: nat)
    requires Consistent(ps, gix, pix, t, nextId) && pn !in pix && nextId < MAX_U64
    requires g.original == Some(pn) && g.copies == [] && g.id == nextId && g.payload != []
    ensures nextId !in gix
    ensures Consistent(ps + [g], gix[nextId := |ps|], pix[pn := |ps|], Plus(t, Weigh(g)), nextId + 1)
  {
    AppendKeepsIndexes(ps, gix, pix, nextId, g, pn);
    TotalsAppend(ps, g);
    assert GroupOk(g);
    assert GroupsOk(ps + [g], nextId + 1);
  }

  lemma RemovalKeepsConsistent(
    ps: seq<Group>, gix: map<nat, nat>, pix: map<nat, nat>, t: Tally, nextId: nat, k: nat, gix': map<nat, nat>, pix': map<nat, nat>)
    requires Consistent(ps, gix, pix, t, nextId) && k < |ps|
    requires Indexed(Dropped(ps, k), gix', ById) && Indexed(Dropped(ps, k), pix', ByNumber)
    ensures SatMinus(t, Weigh(ps[k])) == Minus(t, Weigh(ps[k]))
    ensures Consistent(Dropped(ps, k), gix', pix', SatMinus(t, Weigh(ps[k])), nextId)
  {
    TotalsDropped(ps, k);
    TotalsMonotone(Dropped(ps, k), 0);
    assert Dropped(ps, k)[..0] == [];
  }

  // ----- Forgetting -----

  function ForgetNumber(g: Group, pn: nat): Group
    requires Holds(g, pn)
  {
    if g.original == Some(pn) then ForgetOriginal(g) else ForgetCopy(g, IndexOf(g.copies, pn))
  }

  lemma ForgetNumberLosesExactly(g: Group, pn: nat, x: nat)
    requires GroupOk(g) && Holds(g, pn) && Count(g) > 1
    ensures GroupOk(ForgetNumber(g, pn))
    ensures Holds(ForgetNumber(g, pn), x) <==> Holds(g, x) && x != pn
    ensures ForgetNumber(g, pn).id == g.id && ForgetNumber(g, pn).payload == g.payload
    ensures Weigh(ForgetNumber(g, pn)) == Minus(Weigh(g), Tally(1, if g.original == Some(pn) then 0 else 1, 0))
  {
    if g.original != Some(pn) {
      ForgetCopyLosesExactly(g, IndexOf(g.copies, pn), x);
    }
  }

  /** Forget number `pn` of group `k`; a group without numbers goes away. */
  function ForgetAt(ps: seq<Group>, k: nat, pn: nat): seq<Group>
    requires k < |ps| && Holds(ps[k], pn)
  {
    if Count(ps[k]) == 1 then Dropped(ps, k) else ps[k := ForgetNumber(ps[k], pn)]
  }

  lemma ForgetKeepsConsistent(
    ps: seq<Group>, gix: map<nat, nat>, pix: map<nat, nat>, t: Tally, nextId: nat, k: nat, pn: nat, g: Group)
    requires Consistent(ps, gix, pix, t, nextId) && k < |ps| && Holds(ps[k], pn) && Count(ps[k]) > 1
    requires g == ForgetNumber(ps[k], pn)
    ensures Consistent(ps[k := g], gix, pix - {pn}, Minus(t, Minus(Weigh(ps[k]), Weigh(g))), nextId)
  {
    forall x: nat ensures Holds(g, x) <==> Holds(ps[k], x) && x != pn {
      ForgetNumberLosesExactly(ps[k], pn, x);
    }
    ForgetNumberLosesExactly(ps[k], pn, pn);
    NumbersOfGroup(ps, pix, k);
    IndexedAfterUpdate(ps, k, g, pix, pix - {pn}, ByNumber);
    UpdateKeepsConsistent(ps, gix, pix, t, nextId, k, g, pix - {pn});
  }

  // ----- The program's queue -----

  datatype Outcome = Tracked(id: nat) | Done | EmptyPayload | InvalidRetransmission

  datatype AckOutcome = Retired(count: nat) | InvalidAck

  class Queue {
    var pending: seq<Group>
    var groupIndex: map<nat, nat>
    var packetIndex: map<nat, nat>
    var tally: Tally
    var nextGroupId: nat

    ghost predicate Valid()
      reads this
    {
      Consistent(pending, groupIndex, packetIndex, tally, nextGroupId)
    }

    constructor ()
      ensures Valid() && pending == [] && nextGroupId == 0
    {
      pending, groupIndex, packetIndex := [], map[], map[];
      tally, nextGroupId := Tally(0, 0, 0), 0;
    }

    /** `trackSent`: a new payload under a number that is not outstanding. */
    method TrackSent(pn: nat, payload: seq<Byte>) returns (r: Outcome)
      requires Valid()
      modifies this
      ensures Valid()
      ensures payload == [] ==> r == EmptyPayload
      ensures payload != [] && (Outstanding(old(pending), pn) || old(nextGroupId) == MAX_U64) ==> r == InvalidRetransmission
      ensures payload != [] && !Outstanding(old(pending), pn) && old(nextGroupId) < MAX_U64 ==> r == Tracked(old(nextGroupId))
      ensures r.Tracked? ==>
        && pending == old(pending) + [Group(old(nextGroupId), Some(pn), [], pn, payload)]
        && nextGroupId == old(nextGroupId) + 1
      ensures !r.Tracked? ==> pending == old(pending) && nextGroupId == old(nextGroupId)
    {
      if |payload| == 0 { return EmptyPayload; }
      OutstandingIffIndexed(pending, packetIndex, pn);
      if pn in packetIndex { return InvalidRetransmission; }
      if nextGroupId + 1 > MAX_U64 { return InvalidRetransmission; }
      var id := nextGroupId;
      var entry := Group(id, Some(pn), [], pn, payload);
      AppendKeepsConsistent(pending, groupIndex, packetIndex, tally, nextGroupId, entry, pn);
      assert id !in groupIndex;
      var index := |pending|;
      pending := pending + [entry];
      groupIndex := groupIndex[id := index];
      packetIndex := packetIndex[pn := index];
      tally := Plus(tally, Weigh(entry));
      nextGroupId := nextGroupId + 1;
      r := Tracked(id);
    }

    method GroupIdForPacketNumber(pn: nat) returns (r: Option<nat>)
      requires Valid()
      ensures r.Some? ==> exists i :: At(pending, i, pn, ByNumber) && pending[i].id == r.value
      ensures r.None? <==> !Outstanding(pending, pn)
    {
      if pn !in packetIndex { return None; }
      r := Some(pending[packetIndex[pn]].id);
    }

    /** `packetThresholdCandidate`: the first group whose newest copy counts as lost. */
    method PacketThresholdCandidate(largestAcked: nat, threshold: nat) returns (r: Option<nat>)
      ensures r.Some? ==> r.value < |pending| && threshold > 0 && pending[r.value].newest + threshold <= largestAcked
      ensures r.Some? ==> forall i :: 0 <= i < r.value ==> pending[i].newest + threshold > largestAcked
      ensures r.None? && threshold > 0 ==> forall i :: 0 <= i < |pending| ==> pending[i].newest + threshold > largestAcked
    {
      if threshold == 0 || largestAcked < threshold { return None; }
      var largestLost := largestAcked - threshold;
      for i := 0 to |pending|
        invariant forall j :: 0 <= j < i ==> pending[j].newest > largestLost
      {
        if pending[i].newest > largestLost { continue; }
        return Some(i);
      }
      return None;
    }

    /** `recordRetransmission`: one more number for an existing payload. */
    method RecordRetransmission(k: nat, pn: nat) returns (r: Outcome)
      requires Valid()
      modifies this
      ensures Valid()
      ensures r == Done || r == InvalidRetransmission
      ensures r == Done <==> k < |old(pending)| && !Outstanding(old(pending), pn)
      ensures pending == if r == Done
        then old(pending)[k := old(pending)[k].(copies := old(pending)[k].copies + [pn], newest := pn)]
        else old(pending)
      ensures nextGroupId == old(nextGroupId)
    {
      OutstandingIffIndexed(pending, packetIndex, pn);
      if k >= |pending| { return InvalidRetransmission; }
      if pn in packetIndex { return InvalidRetransmission; }
      var entry := pending[k].(copies := pending[k].copies + [pn], newest := pn);
      RetransmissionKeepsConsistent(pending, groupIndex, packetIndex, tally, nextGroupId, k, entry, pn);
      pending := pending[k := entry];
      packetIndex := packetIndex[pn := k];
      tally := Plus(tally, Tally(1, 1, 0));
      r := Done;
    }

    /** `acknowledgePacketNumber`: an ACK for any copy retires the whole group. */
    method AcknowledgePacketNumber(pn: nat) returns (r: bool)
      requires Valid()
      modifies this
      ensures Valid() && nextGroupId == old(nextGroupId)
      ensures r <==> Outstanding(old(pending), pn)
      ensures r ==> exists k :: At(old(pending), k, pn, ByNumber) && pending == Dropped(old(pending), k)
      ensures !r ==> pending == old(pending)
    {
      OutstandingIffIndexed(pending, packetIndex, pn);
      if pn !in packetIndex { return false; }
      var k := packetIndex[pn];
      RemoveGroupOrdered(k);
      return true;
    }

    /** `forgetPacketNumber`: its final `unreachable` is never reached. */
    method ForgetPacketNumber(pn: nat) returns (r: bool)
      requires Valid()
      modifies this
      ensures Valid() && nextGroupId == old(nextGroupId)
      ensures r <==> Outstanding(old(pending), pn)
      ensures r ==> exists k :: At(old(pending), k, pn, ByNumber) && pending == ForgetAt(old(pending), k, pn)
      ensures !r ==> pending == old(pending)
    {
      OutstandingIffIndexed(pending, packetIndex, pn);
      if pn !in packetIndex { return false; }
      var k := packetIndex[pn];
      if Count(pending[k]) == 1 {
        RemoveGroupOrdered(k);
        return true;
      }
      ForgetOneOfMany(k, pn);
      return true;
    }

    method ForgetOneOfMany(k: nat, pn: nat)
      requires Valid() && k < |pending| && Holds(pending[k], pn) && Count(pending[k]) > 1
      modifies this
      ensures Valid() && nextGroupId == old(nextGroupId)
      ensures pending == ForgetAt(old(pending), k, pn)
    {
      var entry := pending[k];
      ghost var g := ForgetNumber(entry, pn);
      ForgetKeepsConsistent(pending, groupIndex, packetIndex, tally, nextGroupId, k, pn, g);
      ForgetNumberLosesExactly(entry, pn, pn);
      CountersCover(pending, k);
      packetIndex := packetIndex - {pn};
      if entry.original == Some(pn) {
        pending := pending[k := entry.(original := None)];
        tally := SatMinus(tally, Tally(1, 0, 0));
        return;
      }
      var shorter := ForgetRetransmission(entry, pn);
      pending := pending[k := shorter];
      tally := SatMinus(tally, Tally(1, 1, 0));
    }

    method RemoveGroupOrdered(k: nat)
      requires Valid() && k < |pending|
      modifies this
      ensures Valid() && nextGroupId == old(nextGroupId)
      ensures pending == Dropped(old(pending), k)
    {
      ghost var ps, gix, pix, t := pending, groupIndex, packetIndex, tally;
      var removed := pending[k];
      pending := if k == |pending| - 1 then pending[..k] else pending[..k] + pending[k + 1..];
      assert pending == Dropped(ps, k);
      RemoveEntryIndexes(removed);
      LagAfterRemoval(ps, k, pix, packetIndex, ByNumber);
      LagAfterRemoval(ps, k, gix, groupIndex, ById);
      RefreshIndexesFrom(k);
      RemovalKeepsConsistent(ps, gix, pix, t, nextGroupId, k, groupIndex, packetIndex);
      tally := SatMinus(tally, Weigh(removed));
    }

    /** `applyAck`: reject a malformed frame untouched, else retire every acknowledged group. */
    method ApplyAck(ack: AckFrame) returns (r: AckOutcome)
      requires Valid()
      modifies this
      ensures Valid() && nextGroupId == old(nextGroupId)
      ensures Decode(ack).None? ==> r == InvalidAck && pending == old(pending)
      ensures Decode(ack).Some? ==> pending == Retain(old(pending), Decode(ack).value)
      ensures Decode(ack).Some? ==> r.Retired? && r.count == |old(pending)| - |pending|
    {
      var valid := ValidChain(ack);
      if !valid { return InvalidAck; }
      var n := RetainUnacknowledged(ack);
      r := Retired(n);
    }

    method RetainUnacknowledged(ack: AckFrame) returns (removed: nat)
      requires Valid() && Decode(ack).Some?
      modifies this
      ensures Valid() && nextGroupId == old(nextGroupId)
      ensures pending == Retain(old(pending), Decode(ack).value)
      ensures removed == |old(pending)| - |pending|
    {
      ghost var ps, rs := pending, Decode(ack).value;
      ghost var survivors := Retain(ps, rs);
      RetainKeepsApart(ps, rs, groupIndex, packetIndex, tally, nextGroupId);
      var kept: nat;
      kept, removed := CompactPending(ack, survivors);
      if removed == 0 {
        RetainAll(ps, rs);
        assert pending == pending[..kept] == survivors;
        return;
      }
      Truncate(kept, survivors);
    }

    method Truncate(kept: nat, ghost survivors: seq<Group>)
      requires kept <= |pending| && pending[..kept] == survivors
      requires Apart(survivors) && GroupsOk(survivors, nextGroupId) && nextGroupId <= MAX_U64
      requires tally == Totals(survivors)
      modifies this`pending, this`groupIndex, this`packetIndex
      ensures Valid() && pending == survivors
    {
      pending := pending[..kept];
      RebuildIndexes();
    }

    /** The in-place compaction: survivors move down over retired groups, counters follow. */
    method CompactPending(ack: AckFrame, ghost survivors: seq<Group>) returns (kept: nat, removed: nat)
      requires Decode(ack).Some? && tally == Totals(pending) && survivors == Retain(pending, Decode(ack).value)
      modifies this`pending, this`tally
      ensures |pending| == |old(pending)| && kept + removed == |pending| && kept == |survivors|
      ensures pending[..kept] == survivors && tally == Totals(survivors)
    {
      ghost var ps, rs := pending, Decode(ack).value;
      kept, removed := 0, 0;
      CompactStart(ps, rs, tally);
      for read := 0 to |pending|
        invariant |pending| == |ps| && kept + removed == read
        invariant Compacting(ps, rs, pending, kept, read, tally)
      {
        var acked := EntryAcked(pending[read], ack);
        if acked {
          DropEntry(kept, read, ps, rs);
          removed := removed + 1;
        } else {
          KeepEntry(kept, read, ps, rs);
          kept := kept + 1;
        }
      }
      CompactDone(ps, rs, pending, kept, tally);
    }

    method DropEntry(ghost kept: nat, read: nat, ghost ps: seq<Group>, ghost rs: seq<Range>)
      requires Compacting(ps, rs, pending, kept, read, tally) && read < |ps| && Acked(pending[read], rs)
      modifies this`tally
      ensures Compacting(ps, rs, pending, kept, read + 1, tally)
    {
      ghost var t := tally;
      tally := SatMinus(tally, Weigh(pending[read]));
      CompactDrop(ps, rs, pending, kept, read, t, tally);
    }

    method KeepEntry(kept: nat, read: nat, ghost ps: seq<Group>, ghost rs: seq<Range>)
      requires Compacting(ps, rs, pending, kept, read, tally) && read < |ps| && !Acked(pending[read], rs)
      modifies this`pending
      ensures |pending| == |ps| && Compacting(ps, rs, pending, kept + 1, read + 1, tally)
    {
      CompactKeep(ps, rs, pending, kept, read, tally, pending[kept := pending[read]]);
      if kept != read {
        pending := pending[kept := pending[read]];
      } else {
        assert pending == pending[kept := pending[read]];
      }
    }

    /** `rebuildIndexesAssumeCapacity`: no key is put twice. */
    method RebuildIndexes()
      requires Apart(pending)
      modifies this`groupIndex, this`packetIndex
      ensures Indexed(pending, groupIndex, ById) && Indexed(pending, packetIndex, ByNumber)
    {
      groupIndex, packetIndex := map[], map[];
      for i := 0 to |pending|
        invariant Indexed(pending[..i], groupIndex, ById) && Indexed(pending[..i], packetIndex, ByNumber)
      {
        ghost var gix, pix := groupIndex, packetIndex;
        PutOnce(pending, i, gix, ById);
        PutOnce(pending, i, pix, ByNumber);
        assert Absent(pending[i], groupIndex, packetIndex);
        PutKeys(pending[i], i);
        IndexedAfterAppend(pending[..i], pending[i], gix, groupIndex, ById);
        IndexedAfterAppend(pending[..i], pending[i], pix, packetIndex, ByNumber);
        assert pending[..i + 1] == pending[..i] + [pending[i]];
      }
      assert pending[..|pending|] == pending;
    }

    /** Lead every key of `g` to position `at`. */
    method PutKeys(g: Group, at: nat)
      modifies this`groupIndex, this`packetIndex
      ensures Placed(old(packetIndex), packetIndex, g, at, ByNumber)
      ensures Placed(old(groupIndex), groupIndex, g, at, ById)
    {
      groupIndex := groupIndex[g.id := at];
      if g.original.Some? {
        packetIndex := packetIndex[g.original.value := at];
      }
      for i := 0 to |g.copies|
        invariant Placed(old(packetIndex), packetIndex, g.(copies := g.copies[..i]), at, ByNumber)
        invariant groupIndex == old(groupIndex)[g.id := at]
      {
        ghost var before := packetIndex;
        packetIndex := packetIndex[g.copies[i] := at];
        PlaceStep(old(packetIndex), before, packetIndex, g, i, at);
      }
      assert g.copies[..|g.copies|] == g.copies;
    }

    method RemoveEntryIndexes(g: Group)
      modifies this`groupIndex, this`packetIndex
      ensures Stripped(old(packetIndex), packetIndex, g, ByNumber)
      ensures Stripped(old(groupIndex), groupIndex, g, ById)
    {
      groupIndex := groupIndex - {g.id};
      if g.original.Some? {
        packetIndex := packetIndex - {g.original.value};
      }
      for i := 0 to |g.copies|
        invariant Stripped(old(packetIndex), packetIndex, g.(copies := g.copies[..i]), ByNumber)
        invariant groupIndex == old(groupIndex) - {g.id}
      {
        ghost var before := packetIndex;
        packetIndex := packetIndex - {g.copies[i]};
        StripStep(old(packetIndex), before, packetIndex, g, i);
      }
      assert g.copies[..|g.copies|] == g.copies;
    }

    /** Every position from `start` on is one too high; each entry is looked up, so it must be there. */
    method RefreshIndexesFrom(start: nat)
      requires start <= |pending|
      requires Lag(pending, packetIndex, start, ByNumber) && Lag(pending, groupIndex, start, ById)
      modifies this`groupIndex, this`packetIndex
      ensures Indexed(pending, packetIndex, ByNumber) && Indexed(pending, groupIndex, ById)
    {
      for i := start to |pending|
        invariant Lag(pending, packetIndex, i, ByNumber) && Lag(pending, groupIndex, i, ById)
      {
        ghost var pix, gix := packetIndex, groupIndex;
        LagKnows(pending, groupIndex, i, ById);
        LagKnows(pending, packetIndex, i, ByNumber);
        assert Present(pending[i], groupIndex, packetIndex);
        PutKeys(pending[i], i);
        LagStep(pending, gix, groupIndex, i, ById);
        LagStep(pending, pix, packetIndex, i, ByNumber);
      }
      NothingLags(pending, packetIndex, ByNumber);
      NothingLags(pending, groupIndex, ById);
    }
  }

  /** The scan over the retransmissions, then a pop or a swap with the last. */
  method ForgetRetransmission(entry: Group, pn: nat) returns (r: Group)
    requires pn in entry.copies
    ensures r == ForgetCopy(entry, IndexOf(entry.copies, pn))
  {
    var found := FindIndex(entry.copies, pn);
    if found.None? {
      assert false;
    }
    var i, last := found.value, |entry.copies| - 1;
    if i == last {
      r := Refreshed(entry.(copies := entry.copies[..last]));
    } else {
      r := entry.(copies := entry.copies[..last][i := entry.copies[last]]);
    }
  }

  /** Every key of `g` has a slot, as `refreshEntryIndex` takes for granted ... */
  ghost predicate Present(g: Group, gix: map<nat, nat>, pix: map<nat, nat>) {
    g.id in gix && forall pn: nat :: Names(g, pn, ByNumber) ==> pn in pix
  }

  /** ... or none has, as `putAssumeCapacityNoClobber` does. */
  ghost predicate Absent(g: Group, gix: map<nat, nat>, pix: map<nat, nat>) {
    g.id !in gix && forall pn: nat :: Names(g, pn, ByNumber) ==> pn !in pix
  }

  lemma LagKnows(ps: seq<Group>, ix: map<nat, nat>, i: nat, key: Key)
    requires i < |ps| && Lag(ps, ix, i, key)
    ensures forall x: nat :: Names(ps[i], x, key) ==> x in ix
  {
    forall x: nat | Names(ps[i], x, key) ensures x in ix {
      assert At(ps, i, x, key);
    }
  }

  lemma StripStep(origin: map<nat, nat>, before: map<nat, nat>, now: map<nat, nat>, g: Group, i: nat)
    requires i < |g.copies| && now == before - {g.copies[i]}
    requires Stripped(origin, before, g.(copies := g.copies[..i]), ByNumber)
    ensures Stripped(origin, now, g.(copies := g.copies[..i + 1]), ByNumber)
  {
    HoldsStep(g, i);
  }

  lemma PlaceStep(origin: map<nat, nat>, before: map<nat, nat>, now: map<nat, nat>, g: Group, i: nat, at: nat)
    requires i < |g.copies| && now == before[g.copies[i] := at]
    requires Placed(origin, before, g.(copies := g.copies[..i]), at, ByNumber)
    ensures Placed(origin, now, g.(copies := g.copies[..i + 1]), at, ByNumber)
  {
    HoldsStep(g, i);
  }

  lemma HoldsStep(g: Group, i: nat)
    requires i < |g.copies|
    ensures forall pn: nat :: Holds(g.(copies := g.copies[..i + 1]), pn) <==>
      Holds(g.(copies := g.copies[..i]), pn) || pn == g.copies[i]
  {
    var now, before := g.(copies := g.copies[..i + 1]), g.(copies := g.copies[..i]);
    assert now.copies == before.copies + [g.copies[i]];
    forall pn: nat ensures Holds(now, pn) <==> Holds(before, pn) || pn == g.copies[i] {
      assert pn in now.copies <==> pn in before.copies || pn == g.copies[i];
    }
  }

  lemma PutOnce(ps: seq<Group>, i: nat, ix: map<nat, nat>, key: Key)
    requires i < |ps| && Apart(ps) && Indexed(ps[..i], ix, key)
    ensures forall x: nat :: Names(ps[i], x, key) ==> x !in ix
  {
    forall x: nat | Names(ps[i], x, key) ensures x !in ix {
      assert At(ps, i, x, key);
      if x in ix {
        assert At(ps[..i], ix[x], x, key);
        assert At(ps, ix[x], x, key);
      }
    }
  }

  lemma RetainKeepsApart(
    ps: seq<Group>, rs: seq<Range>, gix: map<nat, nat>, pix: map<nat, nat>, t: Tally, nextId: nat)
    requires Consistent(ps, gix, pix, t, nextId)
    ensures Apart(Retain(ps, rs)) && GroupsOk(Retain(ps, rs), nextId)
  {
    IndexedIsApart(ps, gix, pix);
    RetainIsApart(ps, rs);
    RetainKeepsGroupsOk(ps, rs, nextId);
  }

  lemma RetainKeepsGroupsOk(ps: seq<Group>, rs: seq<Range>, nextId: nat)
    requires GroupsOk(ps, nextId)
    ensures GroupsOk(Retain(ps, rs), nextId)
  {
    var kept := Retain(ps, rs);
    forall i | 0 <= i < |kept| ensures GroupOk(kept[i]) && kept[i].id < nextId {
      RetainIsFilter(ps, rs, kept[i]);
    }
  }

  lemma RetainAll(ps: seq<Group>, rs: seq<Range>)
    requires |Retain(ps, rs)| == |ps|
    ensures Retain(ps, rs) == ps
  {
    if ps != [] {
      RetainIsFilter(ps, rs, ps[0]);
    }
  }

  // ----- Reading the frame -----

  /** The validation pass of `applyAck`. */
  method ValidChain(a: AckFrame) returns (ok: bool)
    ensures ok <==> Decode(a).Some?
  {
    if a.largest < a.firstRange { return false; }
    var smallest: nat := a.largest - a.firstRange;
    assert a.ranges[0..] == a.ranges;
    for i := 0 to |a.ranges|
      invariant DecodeTail(smallest, a.ranges[i..]).Some? <==> Decode(a).Some?
    {
      var range := a.ranges[i];
      assert a.ranges[i..][0] == range && a.ranges[i..][1..] == a.ranges[i + 1..];
      var skipped := range.gap + 2;
      if smallest < skipped { return false; }
      var end := smallest - skipped;
      if end < range.length { return false; }
      smallest := end - range.length;
    }
    return true;
  }

  method ContainsRange(g: Group, start: nat, end: nat) returns (r: bool)
    ensures r <==> exists pn: nat :: Holds(g, pn) && start <= pn <= end
  {
    if g.original.Some? && start <= g.original.value <= end {
      assert Holds(g, g.original.value);
      return true;
    }
    for i := 0 to |g.copies|
      invariant forall j :: 0 <= j < i ==> !(start <= g.copies[j] <= end)
    {
      if start <= g.copies[i] <= end {
        assert Holds(g, g.copies[i]);
        return true;
      }
    }
    return false;
  }

  lemma AckedConcat(g: Group, a: seq<Range>, b: seq<Range>)
    ensures Acked(g, a + b) <==> Acked(g, a) || Acked(g, b)
  {
    forall pn: nat ensures Covers(a + b, pn) <==> Covers(a, pn) || Covers(b, pn) {
      CoversConcat(a, b, pn);
    }
  }

  lemma AckedByOne(g: Group, start: nat, end: nat)
    ensures Acked(g, [Range(start, end)]) <==> exists pn: nat :: Holds(g, pn) && start <= pn <= end
  {
    forall pn: nat ensures Covers([Range(start, end)], pn) <==> start <= pn <= end {
    }
  }

  /** `entryAcked`: walk the same chain again, testing each range as it goes by. */
  method EntryAcked(g: Group, a: AckFrame) returns (r: bool)
    requires Decode(a).Some?
    ensures r <==> Acked(g, Decode(a).value)
  {
    ghost var all := Decode(a).value;
    var end: nat := a.largest;
    var start: nat := end - a.firstRange;
    ghost var seen, rest := [Range(start, end)], DecodeTail(start, a.ranges).value;
    AckedByOne(g, start, end);
    AckedConcat(g, seen, rest);
    r := ContainsRange(g, start, end);
    if r { return; }
    assert a.ranges[0..] == a.ranges;
    for i := 0 to |a.ranges|
      invariant DecodeTail(start, a.ranges[i..]) == Some(rest)
      invariant Acked(g, all) <==> Acked(g, rest)
    {
      var range := a.ranges[i];
      assert a.ranges[i..][0] == range && a.ranges[i..][1..] == a.ranges[i + 1..];
      end := start - (range.gap + 2);
      start := end - range.length;
      ghost var rest' := DecodeTail(start, a.ranges[i + 1..]).value;
      assert rest == [Range(start, end)] + rest';
      AckedByOne(g, start, end);
      AckedConcat(g, [Range(start, end)], rest');
      rest := rest';
      r := ContainsRange(g, start, end);
      if r { return; }
    }
    assert !Acked(g, []);
  }
}
