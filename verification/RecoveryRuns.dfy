/**
 Whole runs of the recovery queue: it refines a plain map from payload ids to
 outstanding packet numbers, keeps sending order, and empties under the
 alternating acknowledgments of examples/bench_quic_ack_ranges.zig.
 */
module RecoveryRuns {
  import opened Base
  import opened AckRanges
  import opened RecoveryQueue

  // ----- The reference: payloads and the numbers that carry them -----

  datatype Flight = Flight(payload: seq<Byte>, numbers: set<nat>)

  datatype Reference = Reference(flights: map<nat, Flight>, nextId: nat)

  datatype Event =
    | Send(pn: nat, payload: seq<Byte>)
    | Resend(id: nat, pn: nat)
    | Ack(rs: seq<Range>)
    | Forget(pn: nat)

  ghost predicate InFlight(m: map<nat, Flight>, pn: nat) {
    exists id :: id in m && pn in m[id].numbers
  }

  ghost predicate Touched(f: Flight, rs: seq<Range>) {
    exists pn :: pn in f.numbers && Covers(rs, pn)
  }

  ghost function Unacked(m: map<nat, Flight>, rs: seq<Range>): map<nat, Flight> {
    map id | id in m && !Touched(m[id], rs) :: m[id]
  }

  ghost function Forgotten(m: map<nat, Flight>, pn: nat): map<nat, Flight> {
    map id | id in m && m[id].numbers != {pn} :: m[id].(numbers := m[id].numbers - {pn})
  }

  ghost function Step(r: Reference, e: Event): Reference {
    match e
    case Send(pn, payload) =>
      if payload == [] || InFlight(r.flights, pn) || r.nextId == MAX_U64 then r
      else Reference(r.flights[r.nextId := Flight(payload, {pn})], r.nextId + 1)
    case Resend(id, pn) =>
      if id !in r.flights || InFlight(r.flights, pn) then r
      else r.(flights := r.flights[id := r.flights[id].(numbers := r.flights[id].numbers + {pn})])
    case Ack(rs) =>
      r.(flights := Unacked(r.flights, rs))
    case Forget(pn) =>
      r.(flights := Forgotten(r.flights, pn))
  }

  // ----- The queue's own steps, on values -----

  datatype State = State(ps: seq<Group>, nextId: nat)

  ghost function QueueStep(s: State, e: Event): State {
    match e
    case Send(pn, payload) =>
      if payload == [] || Outstanding(s.ps, pn) || s.nextId == MAX_U64 then s
      else State(s.ps + [Group(s.nextId, Some(pn), [], pn, payload)], s.nextId + 1)
    case Resend(id, pn) =>
      if Outstanding(s.ps, pn) || !exists k :: At(s.ps, k, id, ById) then s
      else
        var k :| At(s.ps, k, id, ById);
        s.(ps := s.ps[k := s.ps[k].(copies := s.ps[k].copies + [pn], newest := pn)])
    case Ack(rs) => s.(ps := Retain(s.ps, rs))
    case Forget(pn) =>
      if !Outstanding(s.ps, pn) then s
      else
        var k :| At(s.ps, k, pn, ByNumber);
        s.(ps := ForgetAt(s.ps, k, pn))
  }

  // ----- What relates the two -----

  ghost function NumbersOf(g: Group): (r: set<nat>)
    ensures forall pn: nat :: pn in r <==> Holds(g, pn)
  {
    (set pn | pn in g.copies) + (if g.original.Some? then {g.original.value} else {})
  }

  ghost function FlightOf(g: Group): Flight {
    Flight(g.payload, NumbersOf(g))
  }

  ghost predicate SendingOrder(ps: seq<Group>, nextId: nat) {
    && (forall i, j :: 0 <= i < j < |ps| ==> ps[i].id < ps[j].id)
    && (forall i :: 0 <= i < |ps| ==> ps[i].id < nextId)
  }

  ghost predicate NumbersApart(ps: seq<Group>) {
    forall i, j, x: nat :: At(ps, i, x, ByNumber) && At(ps, j, x, ByNumber) ==> i == j
  }

  ghost predicate AllOk(ps: seq<Group>) {
    forall i :: 0 <= i < |ps| ==> GroupOk(ps[i])
  }

  ghost predicate Member(ps: seq<Group>, id: nat) {
    exists i :: At(ps, i, id, ById)
  }

  ghost predicate Refines(ps: seq<Group>, m: map<nat, Flight>) {
    && (forall i :: 0 <= i < |ps| ==> ps[i].id in m && m[ps[i].id] == FlightOf(ps[i]))
    && (forall id :: id in m ==> Member(ps, id))
  }

  ghost predicate Matches(s: State, r: Reference) {
    && s.nextId == r.nextId <= MAX_U64
    && SendingOrder(s.ps, s.nextId) && NumbersApart(s.ps) && AllOk(s.ps)
    && Refines(s.ps, r.flights)
  }

  lemma OutstandingMeansInFlight(ps: seq<Group>, m: map<nat, Flight>, pn: nat)
    requires Refines(ps, m)
    ensures Outstanding(ps, pn) <==> InFlight(m, pn)
  {
    if Outstanding(ps, pn) {
      var i :| At(ps, i, pn, ByNumber);
      assert pn in m[ps[i].id].numbers;
    }
    if InFlight(m, pn) {
      var id :| id in m && pn in m[id].numbers;
      var i :| At(ps, i, id, ById);
      assert At(ps, i, pn, ByNumber);
    }
  }

  lemma SendMatches(s: State, r: Reference, pn: nat, g: Group)
    requires Matches(s, r) && !Outstanding(s.ps, pn) && s.nextId < MAX_U64 && g.payload != []
    requires g == Group(s.nextId, Some(pn), [], pn, g.payload)
    ensures Matches(State(s.ps + [g], s.nextId + 1), Reference(r.flights[r.nextId := Flight(g.payload, {pn})], r.nextId + 1))
  {
    var all, m := s.ps + [g], r.flights[r.nextId := Flight(g.payload, {pn})];
    assert NumbersOf(g) == {pn};
    forall i, x: nat | At(all, i, x, ByNumber) ensures if i == |s.ps| then x == pn else At(s.ps, i, x, ByNumber) {
    }
    forall id | id in m ensures Member(all, id) {
      if id == s.nextId {
        assert At(all, |s.ps|, id, ById);
      } else {
        var i :| At(s.ps, i, id, ById);
        assert At(all, i, id, ById);
      }
    }
  }

  lemma UpdateMatches(s: State, r: Reference, k: nat, g: Group)
    requires Matches(s, r) && k < |s.ps| && g.id == s.ps[k].id && GroupOk(g)
    requires forall x: nat :: Holds(g, x) ==> Holds(s.ps[k], x) || !Outstanding(s.ps, x)
    ensures Matches(s.(ps := s.ps[k := g]), r.(flights := r.flights[g.id := FlightOf(g)]))
  {
    var all, m := s.ps[k := g], r.flights[g.id := FlightOf(g)];
    forall i, x: nat | At(all, i, x, ByNumber)
      ensures if i == k then Holds(g, x) else At(s.ps, i, x, ByNumber)
    {
    }
    forall i, j, x: nat | At(all, i, x, ByNumber) && At(all, j, x, ByNumber) ensures i == j {
      assert Holds(s.ps[k], x) ==> At(s.ps, k, x, ByNumber);
    }
    forall id | id in m ensures Member(all, id) {
      if id == g.id {
        assert At(all, k, id, ById);
      } else {
        var i :| At(s.ps, i, id, ById);
        assert At(all, i, id, ById);
      }
    }
  }

  /** Forgetting the only number of a payload drops it, just as acknowledging that number would. */
  lemma ForgetLastMatches(s: State, r: Reference, pn: nat, k: nat)
    requires Matches(s, r) && At(s.ps, k, pn, ByNumber) && Count(s.ps[k]) == 1
    ensures Matches(s.(ps := ForgetAt(s.ps, k, pn)), Step(r, Forget(pn)))
  {
    var rs := [Range(pn, pn)];
    AckMatches(s, r, rs);
    DropIsRetain(s.ps, k, pn);
    assert QueueStep(s, Ack(rs)) == s.(ps := ForgetAt(s.ps, k, pn));
    ForgetLastIsAck(s, r, pn, k);
  }

  lemma ForgetLastIsAck(s: State, r: Reference, pn: nat, k: nat)
    requires Matches(s, r) && At(s.ps, k, pn, ByNumber) && Count(s.ps[k]) == 1
    ensures Step(r, Forget(pn)) == Step(r, Ack([Range(pn, pn)]))
  {
    OnlyOwner(s, r, k, pn);
    assert NumbersOf(s.ps[k]) == {pn};
    ForgetLastFlight(r.flights, s.ps[k].id, pn);
  }

  lemma ForgetLastFlight(m: map<nat, Flight>, id: nat, pn: nat)
    requires id in m && m[id].numbers == {pn}
    requires forall x :: x in m && x != id ==> pn !in m[x].numbers && m[x].numbers - {pn} == m[x].numbers
    ensures Forgotten(m, pn) == Unacked(m, [Range(pn, pn)])
  {
    forall y: nat ensures Covers([Range(pn, pn)], y) <==> y == pn {
    }
    forall x | x in m ensures Touched(m[x], [Range(pn, pn)]) <==> pn in m[x].numbers {
    }
    forall x | x in m && m[x].numbers == {pn} ensures x == id {
      assert pn in m[x].numbers;
    }
  }

  lemma ForgetOneMatches(s: State, r: Reference, pn: nat, k: nat)
    requires Matches(s, r) && At(s.ps, k, pn, ByNumber) && Count(s.ps[k]) > 1
    ensures Matches(s.(ps := ForgetAt(s.ps, k, pn)), Step(r, Forget(pn)))
  {
    var g := s.ps[k];
    var g' := ForgetNumber(g, pn);
    OnlyOwner(s, r, k, pn);
    ForgetNumberNumbers(g, pn);
    UpdateMatches(s, r, k, g');
    ForgetOneFlight(r.flights, g.id, pn, FlightOf(g'));
  }

  lemma ForgetOneFlight(m: map<nat, Flight>, id: nat, pn: nat, f: Flight)
    requires id in m && f.payload == m[id].payload && f.numbers == m[id].numbers - {pn} != {}
    requires forall x :: x in m && x != id ==> pn !in m[x].numbers && m[x].numbers - {pn} == m[x].numbers
    ensures Forgotten(m, pn) == m[id := f]
  {
    assert m[id].numbers != {pn};
  }

  lemma ForgetMatches(s: State, r: Reference, pn: nat)
    requires Matches(s, r)
    ensures Matches(QueueStep(s, Forget(pn)), Step(r, Forget(pn)))
  {
    OutstandingMeansInFlight(s.ps, r.flights, pn);
    if !Outstanding(s.ps, pn) {
      AbsentNumber(r.flights, pn);
      assert r.flights == Step(r, Forget(pn)).flights;
    } else {
      var k :| At(s.ps, k, pn, ByNumber) && QueueStep(s, Forget(pn)) == s.(ps := ForgetAt(s.ps, k, pn));
      if Count(s.ps[k]) == 1 {
        ForgetLastMatches(s, r, pn, k);
      } else {
        ForgetOneMatches(s, r, pn, k);
      }
    }
  }

  lemma AbsentNumber(m: map<nat, Flight>, pn: nat)
    requires !InFlight(m, pn)
    ensures forall id :: id in m ==> m[id].numbers != {pn} && m[id].numbers - {pn} == m[id].numbers
  {
    forall id | id in m ensures m[id].numbers != {pn} && m[id].numbers - {pn} == m[id].numbers {
      assert pn !in m[id].numbers;
    }
  }

  lemma ForgetNumberNumbers(g: Group, pn: nat)
    requires GroupOk(g) && Holds(g, pn) && Count(g) > 1
    ensures var g' := ForgetNumber(g, pn);
      && GroupOk(g') && g'.id == g.id && g'.payload == g.payload
      && NumbersOf(g') == NumbersOf(g) - {pn} != {}
  {
    var g' := ForgetNumber(g, pn);
    ForgetNumberLosesExactly(g, pn, pn);
    forall x: nat ensures Holds(g', x) <==> Holds(g, x) && x != pn {
      ForgetNumberLosesExactly(g, pn, x);
    }
    var some := if g'.original.Some? then g'.original.value else g'.copies[0];
    assert some in NumbersOf(g');
  }

  /** The other flights do not carry the number, so they keep all of theirs. */
  lemma OnlyOwner(s: State, r: Reference, k: nat, pn: nat)
    requires Matches(s, r) && At(s.ps, k, pn, ByNumber)
    ensures forall id :: id in r.flights && id != s.ps[k].id ==>
      pn !in r.flights[id].numbers && r.flights[id].numbers - {pn} == r.flights[id].numbers
  {
    forall id | id in r.flights && id != s.ps[k].id
      ensures pn !in r.flights[id].numbers && r.flights[id].numbers - {pn} == r.flights[id].numbers
    {
      var i :| At(s.ps, i, id, ById);
      assert pn in r.flights[id].numbers ==> At(s.ps, i, pn, ByNumber);
    }
  }

  lemma ResendAtMatches(s: State, r: Reference, k: nat, pn: nat, g: Group)
    requires Matches(s, r) && k < |s.ps| && !Outstanding(s.ps, pn)
    requires g == s.ps[k].(copies := s.ps[k].copies + [pn], newest := pn)
    ensures FlightOf(g) == FlightOf(s.ps[k]).(numbers := NumbersOf(s.ps[k]) + {pn})
    ensures Matches(s.(ps := s.ps[k := g]), r.(flights := r.flights[g.id := FlightOf(g)]))
  {
    assert Holds(s.ps[k], pn) ==> At(s.ps, k, pn, ByNumber);
    assert NumbersOf(g) == NumbersOf(s.ps[k]) + {pn};
    UpdateMatches(s, r, k, g);
  }

  lemma ResendMatches(s: State, r: Reference, id: nat, pn: nat)
    requires Matches(s, r)
    ensures Matches(QueueStep(s, Resend(id, pn)), Step(r, Resend(id, pn)))
  {
    OutstandingMeansInFlight(s.ps, r.flights, pn);
    if !Outstanding(s.ps, pn) && Member(s.ps, id) {
      var k :| At(s.ps, k, id, ById)
        && QueueStep(s, Resend(id, pn)).ps == s.ps[k := s.ps[k].(copies := s.ps[k].copies + [pn], newest := pn)];
      ResendAtMatches(s, r, k, pn, s.ps[k].(copies := s.ps[k].copies + [pn], newest := pn));
    } else if !Outstanding(s.ps, pn) {
      assert id !in r.flights;
      assert !exists k :: At(s.ps, k, id, ById);
    }
  }

  // ----- Acknowledgments -----

  lemma {:induction false} RetainKeepsSendingOrder(ps: seq<Group>, rs: seq<Range>, nextId: nat)
    requires SendingOrder(ps, nextId)
    ensures SendingOrder(Retain(ps, rs), nextId)
    ensures ps != [] ==> SendingOrder(Retain(ps, rs), ps[|ps| - 1].id + 1)
  {
    if ps != [] {
      var front, last := ps[..|ps| - 1], ps[|ps| - 1];
      RetainKeepsSendingOrder(front, rs, last.id);
    }
  }

  lemma RetainRefines(ps: seq<Group>, m: map<nat, Flight>, rs: seq<Range>)
    requires Refines(ps, m)
    ensures Refines(Retain(ps, rs), Unacked(m, rs))
  {
    var kept, m' := Retain(ps, rs), Unacked(m, rs);
    forall i | 0 <= i < |ps| ensures Touched(m[ps[i].id], rs) <==> Acked(ps[i], rs) {
      TouchedIffAcked(ps[i], rs);
    }
    forall i | 0 <= i < |kept| ensures kept[i].id in m' && m'[kept[i].id] == FlightOf(kept[i]) {
      RetainIsFilter(ps, rs, kept[i]);
    }
    forall id | id in m' ensures Member(kept, id) {
      var i :| At(ps, i, id, ById);
      RetainIsFilter(ps, rs, ps[i]);
      var j :| 0 <= j < |kept| && kept[j] == ps[i];
      assert At(kept, j, id, ById);
    }
  }

  lemma TouchedIffAcked(g: Group, rs: seq<Range>)
    ensures Touched(FlightOf(g), rs) <==> Acked(g, rs)
  {
    if Acked(g, rs) {
      var pn: nat :| Holds(g, pn) && Covers(rs, pn);
      assert pn in NumbersOf(g);
    }
  }

  lemma AckMatches(s: State, r: Reference, rs: seq<Range>)
    requires Matches(s, r)
    ensures Matches(QueueStep(s, Ack(rs)), Step(r, Ack(rs)))
  {
    var kept := Retain(s.ps, rs);
    RetainRefines(s.ps, r.flights, rs);
    RetainKeepsSendingOrder(s.ps, rs, s.nextId);
    OrderIsApart(s.ps, s.nextId);
    RetainIsApart(s.ps, rs);
    forall i | 0 <= i < |kept| ensures GroupOk(kept[i]) {
      RetainIsFilter(s.ps, rs, kept[i]);
    }
  }

  lemma OrderIsApart(ps: seq<Group>, nextId: nat)
    requires SendingOrder(ps, nextId) && NumbersApart(ps)
    ensures Apart(ps)
  {
  }

  /** Acknowledging one number by the index is the same as an ACK range of just that number. */
  lemma {:induction false} DropIsRetain(ps: seq<Group>, k: nat, pn: nat)
    requires At(ps, k, pn, ByNumber) && NumbersApart(ps)
    ensures Retain(ps, [Range(pn, pn)]) == Dropped(ps, k)
    decreases |ps|
  {
    var n := |ps| - 1;
    var front, rs := ps[..n], [Range(pn, pn)];
    AckedByOne(ps[n], pn, pn);
    FrontApart(ps, n);
    if k < n {
      assert Holds(ps[n], pn) ==> At(ps, n, pn, ByNumber);
      assert !Acked(ps[n], rs);
      assert At(front, k, pn, ByNumber);
      DropIsRetain(front, k, pn);
      DroppedFront(ps, k, n);
    } else {
      assert Acked(ps[n], rs);
      forall i | 0 <= i < |front| ensures !Holds(front[i], pn) {
        assert Holds(front[i], pn) ==> At(ps, i, pn, ByNumber);
      }
      RetainNothingAcked(front, pn);
      assert Dropped(ps, k) == front;
    }
  }

  lemma FrontApart(ps: seq<Group>, n: nat)
    requires n <= |ps| && NumbersApart(ps)
    ensures NumbersApart(ps[..n])
  {
    forall i, x: nat | At(ps[..n], i, x, ByNumber) ensures At(ps, i, x, ByNumber) {
    }
  }

  lemma DroppedFront(ps: seq<Group>, k: nat, n: nat)
    requires k < n == |ps| - 1
    ensures Dropped(ps, k) == Dropped(ps[..n], k) + [ps[n]]
  {
  }

  lemma {:induction false} RetainNothingAcked(ps: seq<Group>, pn: nat)
    requires forall i :: 0 <= i < |ps| ==> !Holds(ps[i], pn)
    ensures Retain(ps, [Range(pn, pn)]) == ps
  {
    if ps != [] {
      var n := |ps| - 1;
      AckedByOne(ps[n], pn, pn);
      RetainNothingAcked(ps[..n], pn);
      assert ps == ps[..n] + [ps[n]];
    }
  }

  // ----- Every run -----

  ghost function QueueAfter(events: seq<Event>): State {
    if events == [] then State([], 0) else QueueStep(QueueAfter(events[..|events| - 1]), events[|events| - 1])
  }

  ghost function ReferenceAfter(events: seq<Event>): Reference {
    if events == [] then Reference(map[], 0) else Step(ReferenceAfter(events[..|events| - 1]), events[|events| - 1])
  }

  lemma StepMatches(s: State, r: Reference, e: Event)
    requires Matches(s, r)
    ensures Matches(QueueStep(s, e), Step(r, e))
  {
    match e {
      case Send(pn, payload) =>
        OutstandingMeansInFlight(s.ps, r.flights, pn);
        if payload != [] && !Outstanding(s.ps, pn) && s.nextId != MAX_U64 {
          SendMatches(s, r, pn, Group(s.nextId, Some(pn), [], pn, payload));
        }
      case Resend(id, pn) => ResendMatches(s, r, id, pn);
      case Ack(rs) => AckMatches(s, r, rs);
      case Forget(pn) => ForgetMatches(s, r, pn);
    }
  }

  /**
   After any history the queue holds exactly the payloads of the reference map, each
   with exactly its outstanding numbers, in the order they were first sent.
   */
  lemma {:induction false} QueueRefinesReference(events: seq<Event>)
    ensures Matches(QueueAfter(events), ReferenceAfter(events))
  {
    if events != [] {
      var front := events[..|events| - 1];
      QueueRefinesReference(front);
      StepMatches(QueueAfter(front), ReferenceAfter(front), events[|events| - 1]);
    }
  }

  // ----- The newest number, over whole histories -----

  ghost predicate Shape(s: State) {
    SendingOrder(s.ps, s.nextId) && NumbersApart(s.ps) && AllOk(s.ps)
  }

  ghost predicate Right(g: Group) {
    NewestIsRight(g) && OriginalFirst(g)
  }

  ghost predicate AllRight(ps: seq<Group>) {
    forall i :: 0 <= i < |ps| ==> Right(ps[i])
  }

  ghost predicate AllNewestRight(ps: seq<Group>) {
    forall i :: 0 <= i < |ps| ==> NewestIsRight(ps[i])
  }

  ghost predicate SafeNumber(g: Group, pn: nat)
    requires Holds(g, pn)
  {
    Count(g) > 1 && g.original != Some(pn) ==> SafeToForget(g, IndexOf(g.copies, pn))
  }

  /** A test on the state before the event: resend under a larger number, forget only what is safe. */
  ghost predicate SafeEvent(s: State, e: Event) {
    match e
    case Send(_, _) => true
    case Ack(_) => true
    case Resend(id, pn) => !Outstanding(s.ps, pn) ==> forall k :: At(s.ps, k, id, ById) ==> pn > s.ps[k].newest
    case Forget(pn) => forall k :: At(s.ps, k, pn, ByNumber) ==> SafeNumber(s.ps[k], pn)
  }

  lemma ForgetNumberRightIff(g: Group, pn: nat)
    requires GroupOk(g) && Right(g) && Holds(g, pn) && Count(g) > 1
    ensures NewestIsRight(ForgetNumber(g, pn)) <==> SafeNumber(g, pn)
    ensures SafeNumber(g, pn) ==> Right(ForgetNumber(g, pn))
  {
    if g.original == Some(pn) {
      ForgetOriginalStaysRight(g);
    } else {
      NewestRightIffSafe(g, IndexOf(g.copies, pn));
      ForgetCopyKeepsOriginalFirst(g, IndexOf(g.copies, pn));
    }
  }

  /** Changing one group decides whether all are right. */
  lemma UpdateRightIff(ps: seq<Group>, k: nat, g: Group)
    requires AllRight(ps) && k < |ps|
    ensures AllNewestRight(ps[k := g]) <==> NewestIsRight(g)
    ensures Right(g) ==> AllRight(ps[k := g])
  {
    assert ps[k := g][k] == g;
  }

  lemma ForgetRightIff(s: State, pn: nat)
    requires Shape(s) && AllRight(s.ps)
    ensures AllNewestRight(QueueStep(s, Forget(pn)).ps) <==> SafeEvent(s, Forget(pn))
    ensures SafeEvent(s, Forget(pn)) ==> AllRight(QueueStep(s, Forget(pn)).ps)
  {
    if Outstanding(s.ps, pn) {
      var k :| At(s.ps, k, pn, ByNumber) && QueueStep(s, Forget(pn)) == s.(ps := ForgetAt(s.ps, k, pn));
      assert SafeEvent(s, Forget(pn)) <==> SafeNumber(s.ps[k], pn);
      if Count(s.ps[k]) > 1 {
        ForgetNumberRightIff(s.ps[k], pn);
        UpdateRightIff(s.ps, k, ForgetNumber(s.ps[k], pn));
      }
    }
  }

  lemma ResendStepRightIff(s: State, id: nat, pn: nat)
    requires Shape(s) && AllRight(s.ps)
    ensures AllNewestRight(QueueStep(s, Resend(id, pn)).ps) <==> SafeEvent(s, Resend(id, pn))
    ensures SafeEvent(s, Resend(id, pn)) ==> AllRight(QueueStep(s, Resend(id, pn)).ps)
  {
    if !Outstanding(s.ps, pn) && exists k :: At(s.ps, k, id, ById) {
      var k :| At(s.ps, k, id, ById)
        && QueueStep(s, Resend(id, pn)).ps == s.ps[k := s.ps[k].(copies := s.ps[k].copies + [pn], newest := pn)];
      OrderIsApart(s.ps, s.nextId);
      assert SafeEvent(s, Resend(id, pn)) <==> pn > s.ps[k].newest;
      assert Holds(s.ps[k], pn) ==> At(s.ps, k, pn, ByNumber);
      ResendRightIff(s.ps[k], pn);
      UpdateRightIff(s.ps, k, s.ps[k].(copies := s.ps[k].copies + [pn], newest := pn));
    }
  }

  lemma AckStaysRight(ps: seq<Group>, rs: seq<Range>)
    requires AllRight(ps)
    ensures AllRight(Retain(ps, rs))
  {
    var kept := Retain(ps, rs);
    forall i | 0 <= i < |kept| ensures Right(kept[i]) {
      RetainIsFilter(ps, rs, kept[i]);
    }
  }

  /** One event from a right state: all newest numbers stay right exactly if the event is safe. */
  lemma StepRightIff(s: State, e: Event)
    requires Shape(s) && AllRight(s.ps)
    ensures AllNewestRight(QueueStep(s, e).ps) <==> SafeEvent(s, e)
    ensures SafeEvent(s, e) ==> AllRight(QueueStep(s, e).ps)
  {
    match e {
      case Send(pn, payload) =>
      case Resend(id, pn) => ResendStepRightIff(s, id, pn);
      case Ack(rs) => AckStaysRight(s.ps, rs);
      case Forget(pn) => ForgetRightIff(s, pn);
    }
  }

  ghost predicate AllSafe(events: seq<Event>) {
    events != [] ==>
      var n := |events| - 1;
      AllSafe(events[..n]) && SafeEvent(QueueAfter(events[..n]), events[n])
  }

  ghost predicate AlwaysNewestRight(events: seq<Event>) {
    && AllNewestRight(QueueAfter(events).ps)
    && (events != [] ==> AlwaysNewestRight(events[..|events| - 1]))
  }

  lemma {:induction false} SafeHistoryIsRight(events: seq<Event>)
    requires AllSafe(events)
    ensures AllRight(QueueAfter(events).ps)
  {
    if events != [] {
      var front := events[..|events| - 1];
      SafeHistoryIsRight(front);
      QueueRefinesReference(front);
      StepRightIff(QueueAfter(front), events[|events| - 1]);
    }
  }

  /**
   For every history from the empty queue: the recorded newest number of every payload is
   right at every moment if and only if every event was safe when it happened.  The first
   unsafe event makes it wrong at once.
   */
  lemma {:induction false} NewestAlwaysRightIffSafe(events: seq<Event>)
    ensures AlwaysNewestRight(events) <==> AllSafe(events)
  {
    if events != [] {
      var front := events[..|events| - 1];
      NewestAlwaysRightIffSafe(front);
      if AllSafe(front) {
        SafeHistoryIsRight(front);
        QueueRefinesReference(front);
        StepRightIff(QueueAfter(front), events[|events| - 1]);
      }
    }
  }

  /** One more than the largest number used so far. */
  function Ceiling(events: seq<Event>): nat {
    if events == [] then 0
    else
      var front, last := Ceiling(events[..|events| - 1]), events[|events| - 1];
      if last.Send? || last.Resend? then Max(front, last.pn + 1) else front
  }

  /** Every packet gets a larger number than all packets before it, as a QUIC sender does. */
  ghost predicate Rising(events: seq<Event>) {
    events != [] ==>
      var front, last := events[..|events| - 1], events[|events| - 1];
      Rising(front) && (last.Send? || last.Resend? ==> last.pn >= Ceiling(front))
  }

  ghost predicate ForgetsSafe(events: seq<Event>) {
    events != [] ==>
      var front, last := events[..|events| - 1], events[|events| - 1];
      ForgetsSafe(front) && (last.Forget? ==> SafeEvent(QueueAfter(front), last))
  }

  lemma {:induction false} NumbersBelowCeiling(events: seq<Event>)
    ensures forall id, pn :: id in ReferenceAfter(events).flights && pn in ReferenceAfter(events).flights[id].numbers ==> pn < Ceiling(events)
  {
    if events != [] {
      NumbersBelowCeiling(events[..|events| - 1]);
    }
  }

  lemma NewestBelowCeiling(events: seq<Event>, k: nat)
    requires AllRight(QueueAfter(events).ps) && k < |QueueAfter(events).ps|
    ensures QueueAfter(events).ps[k].newest < Ceiling(events)
  {
    QueueRefinesReference(events);
    NumbersBelowCeiling(events);
    var g := QueueAfter(events).ps[k];
    assert g.newest in NumbersOf(g) && g.newest in ReferenceAfter(events).flights[g.id].numbers;
  }

  lemma {:induction false} RisingMakesResendsSafe(events: seq<Event>)
    requires Rising(events)
    ensures AllSafe(events) <==> ForgetsSafe(events)
  {
    if events != [] {
      var front, last := events[..|events| - 1], events[|events| - 1];
      RisingMakesResendsSafe(front);
      if AllSafe(front) && last.Resend? {
        SafeHistoryIsRight(front);
        forall k | At(QueueAfter(front).ps, k, last.id, ById) ensures last.pn > QueueAfter(front).ps[k].newest {
          NewestBelowCeiling(front, k);
        }
      }
    }
  }

  /** With rising packet numbers only forgetting can go wrong: newest is always right iff every forgetting was safe. */
  lemma RisingHistoriesFailOnlyByForgetting(events: seq<Event>)
    requires Rising(events)
    ensures AlwaysNewestRight(events) <==> ForgetsSafe(events)
  {
    NewestAlwaysRightIffSafe(events);
    RisingMakesResendsSafe(events);
  }

  // ----- A rising history that goes wrong -----

  lemma NextState(events: seq<Event>, e: Event)
    ensures QueueAfter(events + [e]) == QueueStep(QueueAfter(events), e)
    ensures Ceiling(events + [e]) == if e.Send? || e.Resend? then Max(Ceiling(events), e.pn + 1) else Ceiling(events)
    ensures Rising(events + [e]) <==> Rising(events) && (e.Send? || e.Resend? ==> e.pn >= Ceiling(events))
  {
    assert (events + [e])[..|events|] == events;
  }

  /** The queue's only payload is sent again, or loses a copy. */
  lemma ResendOnly(events: seq<Event>, g: Group, pn: nat, g': Group)
    requires QueueAfter(events).ps == [g] && !Holds(g, pn)
    requires g'.copies == g.copies + [pn] && g' == g.(copies := g'.copies, newest := pn)
    requires Rising(events) && pn >= Ceiling(events)
    ensures QueueAfter(events + [Resend(g.id, pn)]).ps == [g']
    ensures Rising(events + [Resend(g.id, pn)]) && Ceiling(events + [Resend(g.id, pn)]) == pn + 1
  {
    NextState(events, Resend(g.id, pn));
    assert At([g], 0, g.id, ById);
  }

  lemma ForgetOnly(events: seq<Event>, g: Group, i: nat, g': Group)
    requires QueueAfter(events).ps == [g] && i < |g.copies| && g.copies[i] !in g.copies[..i]
    requires g.original.Some? && g.original.value != g.copies[i]
    requires g' == ForgetCopy(g, i) && Rising(events)
    ensures QueueAfter(events + [Forget(g.copies[i])]).ps == [g'] && Rising(events + [Forget(g.copies[i])])
  {
    NextState(events, Forget(g.copies[i]));
    assert At([g], 0, g.copies[i], ByNumber);
    FirstIndex(g.copies, g.copies[i], i);
  }

  /** The only payload, first sent as 4, with its other numbers and what is called the newest. */
  function SentAs4(copies: seq<nat>, newest: nat): Group {
    Group(0, Some(4), copies, newest, [0])
  }

  lemma FirstSend()
    ensures QueueAfter([Send(4, [0])]).ps == [SentAs4([], 4)] && Rising([Send(4, [0])]) && Ceiling([Send(4, [0])]) == 5
  {
    NextState([], Send(4, [0]));
    assert [] + [Send(4, [0])] == [Send(4, [0])];
  }

  /** Sent as 4, resent as 5, 6, 7, 8. */
  lemma SentFiveTimes() returns (events: seq<Event>)
    ensures Rising(events) && QueueAfter(events).ps == [SentAs4([5, 6, 7, 8], 8)]
  {
    FirstSend();
    events := [Send(4, [0])];
    ResendOnly(events, SentAs4([], 4), 5, SentAs4([5], 5));
    events := events + [Resend(0, 5)];
    ResendOnly(events, SentAs4([5], 5), 6, SentAs4([5, 6], 6));
    events := events + [Resend(0, 6)];
    ResendOnly(events, SentAs4([5, 6], 6), 7, SentAs4([5, 6, 7], 7));
    events := events + [Resend(0, 7)];
    ResendOnly(events, SentAs4([5, 6, 7], 7), 8, SentAs4([5, 6, 7, 8], 8));
    events := events + [Resend(0, 8)];
  }

  /** Then 5 and 7 are forgotten: 8 is outstanding, and 6 is called newest. */
  lemma NewestGoesWrong() returns (events: seq<Event>)
    ensures Rising(events) && QueueAfter(events).ps == [SentAs4([8, 6], 6)]
    ensures !AllNewestRight(QueueAfter(events).ps) && !ForgetsSafe(events)
  {
    events := SentFiveTimes();
    assert Without([5, 6, 7, 8], 0) == [8, 6, 7] && Without([8, 6, 7], 2) == [8, 6];
    ForgetOnly(events, SentAs4([5, 6, 7, 8], 8), 0, SentAs4([8, 6, 7], 8));
    events := events + [Forget(5)];
    ForgetOnly(events, SentAs4([8, 6, 7], 8), 2, SentAs4([8, 6], 6));
    events := events + [Forget(7)];
    SixIsNotNewest();
    WrongGroupMeansUnsafe(events, SentAs4([8, 6], 6));
  }

  lemma SixIsNotNewest()
    ensures !NewestIsRight(SentAs4([8, 6], 6))
  {
    var g := SentAs4([8, 6], 6);
    assert g.copies[0] == 8 > g.newest;
  }

  lemma WrongGroupMeansUnsafe(events: seq<Event>, g: Group)
    requires Rising(events) && QueueAfter(events).ps == [g] && !NewestIsRight(g)
    ensures !AllNewestRight(QueueAfter(events).ps) && !ForgetsSafe(events)
  {
    assert QueueAfter(events).ps[0] == g;
    RisingHistoriesFailOnlyByForgetting(events);
  }

  // ----- Alternating acknowledgments -----

  function ZeroGaps(n: nat): (r: seq<AckRange>)
    ensures |r| == n
  {
    if n == 0 then [] else [AckRange(0, 0)] + ZeroGaps(n - 1)
  }

  /** Every second packet from `top` down, `n` in all. */
  function EveryOther(top: nat, n: nat): AckFrame
    requires n > 0
  {
    AckFrame(top, 0, ZeroGaps(n - 1))
  }

  lemma {:induction false} DecodeZeroGaps(above: nat, n: nat, x: nat)
    requires above >= 2 * n
    ensures DecodeTail(above, ZeroGaps(n)).Some?
    ensures Covers(DecodeTail(above, ZeroGaps(n)).value, x) <==> above - 2 * n <= x < above && (above - x) % 2 == 0
  {
    if n > 0 {
      DecodeZeroGaps(above - 2, n - 1, x);
      assert ZeroGaps(n)[1..] == ZeroGaps(n - 1);
      var rest := DecodeTail(above - 2, ZeroGaps(n - 1)).value;
      assert DecodeTail(above, ZeroGaps(n)).value[1..] == rest;
    }
  }

  /** The even and the odd frame never underflow and split the `2 * n` packets from `base` between them. */
  lemma EvenAndOddPartition(base: nat, n: nat, x: nat)
    requires n > 0
    ensures var even, odd := Decode(EveryOther(base + 2 * n - 2, n)), Decode(EveryOther(base + 2 * n - 1, n));
      && even.Some? && odd.Some?
      && (Covers(even.value, x) <==> base <= x < base + 2 * n && (x - base) % 2 == 0)
      && (Covers(odd.value, x) <==> base <= x < base + 2 * n && (x - base) % 2 == 1)
  {
    DecodeEveryOther(base + 2 * n - 2, n, x);
    Parity(base + 2 * n - 2 - x, x - base, n - 1);
    DecodeEveryOther(base + 2 * n - 1, n, x);
    Parity(base + 2 * n - 1 - x, x - base, n - 1);
  }

  lemma Parity(d: int, e: int, k: int)
    ensures d + e == 2 * k ==> (d % 2 == 0 <==> e % 2 == 0)
    ensures d + e == 2 * k + 1 ==> (d % 2 == 0 <==> e % 2 == 1)
  {
    assert d == 2 * (d / 2) + d % 2 && e == 2 * (e / 2) + e % 2;
  }

  lemma DecodeEveryOther(top: nat, n: nat, x: nat)
    requires n > 0 && top >= 2 * (n - 1)
    ensures Decode(EveryOther(top, n)).Some?
    ensures Covers(Decode(EveryOther(top, n)).value, x) <==> top - 2 * (n - 1) <= x <= top && (top - x) % 2 == 0
  {
    DecodeZeroGaps(top, n - 1, x);
    assert Decode(EveryOther(top, n)).value[1..] == DecodeTail(top, ZeroGaps(n - 1)).value;
  }

  // ----- The measured loop -----

  ghost predicate OneEach(ps: seq<Group>, base: nat, n: nat) {
    |ps| == n && forall i :: 0 <= i < n ==> Holds(ps[i], base + i)
  }

  ghost predicate BelowAll(ps: seq<Group>, limit: nat) {
    forall i, x: nat :: At(ps, i, x, ByNumber) ==> x < limit
  }

  lemma OneFrameAcks(g: Group, base: nat, n: nat, i: nat, even: seq<Range>, odd: seq<Range>)
    requires n > 0 && i < 2 * n && Holds(g, base + i)
    requires Decode(EveryOther(base + 2 * n - 2, n)) == Some(even)
    requires Decode(EveryOther(base + 2 * n - 1, n)) == Some(odd)
    ensures Acked(g, even) || Acked(g, odd)
  {
    EvenAndOddPartition(base, n, base + i);
  }

  lemma RetainTwice(ps: seq<Group>, even: seq<Range>, odd: seq<Range>)
    requires forall i :: 0 <= i < |ps| ==> Acked(ps[i], even) || Acked(ps[i], odd)
    ensures Retain(Retain(ps, even), odd) == []
  {
    var left := Retain(Retain(ps, even), odd);
    if left != [] {
      RetainIsFilter(Retain(ps, even), odd, left[0]);
      RetainIsFilter(ps, even, left[0]);
    }
  }

  /** Between them the two frames retire everything. */
  lemma BothFramesRetireAll(ps: seq<Group>, base: nat, n: nat, even: seq<Range>, odd: seq<Range>)
    requires n > 0 && OneEach(ps, base, 2 * n)
    requires Decode(EveryOther(base + 2 * n - 2, n)) == Some(even)
    requires Decode(EveryOther(base + 2 * n - 1, n)) == Some(odd)
    ensures Retain(Retain(ps, even), odd) == []
  {
    forall i | 0 <= i < |ps| ensures Acked(ps[i], even) || Acked(ps[i], odd) {
      OneFrameAcks(ps[i], base, n, i, even, odd);
    }
    RetainTwice(ps, even, odd);
  }

  datatype Measured = Checksum(value: nat) | UnexpectedPendingPacket | Refused

  /** Track `2 * n` packets from `base` in an empty queue. */
  method TrackBatch(queue: Queue, base: nat, n: nat) returns (ok: bool)
    requires queue.Valid() && queue.pending == [] && queue.nextGroupId + n <= MAX_U64
    modifies queue
    ensures queue.Valid() && ok
    ensures OneEach(queue.pending, base, n) && queue.nextGroupId == old(queue.nextGroupId) + n
  {
    for i := 0 to n
      invariant queue.Valid() && queue.nextGroupId == old(queue.nextGroupId) + i
      invariant OneEach(queue.pending, base, i) && BelowAll(queue.pending, base + i)
    {
      ghost var before := queue.pending;
      var r := queue.TrackSent(base + i, [120]);
      if !r.Tracked? {
        return false;
      }
      forall k, x: nat | At(queue.pending, k, x, ByNumber) ensures x < base + i + 1 {
        assert k < i ==> At(before, k, x, ByNumber);
      }
    }
    ok := true;
  }

  /** `measureRecoveryAckRanges`: every iteration ends with nothing pending. */
  method MeasureRecoveryAckRanges(iterations: nat, n: nat) returns (r: Measured)
    requires n > 0 && iterations * (2 * n) <= MAX_U64
    ensures r == Checksum(iterations * (2 * n))
  {
    var queue := new Queue();
    var checksum: nat := 0;
    for iteration := 0 to iterations
      invariant queue.Valid() && fresh(queue) && queue.pending == []
      invariant queue.nextGroupId == checksum == iteration * (2 * n)
    {
      var base := iteration * (2 * n);
      RoomForOneMore(iteration, iterations, 2 * n);
      var ok := TrackBatch(queue, base, 2 * n);
      ghost var ps := queue.pending;
      EvenAndOddPartition(base, n, base);
      var even := queue.ApplyAck(EveryOther(base + 2 * n - 2, n));
      var odd := queue.ApplyAck(EveryOther(base + 2 * n - 1, n));
      BothFramesRetireAll(ps, base, n, Decode(EveryOther(base + 2 * n - 2, n)).value, Decode(EveryOther(base + 2 * n - 1, n)).value);
      if !ok || even.InvalidAck? || odd.InvalidAck? { return Refused; }
      checksum := checksum + even.count + odd.count;
      if |queue.pending| != 0 { return UnexpectedPendingPacket; }
    }
    r := Checksum(checksum);
  }

  lemma RoomForOneMore(i: nat, n: nat, step: nat)
    requires i < n
    ensures (i + 1) * step == i * step + step <= n * step
  {
    assert n * step == (i + 1) * step + (n - i - 1) * step;
  }
}
