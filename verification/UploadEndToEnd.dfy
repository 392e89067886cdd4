/**
 HTTP/3 upload from end to end: the sender's batches, a transport that keeps the
 order inside each stream but interleaves and refragments freely across streams,
 and the receiver (examples/bench_http3_handshake_transfer.zig).
 */
module UploadEndToEnd {
  import opened Base
  import opened Partition
  import opened UploadSender
  import opened Receivers

  // ----- The transport -----

  /** A stream whole: its head, pieces of any size adding up to `bytes`, and the end if FIN was sent. */
  ghost predicate Carries(p: seq<Content>, length: nat, bytes: nat, fin: bool) {
    var dataEnd := |p| - (if fin then 1 else 0);
    && dataEnd >= 1 && p[0] == RequestHead(Some(length))
    && (forall j :: 1 <= j < dataEnd ==> p[j].Data?)
    && (fin ==> p[dataEnd] == Finished)
    && DataSum(p) == bytes
  }

  /** `startRequest` puts FIN on the head of a request that announces an empty body. */
  predicate HeadCarriesFin(length: nat) {
    length == 0
  }

  /** FIN was sent on a stream: with its head, or with one of its chunks. */
  ghost predicate FinSent(length: nat, chunks: seq<Chunk>) {
    HeadCarriesFin(length) || exists j :: 0 <= j < |chunks| && chunks[j].fin
  }

  /**
   The heads and all of `wire` arrive: ordered per stream, otherwise in any interleaving
   and any fragments; the end of a stream is reported if FIN was sent on it.
   */
  ghost predicate Delivered(c: Config, wire: seq<seq<Chunk>>, events: seq<Event>)
    requires c.Valid()
  {
    && (forall n :: 0 <= n < |events| ==> events[n].Message? && events[n].id in c.ids)
    && forall i :: 0 <= i < |c.ids| ==>
         Carries(Heard(events, c.ids[i]), c.lens[i],
                 Bytes(OnStream(wire, c.ids[i])), FinSent(c.lens[i], OnStream(wire, c.ids[i])))
  }

  // ----- Choosing distinct streams -----

  lemma {:induction false} SumDropped(s: seq<nat>, i: nat)
    requires i < |s|
    ensures Sum(Dropped(s, i)) + s[i] == Sum(s)
    decreases |s|
  {
    var n := |s| - 1;
    if i < n {
      SumDropped(s[..n], i);
      assert Dropped(s, i)[..n - 1] == Dropped(s[..n], i);
    } else {
      assert Dropped(s, i) == s[..n];
    }
  }

  lemma DroppedKeepsOthers(s: seq<nat>, i: nat, x: nat)
    requires i < |s|
    ensures x in s && x != s[i] ==> x in Dropped(s, i)
    ensures multiset(s) == multiset(Dropped(s, i)) + multiset{s[i]}
  {
    if x in s && x != s[i] {
      var j :| 0 <= j < |s| && s[j] == x;
      assert j < i ==> Dropped(s, i)[j] == x;
      assert j > i ==> Dropped(s, i)[j - 1] == x;
    }
    assert s == s[..i] + [s[i]] + s[i + 1..];
  }

  ghost predicate Labelled(s: seq<nat>, vals: seq<nat>, f: map<nat, nat>) {
    |s| == |vals| && forall i :: 0 <= i < |s| ==> s[i] in f && vals[i] == f[s[i]]
  }

  /** Distinct choices weigh at most as much as everything there is; choosing all of it is a permutation. */
  lemma {:induction false} Chosen(all: seq<nat>, lens: seq<nat>, sel: seq<nat>, vals: seq<nat>, f: map<nat, nat>)
    requires Labelled(all, lens, f) && Labelled(sel, vals, f) && AllDistinct(sel)
    requires forall k :: 0 <= k < |sel| ==> sel[k] in all
    ensures |sel| <= |all| && Sum(vals) <= Sum(lens)
    ensures |sel| == |all| ==> Sum(vals) == Sum(lens) && multiset(sel) == multiset(all)
    decreases |sel|
  {
    if sel != [] {
      var n := |sel| - 1;
      var s := sel[n];
      var i := IndexOf(all, s);
      forall k | 0 <= k < n ensures sel[..n][k] in Dropped(all, i) {
        DroppedKeepsOthers(all, i, sel[k]);
      }
      LabelledDropped(all, lens, f, i);
      Chosen(Dropped(all, i), Dropped(lens, i), sel[..n], vals[..n], f);
      SumDropped(lens, i);
      DroppedKeepsOthers(all, i, s);
      assert sel == sel[..n] + [s];
    }
  }

  lemma LabelledDropped(s: seq<nat>, vals: seq<nat>, f: map<nat, nat>, i: nat)
    requires Labelled(s, vals, f) && i < |s|
    ensures Labelled(Dropped(s, i), Dropped(vals, i), f)
  {
  }

  // ----- The job, apart from how it is sent -----

  /** Streams, their lengths (also by id) and the body size they add up to. */
  datatype Job = Job(ids: seq<nat>, lens: seq<nat>, f: map<nat, nat>, body: nat)

  ghost predicate JobOk(j: Job) {
    AllDistinct(j.ids) && Labelled(j.ids, j.lens, j.f) && Sum(j.lens) == j.body
  }

  /** `h` is what was heard per stream, `rest` what is still to come; together each stream is whole. */
  ghost predicate Remaining(j: Job, h: map<nat, seq<Content>>, rest: seq<Event>) {
    && (forall n :: 0 <= n < |rest| ==> rest[n].Message? && rest[n].id in j.ids)
    && forall id :: id in j.ids ==>
      && id in h && id in j.f
      && Carries(h[id] + Heard(rest, id), j.f[id], j.f[id], true)
  }

  /** The receiver's books agree with what was heard. */
  ghost predicate Follows(j: Job, h: map<nat, seq<Content>>, u: Upload) {
    && UploadInv(j.body, |j.ids|, u) && Labelled(u.ids, u.expected, j.f)
    && (forall k :: 0 <= k < |u.ids| ==>
          u.ids[k] in j.ids && u.ids[k] in h && StreamFollows(h[u.ids[k]], u.read[k], u.finished[k]))
    && (forall id :: id in j.ids ==> id in h && (id !in u.ids ==> h[id] == []))
  }

  ghost predicate StreamFollows(p: seq<Content>, read: nat, finished: bool) {
    p != [] && read == DataSum(p) && (finished <==> Finished in p)
  }

  // ----- One stream -----

  /** `x` may follow `p` on a stream of the given length. */
  ghost predicate Continues(p: seq<Content>, x: Content, length: nat) {
    if p == [] then x == RequestHead(Some(length))
    else
      || (x.Data? && DataSum(p) + x.skipped <= length)
      || (x == Finished && DataSum(p) == length && Finished !in p)
  }

  lemma NextKind(full: seq<Content>, k: nat, length: nat)
    requires Carries(full, length, length, true) && k < |full|
    ensures k == 0 ==> full[k] == RequestHead(Some(length))
    ensures k > 0 ==> full[k].Data? || full[k].Finished?
    ensures full[k].Finished? ==> k == |full| - 1 && Finished !in full[..k]
  {
  }

  lemma NextSum(full: seq<Content>, k: nat)
    requires k < |full|
    ensures DataSum(full[..k]) + (if full[k].Data? then full[k].skipped else 0) <= DataSum(full)
    ensures k == |full| - 1 ==> DataSum(full) == DataSum(full[..k]) + (if full[k].Data? then full[k].skipped else 0)
  {
    DataSumPrefix(full, k + 1);
    assert full[..k + 1][..k] == full[..k];
  }

  /** A whole stream continues as it should at every point. */
  lemma WholeContinues(full: seq<Content>, p: seq<Content>, length: nat)
    requires Carries(full, length, length, true) && |p| < |full| && p == full[..|p|]
    ensures Continues(p, full[|p|], length)
  {
    NextKind(full, |p|, length);
    NextSum(full, |p|);
  }

  lemma StreamGrows(p: seq<Content>, x: Content, read: nat, finished: bool, length: nat)
    requires p != [] && StreamFollows(p, read, finished) && Continues(p, x, length)
    ensures x.Data? ==> read + x.skipped <= length && StreamFollows(p + [x], read + x.skipped, finished)
    ensures x == Finished ==> !finished && read == length && StreamFollows(p + [x], read, true)
  {
    DataSumAppend(p, x);
  }

  // ----- One event -----

  /** Record what the next event says. */
  function Listen(h: map<nat, seq<Content>>, e: Event): map<nat, seq<Content>>
    requires e.Message? && e.id in h
  {
    h[e.id := h[e.id] + [e.content]]
  }

  /** Listening moves the first event from what is to come to what was heard. */
  lemma SameWhole(h: map<nat, seq<Content>>, rest: seq<Event>, x: nat)
    requires rest != [] && rest[0].Message? && rest[0].id in h && x in h
    ensures Listen(h, rest[0])[x] + Heard(rest[1..], x) == h[x] + Heard(rest, x)
  {
    var e, more := rest[0], Heard(rest[1..], x);
    if e.id == x {
      Regroup(h[x], [e.content], more);
    } else {
      Regroup(h[x], [], more);
      assert h[x] + [] == h[x];
    }
  }

  lemma Regroup(a: seq<Content>, b: seq<Content>, c: seq<Content>)
    ensures (a + b) + c == a + (b + c)
  {
  }

  lemma RemainingStep(j: Job, h: map<nat, seq<Content>>, rest: seq<Event>)
    requires Remaining(j, h, rest) && rest != []
    ensures Remaining(j, Listen(h, rest[0]), rest[1..])
  {
    forall x | x in j.ids ensures Listen(h, rest[0])[x] + Heard(rest[1..], x) == h[x] + Heard(rest, x) {
      SameWhole(h, rest, x);
    }
  }

  lemma NextContinues(j: Job, h: map<nat, seq<Content>>, rest: seq<Event>)
    requires Remaining(j, h, rest) && rest != []
    ensures Continues(h[rest[0].id], rest[0].content, j.f[rest[0].id])
  {
    var id := rest[0].id;
    WholeContinues(h[id] + Heard(rest, id), h[id], j.f[id]);
  }

  /** There is room for one more stream and for its length. */
  lemma HeadFits(j: Job, u: Upload, id: nat)
    requires JobOk(j) && AllDistinct(u.ids) && Labelled(u.ids, u.expected, j.f)
    requires forall k :: 0 <= k < |u.ids| ==> u.ids[k] in j.ids
    requires id in j.ids && id !in u.ids && id in j.f
    ensures |u.ids| < |j.ids| && Sum(u.expected) + j.f[id] <= j.body
    ensures Labelled(u.ids + [id], u.expected + [j.f[id]], j.f)
  {
    Chosen(j.ids, j.lens, u.ids + [id], u.expected + [j.f[id]], j.f);
    SumAppend(u.expected, j.f[id]);
  }

  lemma HeadStep(j: Job, h: map<nat, seq<Content>>, e: Event, u: Upload)
    requires JobOk(j) && Follows(j, h, u) && e.Message? && e.id in j.ids && e.id in j.f && h[e.id] == []
    requires e.content == RequestHead(Some(j.f[e.id]))
    ensures UploadStep(j.body, |j.ids|, u, e).Some?
    ensures Follows(j, Listen(h, e), UploadStep(j.body, |j.ids|, u, e).value)
  {
    assert e.id !in u.ids;
    HeadFits(j, u, e.id);
    UploadStepKeepsInv(j.body, |j.ids|, u, e);
    DataSumAppend(h[e.id], e.content);
    BooksOpen(j, h, e, u, Upload(u.ids + [e.id], u.expected + [j.f[e.id]], u.read + [0], u.finished + [false]));
  }

  lemma BooksOpen(j: Job, h: map<nat, seq<Content>>, e: Event, u: Upload, u': Upload)
    requires Follows(j, h, u) && UploadInv(j.body, |j.ids|, u') && Labelled(u'.ids, u'.expected, j.f)
    requires e.Message? && e.id in j.ids && e.id in h && e.id !in u.ids && StreamFollows(h[e.id] + [e.content], 0, false)
    requires u'.ids == u.ids + [e.id] && u'.read == u.read + [0] && u'.finished == u.finished + [false]
    ensures Follows(j, Listen(h, e), u')
  {
    forall k | 0 <= k < |u'.ids|
      ensures u'.ids[k] in j.ids && StreamFollows(Listen(h, e)[u'.ids[k]], u'.read[k], u'.finished[k])
    {
      assert k < |u.ids| ==> u'.ids[k] == u.ids[k] && u.ids[k] != e.id;
    }
    forall id | id in j.ids && id !in u'.ids ensures Listen(h, e)[id] == [] {
      assert u'.ids[|u.ids|] == e.id;
      assert forall k :: 0 <= k < |u.ids| ==> u'.ids[k] == u.ids[k];
    }
  }

  /** Only the event's own stream changes. */
  lemma BooksGrow(j: Job, h: map<nat, seq<Content>>, e: Event, u: Upload, u': Upload, k: nat)
    requires Follows(j, h, u) && UploadInv(j.body, |j.ids|, u') && e.Message? && e.id in h
    requires k < |u.ids| && u.ids[k] == e.id && u'.ids == u.ids && u'.expected == u.expected
    requires StreamFollows(h[e.id] + [e.content], u'.read[k], u'.finished[k])
    requires forall i :: 0 <= i < |u.ids| && i != k ==> u'.read[i] == u.read[i] && u'.finished[i] == u.finished[i]
    ensures Follows(j, Listen(h, e), u')
  {
  }

  lemma DataAccepted(body: nat, streams: nat, u: Upload, e: Event, k: nat, u': Upload)
    requires UploadInv(body, streams, u) && e.Message? && e.content.Data? && e.id in u.ids && k == IndexOf(u.ids, e.id)
    requires u.read[k] + e.content.skipped <= u.expected[k]
    requires u' == u.(read := u.read[k := u.read[k] + e.content.skipped])
    ensures UploadStep(body, streams, u, e) == Some(u') && (u.finished[k] ==> e.content.skipped == 0)
    ensures UploadInv(body, streams, u')
  {
    DataFits(body, streams, u, k, e.content.skipped);
  }

  lemma DataStep(j: Job, h: map<nat, seq<Content>>, e: Event, u: Upload)
    requires Follows(j, h, u) && e.Message? && e.id in j.ids && e.id in j.f && h[e.id] != []
    requires e.content.Data? && Continues(h[e.id], e.content, j.f[e.id])
    ensures UploadStep(j.body, |j.ids|, u, e).Some?
    ensures Follows(j, Listen(h, e), UploadStep(j.body, |j.ids|, u, e).value)
  {
    var k := IndexOf(u.ids, e.id);
    var u' := u.(read := u.read[k := u.read[k] + e.content.skipped]);
    StreamGrows(h[e.id], e.content, u.read[k], u.finished[k], j.f[e.id]);
    DataAccepted(j.body, |j.ids|, u, e, k, u');
    BooksGrow(j, h, e, u, u', k);
  }

  lemma FinishStep(j: Job, h: map<nat, seq<Content>>, e: Event, u: Upload)
    requires Follows(j, h, u) && e.Message? && e.id in j.ids && e.id in j.f && h[e.id] != []
    requires e.content == Finished && Continues(h[e.id], e.content, j.f[e.id])
    ensures UploadStep(j.body, |j.ids|, u, e).Some?
    ensures Follows(j, Listen(h, e), UploadStep(j.body, |j.ids|, u, e).value)
  {
    var k := IndexOf(u.ids, e.id);
    StreamGrows(h[e.id], e.content, u.read[k], u.finished[k], j.f[e.id]);
    UploadStepKeepsInv(j.body, |j.ids|, u, e);
    BooksGrow(j, h, e, u, u.(finished := u.finished[k := true]), k);
  }

  lemma EventStep(j: Job, h: map<nat, seq<Content>>, e: Event, u: Upload)
    requires JobOk(j) && Follows(j, h, u) && e.Message? && e.id in j.ids && e.id in j.f
    requires Continues(h[e.id], e.content, j.f[e.id])
    ensures UploadStep(j.body, |j.ids|, u, e).Some?
    ensures Follows(j, Listen(h, e), UploadStep(j.body, |j.ids|, u, e).value)
  {
    if h[e.id] == [] {
      HeadStep(j, h, e, u);
    } else if e.content.Data? {
      DataStep(j, h, e, u);
    } else {
      FinishStep(j, h, e, u);
    }
  }

  // ----- The whole upload -----

  ghost predicate AllEnded(j: Job, h: map<nat, seq<Content>>) {
    forall id :: id in j.ids ==> id in h && Finished in h[id]
  }

  /** The receiver stops exactly when it heard the end of every stream. */
  lemma StopsWithAll(j: Job, h: map<nat, seq<Content>>, u: Upload)
    requires JobOk(j) && Follows(j, h, u) && CountTrue(u.finished) >= |j.ids|
    ensures Conclude(j.body, |j.ids|, u) == Received(u.ids) && multiset(u.ids) == multiset(j.ids)
    ensures AllEnded(j, h)
  {
    UploadExit(j.body, |j.ids|, u);
    Chosen(j.ids, j.lens, u.ids, u.expected, j.f);
    CountTrueIsAll(u.finished);
    forall id | id in j.ids ensures id in h && Finished in h[id] {
      assert id in multiset(u.ids);
      assert id in u.ids;
    }
  }

  lemma AllEndedStops(j: Job, h: map<nat, seq<Content>>, u: Upload)
    requires JobOk(j) && Follows(j, h, u) && AllEnded(j, h)
    ensures CountTrue(u.finished) >= |j.ids|
  {
    forall id | id in j.ids ensures id in u.ids {
      assert h[id] != [];
    }
    Chosen(u.ids, u.expected, j.ids, j.lens, j.f);
    CountTrueIsAll(u.finished);
  }

  /** When nothing is left to come, every end was heard. */
  lemma SilenceMeansEnded(j: Job, h: map<nat, seq<Content>>)
    requires Remaining(j, h, [])
    ensures AllEnded(j, h)
  {
    forall id | id in j.ids ensures id in h && Finished in h[id] {
      var p := h[id];
      assert p + Heard([], id) == p;
      assert p[|p| - 1] == Finished;
    }
  }

  ghost predicate Good(ids: seq<nat>, r: Outcome) {
    r.Received? && multiset(r.ids) == multiset(ids)
  }

  lemma {:induction false} UploadFrom(j: Job, h: map<nat, seq<Content>>, rest: seq<Event>, u: Upload)
    requires JobOk(j) && Follows(j, h, u) && Remaining(j, h, rest)
    ensures Good(j.ids, UploadRun(j.body, |j.ids|, u, rest))
    decreases |rest|
  {
    if rest == [] {
      SilenceMeansEnded(j, h);
      AllEndedStops(j, h, u);
    }
    if CountTrue(u.finished) >= |j.ids| {
      StopsWithAll(j, h, u);
    } else {
      RemainingStep(j, h, rest);
      NextContinues(j, h, rest);
      EventStep(j, h, rest[0], u);
      var u' := UploadStep(j.body, |j.ids|, u, rest[0]).value;
      RunStep(j.body, |j.ids|, u, rest, u');
      UploadFrom(j, Listen(h, rest[0]), rest[1..], u');
    }
  }

  // ----- Putting sender, transport and receiver together -----

  /** Every stream is sent in full and closed: an empty one by its head, any other by its last chunk. */
  lemma WireOfStream(c: Config, i: nat)
    requires c.Valid() && i < |c.ids|
    ensures Bytes(OnStream(Wire(c), c.ids[i])) == c.lens[i]
    ensures FinSent(c.lens[i], OnStream(Wire(c), c.ids[i]))
  {
    EveryStreamSentInFull(c, i);
    var s := OnStream(Wire(c), c.ids[i]);
    if s != [] {
      assert s[|s| - 1].fin;
    }
  }

  ghost function JobOf(c: Config, body: nat): (j: Job)
    requires c.Valid()
    ensures j.ids == c.ids && j.lens == c.lens && j.body == body && Labelled(j.ids, j.lens, j.f)
  {
    var f := map id | id in c.ids :: c.lens[IndexOf(c.ids, id)];
    assert forall i :: 0 <= i < |c.ids| ==> IndexOf(c.ids, c.ids[i]) == i;
    Job(c.ids, c.lens, f, body)
  }

  function Silence(ids: seq<nat>): map<nat, seq<Content>> {
    map id | id in ids :: []
  }

  lemma DeliveredIsRemaining(c: Config, j: Job, events: seq<Event>)
    requires c.Valid() && Delivered(c, Wire(c), events) && j.ids == c.ids && j.lens == c.lens && Labelled(j.ids, j.lens, j.f)
    ensures Remaining(j, Silence(j.ids), events)
  {
    forall id | id in j.ids ensures id in j.f && Carries([] + Heard(events, id), j.f[id], j.f[id], true) {
      var i := IndexOf(j.ids, id);
      WireOfStream(c, i);
      assert [] + Heard(events, id) == Heard(events, id);
    }
  }

  lemma NothingHeardYet(j: Job)
    ensures Follows(j, Silence(j.ids), NoStreams())
  {
  }

  /**
   For every number of streams, all lengths and every delivery, the receiver returns a
   permutation of the sender's stream ids.
   */
  lemma UploadOutcome(c: Config, body: nat, events: seq<Event>)
    requires c.Valid() && Sum(c.lens) == body && Delivered(c, Wire(c), events)
    ensures Good(c.ids, UploadRun(body, |c.ids|, NoStreams(), events))
  {
    var j := JobOf(c, body);
    NothingHeardYet(j);
    DeliveredIsRemaining(c, j, events);
    UploadFrom(j, Silence(j.ids), events, NoStreams());
  }

  /** No event is refused, at any point of the delivery. */
  lemma NeverInvalidFrame(c: Config, body: nat, events: seq<Event>, n: nat)
    requires c.Valid() && Sum(c.lens) == body && Delivered(c, Wire(c), events) && n <= |events|
    ensures UploadRun(body, |c.ids|, NoStreams(), events[..n]) != Refused
  {
    UploadOutcome(c, body, events);
    NotRefusedOnTheWay(body, |c.ids|, NoStreams(), events, n);
  }

  /** The two programs composed: every body over any streams, under any delivery, is received in full. */
  method UploadTransfer(ids: seq<nat>, body: nat, round: nat, pace: nat, events: seq<Event>)
    returns (wire: seq<seq<Chunk>>, r: Outcome)
    requires |ids| > 0 && AllDistinct(ids) && round > 0 && pace > 0
    requires Delivered(Config(ids, Shares(body, |ids|), round, pace), Wire(Config(ids, Shares(body, |ids|), round, pace)), events)
    ensures wire == Wire(Config(ids, Shares(body, |ids|), round, pace))
    ensures Good(ids, r)
  {
    var c := Config(ids, Shares(body, |ids|), round, pace);
    SharesSumToTotal(body, |ids|);
    UploadOutcome(c, body, events);
    var ok: bool;
    ghost var used: nat;
    wire, ok := SendUploadBodies(c);
    r, used := ReceiveUploadBodies(body, |ids|, events);
  }
}
