/**
 The two-stage start of the MQTT fan-out benchmark (examples/bench_mqtt_broker.zig,
 `Worker.runFallible` and `main`).

 The main thread and one worker per subscriber take atomic steps in any order.  The
 broker hands each publish to every subscriber once, in an order of its own choosing;
 only its kind, warmup or measured, matters here.  Runs in which an operation fails
 are not modelled.
 */
module MqttBarrier {
  import opened Base
  import opened Partition

  datatype Kind = Warmup | Measured

  datatype WorkerPc =
    | Starting                    // about to count itself ready
    | AwaitBegin
    | Warming(consumed: nat)
    | AwaitMeasured
    | Measuring(consumed: nat)
    | Finished

  /** One subscriber: its worker, what the broker still owes it, what it has taken, and how much of it in the wrong phase. */
  datatype Subscriber = Subscriber(
    pc: WorkerPc, owedWarmup: nat, owedMeasured: nat, tookWarmup: nat, tookMeasured: nat, strays: nat)

  datatype MainPc =
    | AwaitReady
    | Beginning                   // about to set `begin`
    | PublishWarmup(sent: nat)
    | AwaitWarmup
    | StartingMeasured            // about to set `measured_start`
    | PublishMeasured(sent: nat)
    | Joining
    | Done

  datatype State = State(
    main: MainPc, ready: nat, warmupComplete: nat, begin: bool, measuredStart: bool, subs: seq<Subscriber>)

  datatype Config = Config(subscribers: nat, warmup: nat, measured: nat)

  datatype Action = Main | Work(i: nat, kind: Kind)

  function Init(c: Config): State {
    State(AwaitReady, 0, 0, false, false, seq(c.subscribers, _ => Subscriber(Starting, 0, 0, 0, 0, 0)))
  }

  function Owe(subs: seq<Subscriber>, kind: Kind): (r: seq<Subscriber>)
    ensures |r| == |subs|
  {
    seq(|subs|, i requires 0 <= i < |subs| =>
      if kind == Warmup then subs[i].(owedWarmup := subs[i].owedWarmup + 1)
      else subs[i].(owedMeasured := subs[i].owedMeasured + 1))
  }

  predicate AllFinished(subs: seq<Subscriber>) {
    forall i :: 0 <= i < |subs| ==> subs[i].pc == Finished
  }

  function MainStep(c: Config, s: State): State {
    match s.main
    case AwaitReady => if s.ready == c.subscribers then s.(main := Beginning) else s
    case Beginning => s.(begin := true, main := PublishWarmup(0))
    case PublishWarmup(n) =>
      if n < c.warmup then s.(main := PublishWarmup(n + 1), subs := Owe(s.subs, Warmup)) else s.(main := AwaitWarmup)
    case AwaitWarmup => if s.warmupComplete == c.subscribers then s.(main := StartingMeasured) else s
    case StartingMeasured => s.(measuredStart := true, main := PublishMeasured(0))
    case PublishMeasured(n) =>
      if n < c.measured then s.(main := PublishMeasured(n + 1), subs := Owe(s.subs, Measured)) else s.(main := Joining)
    case Joining => if AllFinished(s.subs) then s.(main := Done) else s
    case Done => s
  }

  /** Take one delivery of the kind the broker chose, if it owes one. */
  function Take(u: Subscriber, kind: Kind, phase: Kind, pc: WorkerPc): Subscriber {
    var stray := if kind == phase then 0 else 1;
    match kind
    case Warmup =>
      if u.owedWarmup == 0 then u
      else u.(pc := pc, owedWarmup := u.owedWarmup - 1, tookWarmup := u.tookWarmup + 1, strays := u.strays + stray)
    case Measured =>
      if u.owedMeasured == 0 then u
      else u.(pc := pc, owedMeasured := u.owedMeasured - 1, tookMeasured := u.tookMeasured + 1, strays := u.strays + stray)
  }

  function WorkerStep(c: Config, s: State, i: nat, kind: Kind): State
    requires i < |s.subs|
  {
    var u := s.subs[i];
    match u.pc
    case Starting => s.(ready := s.ready + 1, subs := s.subs[i := u.(pc := AwaitBegin)])
    case AwaitBegin => if s.begin then s.(subs := s.subs[i := u.(pc := Warming(0))]) else s
    case Warming(k) =>
      if k == c.warmup then s.(warmupComplete := s.warmupComplete + 1, subs := s.subs[i := u.(pc := AwaitMeasured)])
      else s.(subs := s.subs[i := Take(u, kind, Warmup, Warming(k + 1))])
    case AwaitMeasured => if s.measuredStart then s.(subs := s.subs[i := u.(pc := Measuring(0))]) else s
    case Measuring(k) =>
      if k == c.measured then s.(subs := s.subs[i := u.(pc := Finished)])
      else s.(subs := s.subs[i := Take(u, kind, Measured, Measuring(k + 1))])
    case Finished => s
  }

  function Next(c: Config, s: State, a: Action): State {
    match a
    case Main => MainStep(c, s)
    case Work(i, kind) => if i < |s.subs| then WorkerStep(c, s, i, kind) else s
  }

  function Run(c: Config, schedule: seq<Action>): State {
    if schedule == [] then Init(c) else Next(c, Run(c, schedule[..|schedule| - 1]), schedule[|schedule| - 1])
  }

  // ----- What every step keeps -----

  function PublishedWarmup(c: Config, m: MainPc): nat {
    match m
    case AwaitReady => 0
    case Beginning => 0
    case PublishWarmup(n) => n
    case _ => c.warmup
  }

  function PublishedMeasured(c: Config, m: MainPc): nat {
    match m
    case PublishMeasured(n) => n
    case Joining => c.measured
    case Done => c.measured
    case _ => 0
  }

  function ConsumedWarmup(c: Config, pc: WorkerPc): nat {
    match pc
    case Starting => 0
    case AwaitBegin => 0
    case Warming(k) => k
    case _ => c.warmup
  }

  function ConsumedMeasured(c: Config, pc: WorkerPc): nat {
    match pc
    case Measuring(k) => k
    case Finished => c.measured
    case _ => 0
  }

  predicate PastWarmup(pc: WorkerPc) {
    pc.AwaitMeasured? || pc.Measuring? || pc.Finished?
  }

  function IsReady(u: Subscriber): nat {
    if u.pc.Starting? then 0 else 1
  }

  function IsWarm(u: Subscriber): nat {
    if PastWarmup(u.pc) then 1 else 0
  }

  predicate MainOk(c: Config, s: State) {
    && |s.subs| == c.subscribers
    && (s.begin <==> !s.main.AwaitReady? && !s.main.Beginning?)
    && (s.measuredStart <==> s.main.PublishMeasured? || s.main.Joining? || s.main.Done?)
    && (s.main.PublishWarmup? ==> s.main.sent <= c.warmup)
    && (s.main.PublishMeasured? ==> s.main.sent <= c.measured)
  }

  /** The warmup phase is over for everyone: `main` has seen all completions. */
  predicate WarmupOver(m: MainPc) {
    m.StartingMeasured? || m.PublishMeasured? || m.Joining? || m.Done?
  }

  predicate SubOk(c: Config, s: State, u: Subscriber) {
    && u.strays == 0
    && (u.pc.Warming? ==> u.pc.consumed <= c.warmup) && (u.pc.Measuring? ==> u.pc.consumed <= c.measured)
    && u.tookWarmup == ConsumedWarmup(c, u.pc) && u.tookMeasured == ConsumedMeasured(c, u.pc)
    && u.owedWarmup + u.tookWarmup == PublishedWarmup(c, s.main)
    && u.owedMeasured + u.tookMeasured == PublishedMeasured(c, s.main)
    && (u.pc.Starting? ==> s.main.AwaitReady?)
    && (!s.begin ==> u.pc.Starting? || u.pc.AwaitBegin?)
    && (!s.measuredStart ==> !u.pc.Measuring? && !u.pc.Finished?)
    && (WarmupOver(s.main) ==> PastWarmup(u.pc))
  }

  ghost predicate Inv(c: Config, s: State) {
    && MainOk(c, s)
    && (forall i :: 0 <= i < |s.subs| ==> SubOk(c, s, s.subs[i]))
    && s.ready == Tally(s.subs, IsReady)
    && s.warmupComplete == Tally(s.subs, IsWarm)
  }

  lemma AllWarm(c: Config, s: State)
    requires Inv(c, s) && s.warmupComplete == c.subscribers
    ensures forall i :: 0 <= i < |s.subs| ==> PastWarmup(s.subs[i].pc)
  {
    TallyOne(s.subs, IsWarm);
    forall i | 0 <= i < |s.subs| ensures PastWarmup(s.subs[i].pc) {
      assert IsWarm(s.subs[i]) == 1;
    }
  }

  lemma AllReady(c: Config, s: State)
    requires Inv(c, s) && s.ready == c.subscribers
    ensures forall i :: 0 <= i < |s.subs| ==> !s.subs[i].pc.Starting?
  {
    TallyOne(s.subs, IsReady);
    forall i | 0 <= i < |s.subs| ensures !s.subs[i].pc.Starting? {
      assert IsReady(s.subs[i]) == 1;
    }
  }

  lemma {:induction false} OweKeepsTallies(subs: seq<Subscriber>, kind: Kind, weigh: Subscriber -> nat)
    requires weigh == IsReady || weigh == IsWarm
    ensures Tally(Owe(subs, kind), weigh) == Tally(subs, weigh)
  {
    if subs != [] {
      var n := |subs| - 1;
      OweKeepsTallies(subs[..n], kind, weigh);
      assert Owe(subs, kind)[..n] == Owe(subs[..n], kind);
    }
  }

  /** A step of the main thread seen from one subscriber. */
  lemma MainSubOk(c: Config, s: State, i: nat)
    requires MainOk(c, s) && i < |s.subs| && SubOk(c, s, s.subs[i])
    requires s.main.AwaitReady? && s.ready == c.subscribers ==> !s.subs[i].pc.Starting?
    requires s.main.AwaitWarmup? && s.warmupComplete == c.subscribers ==> PastWarmup(s.subs[i].pc)
    ensures i < |MainStep(c, s).subs| && SubOk(c, MainStep(c, s), MainStep(c, s).subs[i])
  {
  }

  lemma MainCounters(c: Config, s: State)
    requires MainOk(c, s)
    ensures MainOk(c, MainStep(c, s))
    ensures MainStep(c, s).ready == s.ready && MainStep(c, s).warmupComplete == s.warmupComplete
    ensures Tally(MainStep(c, s).subs, IsReady) == Tally(s.subs, IsReady)
    ensures Tally(MainStep(c, s).subs, IsWarm) == Tally(s.subs, IsWarm)
  {
    if s.main.PublishWarmup? {
      OweKeepsTallies(s.subs, Warmup, IsReady);
      OweKeepsTallies(s.subs, Warmup, IsWarm);
    } else if s.main.PublishMeasured? {
      OweKeepsTallies(s.subs, Measured, IsReady);
      OweKeepsTallies(s.subs, Measured, IsWarm);
    }
  }

  lemma MainKeepsInv(c: Config, s: State)
    requires Inv(c, s)
    ensures Inv(c, MainStep(c, s))
  {
    if s.ready == c.subscribers {
      AllReady(c, s);
    }
    if s.warmupComplete == c.subscribers {
      AllWarm(c, s);
    }
    MainCounters(c, s);
    forall i | 0 <= i < |s.subs| ensures SubOk(c, MainStep(c, s), MainStep(c, s).subs[i]) {
      MainSubOk(c, s, i);
    }
  }

  /** What a worker step does to its own subscriber and to the counters. */
  lemma WorkerMoves(c: Config, s: State, i: nat, kind: Kind, u: Subscriber, s': State, u': Subscriber)
    requires MainOk(c, s) && i < |s.subs| && u == s.subs[i] && SubOk(c, s, u)
    requires s' == WorkerStep(c, s, i, kind) && u' == s'.subs[i]
    ensures s'.subs == s.subs[i := u'] && SubOk(c, s, u')
    ensures s' == s.(ready := s'.ready, warmupComplete := s'.warmupComplete, subs := s'.subs)
    ensures s'.ready - s.ready == IsReady(u') - IsReady(u)
    ensures s'.warmupComplete - s.warmupComplete == IsWarm(u') - IsWarm(u)
  {
  }

  lemma WorkerKeepsInv(c: Config, s: State, i: nat, kind: Kind)
    requires Inv(c, s) && i < |s.subs|
    ensures Inv(c, WorkerStep(c, s, i, kind))
  {
    var s' := WorkerStep(c, s, i, kind);
    var u, u' := s.subs[i], s'.subs[i];
    WorkerMoves(c, s, i, kind, u, s', u');
    TallyUpdate(s.subs, IsReady, i, u');
    TallyUpdate(s.subs, IsWarm, i, u');
    SubsOkAfter(c, s, i, u', s');
  }

  lemma SubsOkAfter(c: Config, s: State, i: nat, u': Subscriber, s': State)
    requires forall k :: 0 <= k < |s.subs| ==> SubOk(c, s, s.subs[k])
    requires i < |s.subs| && SubOk(c, s, u') && s'.subs == s.subs[i := u']
    requires s'.main == s.main && s'.begin == s.begin && s'.measuredStart == s.measuredStart
    ensures forall k :: 0 <= k < |s'.subs| ==> SubOk(c, s', s'.subs[k])
  {
    forall k | 0 <= k < |s'.subs| ensures SubOk(c, s', s'.subs[k]) {
      assert SubOk(c, s, if k == i then u' else s.subs[k]);
    }
  }

  lemma {:induction false} InvAlways(c: Config, schedule: seq<Action>)
    ensures Inv(c, Run(c, schedule))
  {
    if schedule == [] {
      TallyZero(Init(c).subs, IsReady);
      TallyZero(Init(c).subs, IsWarm);
    } else {
      var s, a := Run(c, schedule[..|schedule| - 1]), schedule[|schedule| - 1];
      InvAlways(c, schedule[..|schedule| - 1]);
      match a {
        case Main => MainKeepsInv(c, s);
        case Work(i, kind) =>
          if i < |s.subs| {
            WorkerKeepsInv(c, s, i, kind);
          }
      }
    }
  }

  /**
   In every interleaving: nothing is published before every worker is ready, nothing
   measured before every worker has taken all its warmup deliveries, no delivery is taken
   in the wrong phase, and when `main` is done every worker has taken exactly the
   deliveries of both phases and the broker owes nothing.
   */
  lemma BarrierSeparatesPhases(c: Config, schedule: seq<Action>, i: nat)
    requires i < c.subscribers
    ensures var s := Run(c, schedule);
      && i < |s.subs| && s.subs[i].strays == 0
      && (s.measuredStart ==> s.subs[i].owedWarmup == 0 && s.subs[i].tookWarmup == c.warmup)
      && (!s.measuredStart ==> s.subs[i].owedMeasured == 0 && s.subs[i].tookMeasured == 0)
      && (s.main == Done ==>
            && s.subs[i].pc == Finished && s.subs[i].owedWarmup == 0 && s.subs[i].owedMeasured == 0
            && s.subs[i].tookWarmup == c.warmup && s.subs[i].tookMeasured == c.measured)
  {
    InvAlways(c, schedule);
    DoneMeansFinished(c, schedule);
    assert SubOk(c, Run(c, schedule), Run(c, schedule).subs[i]);
  }

  /** `begin` is set only when every worker has counted itself ready; until then nothing was published or taken. */
  lemma BeginWaitsForEveryone(c: Config, schedule: seq<Action>, i: nat)
    requires i < c.subscribers
    ensures var s := Run(c, schedule);
      && i < |s.subs|
      && (s.begin ==> s.ready == c.subscribers && s.subs[i].pc != Starting)
      && (!s.begin ==>
            && (s.subs[i].pc == Starting || s.subs[i].pc == AwaitBegin)
            && s.subs[i].owedWarmup == s.subs[i].owedMeasured == s.subs[i].tookWarmup == s.subs[i].tookMeasured == 0)
  {
    var s := Run(c, schedule);
    InvAlways(c, schedule);
    assert SubOk(c, s, s.subs[i]);
    if s.begin {
      forall k | 0 <= k < |s.subs| ensures IsReady(s.subs[k]) == 1 {
        assert SubOk(c, s, s.subs[k]);
      }
      TallyOne(s.subs, IsReady);
    }
  }

  lemma {:induction false} DoneMeansFinished(c: Config, schedule: seq<Action>)
    ensures Run(c, schedule).main == Done ==> AllFinished(Run(c, schedule).subs)
  {
    if schedule != [] {
      DoneMeansFinished(c, schedule[..|schedule| - 1]);
      DoneStaysFinished(c, Run(c, schedule[..|schedule| - 1]), schedule[|schedule| - 1]);
    }
  }

  lemma DoneStaysFinished(c: Config, s: State, a: Action)
    requires s.main == Done ==> AllFinished(s.subs)
    ensures Next(c, s, a).main == Done ==> AllFinished(Next(c, s, a).subs)
  {
    if a.Work? && a.i < |s.subs| {
      WorkerLeavesMain(c, s, a.i, a.kind);
    }
  }

  lemma WorkerLeavesMain(c: Config, s: State, i: nat, kind: Kind)
    requires i < |s.subs|
    ensures WorkerStep(c, s, i, kind).main == s.main
    ensures s.subs[i].pc == Finished ==> WorkerStep(c, s, i, kind) == s
  {
  }

  // ----- Every run gets to the end -----

  function MainLeft(c: Config, m: MainPc): nat
    requires m.PublishWarmup? ==> m.sent <= c.warmup
    requires m.PublishMeasured? ==> m.sent <= c.measured
  {
    match m
    case Done => 0
    case Joining => 1
    case PublishMeasured(n) => 2 + (c.measured - n)
    case StartingMeasured => 3 + c.measured
    case AwaitWarmup => 4 + c.measured
    case PublishWarmup(n) => 5 + c.measured + (c.warmup - n)
    case Beginning => 6 + c.measured + c.warmup
    case AwaitReady => 7 + c.measured + c.warmup
  }

  function WorkerLeft(c: Config, u: Subscriber): nat {
    match u.pc
    case Finished => 0
    case Measuring(k) => 1 + Max(0, c.measured - k)
    case AwaitMeasured => 2 + c.measured
    case Warming(k) => 3 + c.measured + Max(0, c.warmup - k)
    case AwaitBegin => 4 + c.measured + c.warmup
    case Starting => 5 + c.measured + c.warmup
  }

  ghost function Left(c: Config, s: State): nat
    requires MainOk(c, s)
  {
    MainLeft(c, s.main) + Tally(s.subs, u => WorkerLeft(c, u))
  }

  lemma {:induction false} OweKeepsWork(c: Config, subs: seq<Subscriber>, kind: Kind)
    ensures Tally(Owe(subs, kind), u => WorkerLeft(c, u)) == Tally(subs, u => WorkerLeft(c, u))
  {
    if subs != [] {
      var n := |subs| - 1;
      OweKeepsWork(c, subs[..n], kind);
      assert Owe(subs, kind)[..n] == Owe(subs[..n], kind);
    }
  }

  lemma WorkerCountsDown(c: Config, s: State, i: nat, kind: Kind)
    requires MainOk(c, s) && i < |s.subs| && SubOk(c, s, s.subs[i]) && WorkerStep(c, s, i, kind) != s
    ensures var u' := WorkerStep(c, s, i, kind).subs[i];
      WorkerLeft(c, u') == WorkerLeft(c, s.subs[i]) - 1 || u' == s.subs[i]
    ensures WorkerStep(c, s, i, kind).subs[i] == s.subs[i] ==> WorkerStep(c, s, i, kind).subs == s.subs
  {
  }

  lemma MainCountsDown(c: Config, s: State)
    requires MainOk(c, s) && MainStep(c, s) != s
    ensures MainOk(c, MainStep(c, s)) && MainLeft(c, MainStep(c, s).main) == MainLeft(c, s.main) - 1
    ensures Tally(MainStep(c, s).subs, u => WorkerLeft(c, u)) == Tally(s.subs, u => WorkerLeft(c, u))
  {
    OweKeepsWork(c, s.subs, Warmup);
    OweKeepsWork(c, s.subs, Measured);
  }

  lemma WorkKeepsMain(c: Config, s: State, i: nat, kind: Kind)
    requires Inv(c, s) && i < |s.subs| && WorkerStep(c, s, i, kind) != s
    ensures MainOk(c, WorkerStep(c, s, i, kind)) && Left(c, WorkerStep(c, s, i, kind)) == Left(c, s) - 1
  {
    var s' := WorkerStep(c, s, i, kind);
    WorkerMoves(c, s, i, kind, s.subs[i], s', s'.subs[i]);
    WorkerCountsDown(c, s, i, kind);
    TallyUpdate(s.subs, u => WorkerLeft(c, u), i, s'.subs[i]);
  }

  /** Every step that does something brings the end one step closer. */
  lemma StepsCountDown(c: Config, s: State, a: Action)
    requires Inv(c, s) && Next(c, s, a) != s
    ensures MainOk(c, Next(c, s, a)) && Left(c, Next(c, s, a)) == Left(c, s) - 1
  {
    match a {
      case Main => MainCountsDown(c, s);
      case Work(i, kind) => WorkKeepsMain(c, s, i, kind);
    }
  }

  /** No deadlock: until `main` is done, some thread can move. */
  lemma SomeoneCanMove(c: Config, schedule: seq<Action>)
    ensures var s := Run(c, schedule);
      s.main != Done ==> exists a: Action :: Next(c, s, a) != s
  {
    var s := Run(c, schedule);
    InvAlways(c, schedule);
    if s.main.AwaitReady? && s.ready != c.subscribers {
      TallyOne(s.subs, IsReady);
      var i :| 0 <= i < |s.subs| && IsReady(s.subs[i]) != 1;
      assert Next(c, s, Work(i, Warmup)) != s;
    } else if s.main.AwaitWarmup? && s.warmupComplete != c.subscribers {
      TallyOne(s.subs, IsWarm);
      var i :| 0 <= i < |s.subs| && IsWarm(s.subs[i]) != 1;
      WarmingCanMove(c, s, i);
    } else if s.main.Joining? && !AllFinished(s.subs) {
      var i :| 0 <= i < |s.subs| && s.subs[i].pc != Finished;
      MeasuringCanMove(c, s, i);
    } else if s.main != Done {
      assert Next(c, s, Main) != s;
    }
  }

  lemma WarmingCanMove(c: Config, s: State, i: nat)
    requires Inv(c, s) && s.main.AwaitWarmup? && i < |s.subs| && !PastWarmup(s.subs[i].pc)
    ensures Next(c, s, Work(i, Warmup)) != s
  {
    assert SubOk(c, s, s.subs[i]);
    assert Next(c, s, Work(i, Warmup)).subs[i] != s.subs[i];
  }

  lemma MeasuringCanMove(c: Config, s: State, i: nat)
    requires Inv(c, s) && s.main.Joining? && i < |s.subs| && s.subs[i].pc != Finished
    ensures Next(c, s, Work(i, Measured)) != s
  {
    assert SubOk(c, s, s.subs[i]);
    assert Next(c, s, Work(i, Measured)).subs[i] != s.subs[i];
  }

  /** So every run, wherever it stands, can be continued to the end. */
  lemma EveryRunCanFinish(c: Config, schedule: seq<Action>) returns (full: seq<Action>)
    ensures |schedule| <= |full| && full[..|schedule|] == schedule && Run(c, full).main == Done
  {
    InvAlways(c, schedule);
    full := FinishWithin(c, schedule, Left(c, Run(c, schedule)));
  }

  lemma {:induction false} FinishWithin(c: Config, schedule: seq<Action>, left: nat) returns (full: seq<Action>)
    requires Inv(c, Run(c, schedule)) && Left(c, Run(c, schedule)) == left
    ensures |schedule| <= |full| && full[..|schedule|] == schedule && Run(c, full).main == Done
    decreases left
  {
    var s := Run(c, schedule);
    full := schedule;
    if s.main != Done {
      SomeoneCanMove(c, schedule);
      var a :| Next(c, s, a) != s;
      StepsCountDown(c, s, a);
      InvAlways(c, schedule + [a]);
      assert (schedule + [a])[..|schedule|] == schedule;
      full := FinishWithin(c, schedule + [a], left - 1);
      assert full[..|schedule|] == full[..|schedule| + 1][..|schedule|];
    }
  }
}
