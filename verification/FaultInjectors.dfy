/**
 The lock-free fault injectors of the QUIC and WebTransport benchmarks
 (examples/bench_quic_handshake_stream.zig, examples/bench_webtransport_stream.zig).

 Any number of threads call an injector; each atomic operation is one step, steps
 interleave arbitrarily, and a weak compare-exchange may fail for no reason.  The
 generator and the drop test are parameters of the transition system.
 */
module FaultInjectors {
  import opened Base
  import opened Partition

  // ----- Draws in sequence -----

  function Iterate<W>(next: W -> W, seed: W, k: nat): W {
    if k == 0 then seed else next(Iterate(next, seed, k - 1))
  }

  /** How many of the first `k` draws satisfy the test. */
  function Hits<W>(next: W -> W, hit: W -> bool, seed: W, k: nat): nat {
    if k == 0 then 0
    else Hits(next, hit, seed, k - 1) + (if hit(Iterate(next, seed, k)) then 1 else 0)
  }

  // ----- LossState.shouldDrop -----

  /** Where a thread stands inside `shouldDrop`. */
  datatype Pc<W> =
    | Idle
    | Enabled                // saw `enabled`, about to count the packet
    | Counted                // about to load the generator state
    | Trying(current: W)     // about to compare-exchange
    | Drawn(value: W)        // exchange succeeded, about to test the draw
    | Dropping               // about to count the drop and return true

  datatype Loss<W> = Loss(
    enabled: bool, state: W, considered: nat, dropped: nat, threads: seq<Pc<W>>,
    draws: nat)              // history: successful exchanges so far

  datatype Action = Enable | Step(thread: nat, spurious: bool)

  function Init<W>(seed: W, n: nat): Loss<W> {
    Loss(false, seed, 0, 0, seq(n, _ => Idle), 0)
  }

  function Next<W(==)>(next: W -> W, hit: W -> bool, s: Loss<W>, a: Action): Loss<W> {
    match a
    case Enable => s.(enabled := true)
    case Step(t, spurious) =>
      if t >= |s.threads| then s
      else
        match s.threads[t]
        case Idle => if s.enabled then s.(threads := s.threads[t := Enabled]) else s
        case Enabled => s.(considered := s.considered + 1, threads := s.threads[t := Counted])
        case Counted => s.(threads := s.threads[t := Trying(s.state)])
        case Trying(current) =>
          if s.state == current && !spurious
          then s.(state := next(current), draws := s.draws + 1, threads := s.threads[t := Drawn(next(current))])
          else s.(threads := s.threads[t := Trying(s.state)])
        case Drawn(value) => s.(threads := s.threads[t := if hit(value) then Dropping else Idle])
        case Dropping => s.(dropped := s.dropped + 1, threads := s.threads[t := Idle])
  }

  function Run<W(==)>(next: W -> W, hit: W -> bool, s: Loss<W>, schedule: seq<Action>): Loss<W> {
    if schedule == [] then s
    else Next(next, hit, Run(next, hit, s, schedule[..|schedule| - 1]), schedule[|schedule| - 1])
  }

  ghost predicate Quiet<W(!new)>(s: Loss<W>) {
    forall t :: 0 <= t < |s.threads| ==> s.threads[t] == Idle
  }

  /** A packet counted as considered whose draw is still to come. */
  function AwaitsDraw<W>(pc: Pc<W>): nat {
    if pc.Counted? || pc.Trying? then 1 else 0
  }

  /** A hit already drawn that is not yet counted as dropped. */
  function OwesDrop<W>(hit: W -> bool, pc: Pc<W>): nat {
    if pc.Dropping? || (pc.Drawn? && hit(pc.value)) then 1 else 0
  }

  ghost predicate LossInv<W(!new)>(next: W -> W, hit: W -> bool, seed: W, s: Loss<W>) {
    && s.state == Iterate(next, seed, s.draws)
    && s.considered == s.draws + Tally(s.threads, AwaitsDraw)
    && s.dropped + Tally(s.threads, pc => OwesDrop(hit, pc)) == Hits(next, hit, seed, s.draws)
  }

  /** Moving one thread keeps the invariant if the counters move with it. */
  lemma MoveKeepsInv<W(!new)>(
    next: W -> W, hit: W -> bool, seed: W, s: Loss<W>, t: nat, pc: Pc<W>, s': Loss<W>)
    requires LossInv(next, hit, seed, s) && t < |s.threads| && s'.threads == s.threads[t := pc]
    requires s'.state == Iterate(next, seed, s'.draws)
    requires s'.considered - s.considered == s'.draws - s.draws + AwaitsDraw(pc) - AwaitsDraw(s.threads[t])
    requires s'.dropped - s.dropped + OwesDrop(hit, pc) - OwesDrop(hit, s.threads[t])
      == Hits(next, hit, seed, s'.draws) - Hits(next, hit, seed, s.draws)
    ensures LossInv(next, hit, seed, s')
  {
    TallyUpdate(s.threads, AwaitsDraw, t, pc);
    TallyUpdate(s.threads, pc => OwesDrop(hit, pc), t, pc);
  }

  lemma NextKeepsInv<W(!new)>(next: W -> W, hit: W -> bool, seed: W, s: Loss<W>, a: Action)
    requires LossInv(next, hit, seed, s)
    ensures LossInv(next, hit, seed, Next(next, hit, s, a))
  {
    var s' := Next(next, hit, s, a);
    if a.Step? && a.thread < |s.threads| && s' != s {
      MoveKeepsInv(next, hit, seed, s, a.thread, s'.threads[a.thread], s');
    }
  }

  lemma {:induction false} InvAlways<W(!new)>(next: W -> W, hit: W -> bool, seed: W, n: nat, schedule: seq<Action>)
    ensures LossInv(next, hit, seed, Run(next, hit, Init(seed, n), schedule))
  {
    if schedule == [] {
      TallyZero(Init(seed, n).threads, AwaitsDraw);
      TallyZero(Init(seed, n).threads, pc => OwesDrop(hit, pc));
    } else {
      var front := schedule[..|schedule| - 1];
      InvAlways(next, hit, seed, n, front);
      NextKeepsInv(next, hit, seed, Run(next, hit, Init(seed, n), front), schedule[|schedule| - 1]);
    }
  }

  /**
   Once all calls have returned, every considered packet took exactly one draw, the
   draws were the first ones of the generator, and the drops are the hits among them.
   */
  lemma LossIsExact<W(!new)>(next: W -> W, hit: W -> bool, seed: W, n: nat, schedule: seq<Action>)
    requires Quiet(Run(next, hit, Init(seed, n), schedule))
    ensures var s := Run(next, hit, Init(seed, n), schedule);
      && s.draws == s.considered
      && s.state == Iterate(next, seed, s.considered)
      && s.dropped == Hits(next, hit, seed, s.considered)
  {
    InvAlways(next, hit, seed, n, schedule);
    var s := Run(next, hit, Init(seed, n), schedule);
    TallyZero(s.threads, AwaitsDraw);
    TallyZero(s.threads, pc => OwesDrop(hit, pc));
  }

  /** The number of drops depends on the number of packets alone: not on threads, schedule or retries. */
  lemma LossIsScheduleIndependent<W(!new)>(
    next: W -> W, hit: W -> bool, seed: W, n: nat, schedule: seq<Action>, n': nat, schedule': seq<Action>)
    requires Quiet(Run(next, hit, Init(seed, n), schedule))
    requires Quiet(Run(next, hit, Init(seed, n'), schedule'))
    requires Run(next, hit, Init(seed, n), schedule).considered == Run(next, hit, Init(seed, n'), schedule').considered
    ensures Run(next, hit, Init(seed, n), schedule).dropped == Run(next, hit, Init(seed, n'), schedule').dropped
    ensures Run(next, hit, Init(seed, n), schedule).state == Run(next, hit, Init(seed, n'), schedule').state
  {
    LossIsExact(next, hit, seed, n, schedule);
    LossIsExact(next, hit, seed, n', schedule');
  }

  // ----- The switch: which calls are counted -----

  lemma RunSnoc<W(!new)>(next: W -> W, hit: W -> bool, s: Loss<W>, a: seq<Action>, x: Action)
    ensures Run(next, hit, s, a + [x]) == Next(next, hit, Run(next, hit, s, a), x)
  {
    assert (a + [x])[..|a|] == a;
  }

  /** Until it is switched on the injector does nothing at all: handshake packets take no draw. */
  lemma {:induction false} OffUntilEnabled<W(!new)>(next: W -> W, hit: W -> bool, seed: W, n: nat, schedule: seq<Action>)
    requires Enable !in schedule
    ensures Run(next, hit, Init(seed, n), schedule) == Init(seed, n)
  {
    if schedule != [] {
      OffUntilEnabled(next, hit, seed, n, schedule[..|schedule| - 1]);
    }
  }

  /** The injector at the moment it is switched on, no call being under way. */
  function SwitchedOn<W>(seed: W, n: nat): Loss<W> {
    Loss(true, seed, 0, 0, seq(n, _ => Idle), 0)
  }

  /** Whatever was called before, the run starts afresh when the injector is switched on. */
  lemma {:induction false} RunStartsAtEnable<W(!new)>(
    next: W -> W, hit: W -> bool, seed: W, n: nat, before: seq<Action>, after: seq<Action>)
    requires Enable !in before
    ensures Run(next, hit, Init(seed, n), before + [Enable] + after) == Run(next, hit, SwitchedOn(seed, n), after)
    decreases |after|
  {
    if after == [] {
      OffUntilEnabled(next, hit, seed, n, before);
      RunSnoc(next, hit, Init(seed, n), before, Enable);
      assert before + [Enable] + after == before + [Enable];
    } else {
      var front, x := after[..|after| - 1], after[|after| - 1];
      RunStartsAtEnable(next, hit, seed, n, before, front);
      assert before + [Enable] + after == (before + [Enable] + front) + [x] && after == front + [x];
      RunSnoc(next, hit, Init(seed, n), before + [Enable] + front, x);
    }
  }

  /** The action is the first step of a call that finds the injector on. */
  predicate Starts<W(!new)>(s: Loss<W>, a: Action) {
    s.enabled && a.Step? && a.thread < |s.threads| && s.threads[a.thread] == Idle
  }

  /** Calls begun while the injector was on. */
  ghost function Calls<W(!new)>(next: W -> W, hit: W -> bool, s: Loss<W>, schedule: seq<Action>): nat {
    if schedule == [] then 0
    else
      var front := schedule[..|schedule| - 1];
      Calls(next, hit, s, front) + (if Starts(Run(next, hit, s, front), schedule[|schedule| - 1]) then 1 else 0)
  }

  function AwaitsCount<W>(pc: Pc<W>): nat {
    if pc.Enabled? then 1 else 0
  }

  lemma CountedStep<W(!new)>(next: W -> W, hit: W -> bool, s: Loss<W>, a: Action)
    ensures var s' := Next(next, hit, s, a);
      s'.considered + Tally(s'.threads, AwaitsCount)
        == s.considered + Tally(s.threads, AwaitsCount) + (if Starts(s, a) then 1 else 0)
  {
    var s' := Next(next, hit, s, a);
    if a.Step? && a.thread < |s.threads| && s' != s {
      TallyUpdate(s.threads, AwaitsCount, a.thread, s'.threads[a.thread]);
    }
  }

  /** At every moment the calls begun are those counted and those about to be. */
  lemma {:induction false} CallsAreCounted<W(!new)>(next: W -> W, hit: W -> bool, s: Loss<W>, schedule: seq<Action>)
    requires Quiet(s)
    ensures var s' := Run(next, hit, s, schedule);
      s'.considered + Tally(s'.threads, AwaitsCount) == s.considered + Calls(next, hit, s, schedule)
  {
    if schedule == [] {
      TallyZero(s.threads, AwaitsCount);
    } else {
      var front := schedule[..|schedule| - 1];
      CallsAreCounted(next, hit, s, front);
      CountedStep(next, hit, Run(next, hit, s, front), schedule[|schedule| - 1]);
    }
  }

  /**
   The measured transfer: calls made before the switch leave no trace, every call made
   after it takes exactly one draw, and the drops are the hits among as many first draws.
   */
  lemma LossAfterEnable<W(!new)>(next: W -> W, hit: W -> bool, seed: W, n: nat, before: seq<Action>, after: seq<Action>)
    requires Enable !in before
    requires Quiet(Run(next, hit, Init(seed, n), before + [Enable] + after))
    ensures var s, calls := Run(next, hit, Init(seed, n), before + [Enable] + after), Calls(next, hit, SwitchedOn(seed, n), after);
      && s.considered == s.draws == calls
      && s.state == Iterate(next, seed, calls) && s.dropped == Hits(next, hit, seed, calls)
  {
    RunStartsAtEnable(next, hit, seed, n, before, after);
    LossIsExact(next, hit, seed, n, before + [Enable] + after);
    CallsAreCounted(next, hit, SwitchedOn(seed, n), after);
    TallyZero(Run(next, hit, SwitchedOn(seed, n), after).threads, AwaitsCount);
  }

  /** Thread `t` takes `k` steps with no other thread and no spurious failure in between. */
  function Alone(t: nat, k: nat): seq<Action> {
    if k == 0 then [] else Alone(t, k - 1) + [Step(t, false)]
  }

  lemma AloneStep<W(!new)>(next: W -> W, hit: W -> bool, s: Loss<W>, t: nat, k: nat, now: Loss<W>)
    requires Run(next, hit, s, Alone(t, k)) == now
    ensures Run(next, hit, s, Alone(t, k + 1)) == Next(next, hit, now, Step(t, false))
  {
    RunSnoc(next, hit, s, Alone(t, k), Step(t, false));
  }

  /** Up to the draw: the packet is counted and the generator moves on. */
  lemma CallDraws<W(!new)>(next: W -> W, hit: W -> bool, s: Loss<W>, t: nat)
    requires s.enabled && t < |s.threads| && s.threads[t] == Idle
    ensures Run(next, hit, s, Alone(t, 4)) == Loss(
        true, next(s.state), s.considered + 1, s.dropped, s.threads[t := Drawn(next(s.state))], s.draws + 1)
  {
    var s1 := s.(threads := s.threads[t := Enabled]);
    var s2 := s.(considered := s.considered + 1, threads := s.threads[t := Counted]);
    var s3 := s2.(threads := s.threads[t := Trying(s.state)]);
    AloneStep(next, hit, s, t, 0, s);
    assert s1.threads[t := Counted] == s2.threads;
    AloneStep(next, hit, s, t, 1, s1);
    assert s2.threads[t := Trying(s.state)] == s3.threads;
    AloneStep(next, hit, s, t, 2, s2);
    assert s3.threads[t := Drawn(next(s.state))] == s.threads[t := Drawn(next(s.state))];
    AloneStep(next, hit, s, t, 3, s3);
  }

  /** A call on an injector that is on, left alone, returns after counting the packet and its drop. */
  lemma CallAloneReturns<W(!new)>(next: W -> W, hit: W -> bool, s: Loss<W>, t: nat)
    requires s.enabled && t < |s.threads| && s.threads[t] == Idle
    ensures var drop := hit(next(s.state));
      Run(next, hit, s, Alone(t, if drop then 6 else 5)) == Loss(
        true, next(s.state), s.considered + 1, s.dropped + (if drop then 1 else 0), s.threads, s.draws + 1)
  {
    var value := next(s.state);
    var s4 := Loss(true, value, s.considered + 1, s.dropped, s.threads[t := Drawn(value)], s.draws + 1);
    CallDraws(next, hit, s, t);
    AloneStep(next, hit, s, t, 4, s4);
    assert s4.threads[t := Idle] == s.threads;
    if hit(value) {
      var s5 := s4.(threads := s.threads[t := Dropping]);
      assert s4.threads[t := Dropping] == s5.threads && s5.threads[t := Idle] == s.threads;
      AloneStep(next, hit, s, t, 5, s5);
    }
  }

  // ----- The generator the benchmarks use -----

  function Left13(w: bv64): (r: bv64)
    ensures w != 0 ==> r != 0
  {
    w ^ (w << 13)
  }

  function Right7(w: bv64): (r: bv64)
    ensures w != 0 ==> r != 0
  {
    w ^ (w >> 7)
  }

  function Left17(w: bv64): (r: bv64)
    ensures w != 0 ==> r != 0
  {
    w ^ (w << 17)
  }

  function Xorshift(w: bv64): (r: bv64)
    ensures w != 0 ==> r != 0
  {
    Left17(Right7(Left13(w)))
  }

  /** `next % 100 < drop_pct`. */
  function Below(pct: nat): bv64 -> bool {
    (w: bv64) => (w as int) % 100 < pct
  }

  const QUIC_SEED: bv64 := 0x1234_5678
  const WEBTRANSPORT_SEED: bv64 := 0x5754_4c4f_5353

  /** The first draws of the two benchmarks; by their last two decimal digits 36, 45 and 9, 3. */
  lemma FirstDraws()
    ensures Xorshift(QUIC_SEED) == 0x0484_29d7_5462_a0d4 && Xorshift(0x0484_29d7_5462_a0d4) == 0xfd06_d22c_1752_d095
    ensures Xorshift(WEBTRANSPORT_SEED) == 0x1c3f_31b2_ef03_7935 && Xorshift(0x1c3f_31b2_ef03_7935) == 0x06e9_34c1_002b_9287
    ensures forall pct :: Below(pct)(0x0484_29d7_5462_a0d4) <==> 36 < pct
    ensures forall pct :: Below(pct)(0x1c3f_31b2_ef03_7935) <==> 9 < pct
  {
  }

  lemma {:induction false} IterateNeverZero(seed: bv64, k: nat)
    requires seed != 0
    ensures Iterate(Xorshift, seed, k) != 0
  {
    if k > 0 {
      IterateNeverZero(seed, k - 1);
    }
  }

  /** The generator never sticks at zero, at any moment of any schedule. */
  lemma StateNeverZero(hit: bv64 -> bool, seed: bv64, n: nat, schedule: seq<Action>)
    requires seed != 0
    ensures Run(Xorshift, hit, Init(seed, n), schedule).state != 0
  {
    InvAlways(Xorshift, hit, seed, n, schedule);
    IterateNeverZero(seed, Run(Xorshift, hit, Init(seed, n), schedule).draws);
  }

  /** The two benchmarks: which packets are dropped is fixed by the seed and the percentage. */
  lemma BenchmarkLossIsExact(seed: bv64, pct: nat, n: nat, schedule: seq<Action>)
    requires seed == QUIC_SEED || seed == WEBTRANSPORT_SEED
    requires Quiet(Run(Xorshift, Below(pct), Init(seed, n), schedule))
    ensures var s := Run(Xorshift, Below(pct), Init(seed, n), schedule);
      && s.draws == s.considered && s.state == Iterate(Xorshift, seed, s.considered) && s.state != 0
      && s.dropped == Hits(Xorshift, Below(pct), seed, s.considered)
  {
    LossIsExact(Xorshift, Below(pct), seed, n, schedule);
    StateNeverZero(Below(pct), seed, n, schedule);
  }

  lemma {:induction false} HitsConstant<W(!new)>(next: W -> W, hit: W -> bool, seed: W, k: nat, always: bool)
    requires forall w :: hit(w) == always
    ensures Hits(next, hit, seed, k) == if always then k else 0
  {
    if k > 0 {
      HitsConstant(next, hit, seed, k - 1, always);
    }
  }

  lemma RemainderBelow(w: bv64)
    ensures Below(100)(w) && !Below(0)(w)
  {
  }

  /** Zero percent loses nothing, a hundred percent every packet. */
  lemma ExtremePercentages(seed: bv64, n: nat, schedule: seq<Action>)
    ensures var s := Run(Xorshift, Below(0), Init(seed, n), schedule); s.dropped == 0
    ensures var s := Run(Xorshift, Below(100), Init(seed, n), schedule); Quiet(s) ==> s.dropped == s.considered
  {
    forall w ensures Below(100)(w) && !Below(0)(w) {
      RemainderBelow(w);
    }
    InvAlways(Xorshift, Below(0), seed, n, schedule);
    HitsConstant(Xorshift, Below(0), seed, Run(Xorshift, Below(0), Init(seed, n), schedule).draws, false);
    if Quiet(Run(Xorshift, Below(100), Init(seed, n), schedule)) {
      LossIsExact(Xorshift, Below(100), seed, n, schedule);
      HitsConstant(Xorshift, Below(100), seed, Run(Xorshift, Below(100), Init(seed, n), schedule).considered, true);
    }
  }

  // ----- ReorderState.shouldHold and CorruptState.corrupt -----

  datatype TicketPc =
    | Waiting
    | Admitted                 // saw `enabled`, about to take a ticket
    | Ticketed(index: nat)     // about to test the ticket
    | Holding                  // about to count the hold and return true

  datatype EveryNth = EveryNth(enabled: bool, considered: nat, held: nat, threads: seq<TicketPc>)

  function InitEvery(n: nat): EveryNth {
    EveryNth(false, 0, 0, seq(n, _ => Waiting))
  }

  /** With `every` zero the injector is off. */
  function NextEvery(every: nat, s: EveryNth, a: Action): EveryNth {
    match a
    case Enable => s.(enabled := true)
    case Step(t, _) =>
      if t >= |s.threads| then s
      else
        match s.threads[t]
        case Waiting => if s.enabled && every != 0 then s.(threads := s.threads[t := Admitted]) else s
        case Admitted => s.(considered := s.considered + 1, threads := s.threads[t := Ticketed(s.considered + 1)])
        case Ticketed(index) => s.(threads := s.threads[t := if every != 0 && index % every == 0 then Holding else Waiting])
        case Holding => s.(held := s.held + 1, threads := s.threads[t := Waiting])
  }

  function RunEvery(every: nat, s: EveryNth, schedule: seq<Action>): EveryNth {
    if schedule == [] then s
    else NextEvery(every, RunEvery(every, s, schedule[..|schedule| - 1]), schedule[|schedule| - 1])
  }

  function OwesHold(every: nat, pc: TicketPc): nat {
    if pc.Holding? || (pc.Ticketed? && every != 0 && pc.index % every == 0) then 1 else 0
  }

  ghost predicate EveryInv(every: nat, s: EveryNth) {
    && (every == 0 ==> s.considered == 0 && forall t :: 0 <= t < |s.threads| ==> s.threads[t] == Waiting)
    && s.held + Tally(s.threads, pc => OwesHold(every, pc)) == (if every == 0 then 0 else s.considered / every)
  }

  lemma NextEveryKeepsInv(every: nat, s: EveryNth, a: Action)
    requires EveryInv(every, s)
    ensures EveryInv(every, NextEvery(every, s, a))
  {
    var s' := NextEvery(every, s, a);
    if a.Step? && a.thread < |s.threads| && s' != s {
      TallyUpdate(s.threads, pc => OwesHold(every, pc), a.thread, s'.threads[a.thread]);
      if every > 0 && s.threads[a.thread].Admitted? {
        NextMultiple(s.considered, every);
      }
    }
  }

  lemma {:induction false} EveryInvAlways(every: nat, n: nat, schedule: seq<Action>)
    ensures EveryInv(every, RunEvery(every, InitEvery(n), schedule))
  {
    if schedule == [] {
      TallyZero(InitEvery(n).threads, pc => OwesHold(every, pc));
    } else {
      var front := schedule[..|schedule| - 1];
      EveryInvAlways(every, n, front);
      NextEveryKeepsInv(every, RunEvery(every, InitEvery(n), front), schedule[|schedule| - 1]);
    }
  }

  /** Once all calls have returned, exactly every `every`-th packet was held, whatever the interleaving. */
  lemma HeldIsExact(every: nat, n: nat, schedule: seq<Action>)
    requires var s := RunEvery(every, InitEvery(n), schedule);
      forall t :: 0 <= t < |s.threads| ==> s.threads[t] == Waiting
    ensures var s := RunEvery(every, InitEvery(n), schedule);
      s.held == if every == 0 then 0 else s.considered / every
  {
    EveryInvAlways(every, n, schedule);
    TallyZero(RunEvery(every, InitEvery(n), schedule).threads, pc => OwesHold(every, pc));
  }

  // ----- The switch of the counting injectors -----

  lemma RunEverySnoc(every: nat, s: EveryNth, a: seq<Action>, x: Action)
    ensures RunEvery(every, s, a + [x]) == NextEvery(every, RunEvery(every, s, a), x)
  {
    assert (a + [x])[..|a|] == a;
  }

  /** Until it is switched on the injector takes no ticket. */
  lemma {:induction false} EveryOffUntilEnabled(every: nat, n: nat, schedule: seq<Action>)
    requires Enable !in schedule
    ensures RunEvery(every, InitEvery(n), schedule) == InitEvery(n)
  {
    if schedule != [] {
      EveryOffUntilEnabled(every, n, schedule[..|schedule| - 1]);
    }
  }

  /** With `every` zero the switch is all that ever changes. */
  lemma {:induction false} ZeroIsOff(n: nat, schedule: seq<Action>)
    ensures RunEvery(0, InitEvery(n), schedule) == InitEvery(n).(enabled := Enable in schedule)
  {
    if schedule != [] {
      ZeroIsOff(n, schedule[..|schedule| - 1]);
      assert schedule == schedule[..|schedule| - 1] + [schedule[|schedule| - 1]];
    }
  }

  function EverySwitchedOn(n: nat): EveryNth {
    EveryNth(true, 0, 0, seq(n, _ => Waiting))
  }

  lemma {:induction false} EveryStartsAtEnable(every: nat, n: nat, before: seq<Action>, after: seq<Action>)
    requires Enable !in before
    ensures RunEvery(every, InitEvery(n), before + [Enable] + after) == RunEvery(every, EverySwitchedOn(n), after)
    decreases |after|
  {
    if after == [] {
      EveryOffUntilEnabled(every, n, before);
      RunEverySnoc(every, InitEvery(n), before, Enable);
      assert before + [Enable] + after == before + [Enable];
    } else {
      var front, x := after[..|after| - 1], after[|after| - 1];
      EveryStartsAtEnable(every, n, before, front);
      assert before + [Enable] + after == (before + [Enable] + front) + [x] && after == front + [x];
      RunEverySnoc(every, InitEvery(n), before + [Enable] + front, x);
    }
  }

  predicate EveryStarts(every: nat, s: EveryNth, a: Action) {
    s.enabled && every != 0 && a.Step? && a.thread < |s.threads| && s.threads[a.thread] == Waiting
  }

  /** Calls begun while the injector was on. */
  ghost function EveryCalls(every: nat, s: EveryNth, schedule: seq<Action>): nat {
    if schedule == [] then 0
    else
      var front := schedule[..|schedule| - 1];
      EveryCalls(every, s, front) + (if EveryStarts(every, RunEvery(every, s, front), schedule[|schedule| - 1]) then 1 else 0)
  }

  function AwaitsTicket(pc: TicketPc): nat {
    if pc.Admitted? then 1 else 0
  }

  lemma EveryCountedStep(every: nat, s: EveryNth, a: Action)
    ensures var s' := NextEvery(every, s, a);
      s'.considered + Tally(s'.threads, AwaitsTicket)
        == s.considered + Tally(s.threads, AwaitsTicket) + (if EveryStarts(every, s, a) then 1 else 0)
  {
    var s' := NextEvery(every, s, a);
    if a.Step? && a.thread < |s.threads| && s' != s {
      TallyUpdate(s.threads, AwaitsTicket, a.thread, s'.threads[a.thread]);
    }
  }

  lemma {:induction false} EveryCallsAreCounted(every: nat, s: EveryNth, schedule: seq<Action>)
    requires forall t :: 0 <= t < |s.threads| ==> s.threads[t] == Waiting
    ensures var s' := RunEvery(every, s, schedule);
      s'.considered + Tally(s'.threads, AwaitsTicket) == s.considered + EveryCalls(every, s, schedule)
  {
    if schedule == [] {
      TallyZero(s.threads, AwaitsTicket);
    } else {
      var front := schedule[..|schedule| - 1];
      EveryCallsAreCounted(every, s, front);
      EveryCountedStep(every, RunEvery(every, s, front), schedule[|schedule| - 1]);
    }
  }

  /** Calls before the switch leave no trace; of those after it exactly every `every`-th is held. */
  lemma HeldAfterEnable(every: nat, n: nat, before: seq<Action>, after: seq<Action>)
    requires Enable !in before
    requires var s := RunEvery(every, InitEvery(n), before + [Enable] + after);
      forall t :: 0 <= t < |s.threads| ==> s.threads[t] == Waiting
    ensures var s, calls := RunEvery(every, InitEvery(n), before + [Enable] + after), EveryCalls(every, EverySwitchedOn(n), after);
      s.considered == calls && s.held == if every == 0 then 0 else calls / every
  {
    EveryStartsAtEnable(every, n, before, after);
    HeldIsExact(every, n, before + [Enable] + after);
    EveryCallsAreCounted(every, EverySwitchedOn(n), after);
    TallyZero(RunEvery(every, EverySwitchedOn(n), after).threads, AwaitsTicket);
  }

  lemma EveryAloneStep(every: nat, s: EveryNth, t: nat, k: nat, now: EveryNth)
    requires RunEvery(every, s, Alone(t, k)) == now
    ensures RunEvery(every, s, Alone(t, k + 1)) == NextEvery(every, now, Step(t, false))
  {
    RunEverySnoc(every, s, Alone(t, k), Step(t, false));
  }

  /** A call on an injector that is on, left alone, takes the next ticket and returns. */
  lemma EveryCallAloneReturns(every: nat, s: EveryNth, t: nat)
    requires s.enabled && every != 0 && t < |s.threads| && s.threads[t] == Waiting
    ensures var hold := (s.considered + 1) % every == 0;
      RunEvery(every, s, Alone(t, if hold then 4 else 3))
        == EveryNth(true, s.considered + 1, s.held + (if hold then 1 else 0), s.threads)
  {
    var index := s.considered + 1;
    var s1 := s.(threads := s.threads[t := Admitted]);
    var s2 := s.(considered := index, threads := s.threads[t := Ticketed(index)]);
    EveryAloneStep(every, s, t, 0, s);
    assert s1.threads[t := Ticketed(index)] == s2.threads;
    EveryAloneStep(every, s, t, 1, s1);
    assert s2.threads[t := Waiting] == s.threads;
    EveryAloneStep(every, s, t, 2, s2);
    if index % every == 0 {
      var s3 := s2.(threads := s.threads[t := Holding]);
      assert s2.threads[t := Holding] == s3.threads && s3.threads[t := Waiting] == s.threads;
      EveryAloneStep(every, s, t, 3, s3);
    }
  }
}
