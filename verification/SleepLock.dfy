/**
 One sleep lock under acquiresleep and releasesleep (kernel/sleeplock.c), with sleep, wakeup and kill
 (kernel/proc.c) and the scheduler, as a state machine over any number of processes.

 The spinlocks lk->lk and p->lock are taken and released in atomic steps; between two of those, and
 between any two writes of shared fields, the other processes may run.
 */
module SleepLock {
  import opened Collections

  // Where a process is.  Comments give the statement it executes next.
  datatype Pc =
    | Idle
    | AcqSpin           // acquiresleep, and the end of sleep: acquire(&lk->lk)
    | Test              // while(lk->locked)
    | Taken             // release(&lk->lk) at the end of acquiresleep
    | GrabProc          // sleep: acquire(&p->lock)
    | DropSpin          // release(lk)
    | SetChan           // p->chan = chan
    | SetState          // p->state = SLEEPING
    | Switch            // sched(): the scheduler releases p->lock
    | Asleep            // waiting to be scheduled again
    | Resumed           // p->chan = 0; release(&p->lock)
    | Holding           // acquiresleep has returned
    | RelSpin           // releasesleep: acquire(&lk->lk)
    | RelClear          // lk->locked = 0
    | Waking(k: nat)    // wakeup's loop is at process k: acquire(&p->lock)
    | WakeHold(k: nat)  // wakes process k, if it is asleep on this lock, and releases its lock

  datatype Run = Running | Runnable | Sleeping

  datatype State = State(
    locked: bool, holder: nat,
    spin: Option<nat>,         // who holds lk->lk
    plock: seq<Option<nat>>,   // who holds each p->lock
    pc: seq<Pc>, run: seq<Run>,
    chan: seq<bool>)           // p->chan is this lock

  datatype Step = Run(i: nat) | Schedule(i: nat) | Kill(i: nat)

  ghost predicate Shape(s: State) { |s.plock| == |s.pc| == |s.run| == |s.chan| }

  // ----- steps -----

  predicate CanRun(s: State, i: nat)
    requires Shape(s) && i < |s.pc|
  {
    match s.pc[i]
    case AcqSpin => s.spin.None?
    case RelSpin => s.spin.None?
    case GrabProc => s.plock[i].None?
    case Waking(k) => k < |s.pc| && k != i ==> s.plock[k].None?
    case WakeHold(k) => k < |s.pc|
    case Asleep => false
    case _ => true
  }

  function NextPc(pc: Pc, locked: bool, n: nat, i: nat): Pc {
    match pc
    case Idle => AcqSpin
    case AcqSpin => Test
    case Test => if locked then GrabProc else Taken
    case Taken => Holding
    case GrabProc => DropSpin
    case DropSpin => SetChan
    case SetChan => SetState
    case SetState => Switch
    case Switch => Asleep
    case Asleep => Asleep
    case Resumed => AcqSpin
    case Holding => RelSpin
    case RelSpin => RelClear
    case RelClear => Waking(0)
    case Waking(k) => if k >= n then Idle else if k == i then Waking(k + 1) else WakeHold(k)
    case WakeHold(k) => Waking(k + 1)
  }

  function NextSpin(pc: Pc, spin: Option<nat>, n: nat, i: nat): Option<nat> {
    match pc
    case AcqSpin => Some(i)
    case RelSpin => Some(i)
    case Taken => None
    case DropSpin => None
    case Waking(k) => if k >= n then None else spin
    case _ => spin
  }

  function NextPlock(pc: Pc, plock: seq<Option<nat>>, i: nat): seq<Option<nat>>
    requires i < |plock| && (pc.WakeHold? ==> pc.k < |plock|)
  {
    match pc
    case GrabProc => plock[i := Some(i)]
    case Switch => plock[i := None]
    case Resumed => plock[i := None]
    case Waking(k) => if k < |plock| && k != i then plock[k := Some(i)] else plock
    case WakeHold(k) => plock[k := None]
    case _ => plock
  }

  function NextRun(pc: Pc, run: seq<Run>, chan: seq<bool>, i: nat): seq<Run>
    requires i < |run| == |chan|
  {
    match pc
    case SetState => run[i := Sleeping]
    case WakeHold(k) => if k < |run| && run[k].Sleeping? && chan[k] then run[k := Runnable] else run
    case _ => run
  }

  function NextChan(pc: Pc, chan: seq<bool>, i: nat): seq<bool>
    requires i < |chan|
  {
    match pc
    case SetChan => chan[i := true]
    case Resumed => chan[i := false]
    case _ => chan
  }

  function Advance(s: State, i: nat): State
    requires Shape(s) && i < |s.pc| && CanRun(s, i)
  {
    var pc := s.pc[i];
    State(if pc.Test? then true else if pc.RelClear? then false else s.locked,
          if pc.Test? && !s.locked then i else s.holder,
          NextSpin(pc, s.spin, |s.pc|, i),
          NextPlock(pc, s.plock, i),
          s.pc[i := NextPc(pc, s.locked, |s.pc|, i)],
          NextRun(pc, s.run, s.chan, i),
          NextChan(pc, s.chan, i))
  }

  ghost predicate Enabled(s: State, step: Step)
    requires Shape(s)
  {
    match step
    case Run(i) => i < |s.pc| && CanRun(s, i)
    case Schedule(i) => i < |s.pc| && s.run[i].Runnable? && s.plock[i].None?
    case Kill(i) => i < |s.pc| && s.plock[i].None?
  }

  function Next(s: State, step: Step): State
    requires Shape(s) && Enabled(s, step)
  {
    match step
    case Run(i) => Advance(s, i)
    // the scheduler takes p->lock and switches to the process, which continues after sched()
    case Schedule(i) => s.(pc := s.pc[i := Resumed], run := s.run[i := Running], plock := s.plock[i := Some(i)])
    // kill wakes a sleeping process while it holds p->lock
    case Kill(i) => if s.run[i].Sleeping? then s.(run := s.run[i := Runnable]) else s
  }

  // ----- the invariant -----

  predicate InSpin(pc: Pc) {
    pc.Test? || pc.Taken? || pc.GrabProc? || pc.DropSpin? || pc.RelClear? || pc.Waking? || pc.WakeHold?
  }

  // A process holds its own lock here.
  predicate OwnProc(pc: Pc) { pc.DropSpin? || pc.SetChan? || pc.SetState? || pc.Switch? || pc.Resumed? }

  predicate InLock(pc: Pc) { pc.Taken? || pc.Holding? || pc.RelSpin? || pc.RelClear? }

  // Asleep on the lock, or on the way to sleep.
  predicate Waits(pc: Pc, run: Run) {
    pc.GrabProc? || pc.DropSpin? || pc.SetChan? || pc.SetState? || pc.Switch? || (pc.Asleep? && run.Sleeping?)
  }

  // A wakeup in progress has not passed process j.
  predicate Coming(s: State, j: nat) {
    && s.spin.Some? && s.spin.value < |s.pc|
    && match s.pc[s.spin.value]
       case Waking(k) => k <= j
       case WakeHold(k) => k <= j
       case _ => false
  }

  predicate SpinOk(s: State, j: nat)
    requires j < |s.pc|
  {
    && (s.spin == Some(j) <==> InSpin(s.pc[j]))
    && (InLock(s.pc[j]) ==> s.locked && s.holder == j)
    && (s.pc[j].Waking? || s.pc[j].WakeHold? ==> !s.locked)
  }

  predicate PlockOk(s: State, j: nat)
    requires Shape(s) && j < |s.pc|
  {
    && (OwnProc(s.pc[j]) <==> s.plock[j] == Some(j))
    && (s.pc[j].WakeHold? ==> s.pc[j].k < |s.pc| && s.pc[j].k != j && s.plock[s.pc[j].k] == Some(j))
    && (s.plock[j].Some? && s.plock[j].value != j ==> s.plock[j].value < |s.pc| && s.pc[s.plock[j].value] == WakeHold(j))
  }

  predicate SleepOk(s: State, j: nat)
    requires Shape(s) && j < |s.pc|
  {
    && (s.pc[j].Switch? ==> s.run[j].Sleeping?)
    && (s.run[j].Sleeping? ==> (s.pc[j].Switch? || s.pc[j].Asleep?))
    && (s.run[j].Runnable? ==> s.pc[j].Asleep?)
    && (s.pc[j].Asleep? ==> !s.run[j].Running?)
    && (s.pc[j].SetState? || s.pc[j].Switch? || s.pc[j].Asleep? || s.pc[j].Resumed? ==> s.chan[j])
    && (Waits(s.pc[j], s.run[j]) ==> s.locked || Coming(s, j))
  }

  ghost predicate ProcOk(s: State, j: nat)
    requires Shape(s) && j < |s.pc|
  {
    SpinOk(s, j) && PlockOk(s, j) && SleepOk(s, j)
  }

  ghost predicate Inv(s: State) {
    && Shape(s)
    && (s.locked ==> s.holder < |s.pc| && InLock(s.pc[s.holder]))
    && (s.spin.Some? ==> s.spin.value < |s.pc|)
    && (forall j {:trigger ProcOk(s, j)} :: 0 <= j < |s.pc| ==> ProcOk(s, j))
  }

  // ----- the steps of one process, seen by itself and by another -----

  // lk->lk is held from the step that enters these points to the one that leaves them.
  lemma SpinStep(pc: Pc, locked: bool, spin: Option<nat>, n: nat, i: nat)
    requires spin == Some(i) <==> InSpin(pc)
    requires pc.AcqSpin? || pc.RelSpin? ==> spin.None?
    ensures var pc', spin' := NextPc(pc, locked, n, i), NextSpin(pc, spin, n, i);
            && (spin' == Some(i) <==> InSpin(pc'))
            && (spin' == spin || (spin.None? && spin' == Some(i)) || (spin == Some(i) && spin'.None?))
  {
  }

  lemma AdvanceSpin(s: State, i: nat, j: nat)
    requires Inv(s) && i < |s.pc| && CanRun(s, i) && j < |s.pc|
    ensures SpinOk(Advance(s, i), j)
  {
    assert ProcOk(s, i) && ProcOk(s, j);
    SpinStep(s.pc[i], s.locked, s.spin, |s.pc|, i);
  }

  lemma AdvancePlockSelf(s: State, i: nat)
    requires Inv(s) && i < |s.pc| && CanRun(s, i)
    ensures PlockOk(Advance(s, i), i)
  {
    assert ProcOk(s, i);
  }

  lemma AdvancePlock(s: State, i: nat, j: nat)
    requires Inv(s) && i < |s.pc| && CanRun(s, i) && j < |s.pc|
    ensures PlockOk(Advance(s, i), j)
  {
    assert ProcOk(s, i) && ProcOk(s, j);
    if j == i {
      AdvancePlockSelf(s, i);
    }
  }

  lemma AdvanceSleepSelf(s: State, i: nat)
    requires Inv(s) && i < |s.pc| && CanRun(s, i)
    ensures SleepOk(Advance(s, i), i)
  {
    assert ProcOk(s, i);
    if s.spin.Some? {
      assert ProcOk(s, s.spin.value);
    }
  }

  lemma AdvanceSleep(s: State, i: nat, j: nat)
    requires Inv(s) && i < |s.pc| && CanRun(s, i) && j < |s.pc|
    ensures SleepOk(Advance(s, i), j)
  {
    assert ProcOk(s, i) && ProcOk(s, j);
    if j == i {
      AdvanceSleepSelf(s, i);
    } else if s.spin.Some? {
      assert ProcOk(s, s.spin.value);
    }
  }

  lemma AdvanceKeepsInv(s: State, i: nat)
    requires Inv(s) && i < |s.pc| && CanRun(s, i)
    ensures Inv(Advance(s, i))
  {
    var t := Advance(s, i);
    assert ProcOk(s, i);
    if s.locked {
      assert ProcOk(s, s.holder);
    }
    forall j | 0 <= j < |t.pc| ensures ProcOk(t, j) {
      AdvanceSpin(s, i, j);
      AdvancePlock(s, i, j);
      AdvanceSleep(s, i, j);
    }
  }

  lemma ScheduleKeepsInv(s: State, i: nat)
    requires Inv(s) && Enabled(s, Schedule(i))
    ensures Inv(Next(s, Schedule(i)))
  {
    var t := Next(s, Schedule(i));
    assert ProcOk(s, i);
    forall j | 0 <= j < |t.pc| ensures ProcOk(t, j) {
      assert ProcOk(s, j);
    }
  }

  lemma StepKeepsInv(s: State, step: Step)
    requires Inv(s) && Enabled(s, step)
    ensures Inv(Next(s, step))
  {
    var t := Next(s, step);
    match step
    case Run(i) => AdvanceKeepsInv(s, i);
    case Schedule(i) => ScheduleKeepsInv(s, i);
    case Kill(i) =>
      forall j | 0 <= j < |t.pc| ensures ProcOk(t, j) {
        assert ProcOk(s, j);
      }
  }

  // ----- runs -----

  function Init(n: nat): State {
    State(false, 0, None, seq(n, _ => None), seq(n, _ => Idle), seq(n, _ => Running), seq(n, _ => false))
  }

  lemma InitInv(n: nat)
    ensures Inv(Init(n))
  {
    forall j | 0 <= j < n ensures ProcOk(Init(n), j) {
    }
  }

  ghost predicate Follows(s: State, step: Step, t: State) {
    Shape(s) && Enabled(s, step) && t == Next(s, step)
  }

  ghost predicate IsRun(n: nat, states: seq<State>, steps: seq<Step>) {
    && |states| == |steps| + 1 && states[0] == Init(n)
    && (forall i {:trigger steps[i]} :: 0 <= i < |steps| ==> Follows(states[i], steps[i], states[i + 1]))
  }

  lemma {:induction false} RunInv(n: nat, states: seq<State>, steps: seq<Step>, i: nat)
    requires IsRun(n, states, steps) && i < |states|
    ensures Inv(states[i])
  {
    if i == 0 {
      InitInv(n);
    } else {
      RunInv(n, states, steps, i - 1);
      assert Follows(states[i - 1], steps[i - 1], states[i]);
      StepKeepsInv(states[i - 1], steps[i - 1]);
    }
  }

  // At most one process is between the end of acquiresleep and the start of releasesleep, and the lock
  // records it.
  lemma MutualExclusion(n: nat, states: seq<State>, steps: seq<Step>, i: nat, j: nat, k: nat)
    requires IsRun(n, states, steps) && i < |states|
    requires j < |states[i].pc| && k < |states[i].pc| && states[i].pc[j].Holding? && states[i].pc[k].Holding?
    ensures j == k && states[i].locked && states[i].holder == j
  {
    RunInv(n, states, steps, i);
    assert ProcOk(states[i], j) && ProcOk(states[i], k);
  }

  // No wakeup is lost: when the lock and its spinlock are free, nobody is asleep on the lock or between the
  // release of the spinlock and sleep.
  lemma NoLostWakeup(n: nat, states: seq<State>, steps: seq<Step>, i: nat, j: nat)
    requires IsRun(n, states, steps) && i < |states| && j < |states[i].pc| == |states[i].run|
    requires !states[i].locked && states[i].spin.None?
    ensures !Waits(states[i].pc[j], states[i].run[j])
  {
    RunInv(n, states, steps, i);
    assert ProcOk(states[i], j);
  }

  // The steps that do not depend on a kill.
  ghost predicate CanMove(s: State, i: nat)
    requires Shape(s) && i < |s.pc|
  {
    CanRun(s, i) || (s.run[i].Runnable? && s.plock[i].None?)
  }

  // A process's lock is held by itself or by a wakeup that is at it.
  lemma PlockBy(s: State, j: nat)
    requires Inv(s) && j < |s.pc|
    ensures s.plock[j].Some? && s.plock[j].value != j ==> s.spin == s.plock[j] && s.pc[s.plock[j].value] == WakeHold(j)
  {
    assert ProcOk(s, j);
    if s.plock[j].Some? && s.plock[j].value != j {
      assert ProcOk(s, s.plock[j].value);
    }
  }

  // Whoever holds lk->lk can move, or the process whose lock it is waiting for can.
  lemma SpinnerMoves(s: State, i: nat) returns (m: nat)
    requires Inv(s) && s.spin == Some(i)
    ensures m < |s.pc| && CanMove(s, m) && !s.pc[m].Idle? && !s.pc[m].Holding?
  {
    assert ProcOk(s, i);
    PlockBy(s, i);
    if CanRun(s, i) {
      m := i;
    } else {
      m := s.pc[i].k;
      PlockBy(s, m);
      assert ProcOk(s, m);
    }
  }

  // There is no deadlock: unless every process is idle, holds the lock or waits for one that does, some
  // process in acquiresleep or releasesleep can move.
  lemma DeadlockFree(n: nat, states: seq<State>, steps: seq<Step>, i: nat, j: nat) returns (m: nat)
    requires IsRun(n, states, steps) && i < |states| && j < |states[i].pc|
    requires !states[i].pc[j].Idle? && !states[i].pc[j].Holding?
    requires states[i].locked && states[i].holder < |states[i].pc| ==> !states[i].pc[states[i].holder].Holding?
    ensures var s := states[i];
            Shape(s) && m < |s.pc| && CanMove(s, m) && !s.pc[m].Idle? && !s.pc[m].Holding?
  {
    RunInv(n, states, steps, i);
    var s := states[i];
    assert ProcOk(s, j);
    PlockBy(s, j);
    if s.spin.Some? {
      m := SpinnerMoves(s, s.spin.value);
    } else if CanMove(s, j) {
      m := j;
    } else {
      m := s.holder;
      assert ProcOk(s, m);
    }
  }

  // ----- a process on its own -----

  // m steps of process i lead from s to t.
  ghost predicate Leads(s: State, i: nat, m: nat, t: State)
    requires Shape(s) && i < |s.pc|
    decreases m
  {
    if m == 0 then s == t else CanRun(s, i) && Leads(Advance(s, i), i, m - 1, t)
  }

  // acquiresleep takes a free lock, and does nothing else.
  lemma SoloAcquire(s: State, i: nat)
    requires Inv(s) && i < |s.pc| && s.pc[i].Idle? && !s.locked && s.spin.None?
    ensures Leads(s, i, 4, s.(locked := true, holder := i, pc := s.pc[i := Holding]))
  {
    var s1 := s.(pc := s.pc[i := AcqSpin]);
    var s2 := s.(pc := s.pc[i := Test], spin := Some(i));
    var s3 := s2.(pc := s.pc[i := Taken], locked := true, holder := i);
    var s4 := s.(locked := true, holder := i, pc := s.pc[i := Holding]);
    assert Advance(s, i) == s1 && Advance(s1, i) == s2 && Advance(s2, i) == s3 && Advance(s3, i) == s4;
    assert Leads(s3, i, 1, s4) && Leads(s2, i, 2, s4) && Leads(s1, i, 3, s4);
  }

  // The processes from k on that sleep on the lock are runnable; the others are as they were.
  function Woken(run: seq<Run>, chan: seq<bool>, i: nat, k: nat): seq<Run>
    requires |run| == |chan|
  {
    seq(|run|, j requires 0 <= j < |run| => if k <= j && j != i && run[j].Sleeping? && chan[j] then Runnable else run[j])
  }

  ghost predicate PlocksFree(s: State, i: nat) { forall j :: 0 <= j < |s.plock| && j != i ==> s.plock[j].None? }

  // wakeup's loop has done process k and all after it.
  function WokenFrom(s: State, i: nat, k: nat): State
    requires Shape(s) && i < |s.pc|
  {
    s.(spin := None, pc := s.pc[i := Idle], run := Woken(s.run, s.chan, i, k))
  }

  ghost predicate AtWakeup(s: State, i: nat, k: nat) {
    Shape(s) && i < |s.pc| && s.pc[i] == Waking(k) && k <= |s.pc| && s.spin == Some(i) && PlocksFree(s, i)
  }

  // One round of the loop.
  lemma WakesOne(s: State, i: nat, k: nat) returns (t: State)
    requires AtWakeup(s, i, k) && k < |s.pc|
    ensures AtWakeup(t, i, k + 1) && |t.pc| == |s.pc| && WokenFrom(t, i, k + 1) == WokenFrom(s, i, k)
    ensures CanRun(s, i)
    ensures if k == i then Advance(s, i) == t else CanRun(Advance(s, i), i) && Advance(Advance(s, i), i) == t
  {
    if k == i {
      t := Advance(s, i);
    } else {
      var u := Advance(s, i);
      t := Advance(u, i);
      assert t.plock == s.plock;
    }
    assert Woken(t.run, t.chan, i, k + 1) == Woken(s.run, s.chan, i, k);
    assert t.pc[i := Idle] == s.pc[i := Idle];
  }

  lemma {:induction false} WakesFrom(s: State, i: nat, k: nat) returns (m: nat)
    requires AtWakeup(s, i, k)
    ensures Leads(s, i, m, WokenFrom(s, i, k))
    decreases |s.pc| - k
  {
    if k == |s.pc| {
      assert Advance(s, i) == WokenFrom(s, i, k);
      m := 1;
    } else {
      var t := WakesOne(s, i, k);
      hide Advance, CanRun, WokenFrom;
      m := WakesFrom(t, i, k + 1);
      if k != i {
        assert Leads(Advance(s, i), i, m + 1, WokenFrom(s, i, k));
        m := m + 1;
      }
      m := m + 1;
    }
  }

  // releasesleep frees the lock and makes every process that sleeps on it runnable.
  lemma SoloRelease(s: State, i: nat) returns (m: nat)
    requires Inv(s) && i < |s.pc| && s.pc[i].Holding? && s.spin.None? && PlocksFree(s, i)
    ensures Leads(s, i, m, s.(locked := false, pc := s.pc[i := Idle], run := Woken(s.run, s.chan, i, 0)))
  {
    var s1 := s.(pc := s.pc[i := RelSpin]);
    var s2 := s.(pc := s.pc[i := RelClear], spin := Some(i));
    var s3 := s2.(pc := s.pc[i := Waking(0)], locked := false);
    assert Advance(s, i) == s1 && Advance(s1, i) == s2 && Advance(s2, i) == s3;
    m := WakesFrom(s3, i, 0);
    assert s3.pc[i := Idle] == s.pc[i := Idle];
    m := m + 3;
  }

  // The end of sleep, with lk->lk released.
  lemma FallsAsleep(s: State, i: nat)
    requires Shape(s) && i < |s.pc| && s.pc[i].SetChan?
    ensures Leads(s, i, 3, s.(pc := s.pc[i := Asleep], run := s.run[i := Sleeping], chan := s.chan[i := true], plock := s.plock[i := None]))
  {
    var s1 := s.(pc := s.pc[i := SetState], chan := s.chan[i := true]);
    var s2 := s1.(pc := s.pc[i := Switch], run := s.run[i := Sleeping]);
    var s3 := s2.(pc := s.pc[i := Asleep], plock := s.plock[i := None]);
    assert Advance(s, i) == s1 && Advance(s1, i) == s2 && Advance(s2, i) == s3;
    assert Leads(s2, i, 1, s3) && Leads(s1, i, 2, s3);
  }

  // A process that finds the lock taken goes to sleep, without lk->lk and without its own lock.
  lemma SoloSleep(s: State, i: nat)
    requires Inv(s) && i < |s.pc| && s.pc[i].Idle? && s.locked && s.spin.None? && s.plock[i].None?
    ensures Leads(s, i, 8, s.(pc := s.pc[i := Asleep], run := s.run[i := Sleeping], chan := s.chan[i := true]))
  {
    var s1 := s.(pc := s.pc[i := AcqSpin]);
    var s2 := s.(pc := s.pc[i := Test], spin := Some(i));
    var s3 := s2.(pc := s.pc[i := GrabProc]);
    var s4 := s3.(pc := s.pc[i := DropSpin], plock := s.plock[i := Some(i)]);
    var s5 := s4.(pc := s.pc[i := SetChan], spin := None);
    var s8 := s.(pc := s.pc[i := Asleep], run := s.run[i := Sleeping], chan := s.chan[i := true]);
    assert Leads(s5, i, 3, s8) by {
      FallsAsleep(s5, i);
      assert s5.plock[i := None] == s.plock;
    }
    hide Inv;
    assert Advance(s, i) == s1 && Advance(s1, i) == s2 && Advance(s2, i) == s3;
    assert Advance(s3, i) == s4 && Advance(s4, i) == s5;
    assert Leads(s3, i, 5, s8) by {
      assert Leads(s4, i, 4, s8);
    }
    assert Leads(s1, i, 7, s8) by {
      assert Leads(s2, i, 6, s8);
    }
  }
}
