/**
 fork, exit, wait and kill (kernel/proc.c) over the process table, as a state machine.

 A step is what a process does between two points where another could interfere: everything about parents
 happens under wait_lock.  sleep(p, &wait_lock) is one step, as module SleepLock justifies.  Slot 0 is init.
 */
module ExitWait {
  import opened Collections

  // Used: allocated by a fork that has not yet finished.
  datatype Status = Unused | Used(maker: nat) | Live | Zombie

  datatype Pc =
    | Normal
    | ForkNew(np: nat)              // fork has allocated the child
    | ForkReady(np: nat)            // and set its parent
    | Reparenting(k: nat)           // exit: reparent's loop is at slot k
    | WakingParent                  // wakeup(p->parent)
    | Exiting                       // p->state = ZOMBIE; release(&wait_lock)
    | Scanning(k: nat, kids: bool)  // wait: the loop over the table is at slot k
    | Sleepy                        // wait has seen live children and no kill, and is about to sleep
    | Waiting                       // in sleep(p, &wait_lock)

  datatype Proc = Proc(st: Status, pid: nat, parent: Option<nat>, pc: Pc, asleep: bool, killed: bool, xstate: int)

  datatype State = State(
    procs: seq<Proc>, waitLock: Option<nat>, nextpid: nat,
    exited: map<nat, int>,  // pids of processes that have become zombies, and their exit status
    reaped: seq<nat>,       // pids returned by wait, in order
    told: map<nat, int>)    // and the status copied out with each

  datatype Step =
    | Fork(p: nat, np: nat)          // allocproc
    | ForkFail(p: nat)               // uvmcopy fails: freeproc
    | ForkLink(p: nat)               // np->parent = p, under wait_lock
    | ForkRun(p: nat)                // np->state = RUNNABLE
    | Exit(p: nat)                   // acquire(&wait_lock)
    | Reparent(p: nat)               // one round of reparent
    | WakeParent(p: nat)
    | BecomeZombie(p: nat, status: int)
    | Wait(p: nat)                   // acquire(&wait_lock), at the start or after sleep
    | Scan(p: nat, copied: bool)     // one round of wait's loop; copied: copyout succeeds
    | Decide(p: nat)                 // the end of the loop: return -1, or go to sleep
    | Sleep(p: nat)                  // release(&wait_lock) and sleep, as one step
    | Kill(p: nat)

  function Set(s: State, i: nat, p: Proc): State
    requires i < |s.procs|
  {
    s.(procs := s.procs[i := p])
  }

  function Go(s: State, i: nat, pc: Pc): State
    requires i < |s.procs|
  {
    Set(s, i, s.procs[i].(pc := pc))
  }

  function WakeUp(s: State, i: nat): State
    requires i < |s.procs|
  {
    Set(s, i, s.procs[i].(asleep := false))
  }

  const FREED := Proc(Unused, 0, None, Normal, false, false, 0)

  // ----- steps -----

  predicate Enabled(s: State, step: Step) {
    && step.p < |s.procs| && s.procs[step.p].st.Live? && |s.procs| > 0
    && var pc := s.procs[step.p].pc;
       match step
       case Fork(p, np) => pc.Normal? && np < |s.procs| && s.procs[np].st.Unused?
       case ForkFail(p) => pc.ForkNew? && pc.np < |s.procs|
       case ForkLink(p) => pc.ForkNew? && pc.np < |s.procs| && s.waitLock.None?
       case ForkRun(p) => pc.ForkReady? && pc.np < |s.procs|
       case Exit(p) => pc.Normal? && s.waitLock.None? && p != 0  // the source panics for init
       case Reparent(p) => pc.Reparenting?
       case WakeParent(p) => pc.WakingParent? && (s.procs[p].parent.Some? ==> s.procs[p].parent.value < |s.procs|)
       case BecomeZombie(p, status) => pc.Exiting?
       case Wait(p) => (pc.Normal? || (pc.Waiting? && !s.procs[p].asleep)) && s.waitLock.None?
       case Scan(p, copied) => pc.Scanning? && pc.k < |s.procs|
       case Decide(p) => pc.Scanning? && pc.k >= |s.procs|
       case Sleep(p) => pc.Sleepy?
       case Kill(p) => true
  }

  function DoScan(s: State, p: nat, copied: bool): State
    requires p < |s.procs| && s.procs[p].pc.Scanning? && s.procs[p].pc.k < |s.procs|
  {
    var k := s.procs[p].pc.k;
    if s.procs[k].parent != Some(p) then Go(s, p, Scanning(k + 1, s.procs[p].pc.kids))
    else if !s.procs[k].st.Zombie? then Go(s, p, Scanning(k + 1, true))
    else if !copied then Go(s, p, Normal).(waitLock := None)
    else Go(Set(s, k, FREED), p, Normal).(waitLock := None, reaped := s.reaped + [s.procs[k].pid],
                                          told := s.told[s.procs[k].pid := s.procs[k].xstate])
  }

  function Next(s: State, step: Step): State
    requires Enabled(s, step)
  {
    var me := s.procs[step.p];
    match step
    case Fork(p, np) =>
      Go(Set(s, np, Proc(Used(p), s.nextpid, None, Normal, false, false, 0)), p, ForkNew(np)).(nextpid := s.nextpid + 1)
    case ForkFail(p) => Go(Set(s, me.pc.np, FREED), p, Normal)
    case ForkLink(p) => Go(Set(s, me.pc.np, s.procs[me.pc.np].(parent := Some(p))), p, ForkReady(me.pc.np))
    case ForkRun(p) => Go(Set(s, me.pc.np, s.procs[me.pc.np].(st := Live)), p, Normal)
    case Exit(p) => Go(s, p, Reparenting(0)).(waitLock := Some(p))
    case Reparent(p) =>
      if me.pc.k >= |s.procs| then Go(s, p, WakingParent)
      else if s.procs[me.pc.k].parent == Some(p) then
        Go(WakeUp(Set(s, me.pc.k, s.procs[me.pc.k].(parent := Some(0))), 0), p, Reparenting(me.pc.k + 1))
      else Go(s, p, Reparenting(me.pc.k + 1))
    case WakeParent(p) => Go(if me.parent.Some? then WakeUp(s, me.parent.value) else s, p, Exiting)
    case BecomeZombie(p, status) =>
      Set(s, p, me.(st := Zombie, pc := Normal, xstate := status)).(waitLock := None, exited := s.exited[me.pid := status])
    case Wait(p) => Go(s, p, Scanning(0, false)).(waitLock := Some(p))
    case Scan(p, copied) => DoScan(s, p, copied)
    case Decide(p) => if !me.pc.kids || me.killed then Go(s, p, Normal).(waitLock := None) else Go(s, p, Sleepy)
    case Sleep(p) => Set(s, p, me.(pc := Waiting, asleep := true)).(waitLock := None)
    case Kill(p) => Set(s, p, me.(killed := true, asleep := false))
  }

  // ----- the invariant -----

  predicate HoldsLock(pc: Pc) { pc.Reparenting? || pc.WakingParent? || pc.Exiting? || pc.Scanning? || pc.Sleepy? }

  // An exiting process has already given away the child in slot c.
  predicate Passed(pc: Pc, c: nat) {
    match pc
    case Reparenting(k) => c < k
    case WakingParent => true
    case Exiting => true
    case _ => false
  }

  // The parent of slot q is alive and still has it; it is not asleep once the child is about to become, or
  // is, a zombie, and its scan has not missed it.
  predicate ParentOk(s: State, q: nat)
    requires q < |s.procs|
  {
    var c := s.procs[q];
    c.parent.Some? ==>
      && c.parent.value < |s.procs| && c.parent.value != q
      && var p := s.procs[c.parent.value];
         && p.st.Live? && !Passed(p.pc, q)
         && (c.st.Zombie? || c.pc.Exiting? ==> !p.asleep)
         && (p.pc.Scanning? && q < p.pc.k ==> p.pc.kids && !c.st.Zombie?)
         && (p.pc.Sleepy? ==> !c.st.Zombie?)
  }

  predicate StatusOk(s: State, q: nat)
    requires q < |s.procs|
  {
    var c := s.procs[q];
    && (!c.st.Live? ==> c.pc.Normal?)
    && (c.st.Unused? ==> c.parent.None?)
    && (c.st.Live? || c.st.Zombie? ==> (c.parent.None? <==> q == 0))
    && (q == 0 ==> c.st.Live? && !c.pc.Reparenting? && !c.pc.WakingParent? && !c.pc.Exiting?)
    && (c.asleep ==> c.pc.Waiting?)
    && (s.waitLock == Some(q) <==> HoldsLock(c.pc))
  }

  // A child being made has one maker, and a maker one child.
  predicate ForkOk(s: State, q: nat)
    requires q < |s.procs|
  {
    var c := s.procs[q];
    && (c.st.Used? ==> && c.st.maker < |s.procs| && s.procs[c.st.maker].st.Live?
                       && (c.parent.None? ==> s.procs[c.st.maker].pc == ForkNew(q))
                       && (c.parent.Some? ==> s.procs[c.st.maker].pc == ForkReady(q) && c.parent == Some(c.st.maker)))
    && (c.pc.ForkNew? ==> c.pc.np < |s.procs| && s.procs[c.pc.np].st == Used(q) && s.procs[c.pc.np].parent.None?)
    && (c.pc.ForkReady? ==> c.pc.np < |s.procs| && s.procs[c.pc.np].st == Used(q) && s.procs[c.pc.np].parent == Some(q))
  }

  ghost predicate ProcOk(s: State, q: nat)
    requires q < |s.procs|
  {
    ParentOk(s, q) && StatusOk(s, q) && ForkOk(s, q)
  }

  ghost predicate TreeInv(s: State) {
    && |s.procs| > 0 && (s.waitLock.Some? ==> s.waitLock.value < |s.procs|)
    && (forall q {:trigger ProcOk(s, q)} :: 0 <= q < |s.procs| ==> ProcOk(s, q))
  }

  // ----- every step keeps the invariant -----

  predicate IsFork(pc: Pc) { pc.ForkNew? || pc.ForkReady? }

  // A process moves on by itself, and may take or release wait_lock or fall asleep.
  ghost predicate Moves(s: State, t: State, p: nat, pc: Pc, asleep: bool) {
    && p < |s.procs| && s.procs[p].st.Live? && !IsFork(s.procs[p].pc) && !IsFork(pc)
    && t.procs == s.procs[p := s.procs[p].(pc := pc, asleep := asleep)]
    && (HoldsLock(pc) && !HoldsLock(s.procs[p].pc) ==> s.waitLock.None?)
    && t.waitLock == (if HoldsLock(pc) then Some(p) else if HoldsLock(s.procs[p].pc) then None else s.waitLock)
    && (p == 0 ==> !pc.Reparenting? && !pc.WakingParent? && !pc.Exiting?)
    && (pc.Exiting? ==> s.procs[p].parent.Some? && s.procs[p].parent.value < |s.procs| && !s.procs[s.procs[p].parent.value].asleep)
    && (asleep ==> pc.Waiting?)
    && (forall c {:trigger ChildOk(s, c, p, pc, asleep)} :: 0 <= c < |s.procs| && s.procs[c].parent == Some(p) ==> ChildOk(s, c, p, pc, asleep))
  }

  // Nothing stands in the way of the move as far as one child is concerned.
  predicate ChildOk(s: State, c: nat, p: nat, pc: Pc, asleep: bool)
    requires c < |s.procs|
  {
    && !Passed(pc, c)
    && (asleep ==> !s.procs[c].st.Zombie? && !s.procs[c].pc.Exiting?)
    && (pc.Scanning? && c < pc.k ==> pc.kids && !s.procs[c].st.Zombie?)
    && (pc.Sleepy? ==> !s.procs[c].st.Zombie?)
  }

  lemma MovesParent(s: State, t: State, p: nat, pc: Pc, asleep: bool, q: nat)
    requires TreeInv(s) && Moves(s, t, p, pc, asleep) && q < |s.procs|
    ensures ParentOk(t, q)
  {
    assert ProcOk(s, p) && ProcOk(s, q);
    if s.procs[q].parent == Some(p) {
      assert ChildOk(s, q, p, pc, asleep);
    }
  }

  lemma MovesProc(s: State, t: State, p: nat, pc: Pc, asleep: bool, q: nat)
    requires TreeInv(s) && Moves(s, t, p, pc, asleep) && q < |s.procs|
    ensures ProcOk(t, q)
  {
    assert ProcOk(s, p) && ProcOk(s, q);
    MovesParent(s, t, p, pc, asleep, q);
  }

  lemma MovesKeepsInv(s: State, t: State, p: nat, pc: Pc, asleep: bool)
    requires TreeInv(s) && Moves(s, t, p, pc, asleep)
    ensures TreeInv(t)
  {
    forall q | 0 <= q < |t.procs| ensures ProcOk(t, q) {
      MovesProc(s, t, p, pc, asleep, q);
    }
  }

  lemma WakeUpKeepsInv(s: State, p: nat)
    requires TreeInv(s) && p < |s.procs|
    ensures TreeInv(WakeUp(s, p))
  {
    var t := WakeUp(s, p);
    forall q | 0 <= q < |t.procs| ensures ProcOk(t, q) {
      assert ProcOk(s, q) && ProcOk(s, p);
    }
  }

  // The child of an unfinished fork is nobody's parent.
  lemma NoChildren(s: State, p: nat, q: nat)
    requires TreeInv(s) && p < |s.procs| && q < |s.procs| && !s.procs[p].st.Live?
    ensures s.procs[q].parent != Some(p) && s.procs[q].st != Used(p)
  {
    assert ProcOk(s, q);
  }

  lemma ForkKeepsInv(s: State, p: nat, np: nat)
    requires TreeInv(s) && Enabled(s, Fork(p, np))
    ensures TreeInv(Next(s, Fork(p, np)))
  {
    var t := Next(s, Fork(p, np));
    assert ProcOk(s, p) && ProcOk(s, np);
    forall q | 0 <= q < |t.procs| ensures ProcOk(t, q) {
      assert ProcOk(s, q);
      NoChildren(s, np, q);
    }
  }

  lemma ForkFailProc(s: State, p: nat, q: nat)
    requires TreeInv(s) && Enabled(s, ForkFail(p)) && q < |s.procs|
    ensures q < |Next(s, ForkFail(p)).procs| && ProcOk(Next(s, ForkFail(p)), q)
  {
    assert ProcOk(s, p) && ProcOk(s, s.procs[p].pc.np) && ProcOk(s, q);
    NoChildren(s, s.procs[p].pc.np, q);
    hide TreeInv;
  }

  lemma ForkFailKeepsInv(s: State, p: nat)
    requires TreeInv(s) && Enabled(s, ForkFail(p))
    ensures TreeInv(Next(s, ForkFail(p)))
  {
    forall q | 0 <= q < |s.procs| ensures ProcOk(Next(s, ForkFail(p)), q) {
      ForkFailProc(s, p, q);
    }
  }

  lemma ForkLinkProc(s: State, p: nat, q: nat)
    requires TreeInv(s) && Enabled(s, ForkLink(p)) && q < |s.procs|
    ensures q < |Next(s, ForkLink(p)).procs| && ProcOk(Next(s, ForkLink(p)), q)
  {
    assert ProcOk(s, p) && ProcOk(s, s.procs[p].pc.np) && ProcOk(s, q);
    NoChildren(s, s.procs[p].pc.np, q);
    hide TreeInv;
  }

  lemma ForkLinkKeepsInv(s: State, p: nat)
    requires TreeInv(s) && Enabled(s, ForkLink(p))
    ensures TreeInv(Next(s, ForkLink(p)))
  {
    forall q | 0 <= q < |s.procs| ensures ProcOk(Next(s, ForkLink(p)), q) {
      ForkLinkProc(s, p, q);
    }
  }

  lemma ForkRunProc(s: State, p: nat, q: nat)
    requires TreeInv(s) && Enabled(s, ForkRun(p)) && q < |s.procs|
    ensures q < |Next(s, ForkRun(p)).procs| && ProcOk(Next(s, ForkRun(p)), q)
  {
    assert ProcOk(s, p) && ProcOk(s, s.procs[p].pc.np) && ProcOk(s, q);
    NoChildren(s, s.procs[p].pc.np, q);
    hide TreeInv;
  }

  lemma ForkRunKeepsInv(s: State, p: nat)
    requires TreeInv(s) && Enabled(s, ForkRun(p))
    ensures TreeInv(Next(s, ForkRun(p)))
  {
    forall q | 0 <= q < |s.procs| ensures ProcOk(Next(s, ForkRun(p)), q) {
      ForkRunProc(s, p, q);
    }
  }

  // A child is handed to init, which is woken.
  lemma HandOver(s: State, p: nat, c: nat)
    requires TreeInv(s) && p < |s.procs| && c < |s.procs| && s.procs[c].parent == Some(p) && s.procs[p].pc == Reparenting(c)
    ensures TreeInv(WakeUp(Set(s, c, s.procs[c].(parent := Some(0))), 0))
  {
    var t := WakeUp(Set(s, c, s.procs[c].(parent := Some(0))), 0);
    assert ProcOk(s, p) && ProcOk(s, c) && ProcOk(s, 0);
    forall q | 0 <= q < |t.procs| ensures ProcOk(t, q) {
      assert ProcOk(s, q);
    }
  }

  lemma ReparentKeepsInv(s: State, p: nat)
    requires TreeInv(s) && Enabled(s, Reparent(p))
    ensures TreeInv(Next(s, Reparent(p)))
  {
    var k, t := s.procs[p].pc.k, Next(s, Reparent(p));
    assert ProcOk(s, p);
    if k < |s.procs| && s.procs[k].parent == Some(p) {
      assert ProcOk(s, k);
      HandOver(s, p, k);
      var u := WakeUp(Set(s, k, s.procs[k].(parent := Some(0))), 0);
      GivesAway(u, p, k, Reparenting(k + 1));
      MovesKeepsInv(u, t, p, Reparenting(k + 1), u.procs[p].asleep);
    } else {
      var pc := if k >= |s.procs| then WakingParent else Reparenting(k + 1);
      GivesAway(s, p, k, pc);
      MovesKeepsInv(s, t, p, pc, s.procs[p].asleep);
    }
  }

  lemma GivesAway(s: State, p: nat, k: nat, pc: Pc)
    requires TreeInv(s) && p < |s.procs| && s.procs[p].pc == Reparenting(k) && !s.procs[p].asleep
    requires pc == if k >= |s.procs| then WakingParent else Reparenting(k + 1)
    requires k < |s.procs| ==> s.procs[k].parent != Some(p)
    ensures forall c {:trigger ChildOk(s, c, p, pc, false)} ::
              0 <= c < |s.procs| && s.procs[c].parent == Some(p) ==> ChildOk(s, c, p, pc, false)
  {
    forall c | 0 <= c < |s.procs| && s.procs[c].parent == Some(p) ensures ChildOk(s, c, p, pc, false) {
      assert ProcOk(s, c);
    }
  }

  lemma WakeParentKeepsInv(s: State, p: nat)
    requires TreeInv(s) && Enabled(s, WakeParent(p))
    ensures TreeInv(Next(s, WakeParent(p)))
  {
    assert ProcOk(s, p);
    var u := WakeUp(s, s.procs[p].parent.value);
    WakeUpKeepsInv(s, s.procs[p].parent.value);
    forall c | 0 <= c < |u.procs| ensures u.procs[c].parent != Some(p) {
      assert ProcOk(u, c);
    }
    MovesKeepsInv(u, Next(s, WakeParent(p)), p, Exiting, false);
  }

  lemma BecomeZombieKeepsInv(s: State, p: nat, status: int)
    requires TreeInv(s) && Enabled(s, BecomeZombie(p, status))
    ensures TreeInv(Next(s, BecomeZombie(p, status)))
  {
    var t := Next(s, BecomeZombie(p, status));
    assert ProcOk(s, p);
    assert ProcOk(s, s.procs[p].parent.value);
    forall q | 0 <= q < |t.procs| ensures ProcOk(t, q) {
      assert ProcOk(s, q);
    }
  }

  lemma ReapProc(s: State, p: nat, q: nat)
    requires TreeInv(s) && Enabled(s, Scan(p, true)) && q < |s.procs|
    requires s.procs[s.procs[p].pc.k].parent == Some(p) && s.procs[s.procs[p].pc.k].st.Zombie?
    ensures q < |Next(s, Scan(p, true)).procs| && ProcOk(Next(s, Scan(p, true)), q)
  {
    assert ProcOk(s, p) && ProcOk(s, s.procs[p].pc.k) && ProcOk(s, q);
    NoChildren(s, s.procs[p].pc.k, q);
    hide TreeInv;
  }

  // wait frees the child it has found.
  lemma ReapKeepsInv(s: State, p: nat)
    requires TreeInv(s) && Enabled(s, Scan(p, true))
    requires s.procs[s.procs[p].pc.k].parent == Some(p) && s.procs[s.procs[p].pc.k].st.Zombie?
    ensures TreeInv(Next(s, Scan(p, true)))
  {
    forall q | 0 <= q < |s.procs| ensures ProcOk(Next(s, Scan(p, true)), q) {
      ReapProc(s, p, q);
    }
  }

  lemma ScanKeepsInv(s: State, p: nat, copied: bool)
    requires TreeInv(s) && Enabled(s, Scan(p, copied))
    ensures TreeInv(Next(s, Scan(p, copied)))
  {
    var k := s.procs[p].pc.k;
    assert ProcOk(s, p) && ProcOk(s, k);
    var hit := s.procs[k].parent == Some(p) && s.procs[k].st.Zombie?;
    if hit && copied {
      ReapKeepsInv(s, p);
    } else {
      var pc := if hit then Normal else Scanning(k + 1, s.procs[p].pc.kids || s.procs[k].parent == Some(p));
      forall c | 0 <= c < |s.procs| && s.procs[c].parent == Some(p) ensures ChildOk(s, c, p, pc, false) {
        assert ProcOk(s, c);
      }
      MovesKeepsInv(s, Next(s, Scan(p, copied)), p, pc, false);
    }
  }

  lemma DecideKeepsInv(s: State, p: nat)
    requires TreeInv(s) && Enabled(s, Decide(p))
    ensures TreeInv(Next(s, Decide(p)))
  {
    assert ProcOk(s, p);
    var pc := if !s.procs[p].pc.kids || s.procs[p].killed then Normal else Sleepy;
    forall c | 0 <= c < |s.procs| && s.procs[c].parent == Some(p) ensures ChildOk(s, c, p, pc, false) {
      assert ProcOk(s, c);
    }
    MovesKeepsInv(s, Next(s, Decide(p)), p, pc, false);
  }

  // No child can have begun to exit meanwhile, since wait_lock is held.
  lemma SleepKeepsInv(s: State, p: nat)
    requires TreeInv(s) && Enabled(s, Sleep(p))
    ensures TreeInv(Next(s, Sleep(p)))
  {
    assert ProcOk(s, p);
    forall c | 0 <= c < |s.procs| && s.procs[c].parent == Some(p) ensures ChildOk(s, c, p, Waiting, true) {
      assert ProcOk(s, c);
    }
    MovesKeepsInv(s, Next(s, Sleep(p)), p, Waiting, true);
  }

  // Whether a process has been killed matters to nobody else.
  lemma KillKeepsInv(s: State, p: nat)
    requires TreeInv(s) && Enabled(s, Kill(p))
    ensures TreeInv(Next(s, Kill(p)))
  {
    var t := Next(s, Kill(p));
    forall q | 0 <= q < |t.procs| ensures ProcOk(t, q) {
      assert ProcOk(s, q) && ProcOk(s, p);
    }
  }

  lemma EnterKeepsInv(s: State, p: nat, pc: Pc)
    requires TreeInv(s) && p < |s.procs| && s.procs[p].st.Live? && s.waitLock.None? && !s.procs[p].asleep
    requires s.procs[p].pc.Normal? || s.procs[p].pc.Waiting?
    requires pc == Scanning(0, false) || (pc == Reparenting(0) && p != 0)
    ensures TreeInv(Go(s, p, pc).(waitLock := Some(p)))
  {
    assert ProcOk(s, p);
    forall c | 0 <= c < |s.procs| && s.procs[c].parent == Some(p) ensures ChildOk(s, c, p, pc, false) {
    }
    MovesKeepsInv(s, Go(s, p, pc).(waitLock := Some(p)), p, pc, false);
  }

  lemma StepKeepsTree(s: State, step: Step)
    requires TreeInv(s) && Enabled(s, step)
    ensures TreeInv(Next(s, step))
  {
    assert ProcOk(s, step.p);
    match step
    case Fork(p, np) => ForkKeepsInv(s, p, np);
    case ForkFail(p) => ForkFailKeepsInv(s, p);
    case ForkLink(p) => ForkLinkKeepsInv(s, p);
    case ForkRun(p) => ForkRunKeepsInv(s, p);
    case Exit(p) => EnterKeepsInv(s, p, Reparenting(0));
    case Reparent(p) => ReparentKeepsInv(s, p);
    case WakeParent(p) => WakeParentKeepsInv(s, p);
    case BecomeZombie(p, status) => BecomeZombieKeepsInv(s, p, status);
    case Wait(p) => EnterKeepsInv(s, p, Scanning(0, false));
    case Scan(p, copied) => ScanKeepsInv(s, p, copied);
    case Decide(p) => DecideKeepsInv(s, p);
    case Sleep(p) => SleepKeepsInv(s, p);
    case Kill(p) => KillKeepsInv(s, p);
  }

  // ----- pids -----

  // Pids in use are distinct, and a zombie is a process that has exited and has not been reaped.
  ghost predicate PidOk(s: State, q: nat)
    requires q < |s.procs|
  {
    var c := s.procs[q];
    && (!c.st.Unused? ==> c.pid < s.nextpid && c.pid !in s.reaped)
    && (!c.st.Unused? ==> (c.st.Zombie? <==> c.pid in s.exited))
    && (c.st.Zombie? ==> c.pid in s.exited && s.exited[c.pid] == c.xstate)
  }

  ghost predicate Distinct(s: State) {
    forall q, r :: 0 <= q < r < |s.procs| && !s.procs[q].st.Unused? && !s.procs[r].st.Unused? ==> s.procs[q].pid != s.procs[r].pid
  }

  // Every process that has exited is still a zombie, or has been reaped.
  ghost predicate Accounted(s: State, x: nat) {
    x in s.reaped || exists q :: 0 <= q < |s.procs| && s.procs[q].st.Zombie? && s.procs[q].pid == x
  }

  ghost predicate PidInv(s: State) {
    && (forall q {:trigger PidOk(s, q)} :: 0 <= q < |s.procs| ==> PidOk(s, q))
    && Distinct(s)
    && (forall x {:trigger Accounted(s, x)} :: x in s.exited ==> x < s.nextpid && Accounted(s, x))
    && (forall x :: x in s.reaped ==> x in s.exited)
    && (forall x :: x in s.told ==> x in s.reaped && s.told[x] == s.exited[x])
    && (forall i, j :: 0 <= i < j < |s.reaped| ==> s.reaped[i] != s.reaped[j])
  }

  // Most steps change neither a pid nor which processes are unused or zombies.
  ghost predicate SamePids(s: State, t: State) {
    && |t.procs| == |s.procs| && t.nextpid == s.nextpid && t.exited == s.exited && t.reaped == s.reaped && t.told == s.told
    && forall q :: 0 <= q < |s.procs| ==> SamePid(s.procs[q], t.procs[q])
  }

  predicate SamePid(a: Proc, b: Proc) {
    a.pid == b.pid && (a.st.Unused? <==> b.st.Unused?) && (a.st.Zombie? <==> b.st.Zombie?) && a.xstate == b.xstate
  }

  lemma SamePidsKeepsInv(s: State, t: State)
    requires PidInv(s) && SamePids(s, t)
    ensures PidInv(t)
  {
    forall q | 0 <= q < |t.procs| ensures PidOk(t, q) {
      assert PidOk(s, q);
    }
    forall x | x in t.exited ensures x < t.nextpid && Accounted(t, x) {
      assert Accounted(s, x);
    }
  }

  lemma ForkPids(s: State, p: nat, np: nat)
    requires PidInv(s) && Enabled(s, Fork(p, np))
    ensures PidInv(Next(s, Fork(p, np)))
  {
    var t := Next(s, Fork(p, np));
    forall q | 0 <= q < |t.procs| ensures PidOk(t, q) {
      assert PidOk(s, q);
      assert s.nextpid in s.exited ==> Accounted(s, s.nextpid);
    }
    forall q, r | 0 <= q < r < |t.procs| && !t.procs[q].st.Unused? && !t.procs[r].st.Unused?
      ensures t.procs[q].pid != t.procs[r].pid
    {
      assert PidOk(s, q) && PidOk(s, r);
    }
    forall x | x in t.exited ensures x < t.nextpid && Accounted(t, x) {
      assert Accounted(s, x);
      if q :| 0 <= q < |s.procs| && s.procs[q].st.Zombie? && s.procs[q].pid == x {
        assert t.procs[q].st.Zombie? && t.procs[q].pid == x;
      }
    }
  }

  lemma ForkFailPids(s: State, p: nat)
    requires PidInv(s) && TreeInv(s) && Enabled(s, ForkFail(p))
    ensures PidInv(Next(s, ForkFail(p)))
  {
    var t := Next(s, ForkFail(p));
    assert ProcOk(s, p);
    forall q | 0 <= q < |t.procs| ensures PidOk(t, q) {
      assert PidOk(s, q);
    }
    forall x | x in t.exited ensures x < t.nextpid && Accounted(t, x) {
      assert Accounted(s, x);
      if q :| 0 <= q < |s.procs| && s.procs[q].st.Zombie? && s.procs[q].pid == x {
        assert t.procs[q].st.Zombie? && t.procs[q].pid == x;
      }
    }
  }

  lemma BecomeZombiePids(s: State, p: nat, status: int)
    requires PidInv(s) && Enabled(s, BecomeZombie(p, status))
    ensures PidInv(Next(s, BecomeZombie(p, status)))
  {
    var t := Next(s, BecomeZombie(p, status));
    forall q | 0 <= q < |t.procs| ensures PidOk(t, q) {
      assert PidOk(s, q) && PidOk(s, p);
    }
    assert PidOk(s, p);
    forall x | x in t.exited ensures x < t.nextpid && Accounted(t, x) {
      if x == s.procs[p].pid {
        assert t.procs[p].st.Zombie? && t.procs[p].pid == x;
      } else {
        assert Accounted(s, x);
        if q :| 0 <= q < |s.procs| && s.procs[q].st.Zombie? && s.procs[q].pid == x {
          assert t.procs[q].st.Zombie? && t.procs[q].pid == x;
        }
      }
    }
  }

  lemma ReapPids(s: State, p: nat)
    requires PidInv(s) && Enabled(s, Scan(p, true)) && s.procs[p].pc.k != p
    requires s.procs[s.procs[p].pc.k].parent == Some(p) && s.procs[s.procs[p].pc.k].st.Zombie?
    ensures PidInv(Next(s, Scan(p, true)))
  {
    var k, t := s.procs[p].pc.k, Next(s, Scan(p, true));
    assert PidOk(s, k);
    forall q | 0 <= q < |t.procs| ensures PidOk(t, q) {
      assert PidOk(s, q);
    }
    forall x | x in t.exited ensures x < t.nextpid && Accounted(t, x) {
      assert Accounted(s, x);
      if q :| 0 <= q < |s.procs| && s.procs[q].st.Zombie? && s.procs[q].pid == x {
        if q == k {
          assert t.reaped[|s.reaped|] == x;
        } else {
          assert t.procs[q].st.Zombie? && t.procs[q].pid == x;
        }
      }
    }
  }

  lemma StepSamePids(s: State, step: Step)
    requires TreeInv(s) && Enabled(s, step) && !step.Fork? && !step.ForkFail? && !step.BecomeZombie?
    requires step.Scan? && step.copied ==>
               var k := s.procs[step.p].pc.k; !(s.procs[k].parent == Some(step.p) && s.procs[k].st.Zombie?)
    ensures SamePids(s, Next(s, step))
  {
    assert ProcOk(s, step.p);
    hide TreeInv;
  }

  ghost predicate Inv(s: State) { TreeInv(s) && PidInv(s) }

  lemma StepKeepsInv(s: State, step: Step)
    requires Inv(s) && Enabled(s, step)
    ensures Inv(Next(s, step))
  {
    StepKeepsTree(s, step);
    assert ProcOk(s, step.p);
    match step
    case Fork(p, np) => ForkPids(s, p, np);
    case ForkFail(p) => ForkFailPids(s, p);
    case BecomeZombie(p, status) => BecomeZombiePids(s, p, status);
    case Scan(p, copied) =>
      var k := s.procs[p].pc.k;
      assert ProcOk(s, k);
      if s.procs[k].parent == Some(p) && s.procs[k].st.Zombie? && copied {
        ReapPids(s, p);
      } else {
        StepSamePids(s, step);
        SamePidsKeepsInv(s, Next(s, step));
      }
    case _ =>
      StepSamePids(s, step);
      SamePidsKeepsInv(s, Next(s, step));
  }

  // ----- runs -----

  // userinit: init alone, with pid 1.
  function Init(n: nat): State
    requires n > 0
  {
    State(seq(n, i => if i == 0 then Proc(Live, 1, None, Normal, false, false, 0) else FREED), None, 2, map[], [], map[])
  }

  lemma InitInv(n: nat)
    requires n > 0
    ensures Inv(Init(n))
  {
    forall q | 0 <= q < n ensures ProcOk(Init(n), q) && PidOk(Init(n), q) {
    }
  }

  ghost predicate Follows(s: State, step: Step, t: State) { Enabled(s, step) && t == Next(s, step) }

  ghost predicate IsRun(n: nat, states: seq<State>, steps: seq<Step>) {
    && n > 0 && |states| == |steps| + 1 && states[0] == Init(n)
    && (forall i {:trigger steps[i]} :: 0 <= i < |steps| ==> Follows(states[i], steps[i], states[i + 1]))
  }

  lemma {:induction false} RunInv(n: nat, states: seq<State>, steps: seq<Step>, i: nat)
    requires IsRun(n, states, steps) && i < |states|
    ensures Inv(states[i])
  {
    if i == 0 {
      InitInv(n);
    } else {
      RunInv(n, states, steps, i - 1);
      assert Follows(states[i - 1], steps[i - 1], states[i]);
      StepKeepsInv(states[i - 1], steps[i - 1]);
    }
  }

  // No process has a zombie or unused parent, and every process but init has a parent.
  lemma ParentsLive(n: nat, states: seq<State>, steps: seq<Step>, i: nat, q: nat)
    requires IsRun(n, states, steps) && i < |states| && 0 < q < |states[i].procs|
    ensures var c := states[i].procs[q];
            && (c.parent.Some? ==> c.parent.value < |states[i].procs| && c.parent.value != q && states[i].procs[c.parent.value].st.Live?)
            && (c.st.Live? || c.st.Zombie? ==> c.parent.Some?)
  {
    RunInv(n, states, steps, i);
    assert ProcOk(states[i], q);
  }

  // A process asleep in wait has no zombie child: no exit goes unnoticed.
  lemma NoLostExit(n: nat, states: seq<State>, steps: seq<Step>, i: nat, p: nat, q: nat)
    requires IsRun(n, states, steps) && i < |states| && p < |states[i].procs| && q < |states[i].procs|
    requires states[i].procs[p].asleep && states[i].procs[q].parent == Some(p)
    ensures !states[i].procs[q].st.Zombie?
  {
    RunInv(n, states, steps, i);
    assert ProcOk(states[i], q);
  }

  // wait gives up, unless the caller has been killed, only if it has no children.
  lemma NoChildrenLeft(n: nat, states: seq<State>, steps: seq<Step>, i: nat, p: nat, q: nat)
    requires IsRun(n, states, steps) && i < |steps| && steps[i] == Decide(p) && q < |states[i].procs|
    requires p < |states[i].procs| == |states[i + 1].procs| && !states[i].procs[p].killed && states[i + 1].procs[p].pc.Normal?
    ensures states[i].procs[q].parent != Some(p)
  {
    RunInv(n, states, steps, i);
    assert Follows(states[i], steps[i], states[i + 1]);
    assert ProcOk(states[i], q);
  }

  // A pid is returned by wait at most once, and only after its process has exited; a process that has exited
  // and has not been reaped is a zombie child of a live process.
  lemma ReapedOnce(n: nat, states: seq<State>, steps: seq<Step>, i: nat, x: nat)
    requires IsRun(n, states, steps) && i < |states|
    ensures forall j, k :: 0 <= j < k < |states[i].reaped| ==> states[i].reaped[j] != states[i].reaped[k]
    ensures x in states[i].reaped ==> x in states[i].exited
    ensures x in states[i].exited && x !in states[i].reaped ==> exists q :: IsWaitable(states[i], q, x)
  {
    RunInv(n, states, steps, i);
    var s := states[i];
    if x in s.exited && x !in s.reaped {
      assert Accounted(s, x);
      var q :| 0 <= q < |s.procs| && s.procs[q].st.Zombie? && s.procs[q].pid == x;
      assert ProcOk(s, q);
      assert IsWaitable(s, q, x);
    }
  }

  // Slot q is a zombie with this pid, and its parent is alive to wait for it.
  predicate IsWaitable(s: State, q: nat, pid: nat) {
    && q < |s.procs| && s.procs[q].st.Zombie? && s.procs[q].pid == pid
    && s.procs[q].parent.Some? && s.procs[q].parent.value < |s.procs| && s.procs[s.procs[q].parent.value].st.Live?
  }

  // The step at i is a wait that finds the zombie in slot q.
  predicate Finds(s: State, step: Step, q: nat) {
    && step.Scan? && step.copied && step.p < |s.procs| && q < |s.procs|
    && s.procs[step.p].pc.Scanning? && s.procs[step.p].pc.k == q
    && s.procs[q].parent == Some(step.p) && s.procs[q].st.Zombie?
  }

  lemma StepFrees(s: State, step: Step, q: nat)
    requires TreeInv(s) && Enabled(s, step) && q < |s.procs| && (s.procs[q].st.Live? || s.procs[q].st.Zombie?)
    requires q < |Next(s, step).procs| && Next(s, step).procs[q].st.Unused?
    ensures Finds(s, step, q)
  {
    assert ProcOk(s, step.p);
    hide TreeInv;
    if !Finds(s, step, q) && !step.Fork? && !step.ForkFail? && !step.BecomeZombie? && !step.Scan? {
      StepSamePids(s, step);
    }
  }

  // Only a wait by the parent frees a process that has run; it returns the pid of the process it frees, with
  // the status that process gave to exit.
  lemma FreedByParent(n: nat, states: seq<State>, steps: seq<Step>, i: nat, q: nat)
    requires IsRun(n, states, steps) && i < |steps| && q < |states[i].procs| == |states[i + 1].procs|
    requires states[i].procs[q].st.Live? || states[i].procs[q].st.Zombie?
    requires states[i + 1].procs[q].st.Unused?
    ensures states[i].procs[q].st.Zombie? && steps[i].Scan? && states[i].procs[q].parent == Some(steps[i].p)
    ensures states[i + 1].reaped == states[i].reaped + [states[i].procs[q].pid]
  {
    RunInv(n, states, steps, i);
    assert Follows(states[i], steps[i], states[i + 1]);
    StepFrees(states[i], steps[i], q);
  }

  // ----- exit status -----

  // The step is the end of an exit(status) by the process with this pid.
  predicate ExitsWith(s: State, step: Step, pid: nat, status: int) {
    step.BecomeZombie? && step.p < |s.procs| && s.procs[step.p].pid == pid && step.status == status
  }

  lemma StepExited(s: State, step: Step, x: nat)
    requires Enabled(s, step) && x in Next(s, step).exited
    ensures (x in s.exited && s.exited[x] == Next(s, step).exited[x]) || ExitsWith(s, step, x, Next(s, step).exited[x])
  {
  }

  lemma {:induction false} ExitedBy(n: nat, states: seq<State>, steps: seq<Step>, i: nat, x: nat) returns (k: nat)
    requires IsRun(n, states, steps) && i < |states| && x in states[i].exited
    ensures k < i && ExitsWith(states[k], steps[k], x, states[i].exited[x])
  {
    assert i > 0;
    var s, step := states[i - 1], steps[i - 1];
    assert Follows(s, step, states[i]);
    StepExited(s, step, x);
    if x in s.exited && s.exited[x] == states[i].exited[x] {
      k := ExitedBy(n, states, steps, i - 1, x);
    } else {
      k := i - 1;
    }
  }

  // The status that wait copies out for a pid is the one that process gave to exit.
  lemma ToldStatus(n: nat, states: seq<State>, steps: seq<Step>, i: nat, x: nat) returns (k: nat)
    requires IsRun(n, states, steps) && i < |states| && x in states[i].told
    ensures x in states[i].reaped && k < i && ExitsWith(states[k], steps[k], x, states[i].told[x])
  {
    RunInv(n, states, steps, i);
    k := ExitedBy(n, states, steps, i, x);
  }

  // ----- the children of a process that exits -----

  predicate InExit(pc: Pc) { pc.Reparenting? || pc.WakingParent? || pc.Exiting? }

  // Between s and t, process p has given to init the children it has passed, and no other parent has changed.
  ghost predicate GivenAway(s: State, t: State, p: nat) {
    && p < |s.procs| == |t.procs| && t.procs[p].st.Live? && t.procs[p].pid == s.procs[p].pid && InExit(t.procs[p].pc)
    && forall c {:trigger t.procs[c]} :: 0 <= c < |s.procs| ==>
         && t.procs[c].parent == (if s.procs[c].parent == Some(p) && Passed(t.procs[p].pc, c) then Some(0) else s.procs[c].parent)
         && (s.procs[c].parent.Some? ==> t.procs[c].pid == s.procs[c].pid)
  }

  // While p holds wait_lock, the other steps leave every parent as it is, and every child that has one.
  lemma OthersLeaveParents(s: State, step: Step, p: nat, c: nat)
    requires TreeInv(s) && Enabled(s, step) && p < |s.procs| && c < |s.procs| && InExit(s.procs[p].pc) && step.p != p
    ensures var t := Next(s, step);
            && |t.procs| == |s.procs| && t.procs[c].parent == s.procs[c].parent
            && (s.procs[c].parent.Some? ==> t.procs[c].pid == s.procs[c].pid)
            && t.procs[p].pc == s.procs[p].pc && t.procs[p].pid == s.procs[p].pid && t.procs[p].st == s.procs[p].st
  {
    assert ProcOk(s, step.p) && ProcOk(s, p);
    if step.Fork? {
      assert ProcOk(s, step.np);
    } else if IsFork(s.procs[step.p].pc) {
      assert ProcOk(s, s.procs[step.p].pc.np);
    }
  }

  lemma ReparentGivesAway(s: State, t: State, p: nat)
    requires TreeInv(t) && GivenAway(s, t, p) && Enabled(t, Reparent(p))
    ensures GivenAway(s, Next(t, Reparent(p)), p)
  {
    var k := t.procs[p].pc.k;
    assert ProcOk(t, p);
    hide TreeInv;
    if k < |t.procs| && t.procs[k].parent == Some(p) {
      assert k != p ==> Next(t, Reparent(p)).procs[k].parent == Some(0);
    }
  }

  lemma StepGivesAway(s: State, t: State, step: Step, p: nat)
    requires TreeInv(t) && GivenAway(s, t, p) && Enabled(t, step) && !(step.BecomeZombie? && step.p == p)
    ensures GivenAway(s, Next(t, step), p)
  {
    var u := Next(t, step);
    assert ProcOk(t, p);
    hide TreeInv, ProcOk;
    if step == Reparent(p) {
      ReparentGivesAway(s, t, p);
    } else if step.p == p {
      assert step.WakeParent? || step.Kill?;
    } else {
      hide Next;
      OthersLeaveParents(t, step, p, p);
      forall c | 0 <= c < |s.procs|
        ensures u.procs[c].parent == t.procs[c].parent && (t.procs[c].parent.Some? ==> u.procs[c].pid == t.procs[c].pid)
      {
        OthersLeaveParents(t, step, p, c);
      }
    }
  }

  // An exit by p starts at i, and has not ended by j.
  ghost predicate ExitingFrom(steps: seq<Step>, i: nat, j: nat, p: nat) {
    && i < j <= |steps| && steps[i] == Exit(p)
    && forall k :: i < k < j ==> !(steps[k].BecomeZombie? && steps[k].p == p)
  }

  lemma {:induction false} RunGivesAway(n: nat, states: seq<State>, steps: seq<Step>, i: nat, j: nat, p: nat)
    requires IsRun(n, states, steps) && ExitingFrom(steps, i, j, p)
    ensures GivenAway(states[i], states[j], p)
  {
    RunInv(n, states, steps, j - 1);
    assert Follows(states[j - 1], steps[j - 1], states[j]);
    if j > i + 1 {
      RunGivesAway(n, states, steps, i, j - 1, p);
      StepGivesAway(states[i], states[j - 1], steps[j - 1], p);
    }
  }

  // When an exit ends, exactly the children its process had when it took wait_lock belong to init, and the
  // process is a zombie with the status it gave and the parent it had.
  lemma Adopted(n: nat, states: seq<State>, steps: seq<Step>, i: nat, j: nat, p: nat, c: nat)
    requires IsRun(n, states, steps) && ExitingFrom(steps, i, j, p)
    requires j < |steps| && steps[j].BecomeZombie? && steps[j].p == p && c < |states[i].procs|
    ensures p < |states[i].procs| == |states[j + 1].procs|
    ensures states[j + 1].procs[p].st.Zombie? && states[j + 1].procs[p].pid == states[i].procs[p].pid
    ensures states[j + 1].procs[p].xstate == steps[j].status
    ensures states[j + 1].procs[c].parent == if states[i].procs[c].parent == Some(p) then Some(0) else states[i].procs[c].parent
    ensures states[i].procs[c].parent.Some? ==> states[j + 1].procs[c].pid == states[i].procs[c].pid
  {
    RunGivesAway(n, states, steps, i, j, p);
    assert Follows(states[j], steps[j], states[j + 1]);
    assert states[j].procs[c].parent == states[j].procs[c].parent;
  }

  // ----- a wait that has been killed -----

  predicate Roused(c: Proc) { c.killed && !c.asleep && !c.pc.Sleepy? }

  lemma OwnRoused(s: State, step: Step)
    requires TreeInv(s) && Enabled(s, step) && Roused(s.procs[step.p])
    requires step.p < |Next(s, step).procs|
    ensures Next(s, step).procs[step.p].st.Live? ==> Roused(Next(s, step).procs[step.p])
  {
    assert ProcOk(s, step.p);
    hide TreeInv;
  }

  // Another process cannot put p to sleep, or move it.
  lemma OthersWake(s: State, step: Step, p: nat)
    requires Enabled(s, step) && p < |s.procs| && step.p != p && p < |Next(s, step).procs|
    requires step.Reparent? || step.WakeParent? || step.Scan?
    requires Next(s, step).procs[p].st.Live?
    ensures var c, r := s.procs[p], Next(s, step).procs[p]; r.killed == c.killed && r.pc == c.pc && (r.asleep ==> c.asleep)
  {
  }

  lemma OthersLeave(s: State, step: Step, p: nat)
    requires Enabled(s, step) && p < |s.procs| && step.p != p && p < |Next(s, step).procs|
    requires !step.Reparent? && !step.WakeParent? && !step.Scan?
    requires s.procs[p].st.Live? && (IsFork(s.procs[step.p].pc) ==> s.procs[step.p].pc.np != p)
    ensures Next(s, step).procs[p] == s.procs[p]
  {
  }

  lemma OthersRoused(s: State, step: Step, p: nat)
    requires TreeInv(s) && Enabled(s, step) && p < |s.procs| && step.p != p
    requires s.procs[p].st.Live? && Roused(s.procs[p])
    requires p < |Next(s, step).procs|
    ensures Next(s, step).procs[p].st.Live? ==> Roused(Next(s, step).procs[p])
  {
    assert ProcOk(s, step.p);
    hide Next, TreeInv;
    if step.Reparent? || step.WakeParent? || step.Scan? {
      if Next(s, step).procs[p].st.Live? {
        OthersWake(s, step, p);
      }
    } else {
      OthersLeave(s, step, p);
    }
  }

  lemma StepRoused(s: State, step: Step, p: nat)
    requires TreeInv(s) && Enabled(s, step) && p < |s.procs| && p < |Next(s, step).procs|
    requires s.procs[p].st.Live? && Roused(s.procs[p])
    ensures Next(s, step).procs[p].st.Live? ==> Roused(Next(s, step).procs[p])
  {
    hide TreeInv, Next, Enabled, Roused;
    if step.p == p {
      OwnRoused(s, step);
    } else {
      OthersRoused(s, step, p);
    }
  }

  lemma KillRouses(s: State, p: nat)
    requires Enabled(s, Kill(p)) && !s.procs[p].pc.Sleepy?
    ensures p < |Next(s, Kill(p)).procs| && Roused(Next(s, Kill(p)).procs[p])
  {
  }

  lemma RousedReturns(s: State, p: nat)
    requires Enabled(s, Decide(p)) && Roused(s.procs[p])
    ensures Next(s, Decide(p)) == Go(s, p, Normal).(waitLock := None)
  {
  }

  ghost predicate LiveThroughout(states: seq<State>, i: nat, j: nat, p: nat) {
    && i <= j < |states|
    && forall k {:trigger states[k]} :: i <= k <= j ==> p < |states[k].procs| && states[k].procs[p].st.Live?
  }

  // A kill that does not fall between wait's test and its sleep is noticed: the process does not sleep in
  // wait again, and the next time wait has scanned the table without finding a zombie it returns.
  lemma {:induction false} KillNoticed(n: nat, states: seq<State>, steps: seq<Step>, i: nat, j: nat, p: nat)
    requires IsRun(n, states, steps) && i < j && LiveThroughout(states, i, j, p)
    requires steps[i] == Kill(p) && !states[i].procs[p].pc.Sleepy?
    ensures Roused(states[j].procs[p])
    ensures j < |steps| && steps[j] == Decide(p) ==> states[j + 1] == Go(states[j], p, Normal).(waitLock := None)
  {
    hide TreeInv, PidInv, Next;
    RunInv(n, states, steps, j - 1);
    assert Follows(states[j - 1], steps[j - 1], states[j]);
    if j == i + 1 {
      KillRouses(states[i], p);
    } else {
      KillNoticed(n, states, steps, i, j - 1, p);
      StepRoused(states[j - 1], steps[j - 1], p);
    }
    if j < |steps| && steps[j] == Decide(p) {
      assert Follows(states[j], steps[j], states[j + 1]);
      RousedReturns(states[j], p);
    }
  }

  // ----- progress -----

  ghost predicate Leads(s: State, steps: seq<Step>, t: State)
    decreases |steps|
  {
    if steps == [] then s == t else Enabled(s, steps[0]) && Leads(Next(s, steps[0]), steps[1..], t)
  }

  lemma {:induction false} LeadsConcat(s: State, steps: seq<Step>, t: State, more: seq<Step>, u: State)
    requires Leads(s, steps, t) && Leads(t, more, u)
    ensures Leads(s, steps + more, u)
    decreases |steps|
  {
    if steps == [] {
      assert [] + more == more;
    } else {
      LeadsConcat(Next(s, steps[0]), steps[1..], t, more, u);
      assert (steps + more)[1..] == steps[1..] + more;
    }
  }

  lemma LeadsAppend(s: State, steps: seq<Step>, t: State, step: Step)
    requires Leads(s, steps, t) && Enabled(t, step)
    ensures Leads(s, steps + [step], Next(t, step))
  {
    assert [step][1..] == [];
    LeadsConcat(s, steps, t, [step], Next(t, step));
  }

  predicate IsZombieOf(s: State, c: nat, p: nat)
    requires c < |s.procs|
  {
    s.procs[c].parent == Some(p) && s.procs[c].st.Zombie?
  }

  // The zombie that a scan by p that has reached slot k finds.
  predicate FirstZombie(s: State, p: nat, k: nat, c: nat) {
    && k <= c < |s.procs| && IsZombieOf(s, c, p)
    && forall q :: k <= q < c ==> !IsZombieOf(s, q, p)
  }

  // Process p has returned from wait with the pid and the status of slot c, which is free again.
  function Reaped(s: State, p: nat, c: nat): State
    requires p < |s.procs| && c < |s.procs|
  {
    Go(Set(s, c, FREED), p, Normal).(waitLock := None, reaped := s.reaped + [s.procs[c].pid],
                                     told := s.told[s.procs[c].pid := s.procs[c].xstate])
  }

  lemma ScanPasses(s: State, p: nat, c: nat)
    requires p < |s.procs| && s.procs[p].st.Live? && s.procs[p].pc.Scanning?
    requires s.procs[p].pc.k < c && FirstZombie(s, p, s.procs[p].pc.k, c)
    ensures var k, t := s.procs[p].pc.k, Next(s, Scan(p, true));
            && p < |t.procs| && t.procs[p].st.Live? && t.procs[p].pc.Scanning? && t.procs[p].pc.k == k + 1
            && FirstZombie(t, p, k + 1, c) && Reaped(t, p, c) == Reaped(s, p, c)
  {
    var k, t := s.procs[p].pc.k, Next(s, Scan(p, true));
    assert !IsZombieOf(s, k, p);
    forall q | k + 1 <= q < c ensures !IsZombieOf(t, q, p) {
      assert !IsZombieOf(s, q, p);
    }
  }

  lemma {:induction false} ScanReaps(s: State, p: nat, c: nat) returns (steps: seq<Step>)
    requires p < |s.procs| && s.procs[p].st.Live? && s.procs[p].pc.Scanning? && FirstZombie(s, p, s.procs[p].pc.k, c)
    ensures Leads(s, steps, Reaped(s, p, c)) && |steps| == c - s.procs[p].pc.k + 1
    decreases c - s.procs[p].pc.k
  {
    if s.procs[p].pc.k == c {
      steps := [Scan(p, true)];
      assert steps[1..] == [];
    } else {
      ScanPasses(s, p, c);
      hide Next, Reaped, FirstZombie;
      var rest := ScanReaps(Next(s, Scan(p, true)), p, c);
      steps := [Scan(p, true)] + rest;
      assert steps[1..] == rest;
    }
  }

  // A process with a zombie child that finds wait_lock free can return from wait, by its own steps alone, with
  // the first zombie in the table.
  lemma WaitReaps(s: State, p: nat, c: nat) returns (steps: seq<Step>)
    requires TreeInv(s) && Enabled(s, Wait(p)) && FirstZombie(s, p, 0, c)
    ensures Leads(s, steps, Reaped(s, p, c)) && |steps| == c + 2
  {
    assert ProcOk(s, p) && ProcOk(s, c);
    var t := Next(s, Wait(p));
    forall q | 0 <= q < c ensures !IsZombieOf(t, q, p) {
      assert !IsZombieOf(s, q, p);
    }
    var rest := ScanReaps(t, p, c);
    assert Reaped(t, p, c) == Reaped(s, p, c);
    steps := [Wait(p)] + rest;
    assert steps[1..] == rest;
  }

  lemma {:induction false} ReparentEnds(s: State, t: State, p: nat, before: seq<Step>) returns (u: State, steps: seq<Step>)
    requires TreeInv(t) && GivenAway(s, t, p) && t.procs[p].pc.Reparenting? && Leads(s, before, t)
    ensures TreeInv(u) && GivenAway(s, u, p) && u.procs[p].pc.WakingParent? && Leads(s, steps, u)
    decreases |t.procs| - t.procs[p].pc.k
  {
    var v := Next(t, Reparent(p));
    StepKeepsTree(t, Reparent(p));
    ReparentGivesAway(s, t, p);
    LeadsAppend(s, before, t, Reparent(p));
    if t.procs[p].pc.k >= |t.procs| {
      u, steps := v, before + [Reparent(p)];
    } else {
      u, steps := ReparentEnds(s, v, p, before + [Reparent(p)]);
    }
  }

  lemma WakeParentEnds(s: State, t: State, p: nat) returns (u: State)
    requires TreeInv(t) && GivenAway(s, t, p) && t.procs[p].pc.WakingParent?
    ensures Enabled(t, WakeParent(p)) && u == Next(t, WakeParent(p)) && GivenAway(s, u, p) && u.procs[p].pc.Exiting?
  {
    assert ProcOk(t, p);
    u := Next(t, WakeParent(p));
    StepGivesAway(s, t, WakeParent(p), p);
  }

  // A process that finds wait_lock free can exit, by its own steps alone.
  lemma ExitEnds(s: State, p: nat, status: int) returns (u: State, steps: seq<Step>)
    requires TreeInv(s) && Enabled(s, Exit(p))
    ensures Leads(s, steps, u) && |u.procs| == |s.procs| && u.waitLock.None?
    ensures u.procs[p].st.Zombie? && u.procs[p].xstate == status && u.procs[p].pid == s.procs[p].pid
    ensures forall c {:trigger u.procs[c]} :: 0 <= c < |s.procs| ==>
              u.procs[c].parent == if s.procs[c].parent == Some(p) then Some(0) else s.procs[c].parent
  {
    var t := Next(s, Exit(p));
    StepKeepsTree(s, Exit(p));
    LeadsAppend(s, [], s, Exit(p));
    u, steps := ReparentEnds(s, t, p, [] + [Exit(p)]);
    var v := WakeParentEnds(s, u, p);
    LeadsAppend(s, steps, u, WakeParent(p));
    u, steps := v, steps + [WakeParent(p)];
    LeadsAppend(s, steps, u, BecomeZombie(p, status));
    u, steps := Next(u, BecomeZombie(p, status)), steps + [BecomeZombie(p, status)];
  }

  // ----- a kill that wait misses -----

  // A kill between wait's test and its sleep is missed: the process can go on to sleep, killed.
  lemma KillMissed(s: State, p: nat)
    requires TreeInv(s) && Enabled(s, Kill(p)) && s.procs[p].pc.Sleepy?
    ensures var t := Next(s, Kill(p));
            && Enabled(t, Sleep(p))
            && Next(t, Sleep(p)).procs[p].killed && Next(t, Sleep(p)).procs[p].asleep
  {
  }

  // Two slots: init, and a child that runs.
  function Two(pc: Pc, lock: Option<nat>): State {
    State([Proc(Live, 1, None, pc, false, false, 0), Proc(Live, 2, Some(0), Normal, false, false, 0)], lock, 3, map[], [], map[])
  }

  const FORKING := [Fork(0, 1), ForkLink(0), ForkRun(0)]
  const WAITING := [Wait(0), Scan(0, true), Scan(0, true), Decide(0)]

  lemma ForkReached()
    ensures Leads(Init(2), FORKING, Two(Normal, None))
  {
    var s1 := Next(Init(2), Fork(0, 1));
    var s2 := Next(s1, ForkLink(0));
    assert Next(s2, ForkRun(0)) == Two(Normal, None);
    assert FORKING[1..] == [ForkLink(0), ForkRun(0)] && FORKING[1..][1..] == [ForkRun(0)] && FORKING[1..][1..][1..] == [];
    assert Leads(s2, [ForkRun(0)], Two(Normal, None));
  }

  // wait comes to the end of its loop with a child that has not exited, and goes to sleep.
  lemma SleepyReached()
    ensures Leads(Two(Normal, None), WAITING, Two(Sleepy, Some(0)))
    ensures Enabled(Two(Sleepy, Some(0)), Kill(0))
  {
    assert Next(Two(Normal, None), Wait(0)) == Two(Scanning(0, false), Some(0));
    assert Next(Two(Scanning(0, false), Some(0)), Scan(0, true)) == Two(Scanning(1, false), Some(0));
    assert Next(Two(Scanning(1, false), Some(0)), Scan(0, true)) == Two(Scanning(2, true), Some(0));
    assert Next(Two(Scanning(2, true), Some(0)), Decide(0)) == Two(Sleepy, Some(0));
    assert WAITING[1..][1..][1..] == [Decide(0)] && WAITING[1..][1..][1..][1..] == [];
  }

  // The two together, from boot: init sleeps in wait although it has been killed.
  lemma MissedKill() returns (s: State)
    ensures Leads(Init(2), FORKING + WAITING + [Kill(0)] + [Sleep(0)], s)
    ensures |s.procs| == 2 && s.procs[0].killed && s.procs[0].asleep
  {
    var t := Two(Sleepy, Some(0));
    ForkReached();
    SleepyReached();
    LeadsConcat(Init(2), FORKING, Two(Normal, None), WAITING, t);
    LeadsAppend(Init(2), FORKING + WAITING, t, Kill(0));
    var u := Next(t, Kill(0));
    s := Next(u, Sleep(0));
    LeadsAppend(Init(2), FORKING + WAITING + [Kill(0)], u, Sleep(0));
  }
}
