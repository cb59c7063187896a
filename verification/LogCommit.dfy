/**
 Whole commits and recoveries over the view of module LogView: what the loops of kernel/log.c keep, when a
 commit finds the buffers it needs, and a log that lists as many blocks as there are buffers.
 */
module LogCommit {
  import opened RedoLog
  import opened BufferCache
  import opened LogSystem
  import opened LogCache
  import opened LogView
  import opened LogBudget

  function Times(step: Step, n: nat): seq<Step> { seq(n, _ => step) }

  // The writes of a commit of n blocks, in their order.
  function CommitSteps(n: nat): seq<Step> {
    if n == 0 then [] else Times(CopyToLog, n) + [WriteHead] + Times(InstallNext, n) + [ClearHead]
  }

  // The writes of a recovery that finds n blocks in the log, after the header has been read.
  function RecoverySteps(n: nat): seq<Step> { [ReadHead] + Times(RecoverNext, n) + [RecoverClear] }

  predicate IsCopy(step: Step) { step.CopyToLog? || step.InstallNext? || step.RecoverNext? }

  // The place after t copies.
  function PhaseAt(step: Step, t: nat): Phase {
    if step.CopyToLog? then Logging(t) else if step.InstallNext? then Installing(t) else Recovering(t)
  }

  lemma Places(t: nat)
    ensures PhaseAt(CopyToLog, t) == Logging(t) && PhaseAt(InstallNext, t) == Installing(t) && PhaseAt(RecoverNext, t) == Recovering(t)
    ensures IsCopy(CopyToLog) && IsCopy(InstallNext) && IsCopy(RecoverNext)
  {
  }

  // Only the disk, the buffers and the place have changed: the transaction, what readers see and what a crash
  // recovers are the same.
  predicate SameTransaction(s: State, t: State) {
    t == s.(disk := t.disk, cache := t.cache, pinned := t.pinned, phase := t.phase)
  }

  ghost predicate Went(v: View, w: View, phase: Phase, steps: seq<Step>) {
    && SameTransaction(v.sys, w.sys) && w.sys.phase == phase
    && Settled(v.lines, w.lines) && w.held == v.held && w.trace == v.trace + steps
  }

  lemma WentStart(v: View, step: Step)
    requires v.sys.phase == PhaseAt(step, 0)
    ensures Went(v, v, PhaseAt(step, 0), Times(step, 0))
  {
    forall i | 0 <= i < |v.lines| ensures SettledAt(v.lines[i], v.lines[i]) {
    }
    assert v.trace + Times(step, 0) == v.trace;
  }

  lemma WentNext(lay: Layout, v: View, w: View, x: View, step: Step, t: nat)
    requires IsCopy(step) && Went(v, w, PhaseAt(step, t), Times(step, t)) && Did(lay, w, x, step)
    ensures Went(v, x, PhaseAt(step, t + 1), Times(step, t + 1))
  {
    SettledTrans(v.lines, w.lines, x.lines);
    assert Times(step, t + 1) == Times(step, t) + [step];
    assert x.trace == v.trace + Times(step, t + 1);
  }

  lemma WentKeeps(lay: Layout, v: View, w: View, phase: Phase, steps: seq<Step>)
    requires Went(v, w, phase, steps)
    ensures w.sys.lh == v.sys.lh && w.sys.phase == phase && (Quiet(lay, v.lines) ==> Quiet(lay, w.lines))
    ensures (!AllReferenced(v.lines) ==> !AllReferenced(w.lines)) && (TwoFree(v.lines) ==> TwoFree(w.lines))
  {
    SettledKeeps(lay, v.lines, w.lines);
    if TwoFree(v.lines) {
      SettledFree(v.lines, w.lines);
    }
  }

  // The next copy is possible, if bread of the block of the log is.
  lemma CanCopy(lay: Layout, v: View, step: Step, t: nat)
    requires Ok(lay, v) && IsCopy(step) && v.sys.phase == PhaseAt(step, t) && t < |v.sys.lh|
    requires step.RecoverNext? ==> TwoFree(v.lines)
    ensures Slot(lay, t) < lay.nblocks && v.sys.lh[t] < lay.nblocks && CanTransfer(lay, v, Slot(lay, t), v.sys.lh[t], step)
  {
    ReachedShape(lay, v.sys);
    NextPinned(lay, v.sys);
  }

  // Nobody else refers to blocks of the log, so bread of one panics exactly if all buffers are in use.
  lemma LogBlockFull(lay: Layout, v: View, n: nat)
    requires Ok(lay, v) && Quiet(lay, v.lines) && !lay.IsHome(n)
    ensures Full(v, n) <==> AllReferenced(v.lines)
  {
    if n in v.sys.cache {
      LogBlockFree(lay, v.lines, v.at, v.sys.cache, n);
    }
  }

  lemma SlotFull(lay: Layout, v: View, t: nat)
    requires Ok(lay, v) && Quiet(lay, v.lines) && t < |v.sys.lh|
    ensures Full(v, Slot(lay, t)) <==> AllReferenced(v.lines)
  {
    ReachedShape(lay, v.sys);
    LogBlockFull(lay, v, Slot(lay, t));
  }

  lemma HeadFull(lay: Layout, v: View)
    requires Ok(lay, v) && Quiet(lay, v.lines)
    ensures Full(v, lay.start) <==> AllReferenced(v.lines)
    ensures lay.start < lay.nblocks
  {
    ReachedShape(lay, v.sys);
    LogBlockFull(lay, v, lay.start);
  }

  // ----- what the loops achieve -----

  predicate SlotHolds(lay: Layout, disk: Disk, lh: seq<nat>, k: nat, latest: Disk) {
    k < |lh| && Slot(lay, k) < |disk| && lh[k] < |latest| && disk[Slot(lay, k)] == latest[lh[k]]
  }

  // write_log: the slots hold the latest contents, and a crash still recovers the old ones.
  lemma AllCopied(lay: Layout, v: View)
    requires Ok(lay, v) && v.sys.phase == Logging(|v.sys.lh|)
    ensures forall k :: 0 <= k < |v.sys.lh| ==> SlotHolds(lay, v.sys.disk, v.sys.lh, k, v.sys.latest)
    ensures Recoverable(lay, v.sys.disk, v.sys.committed) && Head(v.sys.disk[lay.start]) == []
  {
    ReachedInv(lay, v.sys);
  }

  ghost predicate HomesAre(lay: Layout, d: Disk, want: Disk) { |d| == |want| == lay.nblocks && SameHome(lay, d, want) }

  // install_trans: the home blocks are as committed, and none is pinned.
  lemma AllInstalled(lay: Layout, v: View)
    requires Ok(lay, v) && (v.sys.phase == Installing(|v.sys.lh|) || v.sys.phase == Recovering(|v.sys.lh|))
    ensures HomesAre(lay, v.sys.disk, v.sys.committed) && v.sys.pinned == {}
  {
    ReachedInv(lay, v.sys);
    var s := v.sys;
    forall b: nat | lay.IsHome(b) ensures s.disk[b] == s.committed[b] {
      if b in s.lh {
        var k :| 0 <= k < |s.lh| && s.lh[k] == b;
      }
    }
    assert forall b :: !Listed(s.lh, |s.lh|, b);
  }

  // ----- the header -----

  // The step is the write of h to the header.
  ghost predicate CanPutHead(lay: Layout, v: View, h: seq<nat>, step: Step) {
    && CanUpdate(lay, v, lay.start, step) && |h| < |Read(v.sys, lay.start)|
    && Written(lay, v.sys, step).1 == PutHead(Read(v.sys, lay.start), h)
  }

  lemma CanCommit(lay: Layout, v: View)
    requires Ok(lay, v) && v.sys.phase == Logging(|v.sys.lh|)
    ensures CanPutHead(lay, v, v.sys.lh, WriteHead)
  {
    ReachedShape(lay, v.sys);
  }

  lemma CanClear(lay: Layout, v: View, step: Step)
    requires Ok(lay, v)
    requires if step.ClearHead? then v.sys.phase == Installing(|v.sys.lh|) else step.RecoverClear? && v.sys.phase == Recovering(|v.sys.lh|)
    ensures CanPutHead(lay, v, [], step)
  {
    ReachedShape(lay, v.sys);
  }

  lemma HeadStore(lay: Layout, v: View, w: View, k: nat, h: seq<nat>, step: Step)
    requires CanPutHead(lay, v, h, step) && Lends(v, w, k, lay.start) && Ok(lay, w)
    ensures k < |w.lines| && |h| < |w.lines[k].data| && CanStore(lay, w, k, PutHead(w.lines[k].data, h), step)
  {
    UpdateStore(lay, v, w, k, lay.start, step);
  }

  lemma HeadDone(lay: Layout, v: View, w: View, x: View, y: View, k: nat, h: seq<nat>, data: Block, step: Step)
    requires CanPutHead(lay, v, h, step) && Lends(v, w, k, lay.start) && Stores(lay, w, x, k, data, step) && Returns(x, y, k)
    ensures Did(lay, v, y, step)
  {
    UpdateDone(lay, v, w, x, y, k, lay.start, data, step);
  }

  lemma NoUnpin(lay: Layout, v: View, h: seq<nat>, step: Step)
    requires CanPutHead(lay, v, h, step)
    ensures !step.InstallNext?
  {
  }

  // The commit point: what a crash recovers is from now on what readers see.
  lemma HeadWritten(lay: Layout, v: View, w: View)
    requires Did(lay, v, w, WriteHead) && v.sys.phase == Logging(|v.sys.lh|)
    ensures w.sys.phase == Installing(0) && w.sys.committed == v.sys.latest == w.sys.latest
    ensures w.sys.lh == v.sys.lh && w.sys.ops == v.sys.ops
  {
  }

  lemma HeadCleared(lay: Layout, v: View, w: View, step: Step)
    requires Did(lay, v, w, step) && (step.ClearHead? || step.RecoverClear?)
    ensures w.sys.phase == (if step.ClearHead? then Finishing else Running) && w.sys.lh == []
    ensures w.sys.committed == v.sys.committed && w.sys.latest == v.sys.latest && w.sys.ops == v.sys.ops && w.sys.pinned == v.sys.pinned
  {
  }

  lemma DidKeeps(lay: Layout, v: View, w: View, step: Step)
    requires Did(lay, v, w, step)
    ensures (Quiet(lay, v.lines) ==> Quiet(lay, w.lines)) && (!AllReferenced(v.lines) ==> !AllReferenced(w.lines))
  {
    SettledKeeps(lay, v.lines, w.lines);
  }

  // ----- whole commits and recoveries -----

  // The log is empty, the home blocks hold what readers saw all along, and that is what a crash recovers.
  ghost predicate Commits(lay: Layout, v: View, w: View) {
    && w.sys.phase.Finishing? && w.sys.lh == [] && w.sys.pinned == {}
    && w.sys.latest == v.sys.latest && w.sys.ops == v.sys.ops
    && HomesAre(lay, w.sys.disk, w.sys.latest) && HomesAre(lay, w.sys.committed, w.sys.latest)
    && Settled(v.lines, w.lines) && w.held == v.held && w.trace == v.trace + CommitSteps(|v.sys.lh|)
  }

  lemma FinishingClean(lay: Layout, v: View)
    requires Ok(lay, v) && v.sys.phase.Finishing?
    ensures v.sys.lh == [] && v.sys.pinned == {}
    ensures HomesAre(lay, v.sys.disk, v.sys.latest) && HomesAre(lay, v.sys.committed, v.sys.latest)
  {
    ReachedInv(lay, v.sys);
  }

  lemma NothingToCommit(lay: Layout, v: View)
    requires Ok(lay, v) && v.sys.phase.Finishing?
    ensures Commits(lay, v, v)
  {
    FinishingClean(lay, v);
    forall i | 0 <= i < |v.lines| ensures SettledAt(v.lines[i], v.lines[i]) {
    }
    assert v.trace + CommitSteps(0) == v.trace;
  }

  lemma CommitDone(lay: Layout, v: View, w: View, x: View, y: View, z: View)
    requires v.sys.lh != [] && Went(v, w, Logging(|v.sys.lh|), Times(CopyToLog, |v.sys.lh|)) && Did(lay, w, x, WriteHead)
    requires Went(x, y, Installing(|x.sys.lh|), Times(InstallNext, |x.sys.lh|)) && Did(lay, y, z, ClearHead) && Ok(lay, z)
    ensures Commits(lay, v, z)
  {
    HeadWritten(lay, w, x);
    HeadCleared(lay, y, z, ClearHead);
    FinishingClean(lay, z);
    SettledTrans(v.lines, w.lines, x.lines);
    SettledTrans(v.lines, x.lines, y.lines);
    SettledTrans(v.lines, y.lines, z.lines);
  }

  // Recovery: as above, and what a crash recovers has never changed.
  ghost predicate Recovers(lay: Layout, v: View, w: View) {
    && w.sys.phase.Running? && w.sys.lh == [] && w.sys.pinned == {}
    && w.sys.committed == v.sys.committed && w.sys.ops == []
    && HomesAre(lay, w.sys.disk, w.sys.committed) && HomesAre(lay, w.sys.latest, w.sys.committed)
    && Settled(v.lines, w.lines) && w.held == v.held
    && lay.start < |v.sys.disk| && w.trace == v.trace + RecoverySteps(|Head(Read(v.sys, lay.start))|)
  }

  // read_head, with the buffer given back.
  ghost predicate HeadWasRead(lay: Layout, v: View, w: View) {
    && lay.start < |v.sys.disk| && w.sys.phase == Recovering(0) && w.sys.lh == Head(Read(v.sys, lay.start))
    && w.sys.committed == v.sys.committed && Settled(v.lines, w.lines) && w.held == v.held && w.trace == v.trace + [ReadHead]
  }

  lemma BootingReads(lay: Layout, v: View, w: View, k: nat)
    requires Lends(v, w, k, lay.start) && v.sys.phase.Booting?
    ensures Enabled(lay, w.sys, ReadHead)
  {
  }

  lemma JustRead(lay: Layout, v: View, w: View, x: View, k: nat)
    requires Lends(v, w, k, lay.start) && x == w.(sys := x.sys, trace := w.trace + [ReadHead]) && Taken(lay, w.sys, ReadHead, x.sys)
    ensures Held(x, k) && (v.sys.phase.Booting? ==> Committing(x.sys) == Committing(w.sys))
  {
  }

  lemma HeadRead(lay: Layout, v: View, w: View, x: View, y: View, k: nat)
    requires Lends(v, w, k, lay.start) && x == w.(sys := x.sys, trace := w.trace + [ReadHead]) && Taken(lay, w.sys, ReadHead, x.sys)
    requires Returns(x, y, k)
    ensures HeadWasRead(lay, v, y) && k < |w.lines| && y.sys.lh == Head(w.lines[k].data)
    ensures Quiet(lay, v.lines) ==> Quiet(lay, y.lines)
  {
    assert Read(w.sys, lay.start) == Read(v.sys, lay.start);
    forall i | 0 <= i < |v.lines| ensures SettledAt(v.lines[i], y.lines[i]) {
    }
    assert y.held == v.held;
    SettledKeeps(lay, v.lines, y.lines);
  }

  lemma TwoFreeFree(lines: seq<Line>)
    requires TwoFree(lines)
    ensures !AllReferenced(lines)
  {
  }

  lemma SettledFree(a: seq<Line>, b: seq<Line>)
    requires Settled(a, b) && TwoFree(a)
    ensures TwoFree(b)
  {
    var i, j :| 0 <= i < j < |a| && a[i].refcnt == 0 && a[j].refcnt == 0;
    assert SettledAt(a[i], b[i]) && SettledAt(a[j], b[j]);
  }

  lemma HeadReadKeeps(lay: Layout, v: View, w: View)
    requires HeadWasRead(lay, v, w) && TwoFree(v.lines)
    ensures TwoFree(w.lines) && !AllReferenced(w.lines) && w.sys.phase == Recovering(0)
  {
    SettledFree(v.lines, w.lines);
  }

  lemma RecoveryDone(lay: Layout, v: View, w: View, x: View, y: View)
    requires HeadWasRead(lay, v, w) && Went(w, x, Recovering(|w.sys.lh|), Times(RecoverNext, |w.sys.lh|))
    requires Did(lay, x, y, RecoverClear) && Ok(lay, x) && Ok(lay, y)
    ensures Recovers(lay, v, y)
  {
    AllInstalled(lay, x);
    HeadCleared(lay, x, y, RecoverClear);
    RunningClean(lay, y);
    ReachedInv(lay, x.sys);
    SettledTrans(v.lines, w.lines, x.lines);
    SettledTrans(v.lines, x.lines, y.lines);
  }

  // With nothing listed, everything is in place.
  lemma RunningClean(lay: Layout, v: View)
    requires Ok(lay, v) && v.sys.phase.Running? && v.sys.lh == []
    ensures HomesAre(lay, v.sys.disk, v.sys.committed) && HomesAre(lay, v.sys.latest, v.sys.committed) && v.sys.pinned == {}
  {
    ReachedInv(lay, v.sys);
    assert forall b :: !Listed(v.sys.lh, 0, b);
  }

  // ----- the other steps -----

  // begin_op, end_op, read_head and the end of a commit touch no buffer.
  predicate IsQuick(step: Step) { step.Begin? || step.End? || step.Finish? || step.ReadHead? }

  lemma Quick(lay: Layout, v: View, step: Step) returns (w: View)
    requires Ok(lay, v) && IsQuick(step) && Enabled(lay, v.sys, step)
    ensures Ok(lay, w) && Taken(lay, v.sys, step, w.sys) && w == v.(sys := w.sys, trace := v.trace + [step])
    ensures w.sys.disk == v.sys.disk && (step.ReadHead? || w.sys.lh == v.sys.lh)
    ensures |w.sys.ops| == |v.sys.ops| + (if step.Begin? then 1 else if step.End? then -1 else 0)
  {
    var t := ReachStep(lay, v.sys, step);
    w := v.(sys := t, trace := v.trace + [step]);
  }

  function Logged(l: Line, data: Block, isNew: bool): Line {
    l.(data := data, refcnt := l.refcnt + if isNew then 1 else 0)
  }

  // log_write: new contents for a buffer on loan, and a pin if the block is not listed yet.
  lemma LogOne(lay: Layout, v: View, k: nat, op: nat, data: Block) returns (w: View)
    requires Ok(lay, v) && Held(v, k) && Enabled(lay, v.sys, LogWrite(op, v.lines[k].blockno, data))
    ensures Ok(lay, w) && Taken(lay, v.sys, LogWrite(op, v.lines[k].blockno, data), w.sys)
    ensures w == v.(lines := v.lines[k := Logged(v.lines[k], data, v.lines[k].blockno !in v.sys.lh)], sys := w.sys,
                    trace := v.trace + [LogWrite(op, v.lines[k].blockno, data)])
    ensures w.sys.disk == v.sys.disk && |w.sys.ops| == |v.sys.ops|
  {
    var n := v.lines[k].blockno;
    ReachedInv(lay, v.sys);
    assert n in v.sys.lh <==> Listed(v.sys.lh, 0, n);
    var l := Logged(v.lines[k], data, n !in v.sys.lh);
    var t := ReachStep(lay, v.sys, LogWrite(op, n, data));
    LogRel(v.lines, v.at, v.sys.cache, v.held, v.sys.pinned, k, data);
    SameBlockUnique(v.lines, k, l);
    w := v.(lines := v.lines[k := l], sys := t, trace := v.trace + [LogWrite(op, n, data)]);
  }

  lemma LogRel(lines: seq<Line>, at: map<nat, nat>, cache: map<nat, Block>, held: seq<nat>, pinned: set<nat>, k: nat, data: Block)
    requires CacheRel(lines, at, cache) && RefRel(lines, held, pinned) && Unique(lines) && k < |lines| && lines[k].dev == ROOTDEV
    ensures var n := lines[k].blockno;
            var lines' := lines[k := Logged(lines[k], data, n !in pinned)];
            CacheRel(lines', at, cache[n := data]) && RefRel(lines', held, pinned + {n})
  {
    assert LineOk(lines, at, k) && RefOk(lines[k], held[k], pinned);
    var n := lines[k].blockno;
    var l := Logged(lines[k], data, n !in pinned);
    StoreRel(lines, at, cache, k, l);
    CountRel(lines, held, pinned, k, l, held[k], pinned + {n});
    assert held[k := held[k]] == held;
  }

  // One step of the system that needs no buffer.
  ghost predicate OneStep(lay: Layout, v: View, w: View, step: Step) {
    Taken(lay, v.sys, step, w.sys) && w == v.(sys := w.sys, trace := v.trace + [step])
  }

  // What log_write asks of its caller: a block outside the log, and an operation within its budget.
  ghost predicate CanLog(lay: Layout, v: View, k: nat, op: nat) {
    && k < |v.lines| && lay.IsHome(v.lines[k].blockno)
    && (v.sys.ops != [] ==> op < |v.sys.ops| && |v.sys.ops[op].blocks + {v.lines[k].blockno}| <= MAXOPBLOCKS)
  }

  ghost predicate Logs(lay: Layout, v: View, w: View, k: nat, data: Block, op: nat) {
    && k < |v.lines| && Taken(lay, v.sys, LogWrite(op, v.lines[k].blockno, data), w.sys)
    && v.lines[k].blockno < |v.sys.latest| && w.sys.latest == v.sys.latest[v.lines[k].blockno := data]
    && w.sys.committed == v.sys.committed
    && w.lines == v.lines[k := Logged(v.lines[k], data, v.lines[k].blockno !in v.sys.lh)] && w.held == v.held
  }

  lemma LogKeeps(lay: Layout, v: View, w: View, k: nat, data: Block, op: nat)
    requires Held(v, k) && lay.IsHome(v.lines[k].blockno) && Quiet(lay, v.lines)
    requires Taken(lay, v.sys, LogWrite(op, v.lines[k].blockno, data), w.sys) && w.held == v.held
    requires w.lines == v.lines[k := Logged(v.lines[k], data, v.lines[k].blockno !in v.sys.lh)]
    ensures Logs(lay, v, w, k, data, op) && Quiet(lay, w.lines)
    ensures w.sys.lh == if v.lines[k].blockno in v.sys.lh then v.sys.lh else v.sys.lh + [v.lines[k].blockno]
  {
    forall i | 0 <= i < |w.lines| ensures QuietAt(lay, w.lines[i]) {
      assert QuietAt(lay, v.lines[i]);
    }
  }

  // The line holds what readers must see.
  ghost predicate HoldsLatest(v: View, k: nat, n: nat) { n < |v.sys.latest| && Holds(v.lines, k, n, v.sys.latest[n]) }

  lemma HomeInside(lay: Layout, n: nat)
    requires lay.IsHome(n)
    ensures n < lay.nblocks
  {
  }

  lemma LendLatest(lay: Layout, v: View, w: View, k: nat, n: nat)
    requires Lends(v, w, k, n) && Ok(lay, w) && lay.IsHome(n) && Quiet(lay, v.lines)
    requires !v.sys.phase.Booting? && !v.sys.phase.Recovering?
    ensures HoldsLatest(w, k, n) && Quiet(lay, w.lines) && w.sys.lh == v.sys.lh
  {
    ReachedInv(lay, w.sys);
    ReadIsLatest(lay, w.sys, n);
    forall i | 0 <= i < |w.lines| ensures QuietAt(lay, w.lines[i]) {
      assert QuietAt(lay, v.lines[i]);
    }
  }

  lemma ReturnKeeps(lay: Layout, v: View, w: View, k: nat)
    requires Returns(v, w, k) && Quiet(lay, v.lines)
    ensures Quiet(lay, w.lines) && w.sys == v.sys
  {
    forall i | 0 <= i < |w.lines| ensures QuietAt(lay, w.lines[i]) {
      assert QuietAt(lay, v.lines[i]);
    }
  }

  // ----- the end of an operation -----

  // end_op never finds a commit under way.
  lemma OpsRunning(lay: Layout, v: View, k: nat)
    requires Ok(lay, v) && k < |v.sys.ops|
    ensures v.sys.phase.Running? && !Committing(v.sys) && IsQuick(End(k)) && Enabled(lay, v.sys, End(k))
  {
    ReachedInv(lay, v.sys);
  }

  lemma OpEnded(lay: Layout, v: View, w: View, k: nat)
    requires Taken(lay, v.sys, End(k), w.sys) && w == v.(sys := w.sys, trace := v.trace + [End(k)])
    ensures OneStep(lay, v, w, End(k)) && w.sys.lh == v.sys.lh
    ensures Committing(w.sys) ==> if w.sys.lh == [] then w.sys.phase.Finishing? else w.sys.phase == Logging(0)
  {
  }

  lemma CommitsKeeps(lay: Layout, v: View, w: View)
    requires Commits(lay, v, w)
    ensures IsQuick(Finish) && Enabled(lay, w.sys, Finish) && w.sys.ops == v.sys.ops
  {
  }

  // The transaction is over: nothing is listed or pinned, and the latest contents are in place and committed.
  ghost predicate EndsTransaction(lay: Layout, v: View, w: View, k: nat) {
    && w.sys.phase.Running? && w.sys.ops == [] && w.sys.lh == [] && w.sys.pinned == {} && w.sys.latest == v.sys.latest
    && HomesAre(lay, w.sys.disk, w.sys.latest) && HomesAre(lay, w.sys.committed, w.sys.latest)
    && Settled(v.lines, w.lines) && w.held == v.held
    && w.trace == v.trace + [End(k)] + CommitSteps(|v.sys.lh|) + [Finish]
  }

  lemma FinishDone(lay: Layout, v: View, w: View, x: View, y: View, k: nat)
    requires OneStep(lay, v, w, End(k)) && w.sys.ops == [] && Commits(lay, w, x) && OneStep(lay, x, y, Finish)
    ensures EndsTransaction(lay, v, y, k)
  {
  }
}
