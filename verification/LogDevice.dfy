/**
 kernel/log.c in its own form, on top of kernel/bio.c: one log object whose methods update the disk, the
 buffers and the in-memory header step by step.  The ghost field sys is the state of module LogSystem that
 they amount to; each write to the disk is one of its steps, so all its theorems hold here, also between any
 two writes.  A method that needs a buffer when all are in use fails, where the source panics.
 */
module LogDevice {
  import opened RedoLog
  import opened BufferCache
  import opened LogSystem
  import opened LogCache
  import opened LogView
  import opened LogCommit

  class Log {
    const lay: Layout
    const bc: Bcache
    var disk: Disk
    var lh: seq<nat>
    var outstanding: nat
    var committing: bool
    ghost var sys: State
    ghost var at: map<nat, nat>   // the line of each cached block
    ghost var held: seq<nat>      // references to each buffer, other than pins
    ghost var trace: seq<Step>    // the steps taken

    ghost function V(): View
      reads this, bc
    {
      View(bc.lines, at, held, sys, trace)
    }

    ghost predicate Rel()
      reads this, bc, bc.head, bc.bufs
    {
      bc.Valid() && Ok(lay, V()) && sys.disk == disk && outstanding == |sys.ops| && committing == Committing(sys)
    }

    ghost predicate Valid()
      reads this, bc, bc.head, bc.bufs
    {
      Rel() && sys.lh == lh && Quiet(lay, bc.lines)
    }

    // After a reset: nothing is known but the disk, and that it can be recovered.
    constructor Boot(lay: Layout, nbuf: nat, disk: Disk, ghost want: Disk)
      requires Recoverable(lay, disk, want)
      ensures Valid() && this.lay == lay && this.disk == disk && |bc.bufs| == nbuf
      ensures sys.phase.Booting? && sys.committed == want && trace == []
      ensures forall i :: 0 <= i < nbuf ==> bc.lines[i].refcnt == 0
      ensures fresh(bc) && fresh(bc.head) && fresh(set b | b in bc.bufs)
    {
      this.lay, this.disk, this.lh, this.outstanding, this.committing := lay, disk, [], 0, false;
      bc := new Bcache(nbuf);
      sys := State(disk, map[], {}, [], [], Booting, want, want, History(want, [], [], [], {}, 0));
      at, held, trace := map[], seq(nbuf, _ => 0), [];
      new;
      StartReached(lay, sys);
      forall i | 0 <= i < nbuf ensures LineOk(bc.lines, at, i) && RefOk(bc.lines[i], held[i], sys.pinned) && QuietAt(lay, bc.lines[i]) {
      }
    }

    ghost method Note(w: View)
      requires bc.Valid() && Ok(lay, w) && w.lines == bc.lines
      requires w.sys.disk == disk && outstanding == |w.sys.ops| && committing == Committing(w.sys)
      modifies this`sys, this`at, this`held, this`trace
      ensures Rel() && V() == w
    {
      sys, at, held, trace := w.sys, w.at, w.held, w.trace;
    }

    lemma Known()
      requires Rel()
      ensures Ok(lay, V()) && V() == View(bc.lines, at, held, sys, trace)
      ensures bc.Valid() && sys.disk == disk && outstanding == |sys.ops| && committing == Committing(sys)
    {
    }

    lemma Opened()
      requires Valid()
      ensures Rel() && V().sys.lh == lh && Quiet(lay, V().lines)
    {
    }

    lemma Closed()
      requires Rel() && V().sys.lh == lh && Quiet(lay, V().lines)
      ensures Valid()
    {
    }

    // bread; head stands for the panic of bget.
    method Get(n: nat) returns (b: Buf)
      requires Rel() && n < lay.nblocks
      modifies this`sys, this`at, this`held, this`trace, bc, bc.head, bc.bufs
      ensures Rel()
      ensures b == bc.head <==> Full(old(V()), n)
      ensures if b == bc.head then V() == old(V()) else b in bc.bufs && Lends(old(V()), V(), b.index, n)
    {
      ghost var v := V();
      FullIff(lay, v, n);
      b := bc.Bread(ROOTDEV, n, disk);
      if b != bc.head {
        ghost var w := Lend(lay, v, b.index, n);
        Note(w);
      }
    }

    // brelse
    method Put(b: Buf)
      requires Rel() && b in bc.bufs && Held(V(), b.index)
      modifies this`sys, this`at, this`held, this`trace, bc, bc.head, bc.bufs
      ensures Rel() && Returns(old(V()), V(), b.index)
    {
      ghost var w := Return(lay, V(), b.index);
      bc.IndexOf(b);
      bc.Brelse(b);
      Note(w);
    }

    method Data(b: Buf) returns (data: Block)
      requires Rel() && b in bc.bufs
      ensures b.index < |V().lines| && data == V().lines[b.index].data
    {
      bc.IndexOf(b);
      data := b.data;
    }

    // New contents for a buffer, and bwrite; with InstallNext also bunpin.
    method WriteOut(b: Buf, data: Block, unpin: bool, ghost step: Step)
      requires Rel() && b in bc.bufs && CanStore(lay, V(), b.index, data, step) && unpin == step.InstallNext?
      modifies this`disk, this`sys, this`at, this`held, this`trace, bc, bc.head, bc.bufs
      ensures Rel() && Stores(lay, old(V()), V(), b.index, data, step)
    {
      ghost var w := LogView.Store(lay, V(), b.index, data, step);
      bc.IndexOf(b);
      Store(b, data, unpin);
      Note(w);
    }

    method Store(b: Buf, data: Block, unpin: bool)
      requires bc.Valid() && b in bc.bufs && b.blockno < |disk| && (unpin ==> b.refcnt > 0)
      modifies this`disk, bc, bc.head, bc.bufs
      ensures bc.Valid() && b.index < |old(bc.lines)| && disk == old(disk)[old(b.blockno) := data]
      ensures bc.lines == old(bc.lines)[b.index := Rewritten(old(bc.lines)[b.index], data, unpin)]
    {
      bc.IndexOf(b);
      bc.Modify(b, data);
      bc.IndexOf(b);
      disk := bc.Bwrite(b, disk);
      if unpin {
        bc.Bunpin(b);
      }
    }

    // bread of a block of the log and of a home, a copy of one to the other, bwrite, brelse of both.
    method Transfer(slot: nat, n: nat, toLog: bool, unpin: bool, ghost step: Step) returns (ok: bool)
      requires Rel() && slot < lay.nblocks && n < lay.nblocks && CanTransfer(lay, V(), slot, n, step)
      requires toLog == step.CopyToLog? && unpin == step.InstallNext?
      modifies this`disk, this`sys, this`at, this`held, this`trace, bc, bc.head, bc.bufs
      ensures Rel() && (ok <==> !Full(old(V()), slot))
      ensures if ok then Did(lay, old(V()), V(), step) else V() == old(V())
    {
      hide *;
      ghost var v := V();
      var a := Get(slot);
      if a == bc.head {
        return false;
      }
      ghost var w := V();
      Known();
      SecondFree(lay, v, w, a.index, slot, n, step);
      var b := Get(n);
      ghost var x := V();
      Known();
      TransferStore(lay, v, w, x, a.index, b.index, slot, n, step);
      var data := Data(if toLog then b else a);
      WriteOut(if toLog then a else b, data, unpin, step);
      ghost var y := V();
      Known();
      TransferHeld(lay, v, w, x, y, a.index, b.index, slot, n, data, step);
      Put(if toLog then b else a);
      ghost var z := V();
      if toLog {
        StillHeld(y, z, a.index, b.index);
      } else {
        StillHeld(y, z, b.index, a.index);
      }
      Put(if toLog then a else b);
      ReleaseBoth(y, z, V(), a.index, b.index, step);
      TransferDone(lay, v, w, x, y, z, V(), a.index, b.index, slot, n, data, step);
      ok := true;
    }

    // Copies the modified blocks from the cache to the log.
    method WriteLog() returns (ok: bool)
      requires Valid() && sys.phase == Logging(0)
      modifies this`disk, this`sys, this`at, this`held, this`trace, bc, bc.head, bc.bufs
      ensures Valid() && (ok <==> lh == [] || !AllReferenced(old(V().lines)))
      ensures ok ==> Went(old(V()), V(), Logging(|lh|), Times(CopyToLog, |lh|))
      ensures ok ==> forall k :: 0 <= k < |lh| ==> SlotHolds(lay, V().sys.disk, lh, k, V().sys.latest)
      ensures !ok ==> V() == old(V())
    {
      hide *;
      ghost var v := V();
      Opened();
      Known();
      Places(0);
      WentStart(v, CopyToLog);
      for tail := 0 to |lh|
        invariant Rel() && V().sys.lh == lh && Quiet(lay, V().lines)
        invariant Went(v, V(), PhaseAt(CopyToLog, tail), Times(CopyToLog, tail))
        invariant if tail == 0 then V() == v else !AllReferenced(v.lines)
      {
        ghost var w := V();
        Known();
        Places(tail);
        WentKeeps(lay, v, w, PhaseAt(CopyToLog, tail), Times(CopyToLog, tail));
        SlotFull(lay, w, tail);
        CanCopy(lay, w, CopyToLog, tail);
        ok := Transfer(Slot(lay, tail), lh[tail], true, false, CopyToLog);
        if !ok {
          Closed();
          return;
        }
        WentNext(lay, v, w, V(), CopyToLog, tail);
        WentKeeps(lay, v, V(), PhaseAt(CopyToLog, tail + 1), Times(CopyToLog, tail + 1));
      }
      Known();
      Closed();
      Places(|lh|);
      WentKeeps(lay, v, V(), PhaseAt(CopyToLog, |lh|), Times(CopyToLog, |lh|));
      AllCopied(lay, V());
      ok := true;
    }

    // Writes the header; the step says at which point of a commit or a recovery.
    method WriteHead(ghost step: Step) returns (ok: bool)
      requires Rel() && lay.start < lay.nblocks && CanPutHead(lay, V(), lh, step)
      modifies this`disk, this`sys, this`at, this`held, this`trace, bc, bc.head, bc.bufs
      ensures Rel() && (ok <==> !Full(old(V()), lay.start))
      ensures if ok then Did(lay, old(V()), V(), step) else V() == old(V())
    {
      hide *;
      ghost var v := V();
      var b := Get(lay.start);
      if b == bc.head {
        return false;
      }
      ghost var w := V();
      Known();
      HeadStore(lay, v, w, b.index, lh, step);
      var data := Data(b);
      NoUnpin(lay, v, lh, step);
      WriteOut(b, PutHead(data, lh), false, step);
      ghost var x := V();
      StoreHeld(lay, v, w, x, b.index, lay.start, PutHead(data, lh), step);
      Put(b);
      HeadDone(lay, v, w, x, V(), b.index, lh, PutHead(data, lh), step);
      ok := true;
    }

    // Copies the log to the home blocks, and unpins them unless this is recovery.
    method InstallTrans(recovering: bool) returns (ok: bool)
      requires Valid() && sys.phase == (if recovering then Recovering(0) else Installing(0))
      requires recovering ==> TwoFree(V().lines)
      modifies this`disk, this`sys, this`at, this`held, this`trace, bc, bc.head, bc.bufs
      ensures Valid() && (ok <==> lh == [] || !AllReferenced(old(V().lines)))
      ensures ok ==> if recovering then Went(old(V()), V(), Recovering(|lh|), Times(RecoverNext, |lh|))
                     else Went(old(V()), V(), Installing(|lh|), Times(InstallNext, |lh|))
      ensures ok ==> HomesAre(lay, V().sys.disk, V().sys.committed) && V().sys.pinned == {}
      ensures !ok ==> V() == old(V())
    {
      hide *;
      ghost var v, step := V(), if recovering then RecoverNext else InstallNext;
      Opened();
      Known();
      Places(0);
      WentStart(v, step);
      for tail := 0 to |lh|
        invariant Rel() && V().sys.lh == lh && Quiet(lay, V().lines)
        invariant Went(v, V(), PhaseAt(step, tail), Times(step, tail))
        invariant if tail == 0 then V() == v else !AllReferenced(v.lines)
      {
        ghost var w := V();
        Known();
        Places(tail);
        WentKeeps(lay, v, w, PhaseAt(step, tail), Times(step, tail));
        SlotFull(lay, w, tail);
        CanCopy(lay, w, step, tail);
        ok := Transfer(Slot(lay, tail), lh[tail], false, !recovering, step);
        if !ok {
          Closed();
          return;
        }
        WentNext(lay, v, w, V(), step, tail);
        WentKeeps(lay, v, V(), PhaseAt(step, tail + 1), Times(step, tail + 1));
      }
      Known();
      Closed();
      Places(|lh|);
      WentKeeps(lay, v, V(), PhaseAt(step, |lh|), Times(step, |lh|));
      AllInstalled(lay, V());
      ok := true;
    }

    // Erases the transaction, or what is left of it, from the log.
    method ClearLog(ghost step: Step) returns (ok: bool)
      requires Valid()
      requires if step.ClearHead? then sys.phase == Installing(|lh|) else step.RecoverClear? && sys.phase == Recovering(|lh|)
      modifies this`disk, this`lh, this`sys, this`at, this`held, this`trace, bc, bc.head, bc.bufs
      ensures Rel() && (ok <==> !AllReferenced(old(V().lines))) && lh == []
      ensures ok ==> Valid() && Did(lay, old(V()), V(), step)
    {
      hide *;
      ghost var v := V();
      Opened();
      Known();
      HeadFull(lay, v);
      CanClear(lay, v, step);
      SetHead([]);
      ok := WriteHead(step);
      if ok {
        DidKeeps(lay, v, V(), step);
        HeadCleared(lay, v, V(), step);
        Closed();
      }
    }

    method SetHead(h: seq<nat>)
      requires Rel()
      modifies this`lh
      ensures Rel() && V() == old(V()) && lh == h
    {
      lh := h;
    }

    // With buffers to spare, a commit writes the blocks to the log, the header, the blocks to their homes and
    // the header again; without, it panics before the first write.
    method Commit() returns (ok: bool)
      requires Valid() && (if lh == [] then sys.phase.Finishing? else sys.phase == Logging(0))
      modifies this`disk, this`lh, this`sys, this`at, this`held, this`trace, bc, bc.head, bc.bufs
      ensures Valid() && (ok <==> old(lh) == [] || !AllReferenced(old(V().lines)))
      ensures if ok then Commits(lay, old(V()), V()) else V() == old(V())
    {
      hide *;
      ghost var v := V();
      Opened();
      Known();
      if |lh| > 0 {
        ok := WriteLog();
        if !ok {
          return;
        }
        ghost var w := V();
        Opened();
        Known();
        WentKeeps(lay, v, w, Logging(|lh|), Times(CopyToLog, |lh|));
        HeadFull(lay, w);
        CanCommit(lay, w);
        ok := WriteHead(LogSystem.WriteHead);
        ghost var x := V();
        Known();
        HeadWritten(lay, w, x);
        DidKeeps(lay, w, x, LogSystem.WriteHead);
        Closed();
        ok := InstallTrans(false);
        ghost var y := V();
        Opened();
        Known();
        WentKeeps(lay, x, y, Installing(|lh|), Times(InstallNext, |lh|));
        ok := ClearLog(ClearHead);
        Known();
        CommitDone(lay, v, w, x, y, V());
      } else {
        NothingToCommit(lay, v);
        ok := true;
      }
    }

    // Reads the header after a reset.
    method ReadHead() returns (ok: bool)
      requires Valid() && sys.phase.Booting?
      modifies this`lh, this`sys, this`at, this`held, this`trace, bc, bc.head, bc.bufs
      ensures Valid() && (ok <==> !AllReferenced(old(V().lines)))
      ensures if ok then HeadWasRead(lay, old(V()), V()) else V() == old(V())
    {
      hide *;
      ghost var v := V();
      Opened();
      Known();
      HeadFull(lay, v);
      var b := Get(lay.start);
      if b == bc.head {
        Closed();
        return false;
      }
      ghost var w := V();
      Known();
      var data := Data(b);
      BootingReads(lay, v, w, b.index);
      ghost var x := Quick(lay, w, LogSystem.ReadHead);
      SetHead(Head(data));
      JustRead(lay, v, w, x, b.index);
      NoteQuick(x, LogSystem.ReadHead);
      Put(b);
      HeadRead(lay, v, w, x, V(), b.index);
      Closed();
      ok := true;
    }

    // A step that touches no buffer and not the disk.
    ghost method NoteQuick(w: View, step: Step)
      requires bc.Valid() && bc.lines == w.lines && Ok(lay, w) && IsQuick(step) && Taken(lay, V().sys, step, w.sys)
      requires V().sys.disk == disk && outstanding == |w.sys.ops| && committing == Committing(w.sys)
      modifies this`sys, this`at, this`held, this`trace
      ensures Rel() && V() == w
    {
      Note(w);
    }

    // However often recovery is itself cut short, what a crash recovers stays the same.
    method RecoverFromLog() returns (ok: bool)
      requires Valid() && sys.phase.Booting? && TwoFree(V().lines)
      modifies this`disk, this`lh, this`sys, this`at, this`held, this`trace, bc, bc.head, bc.bufs
      ensures ok && Valid() && Recovers(lay, old(V()), V())
    {
      hide *;
      ghost var v := V();
      TwoFreeFree(v.lines);
      ok := ReadHead();
      ghost var w := V();
      Opened();
      Known();
      HeadReadKeeps(lay, v, w);
      ok := InstallTrans(true);
      ghost var x := V();
      Opened();
      Known();
      WentKeeps(lay, w, x, Recovering(|lh|), Times(RecoverNext, |lh|));
      ok := ClearLog(RecoverClear);
      Known();
      RecoveryDone(lay, v, w, x, V());
    }

    // One round of begin_op's loop; false means that it sleeps.
    method TryBegin() returns (ok: bool)
      requires Valid() && !sys.phase.Booting? && !sys.phase.Recovering?
      modifies this`outstanding, this`sys, this`at, this`held, this`trace
      ensures Valid() && (ok <==> !committing && |lh| + (old(outstanding) + 1) * MAXOPBLOCKS <= LOGSIZE)
      ensures if ok then OneStep(lay, old(V()), V(), Begin) else V() == old(V())
    {
      ok := !committing && |lh| + (outstanding + 1) * MAXOPBLOCKS <= LOGSIZE;
      if ok {
        ghost var w := Quick(lay, V(), Begin);
        outstanding := outstanding + 1;
        Note(w);
      }
    }

    // bread by an operation: what it gets is the last contents logged for the block.
    method Hold(n: nat) returns (b: Buf)
      requires Valid() && lay.IsHome(n) && !sys.phase.Booting? && !sys.phase.Recovering?
      modifies this`sys, this`at, this`held, this`trace, bc, bc.head, bc.bufs
      ensures Valid() && (b == bc.head <==> Full(old(V()), n))
      ensures if b == bc.head then V() == old(V()) else b in bc.bufs && Lends(old(V()), V(), b.index, n)
      ensures b != bc.head ==> HoldsLatest(V(), b.index, n)
    {
      hide *;
      ghost var v := V();
      Opened();
      Known();
      HomeInside(lay, n);
      b := Get(n);
      Known();
      if b != bc.head {
        LendLatest(lay, v, V(), b.index, n);
      }
      Closed();
    }

    // brelse
    method Release(b: Buf)
      requires Valid() && b in bc.bufs && Held(V(), b.index)
      modifies this`sys, this`at, this`held, this`trace, bc, bc.head, bc.bufs
      ensures Valid() && Returns(old(V()), V(), b.index)
    {
      hide *;
      ghost var v := V();
      Opened();
      Put(b);
      ReturnKeeps(lay, v, V(), b.index);
      Closed();
    }

    // The search for an entry to absorb the write.
    method FindEntry(n: nat) returns (i: nat)
      ensures i <= |lh| && n !in lh[..i]
      ensures i < |lh| ==> lh[i] == n
    {
      i := 0;
      while i < |lh| && lh[i] != n
        invariant i <= |lh| && n !in lh[..i]
      {
        i := i + 1;
      }
    }

    // Gives a buffer on loan new contents and records its block.  Operation k must not exceed its budget.
    method LogWrite(b: Buf, data: Block, ghost k: nat) returns (ok: bool)
      requires Valid() && b in bc.bufs && Held(V(), b.index) && CanLog(lay, V(), b.index, k)
      modifies this`lh, this`sys, this`at, this`held, this`trace, bc, bc.head, bc.bufs
      ensures Valid() && (ok <==> |old(lh)| < LOGSIZE && |old(lh)| < lay.size - 1 && outstanding > 0)
      ensures if ok then Logs(lay, old(V()), V(), b.index, data, k) else V() == old(V())
    {
      if |lh| >= LOGSIZE || |lh| >= lay.size - 1 {
        return false;
      }
      if outstanding < 1 {
        return false;
      }
      ghost var v := V();
      OpsRunning(lay, v, k);
      ghost var w := LogOne(lay, v, b.index, k, data);
      bc.IndexOf(b);
      var i := FindEntry(b.blockno);
      assert lh[..|lh|] == lh;
      AddEntry(b, data, i);
      Note(w);
      LogKeeps(lay, v, w, b.index, data, k);
      ok := true;
    }

    method AddEntry(b: Buf, data: Block, i: nat)
      requires bc.Valid() && b in bc.bufs && i <= |lh| && (i < |lh| ==> lh[i] == b.blockno)
      modifies this`lh, bc, bc.head, bc.bufs
      ensures bc.Valid() && b.index < |old(bc.lines)| && lh == (if i == |old(lh)| then old(lh) + [old(b.blockno)] else old(lh))
      ensures bc.lines == old(bc.lines)[b.index := Logged(old(bc.lines)[b.index], data, i == |old(lh)|)]
    {
      bc.IndexOf(b);
      bc.Modify(b, data);
      bc.IndexOf(b);
      if i == |lh| {
        lh := lh + [b.blockno];
        bc.Bpin(b);
      } else {
        lh := lh[i := b.blockno];
      }
    }

    // The last operation to end commits for all; the others leave that to it.
    method EndOp(ghost k: nat) returns (ok: bool)
      requires Valid() && k < |sys.ops|
      modifies this, bc, bc.head, bc.bufs
      ensures Valid() && outstanding == old(outstanding) - 1
      ensures ok <==> outstanding > 0 || old(lh) == [] || !AllReferenced(old(V().lines))
      ensures if ok && outstanding == 0 then EndsTransaction(lay, old(V()), V(), k) else OneStep(lay, old(V()), V(), End(k))
    {
      hide *;
      ghost var v := V();
      Opened();
      Known();
      OpsRunning(lay, v, k);
      ghost var w := Quick(lay, v, End(k));
      assert !committing;
      Ending(w, k);
      OpEnded(lay, v, w, k);
      Closed();
      ok := true;
      if committing {
        Known();
        ok := Commit();
        if ok {
          ghost var x := V();
          Opened();
          Known();
          CommitsKeeps(lay, w, x);
          ghost var y := Quick(lay, x, Finish);
          FinishDone(lay, v, w, x, y, k);
          Finishes(y);
          Closed();
        }
      }
    }

    method Ending(ghost w: View, ghost k: nat)
      requires Rel() && Ok(lay, w) && w.lines == V().lines && Taken(lay, V().sys, End(k), w.sys)
      requires w.sys.disk == V().sys.disk && |w.sys.ops| == |V().sys.ops| - 1
      modifies this`outstanding, this`committing, this`sys, this`at, this`held, this`trace
      ensures Rel() && V() == w && (committing <==> outstanding == 0) && outstanding == old(outstanding) - 1
    {
      outstanding := outstanding - 1;
      if outstanding == 0 {
        committing := true;
      }
      Note(w);
    }

    method Finishes(ghost w: View)
      requires Rel() && Ok(lay, w) && w.lines == V().lines && Taken(lay, V().sys, Finish, w.sys)
      requires w.sys.disk == V().sys.disk && |w.sys.ops| == |V().sys.ops|
      modifies this`committing, this`sys, this`at, this`held, this`trace
      ensures Rel() && V() == w
    {
      committing := false;
      Note(w);
    }
  }
}
