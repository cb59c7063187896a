/**
 The log's view of the buffer cache as one value, and what bread, bwrite, bunpin and brelse do to it.
 Module LogDevice does the same to real buffers.
 */
module LogView {
  import opened RedoLog
  import opened BufferCache
  import opened LogSystem
  import opened LogCache

  // The buffers, where each block is, who refers to it, the state of module LogSystem that all this amounts
  // to, and the steps of that system taken so far, other than Fill and Evict.
  datatype View = View(lines: seq<Line>, at: map<nat, nat>, held: seq<nat>, sys: State, trace: seq<Step>)

  ghost predicate Ok(lay: Layout, v: View) {
    && Reached(lay, v.sys) && Unique(v.lines)
    && CacheRel(v.lines, v.at, v.sys.cache) && RefRel(v.lines, v.held, v.sys.pinned)
  }

  // bread of block n panics.
  ghost predicate Full(v: View, n: nat) { n !in v.sys.cache && AllReferenced(v.lines) }

  predicate Holds(lines: seq<Line>, k: nat, n: nat, data: Block) {
    k < |lines| && Caches(lines[k], ROOTDEV, n) && lines[k].data == data
  }

  // bread of block n into line k.
  ghost predicate Lends(v: View, w: View, k: nat, n: nat) {
    && Serves(v.lines, k, ROOTDEV, n) && n < |v.sys.disk| && |v.held| == |v.lines|
    && w.lines == v.lines[k := Fetched(v.lines[k], ROOTDEV, n, v.sys.disk[n])]
    && w.held == v.held[k := v.held[k] + 1] && w.trace == v.trace
    && SameReads(v.sys, w.sys) && n in w.sys.cache && Holds(w.lines, k, n, w.sys.cache[n])
  }

  lemma Lend(lay: Layout, v: View, k: nat, n: nat) returns (w: View)
    requires Ok(lay, v) && n < lay.nblocks && Serves(v.lines, k, ROOTDEV, n)
    ensures Ok(lay, w) && Lends(v, w, k, n)
  {
    var t := Refill(lay, v.sys, v.lines, v.at, v.held, k, n);
    var l := Fetched(v.lines[k], ROOTDEV, n, v.sys.disk[n]);
    GotUnique(v.lines, k, l, ROOTDEV, n);
    w := View(v.lines[k := l], (v.at - Victim(v.lines[k], n))[n := k], v.held[k := v.held[k] + 1], t, v.trace);
  }

  // When bread panics, in terms of the buffers.
  lemma FullIff(lay: Layout, v: View, n: nat)
    requires Ok(lay, v)
    ensures Full(v, n) <==> !Cached(v.lines, ROOTDEV, n) && AllReferenced(v.lines)
    ensures |v.sys.disk| == lay.nblocks
  {
    CachedIff(v.lines, v.at, v.sys.cache, n);
    PinnedCached(lay, v.sys, n);
  }

  // Line k is on loan.
  ghost predicate Held(v: View, k: nat) {
    k < |v.lines| == |v.held| && v.lines[k].dev == ROOTDEV && v.held[k] > 0 && v.lines[k].refcnt > 0
  }

  // brelse of line k.
  ghost predicate Returns(v: View, w: View, k: nat) {
    && Held(v, k)
    && w == v.(lines := v.lines[k := v.lines[k].(refcnt := v.lines[k].refcnt - 1)], held := v.held[k := v.held[k] - 1])
  }

  lemma Return(lay: Layout, v: View, k: nat) returns (w: View)
    requires Ok(lay, v) && Held(v, k)
    ensures Ok(lay, w) && Returns(v, w, k)
  {
    var l := v.lines[k].(refcnt := v.lines[k].refcnt - 1);
    w := v.(lines := v.lines[k := l], held := v.held[k := v.held[k] - 1]);
    assert RefOk(v.lines[k], v.held[k], v.sys.pinned);
    StoreSame(v.lines, v.at, v.sys.cache, k, l);
    CountRel(v.lines, v.held, v.sys.pinned, k, l, v.held[k] - 1, v.sys.pinned);
    SameBlockUnique(v.lines, k, l);
  }

  // New contents for line k and bwrite, as one step; InstallNext also has bunpin.
  ghost predicate CanStore(lay: Layout, v: View, k: nat, data: Block, step: Step) {
    && k < |v.lines| && v.lines[k].dev == ROOTDEV && CanWrite(lay, v.sys, step)
    && Written(lay, v.sys, step) == (v.lines[k].blockno, data)
    && (step.InstallNext? ==> v.lines[k].blockno in v.sys.pinned && v.lines[k].refcnt > 0)
  }

  function Rewritten(l: Line, data: Block, unpin: bool): Line {
    l.(data := data, refcnt := if unpin && l.refcnt > 0 then l.refcnt - 1 else l.refcnt)
  }

  ghost predicate Stores(lay: Layout, v: View, w: View, k: nat, data: Block, step: Step) {
    && k < |v.lines| && Taken(lay, v.sys, step, w.sys) && w.at == v.at && w.held == v.held && w.trace == v.trace + [step]
    && w.lines == v.lines[k := Rewritten(v.lines[k], data, step.InstallNext?)]
  }

  lemma Store(lay: Layout, v: View, k: nat, data: Block, step: Step) returns (w: View)
    requires Ok(lay, v) && CanStore(lay, v, k, data, step)
    ensures Ok(lay, w) && Stores(lay, v, w, k, data, step)
    ensures v.lines[k].blockno < |v.sys.disk| && w.sys.disk == v.sys.disk[v.lines[k].blockno := data] && w.sys.ops == v.sys.ops
    ensures Committing(w.sys) == Committing(v.sys)
  {
    var t := ReachStep(lay, v.sys, step);
    ApplyWrites(lay, v.sys, step);
    var l := Rewritten(v.lines[k], data, step.InstallNext?);
    RewriteRel(v.lines, v.at, v.sys.cache, v.held, v.sys.pinned, k, data, step.InstallNext?);
    SameBlockUnique(v.lines, k, l);
    w := View(v.lines[k := l], v.at, v.held, t, v.trace + [step]);
  }

  lemma RewriteRel(lines: seq<Line>, at: map<nat, nat>, cache: map<nat, Block>, held: seq<nat>, pinned: set<nat>,
                   k: nat, data: Block, unpin: bool)
    requires CacheRel(lines, at, cache) && RefRel(lines, held, pinned) && Unique(lines) && k < |lines| && lines[k].dev == ROOTDEV
    requires unpin ==> lines[k].blockno in pinned
    ensures var n, lines' := lines[k].blockno, lines[k := Rewritten(lines[k], data, unpin)];
            CacheRel(lines', at, cache[n := data]) && RefRel(lines', held, if unpin then pinned - {n} else pinned)
  {
    assert LineOk(lines, at, k) && RefOk(lines[k], held[k], pinned);
    var n, l := lines[k].blockno, Rewritten(lines[k], data, unpin);
    StoreRel(lines, at, cache, k, l);
    CountRel(lines, held, pinned, k, l, held[k], if unpin then pinned - {n} else pinned);
    assert held[k := held[k]] == held;
  }

  lemma StoreSame(lines: seq<Line>, at: map<nat, nat>, cache: map<nat, Block>, k: nat, l: Line)
    requires CacheRel(lines, at, cache) && k < |lines| && lines[k].dev == ROOTDEV
    requires Caches(l, ROOTDEV, lines[k].blockno) && l.valid == lines[k].valid && l.data == lines[k].data
    ensures CacheRel(lines[k := l], at, cache)
  {
    assert LineOk(lines, at, k) && AtOk(lines, at, cache, lines[k].blockno);
    StoreRel(lines, at, cache, k, l);
    assert cache[lines[k].blockno := l.data] == cache;
  }

  // ----- one block written through its buffer -----

  // One step has been taken, and all buffers given back.
  ghost predicate Did(lay: Layout, v: View, w: View, step: Step) {
    Steps(lay, v.sys, step, w.sys) && Settled(v.lines, w.lines) && w.held == v.held && w.trace == v.trace + [step]
  }

  ghost predicate CanUpdate(lay: Layout, v: View, n: nat, step: Step) {
    n < lay.nblocks && CanWrite(lay, v.sys, step) && Written(lay, v.sys, step).0 == n && !step.InstallNext?
  }

  // bread of the block, and then its line may be written.
  lemma UpdateStore(lay: Layout, v: View, w: View, k: nat, n: nat, step: Step)
    requires CanUpdate(lay, v, n, step) && Lends(v, w, k, n) && Ok(lay, w)
    ensures CanStore(lay, w, k, Written(lay, v.sys, step).1, step) && w.lines[k].data == Read(v.sys, n)
  {
    WrittenStable(lay, v.sys, w.sys, step);
    assert Read(w.sys, n) == Read(v.sys, n);
  }

  lemma StoreHeld(lay: Layout, v: View, w: View, x: View, k: nat, n: nat, data: Block, step: Step)
    requires Lends(v, w, k, n) && Stores(lay, w, x, k, data, step) && !step.InstallNext?
    ensures Held(x, k)
  {
  }

  lemma UpdateDone(lay: Layout, v: View, w: View, x: View, y: View, k: nat, n: nat, data: Block, step: Step)
    requires CanUpdate(lay, v, n, step) && Lends(v, w, k, n) && Stores(lay, w, x, k, data, step) && Returns(x, y, k)
    ensures Did(lay, v, y, step)
  {
    StepsAfterReads(lay, v.sys, w.sys, step, y.sys);
    forall i | 0 <= i < |v.lines| ensures SettledAt(v.lines[i], y.lines[i]) {
    }
    assert y.held == v.held;
  }

  // ----- one block copied to another -----

  // Two unreferenced buffers.
  ghost predicate TwoFree(lines: seq<Line>) {
    exists i, j :: 0 <= i < j < |lines| && lines[i].refcnt == 0 && lines[j].refcnt == 0
  }

  ghost predicate CanTransfer(lay: Layout, v: View, slot: nat, n: nat, step: Step) {
    && slot < lay.nblocks && n < lay.nblocks && slot != n && CanWrite(lay, v.sys, step)
    && (step.CopyToLog? || step.InstallNext? || step.RecoverNext?)
    && Written(lay, v.sys, step) == (if step.CopyToLog? then (slot, Read(v.sys, n)) else (n, Read(v.sys, slot)))
    && (n in v.sys.pinned || (step.RecoverNext? && TwoFree(v.lines)))
  }

  // The second bread never panics.
  lemma SecondFree(lay: Layout, v: View, w: View, i: nat, slot: nat, n: nat, step: Step)
    requires CanTransfer(lay, v, slot, n, step) && Lends(v, w, i, slot) && Ok(lay, w)
    ensures !Full(w, n)
  {
    if n in v.sys.pinned {
      PinnedCached(lay, w.sys, n);
    } else {
      var a, b :| 0 <= a < b < |v.lines| && v.lines[a].refcnt == 0 && v.lines[b].refcnt == 0;
      assert w.lines[a].refcnt == 0 || w.lines[b].refcnt == 0;
    }
  }

  lemma SameReadsTrans(s: State, t: State, u: State)
    requires SameReads(s, t) && SameReads(t, u)
    ensures SameReads(s, u)
  {
    forall b | 0 <= b < |s.disk| ensures Read(u, b) == Read(s, b) {
      assert Read(t, b) == Read(s, b);
    }
  }

  lemma TransferStore(lay: Layout, v: View, w: View, x: View, i: nat, j: nat, slot: nat, n: nat, step: Step)
    requires CanTransfer(lay, v, slot, n, step) && Lends(v, w, i, slot) && Lends(w, x, j, n) && Ok(lay, x)
    ensures i != j && i < |x.lines| && j < |x.lines|
    ensures if step.CopyToLog? then CanStore(lay, x, i, x.lines[j].data, step) else CanStore(lay, x, j, x.lines[i].data, step)
  {
    assert Fetched(v.lines[i], ROOTDEV, slot, v.sys.disk[slot]).refcnt > 0;
    SameReadsTrans(v.sys, w.sys, x.sys);
    WrittenStable(lay, v.sys, x.sys, step);
    assert Read(x.sys, n) == Read(v.sys, n) && Read(w.sys, slot) == Read(v.sys, slot);
  }

  lemma TransferHeld(lay: Layout, v: View, w: View, x: View, y: View, i: nat, j: nat, slot: nat, n: nat, data: Block, step: Step)
    requires Lends(v, w, i, slot) && Lends(w, x, j, n) && i != j && Stores(lay, x, y, if step.CopyToLog? then i else j, data, step)
    requires Ok(lay, y)
    ensures Held(y, i) && Held(y, j)
  {
    assert RefOk(y.lines[i], y.held[i], y.sys.pinned) && RefOk(y.lines[j], y.held[j], y.sys.pinned);
  }

  lemma StillHeld(v: View, w: View, i: nat, j: nat)
    requires Held(v, i) && Returns(v, w, j) && i != j
    ensures Held(w, i)
  {
  }

  // brelse of both: write_log gives the log block back last, install_trans first.
  ghost predicate Released(y: View, z: View, u: View, i: nat, j: nat, step: Step) {
    if step.CopyToLog? then Returns(y, z, j) && Returns(z, u, i) else Returns(y, z, i) && Returns(z, u, j)
  }

  lemma ReleaseBoth(y: View, z: View, u: View, i: nat, j: nat, step: Step)
    requires Returns(y, z, if step.CopyToLog? then j else i) && Returns(z, u, if step.CopyToLog? then i else j)
    ensures Released(y, z, u, i, j, step)
  {
  }

  lemma TransferDone(lay: Layout, v: View, w: View, x: View, y: View, z: View, u: View, i: nat, j: nat, slot: nat, n: nat,
                     data: Block, step: Step)
    requires CanTransfer(lay, v, slot, n, step) && Lends(v, w, i, slot) && Lends(w, x, j, n) && i != j
    requires Stores(lay, x, y, if step.CopyToLog? then i else j, data, step) && Released(y, z, u, i, j, step)
    ensures Did(lay, v, u, step)
  {
    SameReadsTrans(v.sys, w.sys, x.sys);
    StepsAfterReads(lay, v.sys, x.sys, step, u.sys);
    TransferSettles(lay, v, w, x, y, z, u, i, j, slot, n, data, step);
  }

  lemma TransferSettles(lay: Layout, v: View, w: View, x: View, y: View, z: View, u: View, i: nat, j: nat, slot: nat, n: nat,
                        data: Block, step: Step)
    requires Lends(v, w, i, slot) && Lends(w, x, j, n) && i != j
    requires Stores(lay, x, y, if step.CopyToLog? then i else j, data, step) && Released(y, z, u, i, j, step)
    ensures Settled(v.lines, u.lines) && u.held == v.held
  {
    forall k | 0 <= k < |v.lines| ensures SettledAt(v.lines[k], u.lines[k]) {
    }
  }
}
