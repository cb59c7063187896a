/**
 kernel/log.c over the buffer cache, as a state machine.  File-system operations run
 concurrently between begin_op and end_op; the last one to end commits for all.  Every step
 makes at most one disk write, a crash may come between any two steps, also during recovery,
 and unpinned buffers may be dropped from the cache at any time.
 */
module LogSystem {
  import opened RedoLog

  // Where commit() or recovery stands; t counts the blocks done.
  datatype Phase =
    | Running             // no commit in progress
    | Logging(t: nat)     // write_log
    | Installing(t: nat)  // the header is on disk: install_trans(0)
    | Finishing           // the log is erased, log.committing still set
    | Booting             // after a crash: recovery has not read the header yet
    | Recovering(t: nat)  // install_trans(1)

  // An operation between begin_op and end_op, and the distinct blocks it has logged.
  datatype Op = Op(id: nat, blocks: set<nat>)

  datatype Write = Write(op: nat, bno: nat, data: Block)

  // What has happened so far; the kernel does not store this.  `done` are the writes of committed
  // transactions, `pending` those of the transaction being built, `issued` all writes ever made.
  datatype History = History(base: Disk, done: seq<Write>, pending: seq<Write>, issued: seq<Write>,
                             ended: set<nat>, nextOp: nat)

  datatype State = State(
    disk: Disk,
    cache: map<nat, Block>,  // valid buffers
    pinned: set<nat>,        // blocks whose buffer log_write has pinned
    lh: seq<nat>,            // the in-memory header
    ops: seq<Op>,            // outstanding operations
    phase: Phase,
    committed: Disk,         // what a crash now must recover
    latest: Disk,            // what readers must see
    hist: History)

  datatype Step =
    | Begin
    | LogWrite(k: nat, b: nat, data: Block)
    | End(k: nat)
    | CopyToLog | WriteHead | InstallNext | ClearHead | Finish
    | Fill(b: nat) | Evict(b: nat)
    | Crash
    | ReadHead | RecoverNext | RecoverClear

  // bread: the cached contents if there are any, else the disk's.
  function Read(s: State, b: nat): Block
    requires b < |s.disk|
  {
    if b in s.cache then s.cache[b] else s.disk[b]
  }

  predicate Committing(s: State) {
    s.phase.Logging? || s.phase.Installing? || s.phase.Finishing?
  }

  // log_write's first panic.
  predicate LogWritePanics(lay: Layout, s: State) {
    |s.lh| >= LOGSIZE || |s.lh| >= lay.size - 1
  }

  predicate Enabled(lay: Layout, s: State, step: Step) {
    match step
    case Begin => s.phase.Running? && |s.lh| + (|s.ops| + 1) * MAXOPBLOCKS <= LOGSIZE
    case LogWrite(k, b, data) =>
      && s.phase.Running? && k < |s.ops| && lay.IsHome(b)
      && |s.ops[k].blocks + {b}| <= MAXOPBLOCKS  // the caller's side of the bargain
      && !LogWritePanics(lay, s)
    case End(k) => s.phase.Running? && k < |s.ops|
    case CopyToLog => s.phase.Logging? && s.phase.t < |s.lh|
    case WriteHead => s.phase.Logging? && s.phase.t == |s.lh|
    case InstallNext => s.phase.Installing? && s.phase.t < |s.lh|
    case ClearHead => s.phase.Installing? && s.phase.t == |s.lh|
    case Finish => s.phase.Finishing?
    case Fill(b) => b < lay.nblocks && b !in s.cache
    case Evict(b) => b in s.cache && b !in s.pinned
    case Crash => true
    case ReadHead => s.phase.Booting?
    case RecoverNext => s.phase.Recovering? && s.phase.t < |s.lh|
    case RecoverClear => s.phase.Recovering? && s.phase.t == |s.lh|
  }

  // ----- what every step keeps -----

  predicate Listed(h: seq<nat>, from: nat, b: nat) {
    exists k :: from <= k < |h| && h[k] == b
  }

  ghost predicate Shape(lay: Layout, s: State) {
    && lay.Valid() && |s.disk| == |s.committed| == |s.latest| == lay.nblocks
    && |s.disk[lay.start]| == |Read(s, lay.start)| == WORDS
    && ValidHead(lay, s.lh)
    && s.pinned <= s.cache.Keys
    && (forall b :: b in s.cache ==> b < lay.nblocks)
    && (forall b :: b in s.pinned ==> lay.IsHome(b))
  }

  // An unpinned buffer holds what is on disk.
  ghost predicate CacheOk(lay: Layout, s: State)
    requires Shape(lay, s)
  {
    forall b :: b in s.cache && b !in s.pinned ==> s.cache[b] == s.disk[b]
  }

  // The entries from t on are exactly the pinned blocks, cached with their latest contents.
  ghost predicate PinsFrom(lay: Layout, s: State, t: nat)
    requires Shape(lay, s)
  {
    && (forall b :: b in s.pinned <==> Listed(s.lh, t, b))
    && (forall b :: b in s.pinned ==> s.cache[b] == s.latest[b])
  }

  // No transaction is on disk: all committed contents are in place, and every block changed since is
  // listed in the in-memory header, pinned, and cached with its latest contents.
  ghost predicate Open(lay: Layout, s: State)
    requires Shape(lay, s)
  {
    && Head(s.disk[lay.start]) == []
    && SameHome(lay, s.disk, s.committed)
    && PinsFrom(lay, s, 0)
    && (forall b: nat :: lay.IsHome(b) && b !in s.pinned ==> s.latest[b] == s.committed[b])
  }

  // A transaction is on disk and its first t blocks are installed; the others are still pinned.
  ghost predicate Replaying(lay: Layout, s: State, t: nat)
    requires Shape(lay, s)
  {
    && t <= |s.lh|
    && Head(s.disk[lay.start]) == s.lh
    && SameHome(lay, s.latest, s.committed)
    && s.ops == []
    && (forall k :: 0 <= k < t ==> s.disk[s.lh[k]] == s.committed[s.lh[k]])
  }

  ghost predicate PhaseOk(lay: Layout, s: State)
    requires Shape(lay, s)
  {
    match s.phase
    case Running => Open(lay, s)
    case Logging(t) =>
      && Open(lay, s) && s.ops == [] && t <= |s.lh|
      && (forall k :: 0 <= k < t ==> s.disk[Slot(lay, k)] == s.latest[s.lh[k]])
    case Installing(t) =>
      && Replaying(lay, s, t) && PinsFrom(lay, s, t)
    case Finishing => Open(lay, s) && s.ops == [] && s.lh == [] && SameHome(lay, s.latest, s.committed)
    case Booting => s.ops == [] && s.lh == [] && s.pinned == {} && SameHome(lay, s.latest, s.committed)
    case Recovering(t) => Replaying(lay, s, t) && s.pinned == {}
  }

  ghost predicate Core(lay: Layout, s: State) {
    && Shape(lay, s)
    && Recoverable(lay, s.disk, s.committed)
    && CacheOk(lay, s)
    && PhaseOk(lay, s)
  }

  // bwrite of a buffer holding `data` for block b.
  function WriteThrough(s: State, b: nat, data: Block): State
    requires b < |s.disk|
  {
    s.(disk := s.disk[b := data], cache := s.cache[b := data])
  }

  function DoBegin(s: State): State {
    s.(ops := s.ops + [Op(s.hist.nextOp, {})], hist := s.hist.(nextOp := s.hist.nextOp + 1))
  }

  function DoLogWrite(s: State, k: nat, b: nat, data: Block): State
    requires k < |s.ops| && b < |s.latest|
  {
    var op := s.ops[k];
    var w := Write(op.id, b, data);
    s.(cache := s.cache[b := data],
       lh := if b in s.lh then s.lh else s.lh + [b],
       pinned := s.pinned + {b},
       ops := s.ops[k := op.(blocks := op.blocks + {b})],
       latest := s.latest[b := data],
       hist := s.hist.(pending := s.hist.pending + [w], issued := s.hist.issued + [w]))
  }

  function DoEnd(s: State, k: nat): State
    requires k < |s.ops|
  {
    var rest := s.ops[..k] + s.ops[k + 1..];
    s.(ops := rest,
       phase := if rest != [] then Running else if |s.lh| > 0 then Logging(0) else Finishing,
       hist := s.hist.(ended := s.hist.ended + {s.ops[k].id}))
  }

  ghost function DoCopyToLog(lay: Layout, s: State): State
    requires Shape(lay, s) && s.phase.Logging? && s.phase.t < |s.lh|
  {
    var t := s.phase.t;
    WriteThrough(s, Slot(lay, t), Read(s, s.lh[t])).(phase := Logging(t + 1))
  }

  // The commit point.
  ghost function DoWriteHead(lay: Layout, s: State): State
    requires Shape(lay, s)
  {
    WriteThrough(s, lay.start, PutHead(Read(s, lay.start), s.lh))
    .(phase := Installing(0), committed := s.latest,
      hist := s.hist.(done := s.hist.done + s.hist.pending, pending := []))
  }

  ghost function DoInstallNext(lay: Layout, s: State): State
    requires Shape(lay, s) && s.phase.Installing? && s.phase.t < |s.lh|
  {
    var t := s.phase.t;
    WriteThrough(s, s.lh[t], Read(s, Slot(lay, t))).(pinned := s.pinned - {s.lh[t]}, phase := Installing(t + 1))
  }

  // lh.n = 0; write_head(): at the end of a commit, or of recovery.
  ghost function DoClearHead(lay: Layout, s: State, next: Phase): State
    requires Shape(lay, s)
  {
    WriteThrough(s, lay.start, PutHead(Read(s, lay.start), [])).(lh := [], phase := next)
  }

  function DoFill(s: State, b: nat): State
    requires b < |s.disk|
  {
    s.(cache := s.cache[b := s.disk[b]])
  }

  function DoEvict(s: State, b: nat): State {
    s.(cache := s.cache - {b})
  }

  function DoCrash(s: State): State {
    s.(cache := map[], pinned := {}, lh := [], ops := [], phase := Booting, latest := s.committed,
       hist := s.hist.(pending := []))
  }

  ghost function DoRecoverNext(lay: Layout, s: State): State
    requires Shape(lay, s) && s.phase.Recovering? && s.phase.t < |s.lh|
  {
    var t := s.phase.t;
    WriteThrough(s, s.lh[t], Read(s, Slot(lay, t))).(phase := Recovering(t + 1))
  }

  ghost function Apply(lay: Layout, s: State, step: Step): (t: State)
    requires Shape(lay, s) && Enabled(lay, s, step)
  {
    match step
    case Begin => DoBegin(s)
    case LogWrite(k, b, data) => DoLogWrite(s, k, b, data)
    case End(k) => DoEnd(s, k)
    case CopyToLog => DoCopyToLog(lay, s)
    case WriteHead => DoWriteHead(lay, s)
    case InstallNext => DoInstallNext(lay, s)
    case ClearHead => DoClearHead(lay, s, Finishing)
    case Finish => s.(phase := Running)
    case Fill(b) => DoFill(s, b)
    case Evict(b) => DoEvict(s, b)
    case Crash => DoCrash(s)
    case ReadHead => s.(lh := Head(Read(s, lay.start)), phase := Recovering(0))
    case RecoverNext => DoRecoverNext(lay, s)
    case RecoverClear => DoClearHead(lay, s, Running)
  }

  lemma CoreBegin(lay: Layout, s: State)
    requires Core(lay, s) && s.phase.Running?
    ensures Core(lay, DoBegin(s))
  {
  }

  lemma HeadAppend(lay: Layout, h: seq<nat>, b: nat)
    requires ValidHead(lay, h) && lay.IsHome(b) && b !in h && |h| < LOGSIZE && |h| + 1 < lay.size
    ensures ValidHead(lay, h + [b])
    ensures forall c :: Listed(h + [b], 0, c) <==> Listed(h, 0, c) || c == b
  {
    forall c ensures Listed(h + [b], 0, c) <==> Listed(h, 0, c) || c == b {
      assert (h + [b])[|h|] == b;
      if Listed(h, 0, c) {
        var j :| 0 <= j < |h| && h[j] == c;
        assert (h + [b])[j] == c;
      }
    }
  }

  lemma LogWriteShape(lay: Layout, s: State, k: nat, b: nat, data: Block)
    requires Shape(lay, s) && k < |s.ops| && lay.IsHome(b) && !LogWritePanics(lay, s)
    ensures var t := DoLogWrite(s, k, b, data);
            Shape(lay, t) && forall c :: Listed(t.lh, 0, c) <==> Listed(s.lh, 0, c) || c == b
  {
    if b in s.lh {
      assert Listed(s.lh, 0, b);
    } else {
      HeadAppend(lay, s.lh, b);
    }
  }

  lemma CoreLogWrite(lay: Layout, s: State, k: nat, b: nat, data: Block)
    requires Core(lay, s) && s.phase.Running? && k < |s.ops| && lay.IsHome(b) && !LogWritePanics(lay, s)
    ensures Core(lay, DoLogWrite(s, k, b, data))
  {
    LogWriteShape(lay, s, k, b, data);
  }

  lemma CoreEnd(lay: Layout, s: State, k: nat)
    requires Core(lay, s) && s.phase.Running? && k < |s.ops|
    ensures Core(lay, DoEnd(s, k))
  {
  }

  lemma CopyToLogShape(lay: Layout, s: State)
    requires Shape(lay, s) && CacheOk(lay, s) && s.phase.Logging? && s.phase.t < |s.lh| && Open(lay, s)
    ensures Shape(lay, DoCopyToLog(lay, s)) && CacheOk(lay, DoCopyToLog(lay, s))
    ensures Open(lay, DoCopyToLog(lay, s))
    ensures Read(s, s.lh[s.phase.t]) == s.latest[s.lh[s.phase.t]]
  {
    assert Listed(s.lh, 0, s.lh[s.phase.t]);
  }

  lemma CoreCopyToLog(lay: Layout, s: State)
    requires Core(lay, s) && s.phase.Logging? && s.phase.t < |s.lh|
    ensures Core(lay, DoCopyToLog(lay, s))
  {
    CopyToLogShape(lay, s);
  }

  lemma CoreWriteHead(lay: Layout, s: State)
    requires Core(lay, s) && s.phase == Logging(|s.lh|)
    ensures Core(lay, DoWriteHead(lay, s))
  {
    forall b: nat | lay.IsHome(b) && b !in s.lh ensures b !in s.pinned {}
  }

  // Installing one more block: the slots and the header still say the same.
  lemma InstallOne(lay: Layout, d: Disk, want: Disk, t: nat)
    requires Recoverable(lay, d, want)
    requires var h := Head(d[lay.start]); t < |h| && forall k :: 0 <= k < t ==> d[h[k]] == want[h[k]]
    ensures var h := Head(d[lay.start]);
            var d' := d[h[t] := d[Slot(lay, t)]];
            && Recoverable(lay, d', want) && d'[lay.start] == d[lay.start]
            && (forall k :: 0 <= k < t + 1 ==> d'[h[k]] == want[h[k]])
  {
  }

  // After the last block, all committed contents are in place, so the header may be cleared.
  lemma ClearKeepsRecoverable(lay: Layout, d: Disk, want: Disk)
    requires Recoverable(lay, d, want)
    requires var h := Head(d[lay.start]); forall k :: 0 <= k < |h| ==> d[h[k]] == want[h[k]]
    ensures SameHome(lay, d, want)
    ensures Recoverable(lay, d[lay.start := PutHead(d[lay.start], [])], want)
    ensures SameHome(lay, d[lay.start := PutHead(d[lay.start], [])], want)
  {
    forall b: nat | lay.IsHome(b) ensures d[b] == want[b] {}
  }

  // install_trans unpins as it goes.
  lemma UnpinOne(h: seq<nat>, t: nat)
    requires t < |h| && forall j, k :: 0 <= j < k < |h| ==> h[j] != h[k]
    ensures forall b :: Listed(h, t + 1, b) <==> Listed(h, t, b) && b != h[t]
  {
  }

  lemma InstallNextShape(lay: Layout, s: State)
    requires Shape(lay, s) && CacheOk(lay, s) && s.phase.Installing? && s.phase.t < |s.lh|
    ensures Shape(lay, DoInstallNext(lay, s)) && CacheOk(lay, DoInstallNext(lay, s))
    ensures DoInstallNext(lay, s).disk == s.disk[s.lh[s.phase.t] := s.disk[Slot(lay, s.phase.t)]]
  {
  }

  lemma InstallNextPins(lay: Layout, s: State)
    requires Shape(lay, s) && s.phase.Installing? && s.phase.t < |s.lh| && PinsFrom(lay, s, s.phase.t)
    requires Shape(lay, DoInstallNext(lay, s))
    ensures PinsFrom(lay, DoInstallNext(lay, s), s.phase.t + 1)
  {
    UnpinOne(s.lh, s.phase.t);
  }

  lemma InstallNextReplays(lay: Layout, s: State)
    requires Shape(lay, s) && CacheOk(lay, s) && Recoverable(lay, s.disk, s.committed)
    requires s.phase.Installing? && s.phase.t < |s.lh| && Replaying(lay, s, s.phase.t)
    requires Shape(lay, DoInstallNext(lay, s))
    ensures Recoverable(lay, DoInstallNext(lay, s).disk, s.committed)
    ensures Replaying(lay, DoInstallNext(lay, s), s.phase.t + 1)
  {
    InstallNextShape(lay, s);
    InstallOne(lay, s.disk, s.committed, s.phase.t);
  }

  lemma CoreInstallNext(lay: Layout, s: State)
    requires Core(lay, s) && s.phase.Installing? && s.phase.t < |s.lh|
    ensures Core(lay, DoInstallNext(lay, s))
  {
    InstallNextShape(lay, s);
    InstallNextPins(lay, s);
    InstallNextReplays(lay, s);
  }

  lemma CoreClearHead(lay: Layout, s: State)
    requires Core(lay, s) && s.phase == Installing(|s.lh|)
    ensures Core(lay, DoClearHead(lay, s, Finishing))
  {
    ClearKeepsRecoverable(lay, s.disk, s.committed);
  }

  lemma CoreCrash(lay: Layout, s: State)
    requires Core(lay, s)
    ensures Core(lay, DoCrash(s))
  {
  }

  lemma CoreFill(lay: Layout, s: State, b: nat)
    requires Core(lay, s) && b < lay.nblocks && b !in s.cache
    ensures Core(lay, DoFill(s, b))
  {
  }

  lemma CoreEvict(lay: Layout, s: State, b: nat)
    requires Core(lay, s) && b in s.cache && b !in s.pinned
    ensures Core(lay, DoEvict(s, b))
  {
  }

  lemma CoreReadHead(lay: Layout, s: State)
    requires Core(lay, s) && Enabled(lay, s, ReadHead)
    ensures Core(lay, Apply(lay, s, ReadHead))
  {
  }

  lemma CoreRecoverNext(lay: Layout, s: State)
    requires Core(lay, s) && s.phase.Recovering? && s.phase.t < |s.lh|
    ensures Core(lay, DoRecoverNext(lay, s))
  {
    var t := s.phase.t;
    InstallOne(lay, s.disk, s.committed, t);
    assert Read(s, Slot(lay, t)) == s.disk[Slot(lay, t)];
    assert lay.IsHome(s.lh[t]);
    assert forall k :: 0 <= k < t ==> s.lh[k] != s.lh[t];
  }

  lemma CoreRecoverClear(lay: Layout, s: State)
    requires Core(lay, s) && s.phase == Recovering(|s.lh|)
    ensures Core(lay, DoClearHead(lay, s, Running))
  {
    ClearKeepsRecoverable(lay, s.disk, s.committed);
  }

  lemma StepKeepsCore(lay: Layout, s: State, step: Step)
    requires Core(lay, s) && Enabled(lay, s, step)
    ensures Core(lay, Apply(lay, s, step))
  {
    match step
    case Begin => CoreBegin(lay, s);
    case LogWrite(k, b, data) => CoreLogWrite(lay, s, k, b, data);
    case End(k) => CoreEnd(lay, s, k);
    case CopyToLog => CoreCopyToLog(lay, s);
    case WriteHead => CoreWriteHead(lay, s);
    case InstallNext => CoreInstallNext(lay, s);
    case ClearHead => CoreClearHead(lay, s);
    case Finish =>
    case Fill(b) => CoreFill(lay, s, b);
    case Evict(b) => CoreEvict(lay, s, b);
    case Crash => CoreCrash(lay, s);
    case ReadHead => CoreReadHead(lay, s);
    case RecoverNext => CoreRecoverNext(lay, s);
    case RecoverClear => CoreRecoverClear(lay, s);
  }

  // ----- reservations -----

  // Blocks the outstanding operations may still log, with a budget of m blocks each.
  function Unused(ops: seq<Op>, m: nat): int {
    if ops == [] then 0 else (m - |ops[0].blocks|) + Unused(ops[1..], m)
  }

  ghost predicate Within(ops: seq<Op>, m: nat) {
    forall k :: 0 <= k < |ops| ==> |ops[k].blocks| <= m
  }

  ghost predicate Reserved(s: State) {
    && Within(s.ops, MAXOPBLOCKS)
    && (forall k, b :: 0 <= k < |s.ops| && b in s.ops[k].blocks ==> b in s.lh)
    && |s.lh| + Unused(s.ops, MAXOPBLOCKS) <= LOGSIZE
  }

  lemma {:induction false} UnusedBounds(ops: seq<Op>, m: nat)
    requires Within(ops, m)
    ensures 0 <= Unused(ops, m) <= |ops| * m
    ensures forall k :: 0 <= k < |ops| ==> m - |ops[k].blocks| <= Unused(ops, m)
  {
    if ops != [] {
      UnusedBounds(ops[1..], m);
    }
  }

  lemma {:induction false} UnusedSplit(a: seq<Op>, b: seq<Op>, m: nat)
    ensures Unused(a + b, m) == Unused(a, m) + Unused(b, m)
  {
    if a == [] {
      assert a + b == b;
    } else {
      UnusedSplit(a[1..], b, m);
      assert (a + b)[1..] == a[1..] + b;
    }
  }

  lemma {:induction false} UnusedAt(ops: seq<Op>, k: nat, mid: seq<Op>, m: nat)
    requires k < |ops|
    ensures Unused(ops[..k] + mid + ops[k + 1..], m)
         == Unused(ops, m) - (m - |ops[k].blocks|) + Unused(mid, m)
  {
    var tail := ops[k + 1..];
    UnusedSplit(ops[..k], mid, m);
    UnusedSplit(ops[..k] + mid, tail, m);
    assert ops == ops[..k] + ([ops[k]] + tail);
    UnusedSplit(ops[..k], [ops[k]] + tail, m);
    UnusedSplit([ops[k]], tail, m);
  }

  // A write takes one block from its operation's budget, and at most one slot, if it is new to the operation.
  lemma UnusedLogWrite(s: State, k: nat, b: nat, data: Block, m: nat)
    requires k < |s.ops| && b < |s.latest|
    requires forall k, b :: 0 <= k < |s.ops| && b in s.ops[k].blocks ==> b in s.lh
    ensures var t := DoLogWrite(s, k, b, data);
            |t.lh| + Unused(t.ops, m) <= |s.lh| + Unused(s.ops, m)
  {
    var t := DoLogWrite(s, k, b, data);
    assert t.ops == s.ops[..k] + [t.ops[k]] + s.ops[k + 1..];
    UnusedAt(s.ops, k, [t.ops[k]], m);
    if b !in s.lh {
      assert b !in s.ops[k].blocks;
    } else if b in s.ops[k].blocks {
      assert s.ops[k].blocks + {b} == s.ops[k].blocks;
    }
  }

  lemma ReservedLogWrite(s: State, k: nat, b: nat, data: Block)
    requires Reserved(s) && k < |s.ops| && b < |s.latest| && |s.ops[k].blocks + {b}| <= MAXOPBLOCKS
    ensures Reserved(DoLogWrite(s, k, b, data))
  {
    UnusedLogWrite(s, k, b, data, MAXOPBLOCKS);
  }

  lemma ReservedBegin(s: State)
    requires Reserved(s) && |s.lh| + (|s.ops| + 1) * MAXOPBLOCKS <= LOGSIZE
    ensures Reserved(DoBegin(s))
  {
    UnusedBounds(s.ops, MAXOPBLOCKS);
    UnusedSplit(s.ops, [Op(s.hist.nextOp, {})], MAXOPBLOCKS);
  }

  lemma ReservedEnd(s: State, k: nat)
    requires Reserved(s) && k < |s.ops|
    ensures Reserved(DoEnd(s, k))
  {
    UnusedAt(s.ops, k, [], MAXOPBLOCKS);
    UnusedBounds(s.ops, MAXOPBLOCKS);
    assert s.ops[..k] + [] + s.ops[k + 1..] == s.ops[..k] + s.ops[k + 1..];
  }

  lemma StepKeepsReserved(lay: Layout, s: State, step: Step)
    requires Core(lay, s) && Reserved(s) && Enabled(lay, s, step)
    ensures Reserved(Apply(lay, s, step))
  {
    match step
    case Begin => ReservedBegin(s);
    case LogWrite(k, b, data) => ReservedLogWrite(s, k, b, data);
    case End(k) => ReservedEnd(s, k);
    case ReadHead => assert Read(s, lay.start) == s.disk[lay.start];
    case ClearHead =>
    case RecoverClear =>
    case Crash =>
    case _ => assert Apply(lay, s, step).ops == s.ops && Apply(lay, s, step).lh == s.lh;
  }

  // ----- histories -----

  function Replay(base: Disk, ws: seq<Write>): (d: Disk)
    ensures |d| == |base|
  {
    if ws == [] then base else
      var w := ws[|ws| - 1];
      var d := Replay(base, ws[..|ws| - 1]);
      if w.bno < |d| then d[w.bno := w.data] else d
  }

  lemma {:induction false} ReplayAppend(base: Disk, done: seq<Write>, pending: seq<Write>, w: Write)
    requires w.bno < |base|
    ensures Replay(base, done + (pending + [w])) == Replay(base, done + pending)[w.bno := w.data]
  {
    var ws := done + (pending + [w]);
    assert ws[..|ws| - 1] == done + pending;
  }

  // The writes of one operation.
  function ByOp(ws: seq<Write>, o: nat): seq<Write> {
    if ws == [] then [] else
      ByOp(ws[..|ws| - 1], o) + if ws[|ws| - 1].op == o then [ws[|ws| - 1]] else []
  }

  lemma {:induction false} ByOpConcat(a: seq<Write>, b: seq<Write>, o: nat)
    ensures ByOp(a + b, o) == ByOp(a, o) + ByOp(b, o)
  {
    if b == [] {
      assert a + b == a;
    } else {
      ByOpConcat(a, b[..|b| - 1], o);
      assert (a + b)[..|a + b| - 1] == a + b[..|b| - 1];
    }
  }

  ghost function ActiveIds(ops: seq<Op>): set<nat> {
    set k | 0 <= k < |ops| :: ops[k].id
  }

  // An operation is active, ended, or was cut short by a crash.  Its writes are all committed, or all
  // pending, or all lost.
  ghost predicate OpOk(h: History, active: set<nat>, o: nat) {
    && (o >= h.nextOp ==> ByOp(h.issued, o) == [] && o !in active && o !in h.ended)
    && (o in active ==> o !in h.ended && ByOp(h.pending, o) == ByOp(h.issued, o))
    && (ByOp(h.pending, o) != [] ==>
          (o in active || o in h.ended) && ByOp(h.pending, o) == ByOp(h.issued, o) && ByOp(h.done, o) == [])
    && (ByOp(h.done, o) != [] ==> o in h.ended && ByOp(h.done, o) == ByOp(h.issued, o))
  }

  ghost predicate HistOk(s: State) {
    && s.committed == Replay(s.hist.base, s.hist.done)
    && s.latest == Replay(s.hist.base, s.hist.done + s.hist.pending)
    && (forall j, k :: 0 <= j < k < |s.ops| ==> s.ops[j].id != s.ops[k].id)
    && (forall o :: OpOk(s.hist, ActiveIds(s.ops), o))
  }

  lemma HistBegin(s: State)
    requires HistOk(s)
    ensures HistOk(DoBegin(s))
  {
    var t := DoBegin(s);
    var id0 := s.hist.nextOp;
    assert ActiveIds(t.ops) == ActiveIds(s.ops) + {id0} by {
      assert t.ops[|s.ops|].id == id0;
      assert forall k :: 0 <= k < |s.ops| ==> t.ops[k].id == s.ops[k].id;
    }
    assert OpOk(s.hist, ActiveIds(s.ops), id0);
    assert id0 !in ActiveIds(s.ops);
    assert forall k :: 0 <= k < |s.ops| ==> s.ops[k].id in ActiveIds(s.ops);
    forall o ensures OpOk(t.hist, ActiveIds(t.ops), o) {
      assert OpOk(s.hist, ActiveIds(s.ops), o);
    }
  }

  lemma OpLogWrite(h: History, active: set<nat>, w: Write, o: nat)
    requires OpOk(h, active, o) && w.op in active
    ensures OpOk(h.(pending := h.pending + [w], issued := h.issued + [w]), active, o)
  {
    ByOpConcat(h.pending, [w], o);
    ByOpConcat(h.issued, [w], o);
    assert ByOp([w], o) == if w.op == o then [w] else [];
  }

  lemma HistLogWrite(s: State, k: nat, b: nat, data: Block)
    requires HistOk(s) && k < |s.ops| && b < |s.latest|
    ensures HistOk(DoLogWrite(s, k, b, data))
  {
    var t := DoLogWrite(s, k, b, data);
    var w := Write(s.ops[k].id, b, data);
    ReplayAppend(s.hist.base, s.hist.done, s.hist.pending, w);
    assert ActiveIds(t.ops) == ActiveIds(s.ops) by {
      assert forall j :: 0 <= j < |s.ops| ==> t.ops[j].id == s.ops[j].id;
    }
    assert w.op in ActiveIds(s.ops);
    forall o ensures OpOk(t.hist, ActiveIds(t.ops), o) {
      OpLogWrite(s.hist, ActiveIds(s.ops), w, o);
    }
  }

  lemma HistEnd(s: State, k: nat)
    requires HistOk(s) && k < |s.ops|
    ensures HistOk(DoEnd(s, k))
  {
    var t := DoEnd(s, k);
    var id := s.ops[k].id;
    assert forall j :: 0 <= j < k ==> t.ops[j] == s.ops[j];
    assert forall j :: k <= j < |t.ops| ==> t.ops[j] == s.ops[j + 1];
    assert ActiveIds(t.ops) == ActiveIds(s.ops) - {id} by {
      assert forall j :: k < j < |s.ops| ==> s.ops[j] == t.ops[j - 1];
    }
    assert id in ActiveIds(s.ops);
    forall o ensures OpOk(t.hist, ActiveIds(t.ops), o) {
      assert OpOk(s.hist, ActiveIds(s.ops), o);
    }
  }

  lemma HistWriteHead(lay: Layout, s: State)
    requires Shape(lay, s) && HistOk(s) && s.ops == []
    ensures HistOk(DoWriteHead(lay, s))
  {
    var t := DoWriteHead(lay, s);
    assert t.hist.done + t.hist.pending == t.hist.done;
    forall o ensures OpOk(t.hist, ActiveIds(t.ops), o) {
      assert OpOk(s.hist, ActiveIds(s.ops), o);
      ByOpConcat(s.hist.done, s.hist.pending, o);
    }
  }

  lemma HistCrash(s: State)
    requires HistOk(s)
    ensures HistOk(DoCrash(s))
  {
    var t := DoCrash(s);
    assert t.hist.done + t.hist.pending == t.hist.done;
    forall o ensures OpOk(t.hist, ActiveIds(t.ops), o) {
      assert OpOk(s.hist, ActiveIds(s.ops), o);
    }
  }

  lemma StepKeepsHist(lay: Layout, s: State, step: Step)
    requires Core(lay, s) && HistOk(s) && Enabled(lay, s, step)
    ensures HistOk(Apply(lay, s, step))
    ensures Apply(lay, s, step).hist.base == s.hist.base
  {
    match step
    case Begin => HistBegin(s);
    case LogWrite(k, b, data) => HistLogWrite(s, k, b, data);
    case End(k) => HistEnd(s, k);
    case WriteHead => HistWriteHead(lay, s);
    case Crash => HistCrash(s);
    case _ => assert Apply(lay, s, step).hist == s.hist && Apply(lay, s, step).ops == s.ops;
  }

  // ----- runs -----

  // A machine about to boot from a disk that holds `base`, possibly with a committed transaction
  // still in the log.
  ghost predicate Start(lay: Layout, s: State) {
    && s.phase.Booting? && s.cache == map[] && s.pinned == {} && s.lh == [] && s.ops == []
    && s.hist == History(s.committed, [], [], [], {}, 0) && s.latest == s.committed
    && Recoverable(lay, s.disk, s.committed)
  }

  ghost predicate Taken(lay: Layout, s: State, step: Step, t: State) {
    Shape(lay, s) && Enabled(lay, s, step) && t == Apply(lay, s, step)
  }

  ghost predicate IsRun(lay: Layout, states: seq<State>, steps: seq<Step>) {
    && |states| == |steps| + 1
    && Start(lay, states[0])
    && (forall i {:trigger steps[i]} :: 0 <= i < |steps| ==> Taken(lay, states[i], steps[i], states[i + 1]))
  }

  ghost predicate Inv(lay: Layout, s: State) {
    Core(lay, s) && Reserved(s) && HistOk(s)
  }

  lemma StartInv(lay: Layout, s: State)
    requires Start(lay, s)
    ensures Inv(lay, s) && s.hist.base == s.committed
  {
    assert s.hist.done + s.hist.pending == [];
    assert Core(lay, s);
    forall o ensures OpOk(s.hist, ActiveIds(s.ops), o) {}
  }

  lemma StepKeepsInv(lay: Layout, s: State, step: Step, t: State)
    requires Inv(lay, s) && Taken(lay, s, step, t)
    ensures Inv(lay, t) && t.hist.base == s.hist.base
  {
    StepKeepsCore(lay, s, step);
    StepKeepsReserved(lay, s, step);
    StepKeepsHist(lay, s, step);
  }

  lemma RunStepInv(lay: Layout, states: seq<State>, steps: seq<Step>, i: nat)
    requires IsRun(lay, states, steps) && 0 < i < |states| && Inv(lay, states[i - 1])
    ensures Inv(lay, states[i]) && states[i].hist.base == states[i - 1].hist.base
  {
    assert Taken(lay, states[i - 1], steps[i - 1], states[i]);
    StepKeepsInv(lay, states[i - 1], steps[i - 1], states[i]);
  }

  lemma RunInv(lay: Layout, states: seq<State>, steps: seq<Step>, i: nat)
    requires IsRun(lay, states, steps) && i < |states|
    ensures Inv(lay, states[i]) && states[i].hist.base == states[0].committed
  {
    StartInv(lay, states[0]);
    for j := 1 to i + 1
      invariant Inv(lay, states[j - 1]) && states[j - 1].hist.base == states[0].committed
    {
      RunStepInv(lay, states, steps, j);
    }
  }

  // Crash atomicity.  Wherever a run is cut off, recovery yields exactly the committed writes applied
  // to the initial contents.  The committed writes of an operation are all of its writes or none,
  // and only operations that have ended have any.
  lemma CrashAtomicity(lay: Layout, states: seq<State>, steps: seq<Step>, i: nat)
    requires IsRun(lay, states, steps) && i < |states|
    ensures Recoverable(lay, states[i].disk, states[i].committed)
    ensures SameHome(lay, Recover(lay, states[i].disk), Replay(states[0].committed, states[i].hist.done))
    ensures forall o :: ByOp(states[i].hist.done, o) != [] ==>
              && o in states[i].hist.ended && o !in ActiveIds(states[i].ops)
              && ByOp(states[i].hist.done, o) == ByOp(states[i].hist.issued, o)
  {
    RunInv(lay, states, steps, i);
    var s := states[i];
    RecoverRestores(lay, s.disk, s.committed);
    forall o | ByOp(s.hist.done, o) != []
      ensures o in s.hist.ended && o !in ActiveIds(s.ops) && ByOp(s.hist.done, o) == ByOp(s.hist.issued, o)
    {
      assert OpOk(s.hist, ActiveIds(s.ops), o);
    }
  }

  // What a crash would recover changes at one kind of step only, the first write_head of a commit.
  // At that step it becomes what readers see, with every pending write and no operation active.
  lemma CommitPoint(lay: Layout, states: seq<State>, steps: seq<Step>, i: nat)
    requires IsRun(lay, states, steps) && i < |steps|
    ensures Recoverable(lay, states[i].disk, states[i].committed)
    ensures Recoverable(lay, states[i + 1].disk, states[i + 1].committed)
    ensures steps[i] != WriteHead ==>
              && states[i + 1].hist.done == states[i].hist.done
              && SameHome(lay, Recover(lay, states[i + 1].disk), Recover(lay, states[i].disk))
    ensures steps[i] == WriteHead ==>
              && states[i].ops == []
              && states[i + 1].hist.done == states[i].hist.done + states[i].hist.pending
              && SameHome(lay, Recover(lay, states[i + 1].disk), states[i].latest)
  {
    RunInv(lay, states, steps, i);
    RunInv(lay, states, steps, i + 1);
    assert Taken(lay, states[i], steps[i], states[i + 1]);
    RecoverRestores(lay, states[i].disk, states[i].committed);
    RecoverRestores(lay, states[i + 1].disk, states[i + 1].committed);
    if steps[i] != WriteHead {
      assert states[i + 1].committed == states[i].committed;
    }
  }

  // Between boots the cache and the log are transparent: reading a block returns the last contents
  // logged for it, committed or not.
  lemma ReadsLatest(lay: Layout, states: seq<State>, steps: seq<Step>, i: nat, b: nat)
    requires IsRun(lay, states, steps) && i < |states| && lay.IsHome(b)
    requires !states[i].phase.Booting? && !states[i].phase.Recovering?
    ensures |states[i].disk| == lay.nblocks == |states[0].committed|
    ensures Read(states[i], b) == Replay(states[0].committed, states[i].hist.done + states[i].hist.pending)[b]
  {
    RunInv(lay, states, steps, i);
    ReadIsLatest(lay, states[i], b);
  }

  lemma ReadIsLatest(lay: Layout, s: State, b: nat)
    requires Core(lay, s) && lay.IsHome(b) && !s.phase.Booting? && !s.phase.Recovering?
    ensures Read(s, b) == s.latest[b]
  {
    if b !in s.pinned && s.phase.Installing? {
      assert !Listed(s.lh, s.phase.t, b);
      if b in s.lh {
        var k :| 0 <= k < |s.lh| && s.lh[k] == b;
        assert k < s.phase.t;
      }
    }
  }

  // Reservations: the log never overflows, lists no block twice, uses only slots inside the log,
  // and no operation is outstanding while a commit is under way.
  lemma Reservations(lay: Layout, states: seq<State>, steps: seq<Step>, i: nat)
    requires IsRun(lay, states, steps) && i < |states|
    ensures var s := states[i];
            && |s.lh| + Unused(s.ops, MAXOPBLOCKS) <= LOGSIZE
            && (forall j, k :: 0 <= j < k < |s.lh| ==> s.lh[j] != s.lh[k])
            && (forall k :: 0 <= k < |s.lh| ==> lay.start < Slot(lay, k) < lay.start + lay.size && lay.IsHome(s.lh[k]))
            && (Committing(s) ==> s.ops == [])
  {
    RunInv(lay, states, steps, i);
    var s := states[i];
    assert ValidHead(lay, s.lh);
    forall k | 0 <= k < |s.lh| ensures lay.start < Slot(lay, k) < lay.start + lay.size {
      assert Slot(lay, k) == lay.start + k + 1;
    }
  }

  // Recovery as it runs ends with all committed contents in place and an empty log.
  lemma RecoveryEnds(lay: Layout, states: seq<State>, steps: seq<Step>, i: nat)
    requires IsRun(lay, states, steps) && i < |steps| && steps[i] == RecoverClear
    ensures var t := states[i + 1];
            && |t.disk| == |Replay(states[0].committed, t.hist.done)| == lay.nblocks
            && SameHome(lay, t.disk, Replay(states[0].committed, t.hist.done))
            && Head(t.disk[lay.start]) == [] && t.lh == [] && t.phase.Running?
  {
    RunInv(lay, states, steps, i + 1);
    assert Taken(lay, states[i], steps[i], states[i + 1]);
  }

  // ----- extending runs -----

  lemma RunAppend(lay: Layout, states: seq<State>, steps: seq<Step>, step: Step, t: State)
    requires IsRun(lay, states, steps) && Taken(lay, states[|steps|], step, t)
    ensures IsRun(lay, states + [t], steps + [step])
  {
    var states', steps' := states + [t], steps + [step];
    forall i {:trigger steps'[i]} | 0 <= i < |steps'| ensures Taken(lay, states'[i], steps'[i], states'[i + 1]) {
      if i < |steps| {
        assert steps'[i] == steps[i] && states'[i] == states[i] && states'[i + 1] == states[i + 1];
      }
    }
  }

  lemma Extend(lay: Layout, states: seq<State>, steps: seq<Step>, step: Step)
    returns (states': seq<State>, steps': seq<Step>)
    requires IsRun(lay, states, steps) && Enabled(lay, states[|steps|], step)
    ensures IsRun(lay, states', steps')
    ensures states' == states + [states'[|steps'|]] && steps' == steps + [step]
    ensures Taken(lay, states[|steps|], step, states'[|steps'|])
  {
    RunInv(lay, states, steps, |steps|);
    var t := Apply(lay, states[|steps|], step);
    RunAppend(lay, states, steps, step, t);
    states', steps' := states + [t], steps + [step];
  }

  // A machine with an empty log, booted.
  lemma Booted(lay: Layout) returns (states: seq<State>, steps: seq<Step>)
    requires lay.Valid()
    ensures IsRun(lay, states, steps)
    ensures var s := states[|steps|]; s.phase.Running? && s.lh == [] && s.ops == []
    ensures forall i :: 0 <= i < |states| ==> states[i].ops == []
  {
    var zero: Block := seq(WORDS, _ => 0);
    var d: Disk := seq(lay.nblocks, _ => zero);
    assert Head(zero) == [];
    var s := State(d, map[], {}, [], [], Booting, d, d, History(d, [], [], [], {}, 0));
    assert Start(lay, s);
    states, steps := [s], [];
    states, steps := Extend(lay, states, steps, ReadHead);
    states, steps := Extend(lay, states, steps, RecoverClear);
  }

  // ----- reachable states -----

  ghost predicate EndsRun(lay: Layout, s: State) {
    exists states: seq<State>, steps: seq<Step> :: IsRun(lay, states, steps) && states[|steps|] == s
  }

  // A property that holds at the start and that every step keeps.
  ghost predicate Closed(lay: Layout, P: State -> bool) {
    && (forall s {:trigger Start(lay, s)} :: Start(lay, s) ==> P(s))
    && (forall s, step, t {:trigger Taken(lay, s, step, t)} :: P(s) && Taken(lay, s, step, t) ==> P(t))
  }

  // Reachable: every such property holds of it.
  ghost predicate Reached(lay: Layout, s: State) {
    forall P: State -> bool {:trigger Closed(lay, P)} :: Closed(lay, P) ==> P(s)
  }

  lemma StartReached(lay: Layout, s: State)
    requires Start(lay, s)
    ensures Reached(lay, s)
  {
  }

  lemma ReachStep(lay: Layout, s: State, step: Step) returns (t: State)
    requires Reached(lay, s) && Enabled(lay, s, step)
    ensures Reached(lay, t) && Taken(lay, s, step, t)
  {
    ReachedInv(lay, s);
    t := Apply(lay, s, step);
    assert Taken(lay, s, step, t);
  }

  lemma InvClosed(lay: Layout)
    ensures Closed(lay, s => Inv(lay, s))
  {
    forall s | Start(lay, s) ensures Inv(lay, s) {
      StartInv(lay, s);
    }
    forall s, step, t | Inv(lay, s) && Taken(lay, s, step, t) ensures Inv(lay, t) {
      StepKeepsInv(lay, s, step, t);
    }
  }

  lemma ReachedInv(lay: Layout, s: State)
    requires Reached(lay, s)
    ensures Inv(lay, s)
  {
    InvClosed(lay);
  }

  // The reachable states are those in which a run can end.
  lemma ReachedRun(lay: Layout, s: State)
    ensures Reached(lay, s) <==> EndsRun(lay, s)
  {
    RunsClosed(lay);
    if EndsRun(lay, s) {
      var states: seq<State>, steps: seq<Step> :| IsRun(lay, states, steps) && states[|steps|] == s;
      RunReached(lay, states, steps, |steps|);
    }
  }

  lemma RunsClosed(lay: Layout)
    ensures Closed(lay, s => EndsRun(lay, s))
  {
    forall s | Start(lay, s) ensures EndsRun(lay, s) {
      assert IsRun(lay, [s], []);
    }
    forall s, step, t | EndsRun(lay, s) && Taken(lay, s, step, t) ensures EndsRun(lay, t) {
      RunGoesOn(lay, s, step, t);
    }
  }

  lemma RunGoesOn(lay: Layout, s: State, step: Step, t: State)
    requires EndsRun(lay, s) && Taken(lay, s, step, t)
    ensures EndsRun(lay, t)
  {
    var states: seq<State>, steps: seq<Step> :| IsRun(lay, states, steps) && states[|steps|] == s;
    RunAppend(lay, states, steps, step, t);
    assert (states + [t])[|steps + [step]|] == t;
  }

  lemma {:induction false} RunReached(lay: Layout, states: seq<State>, steps: seq<Step>, i: nat)
    requires IsRun(lay, states, steps) && i < |states|
    ensures Reached(lay, states[i])
  {
    if i == 0 {
      StartReached(lay, states[0]);
    } else {
      RunReached(lay, states, steps, i - 1);
      assert Taken(lay, states[i - 1], steps[i - 1], states[i]);
    }
  }
}
