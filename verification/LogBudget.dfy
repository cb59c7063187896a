/**
 When log_write panics (kernel/log.c).  Its test comes before the search for an entry that absorbs the write,
 so it may hit an operation that keeps to its budget.  For every budget m of distinct blocks per operation
 and every size of the log, this module says exactly whether that can happen.
 */
module LogBudget {
  import opened RedoLog
  import opened LogSystem

  // Every operation logs at most m distinct blocks.
  ghost predicate IsThriftyRun(lay: Layout, states: seq<State>, steps: seq<Step>, m: nat) {
    IsRun(lay, states, steps) && forall i :: 0 <= i < |states| ==> Within(states[i].ops, m)
  }

  // Operation k calls log_write for block b, within its budget, and meets the panic.
  predicate PanicsAt(lay: Layout, s: State, k: nat, b: nat, m: nat) {
    s.phase.Running? && k < |s.ops| && lay.IsHome(b) && |s.ops[k].blocks + {b}| <= m && LogWritePanics(lay, s)
  }

  ghost predicate PanicReachable(lay: Layout, m: nat) {
    exists states: seq<State>, steps: seq<Step>, k: nat, b: nat ::
      IsThriftyRun(lay, states, steps, m) && PanicsAt(lay, states[|steps|], k, b, m)
  }

  // The same with a block that the operation has not logged before.
  ghost predicate NewBlockPanicReachable(lay: Layout, m: nat) {
    exists states: seq<State>, steps: seq<Step>, k: nat, b: nat ::
      && IsThriftyRun(lay, states, steps, m) && PanicsAt(lay, states[|steps|], k, b, m)
      && b !in states[|steps|].ops[k].blocks
  }

  function Min(a: int, b: int): int { if a < b then a else b }

  // The number of listed blocks from which on log_write panics.
  function Limit(lay: Layout): int { Min(LOGSIZE, lay.size - 1) }

  // ----- how full the log can get -----

  // begin_op reserves MAXOPBLOCKS for each operation, also for those that have used less.  While one
  // operation is outstanding others can come and go until MAXOPBLOCKS are listed, and then two can use up
  // their budgets.
  ghost predicate Bounded(s: State, m: nat) {
    s.phase.Running? ==>
      && (s.ops == [] ==> s.lh == [])
      && |s.lh| + Unused(s.ops, m) <= MAXOPBLOCKS + 2 * m
  }

  lemma BeginBounded(s: State, m: nat)
    requires Bounded(s, m) && Within(s.ops, m) && m <= MAXOPBLOCKS
    requires s.phase.Running? && |s.lh| + (|s.ops| + 1) * MAXOPBLOCKS <= LOGSIZE
    ensures Bounded(DoBegin(s), m)
  {
    UnusedBounds(s.ops, m);
    UnusedSplit(s.ops, [Op(s.hist.nextOp, {})], m);
    assert |s.ops| <= 2;
    assert |s.ops| == 0 || |s.ops| == 1 || |s.ops| == 2;
  }

  lemma EndBounded(s: State, k: nat, m: nat)
    requires Bounded(s, m) && Within(s.ops, m) && k < |s.ops| && s.phase.Running?
    ensures Bounded(DoEnd(s, k), m)
  {
    UnusedAt(s.ops, k, [], m);
    assert s.ops[..k] + [] + s.ops[k + 1..] == s.ops[..k] + s.ops[k + 1..];
  }

  lemma StepBounded(lay: Layout, s: State, step: Step, m: nat)
    requires Inv(lay, s) && Enabled(lay, s, step) && Bounded(s, m) && Within(s.ops, m) && m <= MAXOPBLOCKS
    ensures Bounded(Apply(lay, s, step), m)
  {
    match step
    case Begin => BeginBounded(s, m);
    case LogWrite(k, b, data) => UnusedLogWrite(s, k, b, data, m);
    case End(k) => EndBounded(s, k, m);
    case Fill(b) => assert Apply(lay, s, step).ops == s.ops;
    case Evict(b) => assert Apply(lay, s, step).ops == s.ops;
    case _ =>
  }

  lemma RunStepBounded(lay: Layout, states: seq<State>, steps: seq<Step>, m: nat, i: nat)
    requires IsThriftyRun(lay, states, steps, m) && m <= MAXOPBLOCKS && 0 < i < |states| && Bounded(states[i - 1], m)
    ensures Bounded(states[i], m)
  {
    RunInv(lay, states, steps, i - 1);
    assert Taken(lay, states[i - 1], steps[i - 1], states[i]);
    StepBounded(lay, states[i - 1], steps[i - 1], m);
  }

  lemma RunBounded(lay: Layout, states: seq<State>, steps: seq<Step>, m: nat, i: nat)
    requires IsThriftyRun(lay, states, steps, m) && m <= MAXOPBLOCKS && i < |states|
    ensures Bounded(states[i], m)
  {
    for j := 1 to i + 1
      invariant Bounded(states[j - 1], m)
    {
      RunStepBounded(lay, states, steps, m, j);
    }
  }

  // A panic needs that many listed blocks.
  lemma PanicNeeds(lay: Layout, states: seq<State>, steps: seq<Step>, k: nat, b: nat, m: nat)
    requires IsThriftyRun(lay, states, steps, m) && m <= MAXOPBLOCKS && PanicsAt(lay, states[|steps|], k, b, m)
    ensures Limit(lay) <= MAXOPBLOCKS + 2 * m
    ensures b !in states[|steps|].ops[k].blocks ==> Limit(lay) < MAXOPBLOCKS + 2 * m
  {
    var s := states[|steps|];
    RunBounded(lay, states, steps, m, |steps|);
    UnusedBounds(s.ops, m);
  }

  // ----- filling the log -----

  // The n-th block outside the log.
  function HomeAt(lay: Layout, n: nat): nat {
    if n < lay.start then n else n + lay.size
  }

  // n distinct blocks are listed.
  ghost predicate Lists(lay: Layout, s: State, n: nat) {
    s.phase.Running? && |s.lh| == n && forall i :: 0 <= i < n ==> s.lh[i] == HomeAt(lay, i)
  }

  lemma BlockListed(lay: Layout, states: seq<State>, steps: seq<Step>, k: nat, b: nat)
    requires IsRun(lay, states, steps) && k < |states[|steps|].ops|
    ensures b in states[|steps|].ops[k].blocks ==> b in states[|steps|].lh && lay.IsHome(b)
  {
    RunInv(lay, states, steps, |steps|);
    assert ValidHead(lay, states[|steps|].lh);
  }

  // Operation k logs a block that is not listed yet.
  lemma LogNew(lay: Layout, states: seq<State>, steps: seq<Step>, m: nat, n: nat, k: nat)
    returns (states': seq<State>, steps': seq<Step>)
    requires IsThriftyRun(lay, states, steps, m) && m <= MAXOPBLOCKS && Lists(lay, states[|steps|], n)
    requires n < Limit(lay) && n < lay.nblocks - lay.size && k < |states[|steps|].ops| && |states[|steps|].ops[k].blocks| < m
    ensures IsThriftyRun(lay, states', steps', m) && Lists(lay, states'[|steps'|], n + 1)
    ensures var s, t := states[|steps|], states'[|steps'|];
            |t.ops| == |s.ops| && forall j :: 0 <= j < |s.ops| ==> |t.ops[j].blocks| == |s.ops[j].blocks| + if j == k then 1 else 0
  {
    var b := HomeAt(lay, n);
    assert b !in states[|steps|].lh;
    BlockListed(lay, states, steps, k, b);
    states', steps' := Extend(lay, states, steps, LogWrite(k, b, []));
  }

  lemma ExtendThrifty(lay: Layout, states: seq<State>, steps: seq<Step>, step: Step, m: nat)
    returns (states': seq<State>, steps': seq<Step>)
    requires IsThriftyRun(lay, states, steps, m) && Enabled(lay, states[|steps|], step)
    requires Shape(lay, states[|steps|]) && Within(Apply(lay, states[|steps|], step).ops, m)
    ensures IsThriftyRun(lay, states', steps', m) && states'[|steps'|] == Apply(lay, states[|steps|], step)
  {
    states', steps' := Extend(lay, states, steps, step);
  }

  // One more operation begins.
  lemma BeginOne(lay: Layout, states: seq<State>, steps: seq<Step>, m: nat, n: nat)
    returns (states': seq<State>, steps': seq<Step>)
    requires IsThriftyRun(lay, states, steps, m) && Lists(lay, states[|steps|], n)
    requires n + (|states[|steps|].ops| + 1) * MAXOPBLOCKS <= LOGSIZE
    ensures IsThriftyRun(lay, states', steps', m) && Lists(lay, states'[|steps'|], n)
    ensures var s, t := states[|steps|], states'[|steps'|];
            |t.ops| == |s.ops| + 1 && t.ops[..|s.ops|] == s.ops && t.ops[|s.ops|].blocks == {}
  {
    RunInv(lay, states, steps, |steps|);
    states', steps' := ExtendThrifty(lay, states, steps, Begin, m);
  }

  // Operations come, log one block and go, while one that has logged nothing stays.
  lemma {:induction false} FillByOthers(lay: Layout, m: nat, n: nat) returns (states: seq<State>, steps: seq<Step>)
    requires lay.Valid() && 1 <= m <= MAXOPBLOCKS && n <= MAXOPBLOCKS && n <= Limit(lay) && n <= lay.nblocks - lay.size
    ensures IsThriftyRun(lay, states, steps, m) && Lists(lay, states[|steps|], n)
    ensures |states[|steps|].ops| == 1 && |states[|steps|].ops[0].blocks| == 0
  {
    if n == 0 {
      states, steps := Booted(lay);
      states, steps := BeginOne(lay, states, steps, m, 0);
    } else {
      states, steps := FillByOthers(lay, m, n - 1);
      states, steps := BeginOne(lay, states, steps, m, n - 1);
      states, steps := LogNew(lay, states, steps, m, n - 1, 1);
      states, steps := EndSecond(lay, states, steps, m, n);
    }
  }

  lemma EndSecond(lay: Layout, states: seq<State>, steps: seq<Step>, m: nat, n: nat)
    returns (states': seq<State>, steps': seq<Step>)
    requires IsThriftyRun(lay, states, steps, m) && Lists(lay, states[|steps|], n) && |states[|steps|].ops| == 2
    ensures IsThriftyRun(lay, states', steps', m) && Lists(lay, states'[|steps'|], n)
    ensures states'[|steps'|].ops == [states[|steps|].ops[0]]
  {
    RunInv(lay, states, steps, |steps|);
    assert DoEnd(states[|steps|], 1).ops == [states[|steps|].ops[0]];
    states', steps' := ExtendThrifty(lay, states, steps, End(1), m);
  }

  // Then a second operation uses up its budget, and after it the first.
  lemma {:induction false} FillByTwo(lay: Layout, m: nat, n: nat) returns (states: seq<State>, steps: seq<Step>)
    requires lay.Valid() && 1 <= m <= MAXOPBLOCKS && n <= Limit(lay) && n <= lay.nblocks - lay.size
    requires MAXOPBLOCKS <= n <= MAXOPBLOCKS + 2 * m
    ensures IsThriftyRun(lay, states, steps, m) && Lists(lay, states[|steps|], n) && |states[|steps|].ops| == 2
    ensures |states[|steps|].ops[1].blocks| == Min(n - MAXOPBLOCKS, m)
    ensures |states[|steps|].ops[0].blocks| == n - MAXOPBLOCKS - Min(n - MAXOPBLOCKS, m)
  {
    if n == MAXOPBLOCKS {
      states, steps := FillByOthers(lay, m, n);
      states, steps := BeginOne(lay, states, steps, m, n);
    } else {
      states, steps := FillByTwo(lay, m, n - 1);
      states, steps := LogNew(lay, states, steps, m, n - 1, if n - 1 - MAXOPBLOCKS < m then 1 else 0);
    }
  }

  // The first operation can be brought to the panic: with a block of its own once its budget is used up, and
  // with a new one before.
  lemma FirstPanics(lay: Layout, m: nat) returns (states: seq<State>, steps: seq<Step>, b: nat)
    requires lay.Valid() && 1 <= m <= MAXOPBLOCKS && lay.nblocks - lay.size >= LOGSIZE && Limit(lay) <= MAXOPBLOCKS + 2 * m
    ensures IsThriftyRun(lay, states, steps, m) && PanicsAt(lay, states[|steps|], 0, b, m)
    ensures Limit(lay) < MAXOPBLOCKS + 2 * m ==> b !in states[|steps|].ops[0].blocks
  {
    var n := Limit(lay);
    if n <= MAXOPBLOCKS {
      states, steps := FillByOthers(lay, m, n);
    } else {
      states, steps := FillByTwo(lay, m, n);
    }
    var s := states[|steps|];
    if n < MAXOPBLOCKS + 2 * m {
      b := HomeAt(lay, n);
      assert b !in s.lh;
      BlockListed(lay, states, steps, 0, b);
    } else {
      b :| b in s.ops[0].blocks;
      BlockListed(lay, states, steps, 0, b);
      assert s.ops[0].blocks + {b} == s.ops[0].blocks;
    }
  }

  // The exact condition: with budgets of m blocks a log_write can meet the panic exactly if the limit is at
  // most MAXOPBLOCKS + 2m listed blocks, and one of a block new to its operation exactly if it is less.
  lemma PanicsIff(lay: Layout, m: nat)
    requires lay.Valid() && 1 <= m <= MAXOPBLOCKS && lay.nblocks - lay.size >= LOGSIZE
    ensures PanicReachable(lay, m) <==> Limit(lay) <= MAXOPBLOCKS + 2 * m
    ensures NewBlockPanicReachable(lay, m) <==> Limit(lay) < MAXOPBLOCKS + 2 * m
  {
    if PanicReachable(lay, m) {
      var states: seq<State>, steps: seq<Step>, k: nat, b: nat :|
        IsThriftyRun(lay, states, steps, m) && PanicsAt(lay, states[|steps|], k, b, m);
      PanicNeeds(lay, states, steps, k, b, m);
    }
    if NewBlockPanicReachable(lay, m) {
      var states: seq<State>, steps: seq<Step>, k: nat, b: nat :|
        && IsThriftyRun(lay, states, steps, m) && PanicsAt(lay, states[|steps|], k, b, m)
        && b !in states[|steps|].ops[k].blocks;
      PanicNeeds(lay, states, steps, k, b, m);
    }
    if Limit(lay) <= MAXOPBLOCKS + 2 * m {
      var states, steps, b := FirstPanics(lay, m);
    }
  }

  // With the documented budget of MAXOPBLOCKS the panic is reachable however large the log is, and by a new
  // block exactly if the log has no more than LOGSIZE blocks, header included.  With the log that mkfs makes
  // every smaller budget is safe.
  lemma DocumentedBudget(lay: Layout, m: nat)
    requires lay.Valid() && 1 <= m <= MAXOPBLOCKS && lay.nblocks - lay.size >= LOGSIZE
    ensures PanicReachable(lay, MAXOPBLOCKS)
    ensures NewBlockPanicReachable(lay, MAXOPBLOCKS) <==> lay.size <= LOGSIZE
    ensures lay.size >= LOGSIZE && m < MAXOPBLOCKS ==> !PanicReachable(lay, m)
  {
    PanicsIff(lay, MAXOPBLOCKS);
    PanicsIff(lay, m);
  }
}
