/**
 How the lines of the buffer cache (module BufferCache) make up the cache of module LogSystem: which line
 holds which block of the root device, and who refers to it.
 */
module LogCache {
  import opened RedoLog
  import opened BufferCache
  import opened LogSystem

  const ROOTDEV := 1

  // at says in which line a block is.
  ghost predicate CacheRel(lines: seq<Line>, at: map<nat, nat>, cache: map<nat, Block>) {
    && cache.Keys == at.Keys
    && (forall n {:trigger AtOk(lines, at, cache, n)} :: n in at ==> AtOk(lines, at, cache, n))
    && (forall i {:trigger LineOk(lines, at, i)} :: 0 <= i < |lines| ==> LineOk(lines, at, i))
  }

  ghost predicate AtOk(lines: seq<Line>, at: map<nat, nat>, cache: map<nat, Block>, n: nat)
    requires n in at
  {
    n in cache && at[n] < |lines| && Caches(lines[at[n]], ROOTDEV, n) && lines[at[n]].valid && lines[at[n]].data == cache[n]
  }

  predicate LineOk(lines: seq<Line>, at: map<nat, nat>, i: nat)
    requires i < |lines|
  {
    lines[i].dev == ROOTDEV ==> lines[i].valid && lines[i].blockno in at && at[lines[i].blockno] == i
  }

  // Every reference is that of a holder, or the one with which log_write pins a block.
  ghost predicate RefRel(lines: seq<Line>, held: seq<nat>, pinned: set<nat>) {
    |held| == |lines| && forall i {:trigger RefOk(lines[i], held[i], pinned)} :: 0 <= i < |lines| ==> RefOk(lines[i], held[i], pinned)
  }

  predicate IsPinned(l: Line, pinned: set<nat>) { l.dev == ROOTDEV && l.blockno in pinned }

  predicate RefOk(l: Line, h: nat, pinned: set<nat>) {
    l.refcnt == h + if IsPinned(l, pinned) then 1 else 0
  }

  lemma CachedIff(lines: seq<Line>, at: map<nat, nat>, cache: map<nat, Block>, n: nat)
    requires CacheRel(lines, at, cache)
    ensures Cached(lines, ROOTDEV, n) <==> n in cache
    ensures n in cache ==> n in at && at[n] < |lines| && Caches(lines[at[n]], ROOTDEV, n) && lines[at[n]].valid && lines[at[n]].data == cache[n]
  {
    if n in cache {
      assert AtOk(lines, at, cache, n);
    }
    forall i | 0 <= i < |lines| && Caches(lines[i], ROOTDEV, n) ensures n in cache {
      assert LineOk(lines, at, i);
    }
  }

  // ----- bread as steps of the log system -----

  // The block that has to go when line k is given to block n.
  function Victim(l: Line, n: nat): set<nat> {
    if l.dev == ROOTDEV && l.blockno != n then {l.blockno} else {}
  }

  // What bread does: at most one eviction and one fill, each a step that was enabled.
  ghost predicate BreadSteps(lay: Layout, s: State, t: State, n: nat, victim: set<nat>) {
    && n < |s.disk| && |victim| <= 1 && (forall v :: v in victim ==> Enabled(lay, s, Evict(v)))
    && t == s.(cache := (s.cache - victim)[n := if n in s.cache then s.cache[n] else s.disk[n]])
    && (n in s.cache ==> victim == {} && t == s)
  }

  lemma FetchRel(lines: seq<Line>, at: map<nat, nat>, cache: map<nat, Block>, k: nat, n: nat, data: Block)
    requires CacheRel(lines, at, cache) && Unique(lines) && Serves(lines, k, ROOTDEV, n)
    ensures var l := Fetched(lines[k], ROOTDEV, n, data);
            && l.valid && l.data == (if n in cache then cache[n] else data)
            && (n in cache ==> l == lines[k].(refcnt := lines[k].refcnt + 1) && at[n] == k)
            && CacheRel(lines[k := l], (at - Victim(lines[k], n))[n := k], (cache - Victim(lines[k], n))[n := l.data])
  {
    var l := Fetched(lines[k], ROOTDEV, n, data);
    var lines', at', cache' := lines[k := l], (at - Victim(lines[k], n))[n := k], (cache - Victim(lines[k], n))[n := l.data];
    assert LineOk(lines, at, k);
    CachedIff(lines, at, cache, n);
    forall i | 0 <= i < |lines'| ensures LineOk(lines', at', i) {
      assert LineOk(lines, at, i);
    }
    forall m | m in at' ensures AtOk(lines', at', cache', m) {
      assert m != n ==> AtOk(lines, at, cache, m);
    }
  }

  lemma FetchRefs(lines: seq<Line>, held: seq<nat>, pinned: set<nat>, k: nat, n: nat, data: Block)
    requires RefRel(lines, held, pinned) && Serves(lines, k, ROOTDEV, n) && (n in pinned ==> Caches(lines[k], ROOTDEV, n))
    ensures RefRel(lines[k := Fetched(lines[k], ROOTDEV, n, data)], held[k := held[k] + 1], pinned)
    ensures forall v :: v in Victim(lines[k], n) ==> v !in pinned
  {
    var lines', held' := lines[k := Fetched(lines[k], ROOTDEV, n, data)], held[k := held[k] + 1];
    assert RefOk(lines[k], held[k], pinned);
    forall i | 0 <= i < |lines'| ensures RefOk(lines'[i], held'[i], pinned) {
      assert RefOk(lines[i], held[i], pinned);
    }
  }

  // ----- a block is overwritten -----

  lemma StoreRel(lines: seq<Line>, at: map<nat, nat>, cache: map<nat, Block>, k: nat, l: Line)
    requires CacheRel(lines, at, cache) && k < |lines| && lines[k].dev == ROOTDEV
    requires Caches(l, ROOTDEV, lines[k].blockno) && l.valid
    ensures CacheRel(lines[k := l], at, cache[lines[k].blockno := l.data])
  {
    var n := lines[k].blockno;
    var lines', cache' := lines[k := l], cache[n := l.data];
    assert LineOk(lines, at, k) && AtOk(lines, at, cache, n);
    forall i | 0 <= i < |lines'| ensures LineOk(lines', at, i) {
      assert LineOk(lines, at, i);
    }
    forall m | m in at ensures AtOk(lines', at, cache', m) {
      assert AtOk(lines, at, cache, m);
    }
  }

  // Changing a reference count, and with it the holders or the pins of that block.
  lemma CountRel(lines: seq<Line>, held: seq<nat>, pinned: set<nat>, k: nat, l: Line, h: nat, pinned': set<nat>)
    requires RefRel(lines, held, pinned) && k < |lines| && Unique(lines) && lines[k].dev == ROOTDEV
    requires Caches(l, ROOTDEV, lines[k].blockno) && RefOk(l, h, pinned')
    requires forall n :: n != lines[k].blockno ==> (n in pinned' <==> n in pinned)
    ensures RefRel(lines[k := l], held[k := h], pinned')
  {
    var lines', held' := lines[k := l], held[k := h];
    forall i | 0 <= i < |lines'| ensures RefOk(lines'[i], held'[i], pinned') {
      assert RefOk(lines[i], held[i], pinned);
      assert if i < k then Apart(lines[i], lines[k]) else i > k ==> Apart(lines[k], lines[i]);
    }
  }

  // The steps themselves.
  lemma BreadReaches(lay: Layout, s: State, n: nat, victim: set<nat>) returns (t: State)
    requires Reached(lay, s) && n < |s.disk| == lay.nblocks && |victim| <= 1 && n !in victim
    requires (forall v :: v in victim ==> v in s.cache && v !in s.pinned) && (n in s.cache ==> victim == {})
    ensures Reached(lay, t) && BreadSteps(lay, s, t, n, victim)
  {
    t := s;
    if n in s.cache {
      assert (s.cache - victim)[n := s.cache[n]] == s.cache;
    } else {
      if v :| v in victim {
        One(victim, v);
        t := ReachStep(lay, t, Evict(v));
      } else {
        assert s.cache - victim == s.cache;
      }
      t := ReachStep(lay, t, Fill(n));
    }
  }

  lemma One(victim: set<nat>, v: nat)
    requires |victim| <= 1 && v in victim
    ensures victim == {v}
  {
    var rest := victim - {v};
    assert |rest| == 0;
    assert victim == rest + {v};
  }

  // Only which clean blocks are cached has changed, so every read gives what it gave.
  predicate SameBut(s: State, t: State) { t == s.(cache := t.cache) }

  lemma BreadKeeps(lay: Layout, s: State, t: State, n: nat, victim: set<nat>)
    requires Reached(lay, s) && BreadSteps(lay, s, t, n, victim)
    ensures SameBut(s, t) && n in t.cache && t.cache[n] == Read(s, n)
    ensures forall b :: 0 <= b < |s.disk| ==> Read(t, b) == Read(s, b)
  {
    ReachedInv(lay, s);
    forall b | 0 <= b < |s.disk| ensures Read(t, b) == Read(s, b) {
      if b in victim {
        assert Enabled(lay, s, Evict(b));
      }
    }
  }

  lemma PinnedCached(lay: Layout, s: State, n: nat)
    requires Reached(lay, s)
    ensures n in s.pinned ==> n in s.cache && lay.IsHome(n)
    ensures n in s.cache ==> n < lay.nblocks
    ensures lay.Valid() && |s.disk| == lay.nblocks && |Read(s, lay.start)| == WORDS
  {
    ReachedInv(lay, s);
  }

  lemma VictimCached(lines: seq<Line>, at: map<nat, nat>, cache: map<nat, Block>, k: nat, n: nat)
    requires CacheRel(lines, at, cache) && Serves(lines, k, ROOTDEV, n)
    ensures |Victim(lines[k], n)| <= 1 && n !in Victim(lines[k], n) && forall v :: v in Victim(lines[k], n) ==> v in cache
    ensures n in cache ==> Victim(lines[k], n) == {}
  {
    assert LineOk(lines, at, k);
    CachedIff(lines, at, cache, n);
  }

  // What bread does to the lines is those steps.
  lemma Refill(lay: Layout, s: State, lines: seq<Line>, at: map<nat, nat>, held: seq<nat>, k: nat, n: nat) returns (t: State)
    requires Reached(lay, s) && CacheRel(lines, at, s.cache) && RefRel(lines, held, s.pinned) && Unique(lines)
    requires n < lay.nblocks && Serves(lines, k, ROOTDEV, n)
    ensures n < |s.disk| && Reached(lay, t) && BreadSteps(lay, s, t, n, Victim(lines[k], n))
    ensures var lines' := lines[k := Fetched(lines[k], ROOTDEV, n, s.disk[n])];
            && CacheRel(lines', (at - Victim(lines[k], n))[n := k], t.cache)
            && RefRel(lines', held[k := held[k] + 1], t.pinned)
            && n in t.cache && lines'[k].data == Read(t, n)
    ensures SameReads(s, t)
  {
    PinnedCached(lay, s, n);
    CachedIff(lines, at, s.cache, n);
    FetchRel(lines, at, s.cache, k, n, s.disk[n]);
    FetchRefs(lines, held, s.pinned, k, n, s.disk[n]);
    VictimCached(lines, at, s.cache, k, n);
    t := BreadReaches(lay, s, n, Victim(lines[k], n));
    BreadKeeps(lay, s, t, n, Victim(lines[k], n));
  }

  // ----- references over a whole operation -----

  // No reference has been gained, and referenced lines hold the blocks they held.
  ghost predicate Settled(a: seq<Line>, b: seq<Line>) {
    |b| == |a| && forall i {:trigger SettledAt(a[i], b[i])} :: 0 <= i < |a| ==> SettledAt(a[i], b[i])
  }

  predicate SettledAt(x: Line, y: Line) {
    y.refcnt <= x.refcnt && (y.refcnt > 0 ==> y.dev == x.dev && y.blockno == x.blockno)
  }

  // Only blocks outside the log are referred to from outside the log code.
  ghost predicate Quiet(lay: Layout, lines: seq<Line>) {
    forall i {:trigger QuietAt(lay, lines[i])} :: 0 <= i < |lines| ==> QuietAt(lay, lines[i])
  }

  predicate QuietAt(lay: Layout, l: Line) { l.refcnt > 0 && l.dev == ROOTDEV ==> lay.IsHome(l.blockno) }

  lemma SettledTrans(a: seq<Line>, b: seq<Line>, c: seq<Line>)
    requires Settled(a, b) && Settled(b, c)
    ensures Settled(a, c)
  {
    forall i | 0 <= i < |a| ensures SettledAt(a[i], c[i]) {
      assert SettledAt(a[i], b[i]) && SettledAt(b[i], c[i]);
    }
  }

  lemma SettledKeeps(lay: Layout, a: seq<Line>, b: seq<Line>)
    requires Settled(a, b)
    ensures Quiet(lay, a) ==> Quiet(lay, b)
    ensures !AllReferenced(a) ==> !AllReferenced(b)
  {
    if Quiet(lay, a) {
      forall i | 0 <= i < |b| ensures QuietAt(lay, b[i]) {
        assert SettledAt(a[i], b[i]) && QuietAt(lay, a[i]);
      }
    }
    if i :| 0 <= i < |a| && a[i].refcnt == 0 {
      assert SettledAt(a[i], b[i]);
    }
  }

  // A block of the log is cached in an unreferenced line, if at all.
  lemma LogBlockFree(lay: Layout, lines: seq<Line>, at: map<nat, nat>, cache: map<nat, Block>, n: nat)
    requires CacheRel(lines, at, cache) && Quiet(lay, lines) && n in cache && !lay.IsHome(n)
    ensures !AllReferenced(lines)
  {
    CachedIff(lines, at, cache, n);
    assert QuietAt(lay, lines[at[n]]);
  }

  // ----- the steps that write -----

  // t is s after one step, except for which clean blocks are cached.
  ghost predicate Steps(lay: Layout, s: State, step: Step, t: State) {
    Shape(lay, s) && Enabled(lay, s, step) && SameBut(Apply(lay, s, step), t)
  }

  // The steps that write one block through its buffer.
  predicate IsWrite(step: Step) {
    step.CopyToLog? || step.WriteHead? || step.InstallNext? || step.ClearHead? || step.RecoverNext? || step.RecoverClear?
  }

  ghost predicate CanWrite(lay: Layout, s: State, step: Step) { Shape(lay, s) && Enabled(lay, s, step) && IsWrite(step) }

  // Which block, and with what.
  ghost function Written(lay: Layout, s: State, step: Step): (w: (nat, Block))
    requires CanWrite(lay, s, step)
    ensures w.0 < |s.disk| == lay.nblocks
  {
    match step
    case CopyToLog => (Slot(lay, s.phase.t), Read(s, s.lh[s.phase.t]))
    case WriteHead => (lay.start, PutHead(Read(s, lay.start), s.lh))
    case InstallNext => (s.lh[s.phase.t], Read(s, Slot(lay, s.phase.t)))
    case RecoverNext => (s.lh[s.phase.t], Read(s, Slot(lay, s.phase.t)))
    case _ => (lay.start, PutHead(Read(s, lay.start), []))
  }

  lemma ApplyWrites(lay: Layout, s: State, step: Step)
    requires CanWrite(lay, s, step)
    ensures var t, w := Apply(lay, s, step), Written(lay, s, step);
            && t.disk == s.disk[w.0 := w.1] && t.cache == s.cache[w.0 := w.1] && t.ops == s.ops
            && t.pinned == if step.InstallNext? then s.pinned - {w.0} else s.pinned
  {
  }

  // Reads in between make no difference.
  ghost predicate SameReads(s: State, t: State) {
    SameBut(s, t) && forall b {:trigger Read(t, b)} :: 0 <= b < |s.disk| ==> Read(t, b) == Read(s, b)
  }

  lemma WrittenStable(lay: Layout, s: State, mid: State, step: Step)
    requires Reached(lay, mid) && SameReads(s, mid) && CanWrite(lay, s, step)
    ensures CanWrite(lay, mid, step) && Written(lay, mid, step) == Written(lay, s, step)
  {
    ReachedShape(lay, mid);
  }

  lemma StepsAfterReads(lay: Layout, s: State, mid: State, step: Step, t: State)
    requires Shape(lay, s) && SameReads(s, mid) && IsWrite(step) && Taken(lay, mid, step, t)
    ensures Steps(lay, s, step, t)
  {
    assert Enabled(lay, s, step);
  }

  lemma ReachedShape(lay: Layout, s: State)
    requires Reached(lay, s)
    ensures Shape(lay, s)
  {
    ReachedInv(lay, s);
  }

  // The block to be copied to the log next is pinned, and so is the one to be installed next in a commit;
  // during recovery nothing is.
  lemma NextPinned(lay: Layout, s: State)
    requires Reached(lay, s) && (s.phase.Logging? || s.phase.Installing? || s.phase.Recovering?) && s.phase.t < |s.lh|
    ensures lay.IsHome(s.lh[s.phase.t])
    ensures s.phase.Logging? || s.phase.Installing? ==> s.lh[s.phase.t] in s.pinned
    ensures s.phase.Recovering? ==> s.pinned == {}
  {
    ReachedInv(lay, s);
    assert Listed(s.lh, s.phase.t, s.lh[s.phase.t]);
    assert Listed(s.lh, 0, s.lh[s.phase.t]);
  }
}
