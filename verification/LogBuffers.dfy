/**
 Whether a commit can run out of buffers.  Its pinned blocks and the buffers that others hold may together be
 all there are; write_log's first bread then panics.  This says exactly for which numbers of buffers that
 can happen.
 */
module LogBuffers {
  import opened Collections
  import opened RedoLog
  import opened BufferCache
  import opened LogSystem
  import opened LogCache
  import opened LogView
  import opened LogCommit
  import opened LogBudget

  const NBUF := MAXOPBLOCKS * 3

  // The buffers somebody refers to, other than by a pin.
  ghost function Holders(v: View): set<nat> { set i | 0 <= i < |v.held| && v.held[i] > 0 }

  // A commit is about to start and finds all buffers in use, h of them held by others.
  ghost predicate Starved(lay: Layout, v: View, nbuf: nat, h: nat) {
    && Ok(lay, v) && Quiet(lay, v.lines) && |v.lines| == nbuf && |Holders(v)| == h
    && v.sys.phase == Logging(0) && v.sys.lh != [] && AllReferenced(v.lines)
  }

  ghost predicate CanStarve(lay: Layout, nbuf: nat, h: nat) { exists v :: Starved(lay, v, nbuf, h) }

  // ----- it needs as many references as buffers -----

  ghost function Below(n: nat): (s: set<nat>)
    ensures |s| == n && forall i :: i in s <==> 0 <= i < n
  {
    if n == 0 then {} else Below(n - 1) + {n - 1}
  }

  ghost function Places(at: map<nat, nat>, h: seq<nat>): set<nat> {
    set k | 0 <= k < |h| && h[k] in at :: at[h[k]]
  }

  lemma {:induction false} PlacesSize(at: map<nat, nat>, h: seq<nat>)
    ensures |Places(at, h)| <= |h|
  {
    if h != [] {
      var n := |h| - 1;
      var rest := h[..n];
      PlacesSize(at, rest);
      var last := if h[n] in at then {at[h[n]]} else {};
      assert Places(at, h) <= Places(at, rest) + last by {
        forall x | x in Places(at, h) ensures x in Places(at, rest) + last {
          var k :| 0 <= k < |h| && h[k] in at && at[h[k]] == x;
          assert k < n ==> rest[k] == h[k];
        }
      }
      SubsetSize(Places(at, h), Places(at, rest) + last);
    }
  }

  lemma PinnedListed(lay: Layout, s: State)
    requires Reached(lay, s) && s.phase == Logging(0)
    ensures lay.Valid() && forall b :: b in s.pinned <==> Listed(s.lh, 0, b)
  {
    ReachedInv(lay, s);
  }

  lemma ReferencedBy(lay: Layout, v: View, i: nat)
    requires Ok(lay, v) && v.sys.phase == Logging(0) && i < |v.lines| && v.lines[i].refcnt > 0
    ensures i in Holders(v) + Places(v.at, v.sys.lh)
  {
    PinnedListed(lay, v.sys);
    assert RefOk(v.lines[i], v.held[i], v.sys.pinned) && LineOk(v.lines, v.at, i);
    if v.held[i] == 0 {
      var b := v.lines[i].blockno;
      assert Listed(v.sys.lh, 0, b);
      var k :| 0 <= k < |v.sys.lh| && v.sys.lh[k] == b;
    }
  }

  lemma StarvedNeeds(lay: Layout, v: View, nbuf: nat, h: nat)
    requires Starved(lay, v, nbuf, h)
    ensures nbuf <= Limit(lay) + h
  {
    ReachedShape(lay, v.sys);
    var p := Places(v.at, v.sys.lh);
    forall i | i in Below(nbuf) ensures i in Holders(v) + p {
      ReferencedBy(lay, v, i);
    }
    PlacesSize(v.at, v.sys.lh);
    SubsetSize(Below(nbuf), Holders(v) + p);
  }

  // ----- and it happens -----

  // A transaction of n blocks is about to be committed.
  lemma FillLog(lay: Layout, n: nat) returns (s: State)
    requires lay.Valid() && 1 <= n <= Limit(lay) && n <= lay.nblocks - lay.size
    ensures ListsHomes(lay, s, n)
  {
    var states: seq<State>, steps: seq<Step>;
    if n <= MAXOPBLOCKS {
      states, steps := FillByOthers(lay, MAXOPBLOCKS, n);
    } else {
      states, steps := FillByTwo(lay, MAXOPBLOCKS, n);
      states, steps := EndSecond(lay, states, steps, MAXOPBLOCKS, n);
    }
    RunReached(lay, states, steps, |steps|);
    s := ReachStep(lay, states[|steps|], End(0));
  }

  lemma {:induction false} DropClean(lay: Layout, s: State) returns (t: State)
    requires Reached(lay, s)
    ensures Reached(lay, t) && t == s.(cache := t.cache) && t.cache.Keys == s.pinned
    decreases |s.cache.Keys - s.pinned|
  {
    ReachedShape(lay, s);
    if b :| b in s.cache && b !in s.pinned {
      t := ReachStep(lay, s, Evict(b));
      assert t.cache.Keys - t.pinned == s.cache.Keys - s.pinned - {b};
      t := DropClean(lay, t);
    } else {
      t := s;
    }
  }

  // Which of the blocks outside the log this is, and the first n of them.
  function Index(lay: Layout, b: nat): int { if b < lay.start then b else b - lay.size }

  predicate IsAmong(lay: Layout, b: nat, n: nat) { !(lay.start <= b < lay.start + lay.size) && Index(lay, b) < n }

  ghost function Homes(lay: Layout, n: nat): set<nat> { set b | 0 <= b < n + lay.size && IsAmong(lay, b, n) }

  lemma HomesIn(lay: Layout, n: nat, b: nat)
    ensures b in Homes(lay, n) <==> IsAmong(lay, b, n)
    ensures IsAmong(lay, b, n) ==> Index(lay, b) >= 0 && HomeAt(lay, Index(lay, b)) == b
    ensures IsAmong(lay, HomeAt(lay, n), n + 1) && !IsAmong(lay, HomeAt(lay, n), n) && Index(lay, HomeAt(lay, n)) == n
  {
  }

  lemma HomesNext(lay: Layout, n: nat)
    ensures Homes(lay, n + 1) == Homes(lay, n) + {HomeAt(lay, n)} && HomeAt(lay, n) !in Homes(lay, n)
  {
    HomesIn(lay, n, HomeAt(lay, n));
    forall b: nat ensures b in Homes(lay, n + 1) <==> b in Homes(lay, n) + {HomeAt(lay, n)} {
      HomesIn(lay, n, b);
      HomesIn(lay, n + 1, b);
    }
  }

  lemma ReadOne(lay: Layout, s: State, b: nat) returns (t: State)
    requires Reached(lay, s) && b < lay.nblocks && b !in s.cache
    ensures Reached(lay, t) && t == s.(cache := t.cache) && t.cache.Keys == s.cache.Keys + {b}
  {
    t := ReachStep(lay, s, Fill(b));
  }

  lemma {:induction false} ReadMore(lay: Layout, s: State, n: nat, m: nat) returns (t: State)
    requires Reached(lay, s) && s.cache.Keys == Homes(lay, n) && n <= m <= lay.nblocks - lay.size
    ensures Reached(lay, t) && t == s.(cache := t.cache) && t.cache.Keys == Homes(lay, m)
  {
    if n == m {
      t := s;
    } else {
      t := ReadMore(lay, s, n, m - 1);
      HomesNext(lay, m - 1);
      t := ReadOne(lay, t, HomeAt(lay, m - 1));
    }
  }

  // Block i is in buffer i; the first n are pinned and the others held.
  function Buffer(lay: Layout, cache: map<nat, Block>, i: nat): Line {
    Line(true, ROOTDEV, HomeAt(lay, i), 1, if HomeAt(lay, i) in cache then cache[HomeAt(lay, i)] else [])
  }

  ghost function Packed(lay: Layout, s: State, n: nat, m: nat): View {
    View(seq(m, i requires 0 <= i < m => Buffer(lay, s.cache, i)),
         map b | b in s.cache && Index(lay, b) >= 0 :: Index(lay, b),
         seq(m, i requires 0 <= i < m => if i < n then 0 else 1), s, [])
  }

  ghost predicate ListsHomes(lay: Layout, s: State, n: nat) {
    Reached(lay, s) && s.phase == Logging(0) && |s.lh| == n && forall i :: 0 <= i < n ==> s.lh[i] == HomeAt(lay, i)
  }

  lemma PinnedHomes(lay: Layout, s: State, n: nat)
    requires ListsHomes(lay, s, n)
    ensures s.pinned == Homes(lay, n)
  {
    PinnedListed(lay, s);
    forall b ensures b in s.pinned <==> b in Homes(lay, n) {
      HomesIn(lay, n, b);
      if IsAmong(lay, b, n) {
        assert s.lh[Index(lay, b)] == b;
      }
    }
  }

  lemma PackedRel(lay: Layout, s: State, n: nat, m: nat)
    requires s.cache.Keys == Homes(lay, m)
    ensures var v := Packed(lay, s, n, m); CacheRel(v.lines, v.at, s.cache) && Unique(v.lines)
  {
    var v := Packed(lay, s, n, m);
    forall b | b in s.cache ensures b in v.at && AtOk(v.lines, v.at, s.cache, b) {
      HomesIn(lay, m, b);
    }
    forall i | 0 <= i < m ensures LineOk(v.lines, v.at, i) {
      HomesIn(lay, m, HomeAt(lay, i));
      HomesIn(lay, i, HomeAt(lay, i));
    }
    forall i, j | 0 <= i < j < m ensures Apart(v.lines[i], v.lines[j]) {
    }
  }

  lemma PackedRefs(lay: Layout, s: State, n: nat, m: nat)
    requires lay.Valid() && s.pinned == Homes(lay, n) && n <= m <= lay.nblocks - lay.size
    ensures var v := Packed(lay, s, n, m); RefRel(v.lines, v.held, s.pinned) && Quiet(lay, v.lines)
  {
    var v := Packed(lay, s, n, m);
    forall i | 0 <= i < m ensures RefOk(v.lines[i], v.held[i], s.pinned) && QuietAt(lay, v.lines[i]) {
      HomesIn(lay, n, HomeAt(lay, i));
      HomesIn(lay, i, HomeAt(lay, i));
    }
  }

  lemma PackedHolders(lay: Layout, s: State, n: nat, m: nat)
    requires n <= m
    ensures |Holders(Packed(lay, s, n, m))| == m - n
  {
    var hs := Holders(Packed(lay, s, n, m));
    assert Below(m) == hs + Below(n);
    assert hs !! Below(n);
  }

  // The exact condition.
  lemma StarvesIff(lay: Layout, nbuf: nat, h: nat)
    requires lay.Valid() && h < nbuf <= lay.nblocks - lay.size
    ensures CanStarve(lay, nbuf, h) <==> nbuf <= Limit(lay) + h
  {
    if v :| Starved(lay, v, nbuf, h) {
      StarvedNeeds(lay, v, nbuf, h);
    }
    if nbuf <= Limit(lay) + h {
      var n := nbuf - h;
      var s := FillLog(lay, n);
      s := DropClean(lay, s);
      PinnedHomes(lay, s, n);
      s := ReadMore(lay, s, n, nbuf);
      PinnedListed(lay, s);
      PackedRel(lay, s, n, nbuf);
      PackedRefs(lay, s, n, nbuf);
      PackedHolders(lay, s, n, nbuf);
      assert Starved(lay, Packed(lay, s, n, nbuf), nbuf, h);
    }
  }

  // With the log that mkfs makes, one buffer is always left for a commit, unless somebody holds it; with one
  // block more in the log, not even that.
  lemma ShippedSizes(lay: Layout)
    requires lay.Valid() && NBUF <= lay.nblocks - lay.size
    ensures lay.size == LOGSIZE ==> !CanStarve(lay, NBUF, 0) && CanStarve(lay, NBUF, 1)
    ensures lay.size > LOGSIZE ==> CanStarve(lay, NBUF, 0)
  {
    StarvesIff(lay, NBUF, 0);
    StarvesIff(lay, NBUF, 1);
  }
}
