/**
 The kernel's table of Peterson locks (kernel/petersonlock.c) and the loops of
 user/libtournament.c that create, climb and descend the tree.

 Each method here runs alone: the waiting in the spin loop, and everything other
 processes do meanwhile, is the subject of module Tournament.  What is shown here is
 which lock numbers the loops compute, which flags they leave set, and what happens on
 their error paths.
 */
module PetersonTable {
  import opened Tournament

  const MAX_PETERSON_LOCKS := 15
  const EMPTY_LOCK := Lock([false, false], 0)

  ghost predicate Distinct(ids: seq<int>) {
    forall i, j :: 0 <= i < j < |ids| ==> ids[i] != ids[j]
  }

  // From the table (a0, l0), the locks ids have been created: the first inactive ones, in order.
  ghost predicate Made(a0: seq<bool>, l0: seq<Lock>, a: seq<bool>, l: seq<Lock>, ids: seq<int>) {
    && |a0| == |l0| == |a| == |l| && Distinct(ids)
    && (forall j :: 0 <= j < |ids| ==> 0 <= ids[j] < |a| && !a0[ids[j]])
    && (forall k :: 0 <= k < |a| ==> a[k] == (a0[k] || k in ids))
    && (forall k :: 0 <= k < |a| ==> l[k] == if k in ids then EMPTY_LOCK else l0[k])
    && (forall j, k :: 0 <= j < |ids| && 0 <= k < ids[j] ==> a[k])
    && ((forall k :: 0 <= k < |a| ==> !a0[k]) ==> forall j :: 0 <= j < |ids| ==> ids[j] == j)
  }

  lemma MadeNone(a: seq<bool>, l: seq<Lock>)
    requires |a| == |l|
    ensures Made(a, l, a, l, [])
  {
  }

  lemma MadeApart(a0: seq<bool>, l0: seq<Lock>, a: seq<bool>, l: seq<Lock>, ids: seq<int>)
    requires Made(a0, l0, a, l, ids)
    ensures |a0| == |l0| == |a| == |l| && Distinct(ids) && (forall j :: 0 <= j < |ids| ==> 0 <= ids[j] < |a| && !a0[ids[j]])
    ensures forall k :: 0 <= k < |a| ==> a[k] == (a0[k] || k in ids)
    ensures forall k :: 0 <= k < |a| && a0[k] ==> l[k] == l0[k]
  {
  }

  lemma MadeMore(a0: seq<bool>, l0: seq<Lock>, a: seq<bool>, l: seq<Lock>, ids: seq<int>, id: nat)
    requires Made(a0, l0, a, l, ids) && id < |a| && !a[id] && forall k :: 0 <= k < id ==> a[k]
    ensures Made(a0, l0, a[id := true], l[id := EMPTY_LOCK], ids + [id])
  {
    if forall k :: 0 <= k < |a| ==> !a0[k] {
      forall j | 0 <= j < |ids| ensures j < |a| && a[j] {
        assert ids[j] == j;
      }
      assert |ids| !in ids && !a[|ids|];
    }
  }

  class Table {
    const active: array<bool>
    const locks: array<Lock>

    ghost predicate Valid()
      reads this, locks
    {
      && active.Length == MAX_PETERSON_LOCKS == locks.Length
      && (forall k :: 0 <= k < locks.Length ==> |locks[k].flag| == 2)
    }

    constructor ()
      ensures Valid() && fresh(active) && fresh(locks)
      ensures forall k :: 0 <= k < MAX_PETERSON_LOCKS ==> !active[k]
    {
      active := new bool[MAX_PETERSON_LOCKS](_ => false);
      locks := new Lock[MAX_PETERSON_LOCKS](_ => EMPTY_LOCK);
    }

    // Takes the first inactive slot and clears it.
    method Create() returns (id: int)
      requires Valid()
      modifies active, locks
      ensures Valid()
      ensures id == -1 ==> (forall k :: 0 <= k < MAX_PETERSON_LOCKS ==> active[k])
                           && active[..] == old(active[..]) && locks[..] == old(locks[..])
      ensures id != -1 ==> 0 <= id < MAX_PETERSON_LOCKS && !old(active[id])
                           && (forall k :: 0 <= k < id ==> old(active[k]))
                           && active[..] == old(active[..])[id := true]
                           && locks[..] == old(locks[..])[id := EMPTY_LOCK]
    {
      for i := 0 to MAX_PETERSON_LOCKS
        invariant forall k :: 0 <= k < i ==> active[k]
        invariant active[..] == old(active[..]) && locks[..] == old(locks[..])
      {
        if !active[i] {
          active[i] := true;
          locks[i] := EMPTY_LOCK;
          return i;
        }
      }
      return -1;
    }

    // The two writes of petersonlock_acquire; -1 if there is no such active lock.
    method Acquire(id: int, role: nat) returns (r: int)
      requires Valid() && role < 2
      modifies locks
      ensures Valid()
      ensures r == if 0 <= id < MAX_PETERSON_LOCKS && active[id] then 0 else -1
      ensures r == -1 ==> locks[..] == old(locks[..])
      ensures r == 0 ==> locks[..] == old(locks[..])[id := Taken(old(locks[id]), role)]
    {
      if id < 0 || id >= MAX_PETERSON_LOCKS || !active[id] {
        return -1;
      }
      var other := 1 - role;
      locks[id] := locks[id].(flag := locks[id].flag[role := true]);
      locks[id] := locks[id].(turn := other);
      return 0;
    }

    method Release(id: int, role: nat) returns (r: int)
      requires Valid() && role < 2
      modifies locks
      ensures Valid()
      ensures r == if 0 <= id < MAX_PETERSON_LOCKS && active[id] then 0 else -1
      ensures r == -1 ==> locks[..] == old(locks[..])
      ensures r == 0 ==> locks[..] == old(locks[..])[id := Lowered(old(locks[id]), role)]
    {
      if id < 0 || id >= MAX_PETERSON_LOCKS || !active[id] {
        return -1;
      }
      locks[id] := locks[id].(flag := locks[id].flag[role := false]);
      return 0;
    }

    method Destroy(id: int) returns (r: int)
      requires Valid()
      modifies active
      ensures Valid()
      ensures r == if 0 <= id < MAX_PETERSON_LOCKS && old(active[id]) then 0 else -1
      ensures active[..] == if r == 0 then old(active[..])[id := false] else old(active[..])
    {
      if id < 0 || id >= MAX_PETERSON_LOCKS || !active[id] {
        return -1;
      }
      active[id] := false;
      return 0;
    }

    // Creates n locks if so many are inactive; otherwise destroys those it made and reports failure, restoring
    // the table's active set.  On an empty table the i-th lock is lock i.
    method CreateLocks(n: nat) returns (ok: bool, ids: seq<int>)
      requires Valid() && n <= MAX_PETERSON_LOCKS
      modifies active, locks
      ensures Valid()
      ensures ok <==> n <= Inactive(old(active[..]))
      ensures ok ==> |ids| == n && Made(old(active[..]), old(locks[..]), active[..], locks[..], ids)
      ensures !ok ==> active[..] == old(active[..])
      ensures forall k :: 0 <= k < MAX_PETERSON_LOCKS && old(active[k]) ==> locks[k] == old(locks[k])
    {
      hide Made;
      ids := [];
      MadeNone(active[..], locks[..]);
      for i := 0 to n
        invariant Valid() && |ids| == i && Made(old(active[..]), old(locks[..]), active[..], locks[..], ids)
        invariant Inactive(active[..]) == Inactive(old(active[..])) - i
      {
        ghost var a, l := active[..], locks[..];
        MadeApart(old(active[..]), old(locks[..]), a, l, ids);
        var id := Create();
        if id < 0 {
          InactiveNone(active[..]);
          DestroyAll(ids, old(active[..]));
          return false, [];
        }
        InactiveUpdate(a, id);
        MadeMore(old(active[..]), old(locks[..]), a, l, ids, id);
        ids := ids + [id];
      }
      MadeApart(old(active[..]), old(locks[..]), active[..], locks[..], ids);
      return true, ids;
    }

    method DestroyAll(ids: seq<int>, ghost before: seq<bool>)
      requires Valid() && Distinct(ids) && |before| == MAX_PETERSON_LOCKS
      requires forall j :: 0 <= j < |ids| ==> 0 <= ids[j] < MAX_PETERSON_LOCKS && !before[ids[j]]
      requires forall k :: 0 <= k < MAX_PETERSON_LOCKS ==> active[k] == (before[k] || k in ids)
      modifies active
      ensures Valid() && active[..] == before
    {
      for j := 0 to |ids|
        invariant Valid()
        invariant forall k :: 0 <= k < MAX_PETERSON_LOCKS ==> active[k] == (before[k] || k in ids[j..])
      {
        assert ids[j..] == [ids[j]] + ids[j + 1..];
        var destroyed := Destroy(ids[j]);
      }
    }

    // Builds a tree for `processes` competitors: fails for a count that is not a power of two up to
    // 16, without memory, or when the table runs out, and then leaves the active locks as they were.
    method TournamentCreate(processes: int, memory: bool) returns (levels: int, ids: seq<int>)
      requires Valid()
      modifies active, locks
      ensures Valid() && levels >= -1
      ensures levels == -1 ==> active[..] == old(active[..])
      ensures levels >= 0 <==> memory && processes in {1, 2, 4, 8, 16} && processes - 1 <= Inactive(old(active[..]))
      ensures levels >= 0 ==> processes == Pow2(levels) <= MAX_PETERSON_LOCKS + 1 && |ids| == processes - 1
      ensures levels >= 0 ==> Made(old(active[..]), old(locks[..]), active[..], locks[..], ids)
      ensures forall k :: 0 <= k < MAX_PETERSON_LOCKS && old(active[k]) ==> locks[k] == old(locks[k])
      ensures (forall k :: 0 <= k < MAX_PETERSON_LOCKS ==> !old(active[k])) ==>
                && Inactive(old(active[..])) == MAX_PETERSON_LOCKS
                && (levels >= 0 ==> forall i :: 0 <= i < |ids| ==> ids[i] == i && active[i])
    {
      if forall k :: 0 <= k < MAX_PETERSON_LOCKS ==> !active[k] {
        InactiveAll(active[..]);
      }
      if processes <= 0 || processes > 16 {
        return -1, [];
      }
      PowersOfTwo(processes);
      if (processes as bv8) & ((processes as bv8) - 1) != 0 {
        return -1, [];
      }
      if !memory {
        return -1, [];
      }
      var ok;
      ok, ids := CreateLocks(processes - 1);
      if !ok {
        return -1, [];
      }
      forall i | 0 <= i < |ids| && ids[i] == i ensures active[i] {
        assert active[ids[i]];
      }
      levels := CountLevels(processes);
    }

    // The roll-back loop of a failed acquire: lowers p's flags from level `from` down to the
    // leaves, up to the first inactive lock, `stop`.
    method RollBack(L: nat, from: nat, p: nat) returns (stop: nat)
      requires Valid() && from < L && p < Pow2(L) <= MAX_PETERSON_LOCKS + 1
      modifies locks
      ensures Valid() && from <= stop <= L
      ensures stop < L ==> !active[Lk(L, stop, p)]
      ensures forall i: nat :: from <= i < stop ==>
                active[Lk(L, i, p)] && locks[Lk(L, i, p)] == Lowered(old(locks[Lk(L, i, p)]), Role(L, i, p))
      ensures forall k :: 0 <= k < MAX_PETERSON_LOCKS && (forall i: nat :: from <= i < stop ==> k != Lk(L, i, p))
                          ==> locks[k] == old(locks[k])
    {
      for j := from to L
        invariant Valid()
        invariant forall i: nat :: from <= i < j ==>
                    active[Lk(L, i, p)] && locks[Lk(L, i, p)] == Lowered(old(locks[Lk(L, i, p)]), Role(L, i, p))
        invariant forall k :: 0 <= k < MAX_PETERSON_LOCKS && (forall i: nat :: from <= i < j ==> k != Lk(L, i, p))
                              ==> locks[k] == old(locks[k])
      {
        NodesApart(L, p, j);
        var released := Release(Lk(L, j, p), Role(L, j, p));
        if released < 0 {
          return j;
        }
      }
      return L;
    }

    // Climbs from the leaves to the root.  `failed` is the level at which it gave up, or -1.
    // The roll-back begins with the very lock that was just refused, which is refused again, so
    // every flag raised on the way up stays raised.
    method TournamentAcquire(L: nat, p: nat) returns (r: int, ghost failed: int)
      requires Valid() && p < Pow2(L) <= MAX_PETERSON_LOCKS + 1
      modifies locks
      ensures Valid() && (r == 0 || r == -1) && -1 <= failed < L
      ensures r == 0 <==> L > 0 && forall i: nat :: i < L ==> active[Lk(L, i, p)]
      ensures L > 0 ==> (r == -1 <==> failed >= 0)
      ensures failed >= 0 ==> !active[Lk(L, failed, p)]
      ensures forall i: nat :: failed < i < L ==> active[Lk(L, i, p)]
      // what it leaves behind: every level below the failed one is held, and nothing else has changed
      ensures forall i: nat :: failed < i < L ==> locks[Lk(L, i, p)] == Taken(old(locks[Lk(L, i, p)]), Role(L, i, p))
      ensures forall k :: 0 <= k < MAX_PETERSON_LOCKS && (forall i: nat :: failed < i < L ==> k != Lk(L, i, p))
                          ==> locks[k] == old(locks[k])
    {
      failed := -1;
      if L == 0 {
        return -1, -1;
      }
      for i := L downto 0
        invariant Valid()
        invariant forall j: nat :: i <= j < L ==>
                    active[Lk(L, j, p)] && locks[Lk(L, j, p)] == Taken(old(locks[Lk(L, j, p)]), Role(L, j, p))
        invariant forall k :: 0 <= k < MAX_PETERSON_LOCKS && (forall j: nat :: i <= j < L ==> k != Lk(L, j, p))
                              ==> locks[k] == old(locks[k])
      {
        NodesApart(L, p, i);
        var acquired := Acquire(Lk(L, i, p), Role(L, i, p));
        if acquired < 0 {
          failed := i;
          var stop := RollBack(L, i, p);
          return -1, failed;
        }
      }
      return 0, -1;
    }

    // Descends from the root to the leaves, clearing exactly its own flags.  It gives up at the first inactive
    // lock, `stop`, with the flags below it still raised.
    method TournamentRelease(L: nat, p: nat) returns (r: int, ghost stop: nat)
      requires Valid() && p < Pow2(L) <= MAX_PETERSON_LOCKS + 1
      modifies locks
      ensures Valid() && stop <= L && r == (if stop == L then 0 else -1)
      ensures (forall i: nat :: i < stop ==> active[Lk(L, i, p)]) && (stop < L ==> !active[Lk(L, stop, p)])
      ensures forall i: nat :: i < stop ==> locks[Lk(L, i, p)] == Lowered(old(locks[Lk(L, i, p)]), Role(L, i, p))
      ensures forall k :: 0 <= k < MAX_PETERSON_LOCKS && (forall i: nat :: i < stop ==> k != Lk(L, i, p))
                          ==> locks[k] == old(locks[k])
    {
      for i := 0 to L
        invariant Valid()
        invariant forall j: nat :: j < i ==> active[Lk(L, j, p)]
        invariant forall j: nat :: j < i ==> locks[Lk(L, j, p)] == Lowered(old(locks[Lk(L, j, p)]), Role(L, j, p))
        invariant forall k :: 0 <= k < MAX_PETERSON_LOCKS && (forall j: nat :: j < i ==> k != Lk(L, j, p))
                              ==> locks[k] == old(locks[k])
      {
        NodesApart(L, p, i);
        var released := Release(Lk(L, i, p), Role(L, i, p));
        if released < 0 {
          return -1, i;
        }
      }
      return 0, L;
    }
  }

  // The test processes & (processes - 1) tells the powers of two.
  lemma PowersOfTwo(n: int)
    requires 0 < n <= 16
    ensures (n as bv8) & ((n as bv8) - 1) == 0 <==> n in {1, 2, 4, 8, 16}
    ensures n in {1, 2, 4, 8, 16} ==> exists L: nat :: n == Pow2(L)
  {
    assert 1 == Pow2(0) && 2 == Pow2(1) && 4 == Pow2(2) && 8 == Pow2(3) && 16 == Pow2(4);
  }

  method CountLevels(processes: int) returns (levels: int)
    requires exists L: nat :: processes == Pow2(L)
    ensures levels >= 0 && processes == Pow2(levels)
  {
    ghost var L: nat :| processes == Pow2(L);
    levels := 0;
    var temp := processes;
    while temp > 1
      invariant 0 <= levels <= L && temp == Pow2(L - levels)
    {
      temp := temp / 2;
      levels := levels + 1;
    }
  }

  // How many locks are inactive.
  function Inactive(active: seq<bool>): nat {
    if active == [] then 0 else (if active[0] then 0 else 1) + Inactive(active[1..])
  }

  lemma {:induction false} InactiveUpdate(active: seq<bool>, k: nat)
    requires k < |active| && !active[k]
    ensures Inactive(active) >= 1 && Inactive(active[k := true]) == Inactive(active) - 1
  {
    if k == 0 {
      assert active[k := true][1..] == active[1..];
    } else {
      InactiveUpdate(active[1..], k - 1);
      assert active[k := true][1..] == active[1..][k - 1 := true];
    }
  }

  lemma {:induction false} InactiveNone(active: seq<bool>)
    requires forall k :: 0 <= k < |active| ==> active[k]
    ensures Inactive(active) == 0
  {
    if active != [] {
      InactiveNone(active[1..]);
    }
  }

  lemma {:induction false} InactiveAll(active: seq<bool>)
    requires forall k :: 0 <= k < |active| ==> !active[k]
    ensures Inactive(active) == |active|
  {
    if active != [] {
      InactiveAll(active[1..]);
    }
  }

  // The lock number the loops compute for level i: always one of the table's.
  function Lk(L: nat, i: nat, p: nat): (k: nat)
    requires i < L && p < Pow2(L) <= MAX_PETERSON_LOCKS + 1
    ensures k < MAX_PETERSON_LOCKS
  {
    NodeBound(L, i, p);
    Node(L, i, p)
  }

  lemma NodesApart(L: nat, p: nat, i: nat)
    requires i < L && p < Pow2(L) <= MAX_PETERSON_LOCKS + 1
    ensures forall j: nat :: j < L && Lk(L, j, p) == Lk(L, i, p) ==> j == i
  {
    forall j: nat | j < L && Lk(L, j, p) == Lk(L, i, p)
      ensures j == i
    {
      NodeInjective(L, j, p, i, p);
    }
  }
}
