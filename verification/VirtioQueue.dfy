/**
 The descriptor table of kernel/virtio_disk.c, updated in place: allocation of one and of three
 descriptors, and the freeing of one and of a chain, against the functions of module Virtio.
 */
module VirtioQueue {
  import opened Collections
  import opened Virtio

  class Queue {
    const free: array<bool>
    const desc: array<Desc>

    // A free descriptor is zeroed.
    ghost predicate Valid()
      reads this, free, desc
    {
      && free.Length == desc.Length == NUM
      && forall i :: 0 <= i < NUM && free[i] ==> desc[i] == CLEAR
    }

    constructor ()
      ensures Valid() && fresh(free) && fresh(desc)
      ensures FreeCount(free[..]) == NUM
    {
      free := new bool[NUM](_ => true);
      desc := new Desc[NUM](_ => CLEAR);
      new;
      FreeCountAll(free[..]);
    }

    // -1 when there is no free descriptor.
    method AllocDesc() returns (r: int)
      requires Valid()
      modifies free
      ensures Valid()
      ensures var i := FirstFree(old(free[..]), 0);
              && (i == NUM ==> r == -1 && free[..] == old(free[..]))
              && (i < NUM ==> r == i && free[..] == old(free[..])[i := false])
    {
      for i := 0 to NUM
        invariant FirstFree(free[..], 0) == FirstFree(free[..], i)
        invariant free[..] == old(free[..])
      {
        if free[i] {
          free[i] := false;
          return i;
        }
      }
      return -1;
    }

    // The descriptor must be in use, otherwise the source panics.
    method FreeDesc(i: nat)
      requires Valid() && i < NUM && !free[i]
      modifies free, desc
      ensures Valid()
      ensures free[..] == old(free[..])[i := true]
      ensures desc[..] == old(desc[..])[i := CLEAR]
    {
      desc[i] := CLEAR;
      free[i] := true;
    }

    // Does not panic exactly where the chain is one that FreeChain frees.
    method FreeChainFrom(first: nat)
      requires Valid() && FreeChain(free[..], desc[..], first).Freed?
      modifies free, desc
      ensures Valid()
      ensures Freed(free[..], desc[..]) == FreeChain(old(free[..]), old(desc[..]), first)
    {
      var i := first;
      var more := true;
      while more
        invariant Valid()
        invariant more ==> FreeChain(free[..], desc[..], i) == FreeChain(old(free[..]), old(desc[..]), first)
        invariant !more ==> Freed(free[..], desc[..]) == FreeChain(old(free[..]), old(desc[..]), first)
        decreases more, NUM - FreeCount(free[..])
      {
        ghost var before := free[..];
        var flag, nxt := desc[i].hasNext, desc[i].next;
        FreeCountUpdate(free[..], i, true);
        FreeDesc(i);
        FreeCountBound(free[..]);
        assert FreeCount(free[..]) == FreeCount(before) + 1;
        if flag {
          i := nxt;
        } else {
          more := false;
        }
      }
    }

    // Frees what a failed allocation had already taken.
    method RollBack(idx: array<int>, n: nat, ghost was: seq<bool>)
      requires Valid() && n <= idx.Length && |was| == NUM
      requires forall d :: 0 <= d < NUM ==> (was[d] <==> free[d] || d in idx[..n])
      requires forall j :: 0 <= j < n ==> 0 <= idx[j] < NUM && !free[idx[j]] && desc[idx[j]] == CLEAR
      requires forall j, k :: 0 <= j < k < n ==> idx[j] != idx[k]
      modifies free, desc
      ensures Valid() && desc[..] == old(desc[..])
      ensures free[..] == was
    {
      for j := 0 to n
        invariant Valid() && desc[..] == old(desc[..])
        invariant forall k :: j <= k < n ==> !free[idx[k]]
        invariant forall d :: 0 <= d < NUM ==> (free[d] <==> old(free[d]) || d in idx[..j])
      {
        assert desc[idx[j]] == desc[..][idx[j]] == old(desc[..])[idx[j]];
        FreeDesc(idx[j]);
        assert idx[..j + 1] == idx[..j] + [idx[j]];
        assert desc[..] == old(desc[..]);
      }
    }

    // All three or none: a failure leaves the table exactly as it was.
    method Alloc3Desc(idx: array<int>) returns (ok: bool)
      requires Valid() && idx.Length == 3
      modifies free, desc, idx
      ensures Valid() && desc[..] == old(desc[..])
      ensures ok == (FreeCount(old(free[..])) >= 3)
      ensures !ok ==> free[..] == old(free[..])
      ensures ok ==> && Alloc3(old(free[..])) == Some((idx[0], idx[1], idx[2]))
                     && free[..] == old(free[..])[idx[0] := false][idx[1] := false][idx[2] := false]
    {
      Alloc3Succeeds(free[..]);
      for i := 0 to 3
        invariant Taken3(old(free[..]), free[..], idx[..], i)
        invariant Valid() && desc[..] == old(desc[..])
      {
        idx[i] := AllocDesc();
        if idx[i] < 0 {
          TakenBefore(old(free[..]), free[..], idx[..], i);
          RollBack(idx, i, old(free[..]));
          return false;
        }
      }
      return true;
    }
  }

  // What was free is free still, or has been taken.
  lemma TakenBefore(was: seq<bool>, free: seq<bool>, idx: seq<int>, n: nat)
    requires Taken3(was, free, idx, n) && n < 3
    ensures forall d :: 0 <= d < NUM ==> (was[d] <==> free[d] || d in idx[..n])
    ensures forall j :: 0 <= j < n ==> 0 <= idx[j] < NUM && !free[idx[j]] && was[idx[j]]
    ensures forall j, k :: 0 <= j < k < n ==> idx[j] != idx[k]
  {
  }

  // After n successful allocations.
  ghost predicate Taken3(was: seq<bool>, free: seq<bool>, idx: seq<int>, n: nat) {
    && |was| == |free| == NUM && |idx| == 3 && n <= 3
    && (n >= 1 ==> 0 <= idx[0] == FirstFree(was, 0) < NUM)
    && (n >= 2 ==> 0 <= idx[1] == FirstFree(was[idx[0] := false], 0) < NUM)
    && (n >= 3 ==> 0 <= idx[2] == FirstFree(was[idx[0] := false][idx[1] := false], 0) < NUM)
    && (n == 0 ==> free == was)
    && (n == 1 ==> free == was[idx[0] := false])
    && (n == 2 ==> free == was[idx[0] := false][idx[1] := false])
    && (n == 3 ==> free == was[idx[0] := false][idx[1] := false][idx[2] := false])
  }
}
