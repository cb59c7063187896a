/**
 The page allocator of kernel/kalloc.c and the page-table operations of kernel/vm.c, in place on
 physical memory, for all page tables of the system at once.
 */
module Vm {
  import opened PageTable
  import opened VmSpec

  class Kernel {
    const lo: nat  // the pages handed to kinit
    const hi: nat
    var mem: Mem
    var freelist: seq<nat>
    ghost var owner: map<nat, Owner>
    ghost var table: map<Node, nat>

    ghost function S(): Snap
      reads this
    {
      Snap(mem, owner, table)
    }

    // Page 0 is never handed out, and there are too few pages to fill an address space.
    ghost predicate FreeOk()
      reads this
    {
      && 0 < lo <= hi && hi - lo < TRAPFRAME
      && (forall p :: p in owner <==> lo <= p < hi)
      && (forall j, k :: 0 <= j < k < |freelist| ==> freelist[j] != freelist[k])
      && (forall p :: p in freelist <==> p in owner && owner[p].Free?)
    }

    ghost predicate ValidBut(skip: Skip)
      reads this
    {
      FreeOk() && Inv(mem, owner, table, skip)
    }

    ghost predicate Valid()
      reads this
    {
      ValidBut({})
    }

    // ----- kalloc.c -----

    // 0 when no page is free.
    method Kalloc(ghost skip: Skip) returns (p: nat)
      requires ValidBut(skip)
      modifies this
      ensures ValidBut(skip) && table == old(table) && SameLookups(old(mem), old(table), mem, table)
      ensures old(freelist) == [] ==> p == 0 && freelist == [] && mem == old(mem) && owner == old(owner)
      ensures old(freelist) != [] ==>
                && p == old(freelist)[0] && freelist == old(freelist)[1..]
                && mem == old(mem)[p := JUNK_ALLOC] && p in old(owner) && old(owner)[p].Free? && owner == old(owner)[p := Other]
    {
      if freelist == [] {
        return 0;
      }
      p := freelist[0];
      assert p in freelist;
      ghost var was := freelist;
      freelist := freelist[1..];
      assert forall q :: q in was <==> q == p || q in freelist;
      Reuse(mem, owner, table, skip, p, Other);
      owner := owner[p := Other];
      WritePage(mem, owner, table, skip, p, JUNK_ALLOC);
      mem := mem[p := JUNK_ALLOC];
    }

    // A page is freed only while it is allocated and in no page table.
    method Kfree(p: nat, ghost skip: Skip)
      requires ValidBut(skip) && p in owner && owner[p].Other?
      modifies this
      ensures ValidBut(skip) && table == old(table) && SameLookups(old(mem), old(table), mem, table)
      ensures freelist == [p] + old(freelist) && mem == old(mem)[p := JUNK_FREE] && owner == old(owner)[p := Free]
    {
      WritePage(mem, owner, table, skip, p, JUNK_FREE);
      mem := mem[p := JUNK_FREE];
      Reuse(mem, owner, table, skip, p, Free);
      owner := owner[p := Free];
      assert p !in freelist;
      freelist := [p] + freelist;
    }

    // kinit: every page of [lo, hi) is free.
    constructor (lo: nat, hi: nat, m: Mem)
      requires 0 < lo <= hi && hi - lo < TRAPFRAME
      requires forall p :: lo <= p < hi ==> p in m && |m[p]| == ENTRIES
      ensures Valid() && this.lo == lo && this.hi == hi && table == map[]
      ensures forall p :: lo <= p < hi ==> owner[p].Free?
    {
      this.lo, this.hi, mem, freelist := lo, hi, m, [];
      owner, table := map p | p in m && lo <= p < hi :: Other, map[];
      new;
      for p := lo to hi
        invariant Valid() && table == map[]
        invariant forall q :: lo <= q < hi ==> owner[q] == if q < p then Free else Other
      {
        Kfree(p, {});
      }
    }

    // ----- vm.c -----

    // One round of walk's loop: the page of the next table down, 0 if there is none.
    method Descend(page: nat, alloc: bool, level: nat, vpn: nat, ghost root: nat) returns (next: nat)
      requires Valid() && 0 < level <= 2 && On(root, level, vpn) in table && table[On(root, level, vpn)] == page
      modifies this
      ensures Valid() && Same(old(S()), S()) && Grows(old(S()), S(), root)
      ensures next != 0 ==> On(root, level - 1, vpn) in table && table[On(root, level - 1, vpn)] == next
      ensures next == 0 ==> On(root, level - 1, vpn) !in table && (alloc ==> old(freelist) == [])
      ensures next == 0 || !alloc ==> S() == old(S()) && freelist == old(freelist)
      ensures alloc ==> if next != 0 then Spent(|old(freelist)|, old(table), |freelist|, table, {On(root, level - 1, vpn)}, 0)
                        else |old(freelist)| < Need(old(table), {On(root, level - 1, vpn)}, 0)
    {
      ghost var n, i := On(root, level, vpn), Px(level, vpn);
      OnPath(root, level, vpn);
      assert NodeOk(mem, owner, table, n);
      var pte := Get(mem, page, Px(level, vpn));
      assert EntryAt(mem, owner, table, n, i);
      if IsValid(pte) {
        next := PageOf(pte);
        assert NodeOk(mem, owner, table, Child(n, i)) && OwnerOk(mem, owner, table, next);
        assert {Child(n, i)} - table.Keys == {} && table.Keys + {Child(n, i)} == table.Keys;
      } else {
        NoChild(mem, owner, table, n, i);
        if !alloc {
          return 0;
        }
        assert {Child(n, i)} - table.Keys == {Child(n, i)};
        next := NewTable(page, Px(level, vpn), n);
      }
    }

    // kalloc followed by a memset to 0, for a page still in no page table.
    method KallocZeroed() returns (p: nat)
      requires Valid()
      modifies this
      ensures Valid() && table == old(table) && SameLookups(old(mem), old(table), mem, table)
      ensures p == 0 <==> old(freelist) == []
      ensures p == 0 ==> freelist == [] && S() == old(S())
      ensures p != 0 ==>
                && p in old(owner) && old(owner)[p].Free? && owner == old(owner)[p := Other]
                && mem == old(mem)[p := ZERO] && freelist == old(freelist)[1..]
    {
      p := Kalloc({});
      if p != 0 {
        WritePage(mem, owner, table, {}, p, ZERO);
        mem := mem[p := ZERO];
      }
    }

    method Install(page: nat, i: nat, next: nat, ghost n: Node)
      requires Valid() && n in table && table[n] == page && n.level > 0 && i < ENTRIES && page in mem && |mem[page]| == ENTRIES
      requires Get(mem, page, i) == 0 && next in owner && owner[next].Other? && IsZero(mem, next)
      modifies this
      ensures Valid() && Same(old(S()), S()) && freelist == old(freelist)
      ensures mem == Put(old(mem), page, i, Pointer(next))
      ensures owner == old(owner)[next := Table(Child(n, i))] && table == old(table)[Child(n, i) := next]
    {
      AttachTable(mem, owner, table, {}, n, i, next);
      mem := Put(mem, page, i, Pointer(next));
      owner, table := owner[next := Table(Child(n, i))], table[Child(n, i) := next];
    }

    // The branch of walk that creates a page-table page below a zero entry.
    method NewTable(page: nat, i: nat, ghost n: Node) returns (next: nat)
      requires Valid() && n in table && table[n] == page && n.level > 0 && i < ENTRIES && page in mem && |mem[page]| == ENTRIES
      requires Get(mem, page, i) == 0
      modifies this
      ensures Valid() && Same(old(S()), S()) && Grows(old(S()), S(), n.root)
      ensures next != 0 ==> Child(n, i) in table && table[Child(n, i)] == next
      ensures next == 0 <==> old(freelist) == []
      ensures next == 0 ==> S() == old(S()) && freelist == old(freelist)
      ensures Child(n, i) !in old(table) && (next != 0 ==> table.Keys == old(table).Keys + {Child(n, i)} && |freelist| == |old(freelist)| - 1)
    {
      NoChild(mem, owner, table, n, i);
      assert NodeOk(mem, owner, table, n);
      next := KallocZeroed();
      if next != 0 {
        Install(page, i, next, n);
        AttachGrows(old(S()), S(), n, i, next);
      }
    }

    // The page that holds the entry for vpn, 0 if there is none; the source panics beyond MAXVA.
    method Walk(root: nat, vpn: nat, alloc: bool) returns (page: nat)
      requires Valid() && Node(root, 2, 0) in table && vpn < MAXVPN
      modifies this
      ensures Valid() && Same(old(S()), S()) && Grows(old(S()), S(), root)
      ensures page != 0 ==> Leaf(root, vpn) in table && table[Leaf(root, vpn)] == page
      ensures page == 0 ==> Leaf(root, vpn) !in table && (alloc ==> freelist == [])
      ensures !alloc ==> S() == old(S()) && freelist == old(freelist)
      ensures alloc ==> if page != 0 then Spent(|old(freelist)|, old(table), |freelist|, table, Tables(root, vpn, vpn + 1), 0)
                        else |old(freelist)| < Need(old(table), Tables(root, vpn, vpn + 1), 0)
    {
      hide Spent, Need, Tables;
      OnEnds(root, vpn);
      page := root;
      assert NodeOk(mem, owner, table, Node(root, 2, 0));
      var level := 2;
      WayStart(|freelist|, table, root, vpn);
      while level > 0
        invariant 0 <= level <= 2 && Valid() && Same(old(S()), S()) && Grows(old(S()), S(), root)
        invariant alloc ==> Spent(|old(freelist)|, old(table), |freelist|, table, Way(root, level, vpn), 0)
        invariant On(root, level, vpn) in table && table[On(root, level, vpn)] == page
        invariant !alloc ==> S() == old(S()) && freelist == old(freelist)
      {
        ghost var before, left := S(), |freelist|;
        page := Descend(page, alloc, level, vpn, root);
        GrowsTrans(old(S()), before, S(), root);
        if alloc {
          WayNext(|old(freelist)|, old(table), left, before.table, |freelist|, table, root, level, vpn);
        }
        if page == 0 {
          LeafAbove(mem, owner, table, root, vpn, level - 1);
          return;
        }
        level := level - 1;
      }
      assert NodeOk(mem, owner, table, Leaf(root, vpn));
      WayEnd(root, vpn);
    }

    // One round of mappages; the source panics on an entry in use.
    method MapPage(root: nat, vpn: nat, page: nat, perm: nat) returns (ok: bool)
      requires Valid() && Node(root, 2, 0) in table && vpn < MAXVPN && perm < 1024 && IsLeaf(perm)
      requires !IsValid(Lookup(mem, table, root, vpn))
      requires Owns(vpn) ==> page in owner && owner[page].Other?
      modifies this
      ensures Valid() && Maps(old(S()), S(), root, vpn, if ok then 1 else 0, page, perm)
      ensures !ok ==> freelist == []
      ensures if ok then Spent(|old(freelist)|, old(table), |freelist|, table, Tables(root, vpn, vpn + 1), 0)
              else |old(freelist)| < Need(old(table), Tables(root, vpn, vpn + 1), 0)
    {
      var t := Walk(root, vpn, true);
      ghost var mid := S();
      if t == 0 {
        MapsNone(old(S()), S(), root, vpn, page, perm);
        return false;
      }
      assert Owns(vpn) ==> KeepsPage(old(S()), S(), root, page);
      WriteLeaf(t, root, vpn, page, perm);
      MapsOne(old(S()), mid, S(), root, vpn, page, perm);
      return true;
    }

    method WriteLeaf(t: nat, ghost root: nat, vpn: nat, page: nat, perm: nat)
      requires Valid() && Leaf(root, vpn) in table && table[Leaf(root, vpn)] == t && perm < 1024 && IsLeaf(perm)
      requires !IsValid(Lookup(mem, table, root, vpn))
      requires Owns(vpn) ==> page in owner && owner[page].Other?
      modifies this
      ensures Valid() && t in old(owner) && old(owner)[t].Table? && t in old(mem) && |old(mem)[t]| == ENTRIES
      ensures mem == Put(old(mem), t, vpn % ENTRIES, Pte(page, perm))
      ensures owner == Taken(old(owner), root, vpn, page) && table == old(table) && freelist == old(freelist)
      ensures SetsLookup(old(mem), old(table), mem, table, root, vpn, Pte(page, perm))
    {
      ghost var l := Leaf(root, vpn);
      assert NodeOk(mem, owner, table, l);
      assert EntryAt(mem, owner, table, l, vpn % ENTRIES);
      AttachLeaf(mem, owner, table, {}, root, vpn, page, perm);
      mem := Put(mem, t, vpn % ENTRIES, Pte(page, perm));
      owner := Taken(owner, root, vpn, page);
    }

    method MapNext(root: nat, a: nat, page: nat, perm: nat, ghost was: Snap, ghost first: nat, ghost n: nat, ghost start: nat)
      returns (ok: bool)
      requires Valid() && Node(root, 2, 0) in table && a == first + n < MAXVPN && page == start + n && perm < 1024 && IsLeaf(perm)
      requires Maps(was, S(), root, first, n, start, perm)
      requires !IsValid(Lookup(was.mem, was.table, root, a)) && (Owns(a) ==> IsOther(was.owner, page))
      modifies this
      ensures Valid() && Maps(was, S(), root, first, if ok then n + 1 else n, start, perm)
      ensures Node(root, 2, 0) in table && (!ok ==> freelist == [])
      ensures if ok then Spent(|old(freelist)|, old(table), |freelist|, table, Tables(root, a, a + 1), 0)
              else |old(freelist)| < Need(old(table), Tables(root, a, a + 1), 0)
    {
      ghost var mid := S();
      assert Owns(a) ==> MapsPage(was, mid, root, first, n, start, page);
      ok := MapPage(root, a, page, perm);
      if ok {
        MapsMore(was, mid, S(), root, first, n, start, perm);
      } else {
        MapsNone(mid, S(), root, a, page, perm);
        MapsThenGrows(was, mid, S(), root, first, n, start, perm);
      }
    }

    // The loop of mappages: from page a to page last.  On failure the first n pages are mapped.
    method MapRange(root: nat, first: nat, last: nat, start: nat, perm: nat) returns (ok: bool, ghost n: nat)
      requires Valid() && Node(root, 2, 0) in table && first <= last < MAXVPN && perm < 1024 && IsLeaf(perm)
      requires forall v :: first <= v <= last ==> !IsValid(Lookup(mem, table, root, v))
      requires forall v :: first <= v <= last && Owns(v) ==> IsOther(owner, start + (v - first))
      modifies this
      ensures Valid() && n <= last - first + 1 && Maps(old(S()), S(), root, first, n, start, perm)
      ensures (ok <==> n == last - first + 1) && (!ok ==> freelist == [])
      ensures if ok then Spent(|old(freelist)|, old(table), |freelist|, table, Tables(root, first, last + 1), 0)
              else |old(freelist)| < Need(old(table), Tables(root, first, last + 1), 0)
    {
      hide Spent, Need, Tables, Maps;
      var a, page := first, start;
      n := 0;
      SpentNone(|freelist|, table, root, first, false);
      MapsNone(S(), S(), root, a, page, perm);
      while true
        invariant Valid() && Node(root, 2, 0) in table && n <= last - first && a == first + n && page == start + n
        invariant Maps(old(S()), S(), root, first, n, start, perm)
        invariant Spent(|old(freelist)|, old(table), |freelist|, table, Tables(root, first, a), 0)
        decreases last - a
      {
        assert Owns(a) ==> IsOther(old(owner), start + (a - first));
        ghost var left, before := |freelist|, table;
        ok := MapNext(root, a, page, perm, old(S()), first, n, start);
        if !ok {
          NotEnough(|old(freelist)|, old(table), left, before, root, first, a, last + 1, false);
          return;
        }
        SpentMore(|old(freelist)|, old(table), left, before, |freelist|, table, root, first, a, false);
        n := n + 1;
        if a == last {
          return;
        }
        a, page := a + 1, page + 1;
      }
    }

    // Addresses in bytes are rounded down to pages.  The range must lie below MAXVA and be unmapped, or the
    // source panics.
    method Mappages(root: nat, va: nat, size: nat, pa: nat, perm: nat) returns (ok: bool, ghost n: nat)
      requires Valid() && Node(root, 2, 0) in table && size > 0 && va + size <= MAXVPN * PGSIZE && perm < 1024 && IsLeaf(perm)
      requires forall v :: va / PGSIZE <= v <= (va + size - 1) / PGSIZE ==> !IsValid(Lookup(mem, table, root, v))
      requires forall v :: va / PGSIZE <= v <= (va + size - 1) / PGSIZE && Owns(v) ==> IsOther(owner, pa / PGSIZE + (v - va / PGSIZE))
      modifies this
      ensures Valid() && Maps(old(S()), S(), root, va / PGSIZE, n, pa / PGSIZE, perm)
      ensures n <= (va + size - 1) / PGSIZE - va / PGSIZE + 1
      ensures (ok <==> n == (va + size - 1) / PGSIZE - va / PGSIZE + 1) && (!ok ==> freelist == [])
      ensures var nodes := Tables(root, va / PGSIZE, (va + size - 1) / PGSIZE + 1);
              if ok then Spent(|old(freelist)|, old(table), |freelist|, table, nodes, 0) else |old(freelist)| < Need(old(table), nodes, 0)
    {
      ok, n := MapRange(root, va / PGSIZE, (va + size - 1) / PGSIZE, pa / PGSIZE, perm);
    }

    // One round of uvmunmap, on a page that is mapped.
    method UnmapPage(root: nat, vpn: nat, t: nat, doFree: bool)
      requires Valid() && Leaf(root, vpn) in table && table[Leaf(root, vpn)] == t
      requires IsValid(Lookup(mem, table, root, vpn)) && (doFree ==> Owns(vpn))
      modifies this
      ensures Valid() && Unmaps(old(S()), S(), root, vpn, vpn + 1, doFree)
      ensures |freelist| == |old(freelist)| + Each(doFree, 1)
    {
      ghost var l, i := Leaf(root, vpn), vpn % ENTRIES;
      var pte := Get(mem, t, vpn % ENTRIES);
      assert NodeOk(mem, owner, table, l) && EntryAt(mem, owner, table, l, i);
      assert IsLeaf(Flags(pte));
      ghost var skip: Skip := {};
      if Owns(vpn) {
        DetachData(mem, owner, table, {}, root, vpn);
        skip := {} + {(l, i)};
        owner := owner[PageOf(pte) := Other];
      }
      if doFree {
        Kfree(PageOf(pte), skip);
      }
      NoData(old(S()), S(), root, vpn);
      ClearLeaf(mem, owner, table, skip, root, vpn);
      mem := Put(mem, t, vpn % ENTRIES, 0);
      assert skip - {(l, i)} == {};
      UnmapsOne(old(S()), S(), root, vpn, t, doFree);
    }

    // The same with the source's tests; false stands for its panics.
    method UnmapNext(root: nat, vpn: nat, doFree: bool) returns (ok: bool)
      requires Valid() && Node(root, 2, 0) in table && (doFree && IsMapped(S(), root, vpn) ==> Owns(vpn))
      modifies this
      ensures Valid() && (ok <==> IsMapped(old(S()), root, vpn))
      ensures if ok then Unmaps(old(S()), S(), root, vpn, vpn + 1, doFree) && |freelist| == |old(freelist)| + Each(doFree, 1)
              else S() == old(S()) && freelist == old(freelist)
    {
      if vpn >= MAXVPN {
        return false;
      }
      var t := Walk(root, vpn, false);
      if t == 0 || !IsValid(Get(mem, t, vpn % ENTRIES)) {
        return false;
      }
      UnmapPage(root, vpn, t, doFree);
      ok := true;
    }

    // npages from vpn on, up to the first that is not mapped, where the source panics.  With doFree, that must
    // not be beyond the trapframe.
    method Uvmunmap(root: nat, vpn: nat, npages: nat, doFree: bool) returns (ok: bool, ghost stop: nat)
      requires Valid() && Node(root, 2, 0) in table
      requires doFree ==> vpn + npages <= TRAPFRAME || Hole(S(), root, vpn, TRAPFRAME)
      modifies this
      ensures Valid() && Unmaps(old(S()), S(), root, vpn, stop, doFree)
      ensures vpn <= stop <= vpn + npages && !Hole(old(S()), root, vpn, stop)
      ensures if ok then stop == vpn + npages else stop < vpn + npages && !IsMapped(old(S()), root, stop)
      ensures |freelist| == |old(freelist)| + Each(doFree, stop - vpn)
    {
      var a := vpn;
      while a < vpn + npages
        invariant vpn <= a <= vpn + npages && Valid() && Unmaps(old(S()), S(), root, vpn, a, doFree)
        invariant !Hole(old(S()), root, vpn, a) && |freelist| == |old(freelist)| + Each(doFree, a - vpn)
      {
        ghost var mid := S();
        ok := UnmapNext(root, a, doFree);
        if !ok {
          return false, a;
        }
        UnmapsMore(old(S()), mid, S(), root, vpn, a, a + 1, doFree);
        a := a + 1;
      }
      return true, a;
    }

    // One entry of freewalk's loop.
    method FreeEntry(page: nat, i: nat, ghost n: Node, ghost skip: Skip)
      requires ValidBut(skip) && n in table && table[n] == page && i < ENTRIES && NoLeaves(S(), n.root)
      requires forall x :: x in skip ==> x.0.level > n.level
      modifies this
      ensures ValidBut(skip) && n in table && table[n] == page
      ensures Prunes(old(S()), S(), if n.level > 0 then Subtree(old(table), Child(n, i)) else {}, page)
      ensures forall j :: 0 <= j < ENTRIES ==> Get(mem, page, j) == if j == i then 0 else Get(old(mem), page, j)
      decreases n.level, 0
    {
      assert NodeOk(mem, owner, table, n) && EntryAt(mem, owner, table, n, i);
      var pte := Get(mem, page, i);
      if IsValid(pte) {
        assert n.level > 0 by {
          assert n.level == 0 ==> Lookup(mem, table, n.root, n.prefix * ENTRIES + i) == pte;
        }
        assert !IsLeaf(Flags(pte));
        ghost var c := Child(n, i);
        assert NodeOk(mem, owner, table, c) && c in Subtree(table, c);
        Freewalk(PageOf(pte), c, skip);
        ChildParent(n, i);
        assert PrunesPage(old(S()), S(), Subtree(old(table), c), PageOf(pte), page);
        ClearPointer(mem, owner, table, skip + {(n, i)}, n, i);
        ghost var mid := S();
        mem := Put(mem, page, i, 0);
        assert skip + {(n, i)} - {(n, i)} == skip;
        PrunesEntry(old(S()), mid, S(), Subtree(old(table), c), PageOf(pte), page, i);
      } else {
        NoSubtree(mem, owner, table, n, i);
      }
    }

    method Freewalk(page: nat, ghost n: Node, ghost skip: Skip)
      requires ValidBut(skip) && n in table && table[n] == page && NoLeaves(S(), n.root)
      requires forall x :: x in skip ==> x.0.level > n.level
      modifies this
      ensures ValidBut(skip + Above(n)) && Prunes(old(S()), S(), Subtree(old(table), n), page)
      decreases n.level, 1
    {
      for i := 0 to ENTRIES
        invariant ValidBut(skip) && n in table && table[n] == page
        invariant Prunes(old(S()), S(), Below(old(table), n, i), page)
        invariant forall j :: 0 <= j < i ==> Get(mem, page, j) == 0
      {
        ghost var mid := S();
        FreeEntry(page, i, n, skip);
        BelowMore(old(table), mid.table, n, i);
        PrunesMore(old(S()), mid, S(), Below(old(table), n, i), if n.level > 0 then Subtree(mid.table, Child(n, i)) else {}, page);
      }
      ghost var mid := S();
      FreeNode(page, n, skip);
      PrunesMore(old(S()), mid, S(), Below(old(table), n, ENTRIES), {n}, page);
      BelowAll(old(table), n);
    }

    // The end of freewalk: the page itself is freed.
    method FreeNode(page: nat, ghost n: Node, ghost skip: Skip)
      requires ValidBut(skip) && n in table && table[n] == page && forall j :: 0 <= j < ENTRIES ==> Get(mem, page, j) == 0
      modifies this
      ensures ValidBut(skip + Above(n)) && Prunes(old(S()), S(), {n}, page)
    {
      assert NodeOk(mem, owner, table, n);
      assert IsZero(mem, page) by {
        assert forall j :: 0 <= j < ENTRIES ==> mem[page][j] == Get(mem, page, j);
      }
      RemoveNode(mem, owner, table, skip, n);
      owner, table := owner[page := Other], table - {n};
      Kfree(page, skip + Above(n));
      forall p | p in old(owner) ensures PrunesPage(old(S()), S(), {n}, page, p) {
        assert OwnerOk(old(mem), old(owner), old(table), p);
      }
    }

    // Maps a page that has just been allocated, or frees it again.
    method MapOrFree(root: nat, vpn: nat, p: nat, perm: nat, ghost was: Snap) returns (ok: bool)
      requires Valid() && Node(root, 2, 0) in table && vpn < TRAPFRAME && perm < 1024 && IsLeaf(perm)
      requires !IsValid(Lookup(mem, table, root, vpn))
      requires p in was.owner && was.owner[p].Free? && owner == was.owner[p := Other] && table == was.table && Same(was, S())
      requires forall q :: q in was.owner && q != p ==> Contents(mem, q) == Contents(was.mem, q)
      modifies this
      ensures Valid()
      ensures ok ==> && Allocs(was, S(), root, vpn, vpn + 1) && Lookup(mem, table, root, vpn) == Pte(p, perm)
                     && Contents(mem, p) == Contents(old(mem), p)
      ensures !ok ==> Same(was, S()) && Grows(was, S(), root) && |freelist| == 1
      ensures if ok then Spent(|old(freelist)|, old(table), |freelist|, table, Tables(root, vpn, vpn + 1), 0)
              else |old(freelist)| < Need(old(table), Tables(root, vpn, vpn + 1), 0)
    {
      hide Spent, Need, Tables;
      ghost var n;
      Aligned(vpn);
      Aligned(p);
      ok, n := Mappages(root, vpn * PGSIZE, PGSIZE, p * PGSIZE, perm);
      if ok {
        AllocsOne(was, old(S()), S(), root, vpn, p, perm);
      } else {
        MapsNone(old(S()), S(), root, vpn, p, perm);
        ghost var mid := S();
        assert KeepsPage(old(S()), S(), root, p);
        Kfree(p, {});
        AllocFails(was, old(S()), mid, S(), root, p);
      }
    }

    // newsz >= oldsz changes nothing.  Otherwise the source panics at the first page between the sizes that is
    // not mapped, after unmapping those before it.  The number of pages must fit in an int.
    method Uvmdealloc(root: nat, oldsz: nat, newsz: nat) returns (ok: bool, r: nat, ghost stop: nat)
      requires Valid() && Node(root, 2, 0) in table && Pages(oldsz) < Pages(newsz) + 0x8000_0000
      requires newsz < oldsz ==> Pages(oldsz) <= TRAPFRAME || Hole(S(), root, Pages(newsz), TRAPFRAME)
      modifies this
      ensures Valid() && (!ok <==> newsz < oldsz && Hole(old(S()), root, Pages(newsz), Pages(oldsz)))
      ensures ok ==> r == (if newsz < oldsz then newsz else oldsz)
      ensures ok ==> Unmaps(old(S()), S(), root, Pages(newsz), Pages(oldsz), true)
      ensures ok ==> |freelist| == |old(freelist)| + if Pages(newsz) < Pages(oldsz) then Pages(oldsz) - Pages(newsz) else 0
      ensures !ok ==> && Pages(newsz) <= stop < Pages(oldsz) && !Hole(old(S()), root, Pages(newsz), stop) && !IsMapped(old(S()), root, stop)
                      && Unmaps(old(S()), S(), root, Pages(newsz), stop, true)
    {
      ok, r, stop := true, oldsz, 0;
      if newsz >= oldsz {
        return;
      }
      if Pages(newsz) < Pages(oldsz) {
        ok, stop := Uvmunmap(root, Pages(newsz), Pages(oldsz) - Pages(newsz), true);
      }
      r := newsz;
    }

    // One round of uvmalloc.
    method AllocPage(root: nat, a: nat, perm: nat) returns (ok: bool)
      requires Valid() && Node(root, 2, 0) in table && a < TRAPFRAME && perm < 1024 && IsLeaf(perm)
      requires !IsValid(Lookup(mem, table, root, a))
      modifies this
      ensures Valid()
      ensures ok ==> && Allocs(old(S()), S(), root, a, a + 1) && Flags(Lookup(mem, table, root, a)) == Flags(Pte(0, perm))
                     && IsZero(mem, PageOf(Lookup(mem, table, root, a)))
      ensures !ok ==> Same(old(S()), S()) && Grows(old(S()), S(), root) && |freelist| <= 1
      ensures if ok then Spent(|old(freelist)|, old(table), |freelist|, table, Tables(root, a, a + 1), 1)
              else |old(freelist)| < Need(old(table), Tables(root, a, a + 1), 1)
    {
      hide Tables;
      var p := KallocZeroed();
      if p == 0 {
        return false;
      }
      ok := MapOrFree(root, a, p, perm, old(S()));
    }

    // There is no room for more user pages than there are pages.
    lemma RoomLeft(root: nat, n: nat)
      requires Valid() && IsUser(S(), root, n)
      ensures n < TRAPFRAME
    {
      UserPages(S(), root, n);
      RangeSize(DataPages(owner, root, n), lo, hi);
    }

    // Shrinking an address space from any size to one below the trapframe: uvmdealloc may be called, and it
    // panics exactly if whole pages are given up and the old size is more than the address space has.
    lemma DeallocPanics(root: nat, n: nat, oldsz: nat, newsz: nat)
      requires Valid() && IsUser(S(), root, n) && Pages(newsz) < TRAPFRAME
      ensures Hole(S(), root, Pages(newsz), TRAPFRAME)
      ensures Hole(S(), root, Pages(newsz), Pages(oldsz)) <==> Pages(newsz) < Pages(oldsz) && n < Pages(oldsz)
    {
      RoomLeft(root, n);
      var v := if Pages(newsz) < n then n else Pages(newsz);
      assert !IsMapped(S(), root, v);
    }

    // One byte above an address space is enough.
    lemma OneAbove(root: nat, n: nat)
      requires Valid() && IsUser(S(), root, n)
      ensures Hole(S(), root, Pages(n * PGSIZE), Pages(n * PGSIZE + 1))
    {
      RoomLeft(root, n);
      DeallocPanics(root, n, n * PGSIZE + 1, n * PGSIZE);
    }

    // Grows an address space, with zeroed pages, or leaves its mappings and every data page as they were.
    // A size smaller than the present one is ignored.  The new size may be anything: memory runs out long
    // before the trapframe is reached.
    method Uvmalloc(root: nat, oldsz: nat, newsz: nat, xperm: nat) returns (r: nat, ghost ok: bool)
      requires Valid() && IsUser(S(), root, Pages(oldsz)) && xperm in {0, PTE_W, PTE_X, PTE_W + PTE_X}
      modifies this
      ensures Valid()
      ensures newsz < oldsz ==> ok && r == oldsz && S() == old(S())
      ensures ok && newsz >= oldsz ==>
                && r == newsz && IsUser(S(), root, Pages(newsz))
                && Allocs(old(S()), S(), root, Pages(oldsz), Pages(newsz))
                && ZeroPages(S(), root, Pages(oldsz), Pages(newsz), PTE_R + PTE_U + xperm + 1)
      ensures !ok ==> r == 0 && Same(old(S()), S()) && Grows(old(S()), S(), root) && |freelist| <= Pages(newsz) - Pages(oldsz)
      ensures newsz >= oldsz ==>
                (ok <==> Need(old(table), Tables(root, Pages(oldsz), Pages(newsz)), Pages(newsz) - Pages(oldsz)) <= |old(freelist)|)
      ensures newsz >= oldsz && 3 * (Pages(newsz) - Pages(oldsz)) <= |old(freelist)| ==> ok
    {
      hide Spent, Need, Tables;
      if newsz < oldsz {
        return oldsz, true;
      }
      ThreeEach(table, root, Pages(oldsz), Pages(newsz));
      var from, perm := Pages(oldsz), PTE_R + PTE_U + xperm;
      var a := from;
      AllocsNone(S(), S(), root, from);
      SpentNone(|freelist|, table, root, from, true);
      while a * PGSIZE < newsz
        invariant from <= a <= Pages(newsz) && Valid() && IsUser(S(), root, a)
        invariant Spent(|old(freelist)|, old(table), |freelist|, table, Tables(root, from, a), a - from)
        invariant Allocs(old(S()), S(), root, from, a) && ZeroPages(S(), root, from, a, perm + 1)
      {
        ghost var left, before := |freelist|, table;
        var more := GrowByOne(root, from, a, perm, old(S()));
        if !more {
          NotEnough(|old(freelist)|, old(table), left, before, root, from, a, Pages(newsz), true);
          return 0, false;
        }
        SpentMore(|old(freelist)|, old(table), left, before, |freelist|, table, root, from, a, true);
        a := a + 1;
      }
      SpentEnough(|old(freelist)|, old(table), |freelist|, table, Tables(root, from, a), a - from);
      return newsz, true;
    }

    // A round of uvmalloc, with what happens if it fails.
    method GrowByOne(root: nat, from: nat, a: nat, perm: nat, ghost was: Snap) returns (ok: bool)
      requires Valid() && IsUser(S(), root, a) && from <= a && perm < 1024 && IsLeaf(perm) && perm % 2 == 0
      requires Inv(was.mem, was.owner, was.table, {}) && IsUser(was, root, from)
      requires Allocs(was, S(), root, from, a) && ZeroPages(S(), root, from, a, perm + 1)
      modifies this
      ensures Valid()
      ensures ok ==> && IsUser(S(), root, a + 1) && Allocs(was, S(), root, from, a + 1)
                     && ZeroPages(S(), root, from, a + 1, perm + 1)
      ensures !ok ==> Same(was, S()) && Grows(was, S(), root) && |freelist| <= a - from + 1
      ensures if ok then Spent(|old(freelist)|, old(table), |freelist|, table, Tables(root, a, a + 1), 1)
              else |old(freelist)| < Need(old(table), Tables(root, a, a + 1), 1)
    {
      hide Spent, Need, Tables;
      RoomLeft(root, a);
      ok := AllocPage(root, a, perm);
      if ok {
        AllocsMore(was, old(S()), S(), root, from, a, a + 1);
        AllocsUser(old(S()), S(), root, a, a + 1);
        assert ZeroPage(S(), root, a, perm + 1);
        ZeroPagesMore(old(S()), S(), root, from, a, perm + 1);
      } else {
        AllocsNone(old(S()), S(), root, a);
        AllocsMore(was, old(S()), S(), root, from, a, a);
        GiveBack(root, from, a, was);
      }
    }

    // The clean-up of a failed uvmalloc.
    method GiveBack(root: nat, from: nat, a: nat, ghost was: Snap)
      requires Valid() && from <= a < TRAPFRAME && Inv(was.mem, was.owner, was.table, {}) && IsUser(was, root, from)
      requires Allocs(was, S(), root, from, a)
      modifies this
      ensures Valid() && Same(was, S()) && Grows(was, S(), root) && |freelist| == |old(freelist)| + (a - from)
    {
      ghost var mid := S();
      var done, r, stop := Uvmdealloc(root, a * PGSIZE, from * PGSIZE);
      UnmappedZero(was, root);
      AllocsUndone(was, mid, S(), root, from, a);
    }

    // kalloc followed by a copy of a page in use.
    method KallocCopy(src: nat) returns (p: nat)
      requires Valid() && src in owner && !owner[src].Free?
      modifies this
      ensures Valid() && table == old(table) && Same(old(S()), S())
      ensures p == 0 <==> old(freelist) == []
      ensures p == 0 ==> freelist == [] && S() == old(S())
      ensures p != 0 ==>
                && p in old(owner) && old(owner)[p].Free? && owner == old(owner)[p := Other]
                && mem == old(mem)[p := Contents(old(mem), src)] && freelist == old(freelist)[1..]
    {
      assert OwnerOk(mem, owner, table, src);
      p := Kalloc({});
      if p != 0 {
        WritePage(mem, owner, table, {}, p, Contents(mem, src));
        mem := mem[p := Contents(mem, src)];
      }
    }

    // The entry of a mapped page.
    method FindPte(root: nat, v: nat) returns (pte: nat)
      requires Valid() && Node(root, 2, 0) in table && v < TRAPFRAME && IsValid(Lookup(mem, table, root, v))
      modifies this
      ensures Valid() && S() == old(S()) && freelist == old(freelist) && pte == Lookup(mem, table, root, v)
      ensures PageOf(pte) in owner && !owner[PageOf(pte)].Free? && Flags(pte) < 1024 && IsLeaf(Flags(pte))
    {
      var t := Walk(root, v, false);
      pte := Get(mem, t, v % ENTRIES);
      assert EntryAt(mem, owner, table, Leaf(root, v), v % ENTRIES);
      DetachData(mem, owner, table, {}, root, v);
      assert OwnerOk(mem, owner, table, PageOf(pte));
    }

    // One round of uvmcopy.
    method CopyPage(parent: nat, child: nat, v: nat) returns (ok: bool)
      requires Valid() && Node(parent, 2, 0) in table && Node(child, 2, 0) in table && v < TRAPFRAME
      requires IsValid(Lookup(mem, table, parent, v)) && !IsValid(Lookup(mem, table, child, v))
      modifies this
      ensures Valid()
      ensures ok ==> Allocs(old(S()), S(), child, v, v + 1) && CopyOf(old(S()), S(), parent, child, v)
      ensures !ok ==> Same(old(S()), S()) && Grows(old(S()), S(), child) && |freelist| <= 1
      ensures if ok then Spent(|old(freelist)|, old(table), |freelist|, table, Tables(child, v, v + 1), 1)
              else |old(freelist)| < Need(old(table), Tables(child, v, v + 1), 1)
    {
      hide Tables;
      var pte := FindPte(parent, v);
      var p := KallocCopy(PageOf(pte));
      if p == 0 {
        return false;
      }
      ok := MapOrFree(child, v, p, Flags(pte), old(S()));
    }

    // The child's address space becomes a copy of the parent's, or is left as it was, with every data page
    // free again.
    method Uvmcopy(parent: nat, child: nat, sz: nat) returns (ok: bool)
      requires Valid() && IsUser(S(), parent, Pages(sz)) && IsUser(S(), child, 0)
      modifies this
      ensures Valid()
      ensures ok ==> && IsUser(S(), child, Pages(sz)) && Copies(old(S()), S(), parent, child, Pages(sz))
                     && Allocs(old(S()), S(), child, 0, Pages(sz))
      ensures !ok ==> Same(old(S()), S()) && Grows(old(S()), S(), child) && |freelist| <= Pages(sz)
      ensures ok <==> Need(old(table), Tables(child, 0, Pages(sz)), Pages(sz)) <= |old(freelist)|
      ensures 3 * Pages(sz) <= |old(freelist)| ==> ok
    {
      hide Spent, Need, Tables;
      ThreeEach(table, child, 0, Pages(sz));
      var i := 0;
      AllocsNone(S(), S(), child, 0);
      SpentNone(|freelist|, table, child, 0, true);
      while i * PGSIZE < sz
        invariant i <= Pages(sz) && Valid() && IsUser(S(), child, i)
        invariant Spent(|old(freelist)|, old(table), |freelist|, table, Tables(child, 0, i), i)
        invariant Allocs(old(S()), S(), child, 0, i) && Copies(old(S()), S(), parent, child, i)
      {
        ghost var left, before := |freelist|, table;
        ok := CopyNext(parent, child, i, old(S()), Pages(sz));
        if !ok {
          NotEnough(|old(freelist)|, old(table), left, before, child, 0, i, Pages(sz), true);
          return;
        }
        SpentMore(|old(freelist)|, old(table), left, before, |freelist|, table, child, 0, i, true);
        i := i + 1;
      }
      SpentEnough(|old(freelist)|, old(table), |freelist|, table, Tables(child, 0, i), i);
      return true;
    }

    method CopyNext(parent: nat, child: nat, i: nat, ghost was: Snap, ghost n: nat) returns (ok: bool)
      requires Valid() && IsUser(S(), child, i) && i < n
      requires Inv(was.mem, was.owner, was.table, {}) && IsUser(was, parent, n) && IsUser(was, child, 0)
      requires Allocs(was, S(), child, 0, i) && Copies(was, S(), parent, child, i)
      modifies this
      ensures Valid()
      ensures ok ==> && IsUser(S(), child, i + 1) && Allocs(was, S(), child, 0, i + 1)
                     && Copies(was, S(), parent, child, i + 1)
      ensures !ok ==> Same(was, S()) && Grows(was, S(), child) && |freelist| <= i + 1
      ensures if ok then Spent(|old(freelist)|, old(table), |freelist|, table, Tables(child, i, i + 1), 1)
              else |old(freelist)| < Need(old(table), Tables(child, i, i + 1), 1)
    {
      hide Spent, Need, Tables;
      assert parent != child by {
        assert IsValid(Lookup(was.mem, was.table, parent, 0));
      }
      AllocsKeeps(was, S(), child, 0, i, parent, i);
      ok := CopyPage(parent, child, i);
      if ok {
        AllocsMore(was, old(S()), S(), child, 0, i, i + 1);
        AllocsUser(old(S()), S(), child, i, i + 1);
        CopiesMore(was, old(S()), S(), parent, child, i);
      } else {
        ghost var mid := S();
        AllocsNone(old(S()), mid, child, i);
        AllocsMore(was, old(S()), mid, child, 0, i, i);
        var done, stop := Uvmunmap(child, 0, i, true);
        UnmappedZero(was, child);
        AllocsUndone(was, mid, S(), child, 0, i);
      }
    }

    // Frees a page table whose leaves are those of [0, Pages(sz)).
    method Uvmfree(root: nat, sz: nat)
      requires Valid() && Node(root, 2, 0) in table && Pages(sz) <= TRAPFRAME
      requires forall v: nat :: IsValid(Lookup(mem, table, root, v)) <==> v < Pages(sz)
      modifies this
      ensures Valid() && Destroys(old(S()), S(), root)
    {
      if sz > 0 {
        var done, stop := Uvmunmap(root, 0, Pages(sz), true);
      }
      ghost var mid := S();
      ghost var n := Node(root, 2, 0);
      UnmappedZero(old(S()), root);
      assert NodeOk(mem, owner, table, n);
      Freewalk(root, n, {});
      DestroysAll(old(S()), mid, S(), root, Pages(sz));
    }

    // Frees the page table of a process and its user pages; the trampoline and trapframe pages stay.
    method ProcFreepagetable(root: nat, sz: nat)
      requires Valid() && IsUser(S(), root, Pages(sz))
      modifies this
      ensures Valid() && Destroys(old(S()), S(), root)
    {
      var done, stop := Uvmunmap(root, TRAMPOLINE, 1, false);
      ghost var mid := S();
      done, stop := Uvmunmap(root, TRAPFRAME, 1, false);
      ghost var mid2 := S();
      Uvmfree(root, sz);
      UnmapsThenDestroys(mid, mid2, S(), root, TRAPFRAME, TRAPFRAME + 1);
      UnmapsThenDestroys(old(S()), mid, S(), root, TRAMPOLINE, TRAMPOLINE + 1);
    }

    // An empty page table; 0 when no page is free.
    method Uvmcreate() returns (root: nat)
      requires Valid()
      modifies this
      ensures Valid() && Same(old(S()), S())
      ensures root == 0 <==> old(freelist) == []
      ensures root == 0 ==> S() == old(S())
      ensures root != 0 ==> && Unused(old(S()), root) && NoLeaves(S(), root) && table == old(table)[Node(root, 2, 0) := root]
                            && Grows(old(S()), S(), root) && |freelist| == |old(freelist)| - 1
    {
      root := KallocZeroed();
      if root == 0 {
        return;
      }
      AttachRoot(mem, owner, table, {}, root);
      forall n | n in table ensures n.root != root {
        RootIn(mem, owner, table, n);
      }
      forall p | p in owner ensures !IsPartOf(owner[p], root) {
        assert OwnerOk(mem, owner, table, p);
      }
      ghost var n := Node(root, 2, 0);
      owner, table := owner[root := Table(n)], table[n := root];
      forall p | p in old(owner) ensures KeepsPage(old(S()), S(), root, p) {
      }
    }

    method MapFixed(root: nat, vpn: nat, page: nat, perm: nat) returns (ok: bool)
      requires Valid() && Node(root, 2, 0) in table && TRAPFRAME <= vpn <= TRAMPOLINE && perm < 1024 && IsLeaf(perm)
      requires !IsValid(Lookup(mem, table, root, vpn))
      modifies this
      ensures Valid() && Grows(old(S()), S(), root)
      ensures ok ==> SetsLookup(old(mem), old(table), mem, table, root, vpn, Pte(page, perm))
      ensures !ok ==> Same(old(S()), S())
      ensures if ok then Spent(|old(freelist)|, old(table), |freelist|, table, Tables(root, vpn, vpn + 1), 0)
              else |old(freelist)| < Need(old(table), Tables(root, vpn, vpn + 1), 0)
    {
      hide Spent, Need, Tables;
      Aligned(vpn);
      Aligned(page);
      ghost var n;
      ok, n := Mappages(root, vpn * PGSIZE, PGSIZE, page * PGSIZE, perm);
      if ok {
        MapsGrows(old(S()), S(), root, vpn, page, perm);
      } else {
        MapsNone(old(S()), S(), root, vpn, page, perm);
      }
    }

    // A page table with the trampoline and the trapframe; 0 on failure, with every page as it was.  It takes
    // three pages.
    method ProcPagetable(trampoline: nat, trapframe: nat) returns (root: nat)
      requires Valid()
      modifies this
      ensures Valid()
      ensures root != 0 ==>
                && IsUser(S(), root, 0) && Grows(old(S()), S(), root)
                && Lookup(mem, table, root, TRAMPOLINE) == Pte(trampoline, PTE_R + PTE_X)
                && Lookup(mem, table, root, TRAPFRAME) == Pte(trapframe, PTE_R + PTE_W)
                && (forall r: nat, v: nat :: r != root ==> Lookup(mem, table, r, v) == Lookup(old(mem), old(table), r, v))
      ensures root == 0 ==> owner == old(owner) && table == old(table) && Same(old(S()), S())
      ensures root == 0 <==> |old(freelist)| < 3
    {
      hide Spent, Need, Tables;
      root := Uvmcreate();
      if root == 0 {
        return;
      }
      ghost var s0, n0 := S(), |freelist|;
      FixedTogether(s0.table, root);
      var ok := MapFixed(root, TRAMPOLINE, trampoline, PTE_R + PTE_X);
      ghost var s1, n1 := S(), |freelist|;
      GrowsTrans(old(S()), s0, s1, root);
      if !ok {
        Uvmfree(root, 0);
        BuiltAndDestroyed(old(S()), s1, S(), root);
        return 0;
      }
      ok := MapFixed(root, TRAPFRAME, trapframe, PTE_R + PTE_W);
      ghost var s2 := S();
      GrowsTrans(old(S()), s1, s2, root);
      if !ok {
        FixedFails(n0, s0.table, n1, s1.table, root);
        var done, stop := Uvmunmap(root, TRAMPOLINE, 1, false);
        ghost var s3 := S();
        Uvmfree(root, 0);
        UnmapsThenDestroys(s2, s3, S(), root, TRAMPOLINE, TRAMPOLINE + 1);
        BuiltAndDestroyed(old(S()), s2, S(), root);
        return 0;
      }
      FixedTakesTwo(n0, s0.table, n1, s1.table, root);
    }
  }
}
