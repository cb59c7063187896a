/**
 What the operations of kernel/vm.c do to the system as a whole: to the translations of every page table,
 to the use of every page and to the contents of the pages in use; and how such effects compose.
 */
module VmSpec {
  import opened Collections
  import opened PageTable

  const JUNK_ALLOC: Page := seq(ENTRIES, _ => 0x0505_0505_0505_0505)
  const JUNK_FREE: Page := seq(ENTRIES, _ => 0x0101_0101_0101_0101)

  type Skip = set<(Node, nat)>

  // ----- addresses -----

  // PX(level, va) for the virtual page number of va.
  function Up(level: nat, vpn: nat): nat {
    if level == 0 then vpn else Up(level - 1, vpn) / ENTRIES
  }

  function Px(level: nat, vpn: nat): nat { Up(level, vpn) % ENTRIES }

  // The node that a walk for vpn visits at a level.
  function On(root: nat, level: nat, vpn: nat): Node { Node(root, level, Up(level + 1, vpn)) }

  lemma OnPath(root: nat, level: nat, vpn: nat)
    requires level > 0
    ensures Child(On(root, level, vpn), Px(level, vpn)) == On(root, level - 1, vpn)
  {
  }

  lemma OnEnds(root: nat, vpn: nat)
    requires vpn < MAXVPN
    ensures On(root, 2, vpn) == Node(root, 2, 0) && On(root, 0, vpn) == Leaf(root, vpn) && Px(0, vpn) == vpn % ENTRIES
  {
    assert Up(1, vpn) == vpn / ENTRIES;
    assert Up(2, vpn) == Up(1, vpn) / ENTRIES;
  }

  // ----- what one call does to the rest of the system -----

  datatype Snap = Snap(mem: Mem, owner: map<nat, Owner>, table: map<Node, nat>)

  ghost predicate Same(a: Snap, b: Snap) { SameLookups(a.mem, a.table, b.mem, b.table) }

  // Free pages may become page-table pages of one page table; nothing else changes hands, no table goes
  // away, and the contents of pages in use outside page tables stay.
  ghost predicate Grows(a: Snap, b: Snap, root: nat) {
    && TablesStay(a, b)
    && (forall p {:trigger KeepsPage(a, b, root, p)} :: p in a.owner ==> KeepsPage(a, b, root, p))
  }

  ghost predicate TablesStay(a: Snap, b: Snap) {
    forall n :: n in a.table ==> n in b.table && b.table[n] == a.table[n]
  }

  predicate KeepsPage(a: Snap, b: Snap, root: nat, p: nat)
    requires p in a.owner
  {
    && p in b.owner
    && (b.owner[p] == a.owner[p] || (a.owner[p].Free? && b.owner[p].Table? && b.owner[p].node.root == root))
    && (a.owner[p].Data? || a.owner[p].Other? ==> Contents(b.mem, p) == Contents(a.mem, p))
  }

  lemma GrowsTrans(a: Snap, b: Snap, c: Snap, root: nat)
    requires Grows(a, b, root) && Grows(b, c, root)
    ensures Grows(a, c, root)
  {
    forall p | p in a.owner ensures KeepsPage(a, c, root, p) {
      assert KeepsPage(a, b, root, p) && KeepsPage(b, c, root, p);
    }
  }

  lemma AttachGrows(a: Snap, b: Snap, n: Node, i: nat, p: nat)
    requires n in a.table && a.table[n] in a.owner && a.owner[a.table[n]] == Table(n) && n.level > 0 && Child(n, i) !in a.table
    requires a.table[n] in a.mem && i < |a.mem[a.table[n]]| && p in a.owner && a.owner[p].Free?
    requires b.mem == Put(a.mem[p := ZERO], a.table[n], i, Pointer(p))
    requires b.owner == a.owner[p := Other][p := Table(Child(n, i))] && b.table == a.table[Child(n, i) := p]
    ensures Grows(a, b, n.root)
  {
  }

  // n virtual pages from one on are mapped to consecutive pages, and nothing else is; of the pages mapped,
  // those that belong to the page table were allocated and unused.
  ghost predicate Maps(a: Snap, b: Snap, root: nat, from: nat, n: nat, page: nat, perm: nat)
    requires perm < 1024
  {
    && MapsLookups(a, b, root, from, n, page, perm)
    && TablesStay(a, b)
    && (forall p {:trigger MapsPage(a, b, root, from, n, page, p)} :: p in a.owner ==> MapsPage(a, b, root, from, n, page, p))
  }

  ghost predicate MapsLookups(a: Snap, b: Snap, root: nat, from: nat, n: nat, page: nat, perm: nat)
    requires perm < 1024
  {
    forall r: nat, v: nat :: Lookup(b.mem, b.table, r, v)
                == if r == root && from <= v < from + n then Pte(page + (v - from), perm) else Lookup(a.mem, a.table, r, v)
  }

  predicate MapsPage(a: Snap, b: Snap, root: nat, from: nat, n: nat, page: nat, p: nat)
    requires p in a.owner
  {
    if page <= p < page + n && Owns(from + (p - page)) then
      && p in b.owner && a.owner[p].Other? && b.owner[p] == Data(root, from + (p - page))
      && Contents(b.mem, p) == Contents(a.mem, p)
    else
      KeepsPage(a, b, root, p)
  }

  lemma MapsMore(a: Snap, b: Snap, c: Snap, root: nat, from: nat, n: nat, page: nat, perm: nat)
    requires perm < 1024 && Maps(a, b, root, from, n, page, perm) && Maps(b, c, root, from + n, 1, page + n, perm)
    ensures Maps(a, c, root, from, n + 1, page, perm)
  {
    forall p | p in a.owner ensures MapsPage(a, c, root, from, n + 1, page, p) {
      assert MapsPage(a, b, root, from, n, page, p) && MapsPage(b, c, root, from + n, 1, page + n, p);
    }
  }

  // Mapping nothing: what a failed call leaves.
  lemma MapsNone(a: Snap, b: Snap, root: nat, from: nat, page: nat, perm: nat)
    requires perm < 1024
    ensures Maps(a, b, root, from, 0, page, perm) <==> Same(a, b) && Grows(a, b, root)
  {
    if Maps(a, b, root, from, 0, page, perm) {
      forall p | p in a.owner ensures KeepsPage(a, b, root, p) {
        assert MapsPage(a, b, root, from, 0, page, p);
      }
    }
  }

  // A failed attempt that only added page-table pages.
  lemma MapsThenGrows(a: Snap, b: Snap, c: Snap, root: nat, from: nat, n: nat, page: nat, perm: nat)
    requires perm < 1024 && Maps(a, b, root, from, n, page, perm) && Same(b, c) && Grows(b, c, root)
    ensures Maps(a, c, root, from, n, page, perm)
  {
    forall p | p in a.owner ensures MapsPage(a, c, root, from, n, page, p) {
      assert MapsPage(a, b, root, from, n, page, p) && KeepsPage(b, c, root, p);
    }
  }

  // Writing one leaf entry after a walk.
  lemma MapsOne(a: Snap, b: Snap, c: Snap, root: nat, vpn: nat, page: nat, perm: nat)
    requires perm < 1024 && Same(a, b) && Grows(a, b, root) && (Owns(vpn) ==> page in a.owner && a.owner[page].Other?)
    requires Leaf(root, vpn) in b.table && b.table[Leaf(root, vpn)] in b.owner && b.owner[b.table[Leaf(root, vpn)]].Table?
    requires b.table[Leaf(root, vpn)] in b.mem && |b.mem[b.table[Leaf(root, vpn)]]| == ENTRIES
    requires c.mem == Put(b.mem, b.table[Leaf(root, vpn)], vpn % ENTRIES, Pte(page, perm))
    requires c.owner == Taken(b.owner, root, vpn, page) && c.table == b.table
    requires SetsLookup(b.mem, b.table, c.mem, c.table, root, vpn, Pte(page, perm))
    ensures Maps(a, c, root, vpn, 1, page, perm)
  {
    forall p | p in a.owner ensures MapsPage(a, c, root, vpn, 1, page, p) {
      assert KeepsPage(a, b, root, p);
    }
  }

  // The virtual pages of a range are unmapped, and nothing else is; pages that belonged to the page table are
  // free, or allocated but unused.
  ghost predicate Unmaps(a: Snap, b: Snap, root: nat, from: nat, to: nat, freed: bool) {
    && b.table == a.table
    && (forall r: nat, v: nat :: Lookup(b.mem, b.table, r, v)
                              == if r == root && from <= v < to then 0 else Lookup(a.mem, a.table, r, v))
    && (forall p {:trigger UnmapsPage(a, b, root, from, to, freed, p)} :: p in a.owner ==> UnmapsPage(a, b, root, from, to, freed, p))
  }

  predicate UnmapsPage(a: Snap, b: Snap, root: nat, from: nat, to: nat, freed: bool, p: nat)
    requires p in a.owner
  {
    var isData := IsDataOf(a.owner[p], root, from, to);
    && p in b.owner && b.owner[p] == (if !isData then a.owner[p] else if freed then Free else Other)
    && (a.owner[p].Other? || (a.owner[p].Data? && !(isData && freed)) ==> Contents(b.mem, p) == Contents(a.mem, p))
  }

  predicate IsDataOf(o: Owner, root: nat, from: nat, to: nat) {
    o.Data? && o.root == root && from <= o.vpn < to
  }

  lemma UnmapsMore(a: Snap, b: Snap, c: Snap, root: nat, from: nat, mid: nat, to: nat, freed: bool)
    requires from <= mid <= to && Unmaps(a, b, root, from, mid, freed) && Unmaps(b, c, root, mid, to, freed)
    ensures Unmaps(a, c, root, from, to, freed)
  {
    forall p | p in a.owner ensures UnmapsPage(a, c, root, from, to, freed, p) {
      assert UnmapsPage(a, b, root, from, mid, freed, p) && UnmapsPage(b, c, root, mid, to, freed, p);
    }
  }

  // The page of a virtual page is given up or freed, and its entry zeroed.
  lemma UnmapsOne(a: Snap, b: Snap, root: nat, vpn: nat, t: nat, freed: bool)
    requires Owners(a.mem, a.owner, a.table) && t in a.owner && a.owner[t].Table? && b.table == a.table
    requires SetsLookup(a.mem, a.table, b.mem, b.table, root, vpn, 0) && (freed ==> Owns(vpn))
    requires var page := PageOf(Lookup(a.mem, a.table, root, vpn));
             if Owns(vpn) then
               && page in a.owner && a.owner[page] == Data(root, vpn)
               && b.owner == (if freed then a.owner[page := Other][page := Free] else a.owner[page := Other])
               && b.mem == Put(if freed then a.mem[page := JUNK_FREE] else a.mem, t, vpn % ENTRIES, 0)
             else
               b.owner == a.owner && b.mem == Put(a.mem, t, vpn % ENTRIES, 0)
    ensures Unmaps(a, b, root, vpn, vpn + 1, freed)
  {
    forall p | p in a.owner ensures UnmapsPage(a, b, root, vpn, vpn + 1, freed, p) {
      assert OwnerOk(a.mem, a.owner, a.table, p);
    }
  }

  // walk panics beyond MAXVA.
  predicate IsMapped(a: Snap, root: nat, vpn: nat) { vpn < MAXVPN && IsValid(Lookup(a.mem, a.table, root, vpn)) }

  // A page of the range is not mapped, so that uvmunmap panics there.
  ghost predicate Hole(a: Snap, root: nat, from: nat, to: nat) {
    exists v :: from <= v < to && !IsMapped(a, root, v)
  }

  // ----- how many pages are needed -----

  // The page-table pages, other than the root, on the way to the virtual pages of a range.
  ghost function Tables(root: nat, from: nat, to: nat): set<Node>
  {
    if to <= from then {} else Tables(root, from, to - 1) + {On(root, 1, to - 1), On(root, 0, to - 1)}
  }

  // What it takes to have these page-table pages, and some pages besides.
  ghost function Need(table: map<Node, nat>, nodes: set<Node>, pages: nat): nat { |nodes - table.Keys| + pages }

  // Exactly that has been taken from the free list, of which n and n' pages were and are left.
  ghost predicate Spent(n: nat, table: map<Node, nat>, n': nat, table': map<Node, nat>, nodes: set<Node>, pages: nat) {
    table'.Keys == table.Keys + nodes && n == n' + Need(table, nodes, pages)
  }

  lemma NeedSum(table: map<Node, nat>, table': map<Node, nat>, a: set<Node>, b: set<Node>, p: nat, q: nat)
    requires table'.Keys == table.Keys + a
    ensures Need(table, a + b, p + q) == Need(table, a, p) + Need(table', b, q)
  {
    assert (a + b) - table.Keys == (a - table.Keys) + (b - table'.Keys);
    assert (a - table.Keys) !! (b - table'.Keys);
  }

  lemma NeedGrows(table: map<Node, nat>, a: set<Node>, b: set<Node>, p: nat, q: nat)
    requires a <= b && p <= q
    ensures Need(table, a, p) <= Need(table, b, q)
  {
    SubsetSize(a - table.Keys, b - table.Keys);
  }

  lemma {:induction false} TablesGrow(root: nat, from: nat, mid: nat, to: nat)
    requires from <= mid <= to
    ensures Tables(root, from, mid) <= Tables(root, from, to)
  {
    if mid < to {
      TablesGrow(root, from, mid, to - 1);
    }
  }

  lemma TablesOne(root: nat, vpn: nat)
    ensures Tables(root, vpn, vpn + 1) == {On(root, 1, vpn), On(root, 0, vpn)}
  {
  }

  // The part of the way to a virtual page down to a level.
  ghost function Way(root: nat, level: nat, vpn: nat): set<Node> {
    if level >= 2 then {} else if level == 1 then {On(root, 1, vpn)} else Tables(root, vpn, vpn + 1)
  }

  lemma WayStart(n: nat, table: map<Node, nat>, root: nat, vpn: nat)
    ensures Spent(n, table, n, table, Way(root, 2, vpn), 0)
  {
    assert {} - table.Keys == {};
  }

  lemma WayEnd(root: nat, vpn: nat)
    ensures Way(root, 0, vpn) == Tables(root, vpn, vpn + 1)
  {
  }

  lemma WaySum(root: nat, level: nat, vpn: nat)
    requires 0 < level <= 2
    ensures Way(root, level - 1, vpn) == Way(root, level, vpn) + {On(root, level - 1, vpn)}
    ensures Way(root, level - 1, vpn) <= Tables(root, vpn, vpn + 1)
  {
    TablesOne(root, vpn);
  }

  lemma WayNext(n: nat, table: map<Node, nat>, n': nat, table': map<Node, nat>, n'': nat, table'': map<Node, nat>,
                root: nat, level: nat, vpn: nat)
    requires 0 < level <= 2 && Spent(n, table, n', table', Way(root, level, vpn), 0)
    ensures Spent(n', table', n'', table'', {On(root, level - 1, vpn)}, 0) ==> Spent(n, table, n'', table'', Way(root, level - 1, vpn), 0)
    ensures n' < Need(table', {On(root, level - 1, vpn)}, 0) ==> n < Need(table, Tables(root, vpn, vpn + 1), 0)
  {
    NeedSum(table, table', Way(root, level, vpn), {On(root, level - 1, vpn)}, 0, 0);
    hide Tables, Way, Need;
    WaySum(root, level, vpn);
    NeedGrows(table, Way(root, level - 1, vpn), Tables(root, vpn, vpn + 1), 0, 0);
    if Spent(n', table', n'', table'', {On(root, level - 1, vpn)}, 0) {
      SpentSum(n, table, n', table', n'', table'', Way(root, level, vpn), {On(root, level - 1, vpn)}, 0, 0);
    }
  }

  // One page besides for each virtual page, or none.
  function Each(data: bool, n: nat): nat { if data then n else 0 }

  // A round that fails for want of pages means that there are not enough for all.
  lemma NotEnough(n: nat, table: map<Node, nat>, n': nat, table': map<Node, nat>, root: nat, from: nat, a: nat, to: nat, data: bool)
    requires from <= a < to && Spent(n, table, n', table', Tables(root, from, a), Each(data, a - from))
    requires n' < Need(table', Tables(root, a, a + 1), Each(data, 1))
    ensures n < Need(table, Tables(root, from, to), Each(data, to - from))
  {
    TablesOne(root, a);
    NeedSum(table, table', Tables(root, from, a), Tables(root, a, a + 1), Each(data, a - from), Each(data, 1));
    TablesGrow(root, from, a + 1, to);
    NeedGrows(table, Tables(root, from, a + 1), Tables(root, from, to), Each(data, a + 1 - from), Each(data, to - from));
  }

  lemma SpentMore(n: nat, table: map<Node, nat>, n': nat, table': map<Node, nat>, n'': nat, table'': map<Node, nat>,
                  root: nat, from: nat, a: nat, data: bool)
    requires from <= a && Spent(n, table, n', table', Tables(root, from, a), Each(data, a - from))
    requires Spent(n', table', n'', table'', Tables(root, a, a + 1), Each(data, 1))
    ensures Spent(n, table, n'', table'', Tables(root, from, a + 1), Each(data, a + 1 - from))
  {
    TablesNext(root, from, a);
    hide Tables, Spent, Need;
    SpentSum(n, table, n', table', n'', table'', Tables(root, from, a), Tables(root, a, a + 1), Each(data, a - from), Each(data, 1));
  }

  lemma TablesNext(root: nat, from: nat, a: nat)
    requires from <= a
    ensures Tables(root, from, a + 1) == Tables(root, from, a) + Tables(root, a, a + 1)
  {
    TablesOne(root, a);
  }

  lemma SpentSum(n: nat, table: map<Node, nat>, n': nat, table': map<Node, nat>, n'': nat, table'': map<Node, nat>,
                 a: set<Node>, b: set<Node>, p: nat, q: nat)
    requires Spent(n, table, n', table', a, p) && Spent(n', table', n'', table'', b, q)
    ensures Spent(n, table, n'', table'', a + b, p + q)
  {
    NeedSum(table, table', a, b, p, q);
  }

  lemma SpentEnough(n: nat, table: map<Node, nat>, n': nat, table': map<Node, nat>, nodes: set<Node>, pages: nat)
    requires Spent(n, table, n', table', nodes, pages)
    ensures Need(table, nodes, pages) <= n
  {
  }

  lemma SpentNone(n: nat, table: map<Node, nat>, root: nat, from: nat, data: bool)
    ensures Spent(n, table, n, table, Tables(root, from, from), Each(data, 0))
  {
    assert Tables(root, from, from) == {};
    assert {} - table.Keys == {};
  }

  // Two page-table pages for each virtual page are enough.
  lemma {:induction false} TablesSize(root: nat, from: nat, to: nat)
    requires from <= to
    ensures |Tables(root, from, to)| <= 2 * (to - from)
  {
    if from < to {
      TablesSize(root, from, to - 1);
      var two := {On(root, 1, to - 1), On(root, 0, to - 1)};
      assert Tables(root, from, to) == Tables(root, from, to - 1) + (two - Tables(root, from, to - 1));
      SubsetSize(two - Tables(root, from, to - 1), two);
    }
  }

  lemma ThreeEach(table: map<Node, nat>, root: nat, from: nat, to: nat)
    requires from <= to
    ensures Need(table, Tables(root, from, to), to - from) <= 3 * (to - from)
  {
    TablesSize(root, from, to);
    SubsetSize(Tables(root, from, to) - table.Keys, Tables(root, from, to));
  }

  // The trampoline and the trapframe are next to each other, below the same two page-table pages.
  lemma FixedTogether(table: map<Node, nat>, root: nat)
    ensures Need(table, Tables(root, TRAMPOLINE, TRAMPOLINE + 1), 0) <= 2
    ensures Need(table, Tables(root, TRAMPOLINE, TRAMPOLINE + 1) + Tables(root, TRAPFRAME, TRAPFRAME + 1), 0) <= 2
  {
    TablesOne(root, TRAMPOLINE);
    TablesOne(root, TRAPFRAME);
    var two := {On(root, 1, TRAMPOLINE), On(root, 0, TRAMPOLINE)};
    assert Up(1, TRAMPOLINE) == Up(1, TRAPFRAME);
    assert Up(2, TRAMPOLINE) == Up(2, TRAPFRAME);
    assert two + Tables(root, TRAPFRAME, TRAPFRAME + 1) == two;
    SubsetSize(two - table.Keys, two);
  }

  lemma FixedFails(n: nat, table: map<Node, nat>, n': nat, table': map<Node, nat>, root: nat)
    requires Spent(n, table, n', table', Tables(root, TRAMPOLINE, TRAMPOLINE + 1), 0)
    requires n' < Need(table', Tables(root, TRAPFRAME, TRAPFRAME + 1), 0)
    ensures n < Need(table, Tables(root, TRAMPOLINE, TRAMPOLINE + 1) + Tables(root, TRAPFRAME, TRAPFRAME + 1), 0)
  {
    NeedSum(table, table', Tables(root, TRAMPOLINE, TRAMPOLINE + 1), Tables(root, TRAPFRAME, TRAPFRAME + 1), 0, 0);
  }

  // A new page table has neither.
  lemma FixedTakesTwo(n: nat, table: map<Node, nat>, n': nat, table': map<Node, nat>, root: nat)
    requires forall m :: m in table && m.root == root ==> m.level == 2
    requires Spent(n, table, n', table', Tables(root, TRAMPOLINE, TRAMPOLINE + 1), 0)
    ensures n == n' + 2
  {
    TablesOne(root, TRAMPOLINE);
    var two := {On(root, 1, TRAMPOLINE), On(root, 0, TRAMPOLINE)};
    assert two - table.Keys == two;
  }

  // ----- subtrees of a page table -----

  // The node at a level on the way from m to its root.
  function Anc(m: Node, level: nat): Node
    decreases level - m.level
  {
    if m.level >= level then m else Anc(Parent(m), level)
  }

  predicate Under(m: Node, n: Node) { m.level <= n.level && Anc(m, n.level) == n }

  // Strictly below n, through one of its first i entries.
  predicate Gone(m: Node, n: Node, i: nat) {
    m.level < n.level && Anc(m, n.level) == n && Anc(m, n.level - 1).prefix % ENTRIES < i
  }

  function Subtree(table: map<Node, nat>, n: Node): set<Node> { set m | m in table && Under(m, n) }

  function Below(table: map<Node, nat>, n: Node, i: nat): set<Node> { set m | m in table && Gone(m, n, i) }

  lemma {:induction false} AncParent(m: Node, level: nat)
    requires m.level <= level
    ensures Anc(m, level + 1) == Parent(Anc(m, level)) && Anc(m, level).level == level
    decreases level - m.level
  {
    if m.level < level {
      AncParent(Parent(m), level);
    }
  }

  lemma GoneStep(m: Node, n: Node, i: nat)
    requires i < ENTRIES
    ensures Gone(m, n, i + 1) <==> Gone(m, n, i) || (n.level > 0 && Under(m, Child(n, i)))
  {
    if n.level > 0 {
      ChildParent(n, i);
      if m.level < n.level {
        AncParent(m, n.level - 1);
        ParentChild(Anc(m, n.level - 1));
      }
    }
  }

  lemma {:induction false} AncIn(mem: Mem, owner: map<nat, Owner>, table: map<Node, nat>, m: Node, level: nat)
    requires Nodes(mem, owner, table) && m in table && level <= 2
    ensures Anc(m, level) in table
    decreases level - m.level
  {
    if m.level < level {
      assert NodeOk(mem, owner, table, m);
      AncIn(mem, owner, table, Parent(m), level);
    }
  }

  // The nodes in dead are gone and their pages free; nothing else changes but the contents of one page.
  ghost predicate Prunes(a: Snap, b: Snap, dead: set<Node>, busy: nat) {
    && b.table == a.table - dead && Same(a, b)
    && (forall p {:trigger PrunesPage(a, b, dead, busy, p)} :: p in a.owner ==> PrunesPage(a, b, dead, busy, p))
  }

  predicate PrunesPage(a: Snap, b: Snap, dead: set<Node>, busy: nat, p: nat)
    requires p in a.owner
  {
    && p in b.owner
    && if a.owner[p].Table? && a.owner[p].node in dead then b.owner[p].Free?
       else b.owner[p] == a.owner[p] && (!a.owner[p].Free? && p != busy ==> Contents(b.mem, p) == Contents(a.mem, p))
  }

  lemma PrunesMore(a: Snap, b: Snap, c: Snap, d1: set<Node>, d2: set<Node>, busy: nat)
    requires Prunes(a, b, d1, busy) && Prunes(b, c, d2, busy)
    ensures Prunes(a, c, d1 + d2, busy)
  {
    forall p | p in a.owner ensures PrunesPage(a, c, d1 + d2, busy, p) {
      assert PrunesPage(a, b, d1, busy, p) && PrunesPage(b, c, d2, busy, p);
    }
  }

  ghost predicate NoLeaves(a: Snap, root: nat) { forall v :: Lookup(a.mem, a.table, root, v) == 0 }

  // ----- address spaces -----

  const PTE_R := 2
  const PTE_W := 4
  const PTE_X := 8
  const PTE_U := 16

  // PGROUNDUP(sz) / PGSIZE
  function Pages(sz: nat): nat { (sz + PGSIZE - 1) / PGSIZE }

  // The leaf mappings are those of [0, n), the trampoline and the trapframe.
  ghost predicate IsUser(a: Snap, root: nat, n: nat) {
    && Node(root, 2, 0) in a.table && n <= TRAPFRAME
    && forall v: nat :: IsValid(Lookup(a.mem, a.table, root, v)) <==> v < n || v == TRAMPOLINE || v == TRAPFRAME
  }

  function DataPages(owner: map<nat, Owner>, root: nat, n: nat): set<nat> {
    set p | p in owner && IsDataOf(owner[p], root, 0, n)
  }

  // Each of the n mapped pages has a page of its own.
  lemma {:induction false} UserPages(a: Snap, root: nat, n: nat)
    requires Inv(a.mem, a.owner, a.table, {}) && n <= TRAPFRAME
    requires forall v :: 0 <= v < n ==> IsValid(Lookup(a.mem, a.table, root, v))
    ensures |DataPages(a.owner, root, n)| == n
  {
    if n == 0 {
      assert DataPages(a.owner, root, n) == {};
    } else {
      UserPages(a, root, n - 1);
      DetachData(a.mem, a.owner, a.table, {}, root, n - 1);
      var p := PageOf(Lookup(a.mem, a.table, root, n - 1));
      forall q | q in a.owner && a.owner[q] == Data(root, n - 1) ensures q == p {
        OnePage(a.mem, a.owner, a.table, p, q, root, n - 1);
      }
      assert DataPages(a.owner, root, n) == DataPages(a.owner, root, n - 1) + {p};
    }
  }

  lemma {:induction false} RangeSize(s: set<nat>, lo: nat, hi: nat)
    requires lo <= hi && forall p :: p in s ==> lo <= p < hi
    ensures |s| <= hi - lo
  {
    if lo == hi {
      assert s == {};
    } else {
      RangeSize(s - {hi - 1}, lo, hi - 1);
    }
  }

  // What allocation of the virtual pages [from, to) leaves alone.
  ghost predicate Allocs(a: Snap, b: Snap, root: nat, from: nat, to: nat) {
    && TablesStay(a, b)
    && (forall r: nat, v: nat {:trigger Lookup(b.mem, b.table, r, v)} :: r != root || v < from || v >= to
          ==> Lookup(b.mem, b.table, r, v) == Lookup(a.mem, a.table, r, v))
    && (forall v: nat {:trigger Lookup(b.mem, b.table, root, v)} :: from <= v < to ==> IsValid(Lookup(b.mem, b.table, root, v)))
    && (forall p {:trigger AllocsPage(a, b, root, from, to, p)} :: p in a.owner ==> AllocsPage(a, b, root, from, to, p))
  }

  predicate AllocsPage(a: Snap, b: Snap, root: nat, from: nat, to: nat, p: nat)
    requires p in a.owner
  {
    KeepsPage(a, b, root, p) || (a.owner[p].Free? && p in b.owner && IsDataOf(b.owner[p], root, from, to))
  }

  lemma AllocsMore(a: Snap, b: Snap, c: Snap, root: nat, from: nat, mid: nat, to: nat)
    requires from <= mid <= to && Allocs(a, b, root, from, mid) && Allocs(b, c, root, mid, to)
    ensures Allocs(a, c, root, from, to)
  {
    forall p | p in a.owner ensures AllocsPage(a, c, root, from, to, p) {
      assert AllocsPage(a, b, root, from, mid, p);
      assert AllocsPage(b, c, root, mid, to, p);
    }
  }

  // Allocation followed by unmapping: every page is back where it was, except new page-table pages.
  lemma AllocsUndone(a: Snap, b: Snap, c: Snap, root: nat, from: nat, to: nat)
    requires from <= to && Allocs(a, b, root, from, to) && Unmaps(b, c, root, from, to, true)
    requires Owners(a.mem, a.owner, a.table) && forall v :: from <= v < to ==> Lookup(a.mem, a.table, root, v) == 0
    ensures Same(a, c) && Grows(a, c, root)
  {
    forall p | p in a.owner ensures KeepsPage(a, c, root, p) {
      assert OwnerOk(a.mem, a.owner, a.table, p);
      assert AllocsPage(a, b, root, from, to, p);
      assert UnmapsPage(b, c, root, from, to, true, p);
    }
  }

  // A free page is allocated, filled and mapped.
  lemma AllocsOne(a: Snap, mid: Snap, b: Snap, root: nat, vpn: nat, p: nat, perm: nat)
    requires perm < 1024 && Owns(vpn) && p in a.owner && a.owner[p].Free? && mid.owner == a.owner[p := Other] && mid.table == a.table
    requires Same(a, mid) && (forall q :: q in a.owner && q != p ==> Contents(mid.mem, q) == Contents(a.mem, q))
    requires Maps(mid, b, root, vpn, 1, p, perm)
    ensures Allocs(a, b, root, vpn, vpn + 1) && Lookup(b.mem, b.table, root, vpn) == Pte(p, perm)
    ensures Contents(b.mem, p) == Contents(mid.mem, p)
  {
    forall q | q in a.owner ensures AllocsPage(a, b, root, vpn, vpn + 1, q) {
      assert MapsPage(mid, b, root, vpn, 1, p, q);
    }
    assert MapsPage(mid, b, root, vpn, 1, p, p);
  }

  // A free page is allocated, not mapped, and freed again.
  lemma AllocFails(a: Snap, mid: Snap, b: Snap, c: Snap, root: nat, p: nat)
    requires p in a.owner && a.owner[p].Free? && mid.owner == a.owner[p := Other] && mid.table == a.table
    requires Same(a, mid) && (forall q :: q in a.owner && q != p ==> Contents(mid.mem, q) == Contents(a.mem, q))
    requires Same(mid, b) && Grows(mid, b, root)
    requires Same(b, c) && c.owner == b.owner[p := Free] && c.table == b.table
    requires forall q :: q in a.owner && q != p ==> Contents(c.mem, q) == Contents(b.mem, q)
    ensures Same(a, c) && Grows(a, c, root)
  {
    forall q | q in a.owner ensures KeepsPage(a, c, root, q) {
      assert KeepsPage(mid, b, root, q);
    }
  }

  lemma AllocsNone(a: Snap, b: Snap, root: nat, from: nat)
    requires Same(a, b) && Grows(a, b, root)
    ensures Allocs(a, b, root, from, from)
  {
    forall p | p in a.owner ensures AllocsPage(a, b, root, from, from, p) {
      assert KeepsPage(a, b, root, p);
    }
  }

  // Allocation leaves other mappings and the contents of their pages alone.
  lemma AllocsKeeps(a: Snap, b: Snap, root: nat, from: nat, to: nat, r: nat, v: nat)
    requires Inv(a.mem, a.owner, a.table, {}) && Allocs(a, b, root, from, to)
    requires (r != root || v < from || v >= to) && Owns(v) && IsValid(Lookup(a.mem, a.table, r, v))
    ensures Lookup(b.mem, b.table, r, v) == Lookup(a.mem, a.table, r, v)
    ensures Contents(b.mem, PageOf(Lookup(a.mem, a.table, r, v))) == Contents(a.mem, PageOf(Lookup(a.mem, a.table, r, v)))
  {
    DetachData(a.mem, a.owner, a.table, {}, r, v);
    assert AllocsPage(a, b, root, from, to, PageOf(Lookup(a.mem, a.table, r, v)));
  }

  lemma AllocsUser(a: Snap, b: Snap, root: nat, from: nat, to: nat)
    requires Allocs(a, b, root, from, to) && IsUser(a, root, from) && from <= to <= TRAPFRAME
    ensures IsUser(b, root, to)
  {
    forall v: nat ensures IsValid(Lookup(b.mem, b.table, root, v)) <==> v < to || v == TRAMPOLINE || v == TRAPFRAME {
      if v < from || v >= to {
        assert Lookup(b.mem, b.table, root, v) == Lookup(a.mem, a.table, root, v);
      }
    }
  }

  // The pages of [from, to) have the given flags and are zero.
  ghost predicate ZeroPages(a: Snap, root: nat, from: nat, to: nat, flags: nat) {
    forall v: nat {:trigger ZeroPage(a, root, v, flags)} :: from <= v < to ==> ZeroPage(a, root, v, flags)
  }

  predicate ZeroPage(a: Snap, root: nat, v: nat, flags: nat) {
    Flags(Lookup(a.mem, a.table, root, v)) == flags && IsZero(a.mem, PageOf(Lookup(a.mem, a.table, root, v)))
  }

  lemma ZeroPagesMore(a: Snap, b: Snap, root: nat, from: nat, to: nat, flags: nat)
    requires Inv(a.mem, a.owner, a.table, {}) && from <= to < TRAPFRAME && Allocs(a, b, root, to, to + 1)
    requires ZeroPages(a, root, from, to, flags) && ZeroPage(b, root, to, flags)
    requires forall v :: from <= v < to ==> IsValid(Lookup(a.mem, a.table, root, v))
    ensures ZeroPages(b, root, from, to + 1, flags)
  {
    forall v: nat | from <= v < to ensures ZeroPage(b, root, v, flags) {
      assert ZeroPage(a, root, v, flags);
      AllocsKeeps(a, b, root, to, to + 1, root, v);
    }
  }

  lemma Aligned(a: nat)
    ensures a * PGSIZE / PGSIZE == a && (a * PGSIZE + PGSIZE - 1) / PGSIZE == a && Pages(a * PGSIZE) == a
  {
  }

  // The first n pages of one address space are copies of another's, with the same flags.
  ghost predicate Copies(a: Snap, b: Snap, parent: nat, child: nat, n: nat) {
    forall v: nat {:trigger CopyOf(a, b, parent, child, v)} :: v < n ==> CopyOf(a, b, parent, child, v)
  }

  predicate CopyOf(a: Snap, b: Snap, parent: nat, child: nat, v: nat) {
    && Flags(Lookup(b.mem, b.table, child, v)) == Flags(Lookup(a.mem, a.table, parent, v))
    && Contents(b.mem, PageOf(Lookup(b.mem, b.table, child, v))) == Contents(a.mem, PageOf(Lookup(a.mem, a.table, parent, v)))
  }

  lemma CopiesMore(a: Snap, b: Snap, c: Snap, parent: nat, child: nat, n: nat)
    requires Inv(b.mem, b.owner, b.table, {}) && IsUser(b, child, n) && n < TRAPFRAME && Allocs(b, c, child, n, n + 1)
    requires Copies(a, b, parent, child, n) && CopyOf(a, c, parent, child, n)
    ensures Copies(a, c, parent, child, n + 1)
  {
    forall v: nat | v < n ensures CopyOf(a, c, parent, child, v) {
      assert CopyOf(a, b, parent, child, v);
      AllocsKeeps(b, c, child, n, n + 1, child, v);
    }
  }

  // A page table and all its user pages are gone, and nothing else.
  ghost predicate Destroys(a: Snap, b: Snap, root: nat) {
    && (forall n :: n in b.table <==> n in a.table && n.root != root)
    && (forall n :: n in b.table ==> b.table[n] == a.table[n])
    && (forall r: nat, v: nat :: Lookup(b.mem, b.table, r, v) == if r == root then 0 else Lookup(a.mem, a.table, r, v))
    && (forall p {:trigger DestroysPage(a, b, root, p)} :: p in a.owner ==> DestroysPage(a, b, root, p))
  }

  predicate IsPartOf(o: Owner, root: nat) { (o.Table? && o.node.root == root) || (o.Data? && o.root == root) }

  predicate DestroysPage(a: Snap, b: Snap, root: nat, p: nat)
    requires p in a.owner
  {
    && p in b.owner
    && if IsPartOf(a.owner[p], root) then b.owner[p].Free?
       else
         && b.owner[p] == a.owner[p]
         && (a.owner[p].Data? || a.owner[p].Other? ==> Contents(b.mem, p) == Contents(a.mem, p))
  }

  // Every node of a page table is in the subtree of its root.
  lemma WholeTree(a: Snap, root: nat)
    requires Nodes(a.mem, a.owner, a.table) && Node(root, 2, 0) in a.table
    ensures forall n :: n in Subtree(a.table, Node(root, 2, 0)) <==> n in a.table && n.root == root
  {
    forall n | n in a.table ensures Under(n, Node(root, 2, 0)) <==> n.root == root {
      assert NodeOk(a.mem, a.owner, a.table, n);
      AncParent(n, 2);
      AncRoot(n, 2);
      AncIn(a.mem, a.owner, a.table, n, 2);
      assert NodeOk(a.mem, a.owner, a.table, Anc(n, 2));
    }
  }

  lemma {:induction false} AncRoot(n: Node, level: nat)
    ensures Anc(n, level).root == n.root
    decreases level - n.level
  {
    if n.level < level {
      AncRoot(Parent(n), level);
    }
  }

  // Unmapping all leaves and freeing all nodes.
  lemma DestroysAll(a: Snap, b: Snap, c: Snap, root: nat, n: nat)
    requires Inv(a.mem, a.owner, a.table, {}) && Inv(b.mem, b.owner, b.table, {}) && Node(root, 2, 0) in b.table
    requires forall v: nat :: IsValid(Lookup(a.mem, a.table, root, v)) ==> v < n
    requires Unmaps(a, b, root, 0, n, true) && NoLeaves(b, root)
    requires root in b.owner && b.owner[root] == Table(Node(root, 2, 0))
    requires Prunes(b, c, Subtree(b.table, Node(root, 2, 0)), root)
    ensures Destroys(a, c, root)
  {
    WholeTree(b, root);
    forall p | p in a.owner ensures DestroysPage(a, c, root, p) {
      assert OwnerOk(a.mem, a.owner, a.table, p);
      assert UnmapsPage(a, b, root, 0, n, true, p);
      assert OwnerOk(b.mem, b.owner, b.table, p);
      assert PrunesPage(b, c, Subtree(b.table, Node(root, 2, 0)), root, p);
    }
  }

  // The trampoline and the trapframe do not belong to the page table.
  lemma UnmapsThenDestroys(a: Snap, b: Snap, c: Snap, root: nat, from: nat, to: nat)
    requires Owners(a.mem, a.owner, a.table) && TRAPFRAME <= from && to <= MAXVPN
    requires Unmaps(a, b, root, from, to, false) && Destroys(b, c, root)
    ensures Destroys(a, c, root)
  {
    forall p | p in a.owner ensures DestroysPage(a, c, root, p) {
      assert OwnerOk(a.mem, a.owner, a.table, p);
      assert UnmapsPage(a, b, root, from, to, false, p);
      assert DestroysPage(b, c, root, p);
    }
  }

  // Only one page table has new nodes.
  lemma NewNodes(a: Snap, b: Snap, root: nat, n: Node)
    requires Owners(a.mem, a.owner, a.table) && Nodes(b.mem, b.owner, b.table) && Grows(a, b, root)
    requires (forall p :: p in b.owner ==> p in a.owner) && n in b.table && n.root != root
    ensures n in a.table
  {
    assert NodeOk(b.mem, b.owner, b.table, n);
    assert KeepsPage(a, b, root, b.table[n]);
    assert OwnerOk(a.mem, a.owner, a.table, b.table[n]);
  }

  lemma MapsGrows(a: Snap, b: Snap, root: nat, vpn: nat, page: nat, perm: nat)
    requires perm < 1024 && !Owns(vpn) && Maps(a, b, root, vpn, 1, page, perm)
    ensures Grows(a, b, root) && SetsLookup(a.mem, a.table, b.mem, b.table, root, vpn, Pte(page, perm))
  {
    forall p | p in a.owner ensures KeepsPage(a, b, root, p) {
      assert MapsPage(a, b, root, vpn, 1, page, p);
    }
  }

  // Nothing belongs to a page table yet.
  ghost predicate Unused(a: Snap, root: nat) {
    (forall n :: n in a.table ==> n.root != root) && (forall p :: p in a.owner ==> !IsPartOf(a.owner[p], root))
  }

  // A page table built from nothing and destroyed leaves everything as it was.
  lemma BuiltAndDestroyed(a: Snap, b: Snap, c: Snap, root: nat)
    requires Unused(a, root) && Owners(a.mem, a.owner, a.table) && Nodes(b.mem, b.owner, b.table) && Grows(a, b, root)
    requires (forall r: nat, v: nat :: r != root ==> Lookup(b.mem, b.table, r, v) == Lookup(a.mem, a.table, r, v))
    requires Destroys(b, c, root) && a.owner.Keys == b.owner.Keys == c.owner.Keys
    ensures c.owner == a.owner && c.table == a.table && Same(a, c)
  {
    forall n | n in b.table && n.root != root ensures n in a.table {
      NewNodes(a, b, root, n);
    }
    forall v: nat ensures Lookup(a.mem, a.table, root, v) == 0 {
    }
    forall p | p in a.owner ensures c.owner[p] == a.owner[p] {
      assert KeepsPage(a, b, root, p);
      assert DestroysPage(b, c, root, p);
    }
  }

  predicate IsOther(owner: map<nat, Owner>, p: nat) { p in owner && owner[p].Other? }

  // Once its page is taken back, no page belongs to a virtual page.
  lemma NoData(a: Snap, b: Snap, root: nat, vpn: nat)
    requires Owners(a.mem, a.owner, a.table)
    requires var page := PageOf(Lookup(a.mem, a.table, root, vpn));
             if Owns(vpn) then b.owner == a.owner[page := Other] || b.owner == a.owner[page := Other][page := Free] else b.owner == a.owner
    ensures forall p :: p in b.owner ==> b.owner[p] != Data(root, vpn)
  {
    forall p | p in b.owner ensures b.owner[p] != Data(root, vpn) {
      assert p in a.owner ==> OwnerOk(a.mem, a.owner, a.table, p);
    }
  }

  // Without a node on the way down there is no leaf table.
  lemma {:induction false} LeafAbove(mem: Mem, owner: map<nat, Owner>, table: map<Node, nat>, root: nat, vpn: nat, level: nat)
    requires Nodes(mem, owner, table) && level < 2 && On(root, level, vpn) !in table
    ensures Leaf(root, vpn) !in table
  {
    if level > 0 {
      var c := On(root, level - 1, vpn);
      assert c in table ==> NodeOk(mem, owner, table, c);
      LeafAbove(mem, owner, table, root, vpn, level - 1);
    } else {
      assert Up(1, vpn) == vpn / ENTRIES;
    }
  }

  lemma BelowMore(table: map<Node, nat>, left: map<Node, nat>, n: Node, i: nat)
    requires i < ENTRIES && left == table - Below(table, n, i)
    ensures Below(table, n, i) + (if n.level > 0 then Subtree(left, Child(n, i)) else {}) == Below(table, n, i + 1)
  {
    forall m | m in table ensures Gone(m, n, i + 1) <==> Gone(m, n, i) || (n.level > 0 && Under(m, Child(n, i))) {
      GoneStep(m, n, i);
    }
  }

  lemma BelowAll(table: map<Node, nat>, n: Node)
    requires n in table
    ensures Below(table, n, ENTRIES) + {n} == Subtree(table, n)
  {
    forall m | m in table && Under(m, n) && m != n ensures Gone(m, n, ENTRIES) {
      AncParent(m, n.level);
    }
  }

  // Zeroing the entry that led to the dead nodes.
  lemma PrunesEntry(a: Snap, mid: Snap, b: Snap, dead: set<Node>, child: nat, page: nat, i: nat)
    requires Prunes(a, mid, dead, child) && child in a.owner && a.owner[child].Table? && a.owner[child].node in dead
    requires b == Snap(Put(mid.mem, page, i, 0), mid.owner, mid.table) && Same(mid, b)
    ensures Prunes(a, b, dead, page)
  {
    forall p | p in a.owner ensures PrunesPage(a, b, dead, page, p) {
      assert PrunesPage(a, mid, dead, child, p);
    }
  }

  lemma NoSubtree(mem: Mem, owner: map<nat, Owner>, table: map<Node, nat>, n: Node, i: nat)
    requires Nodes(mem, owner, table) && n in table && i < ENTRIES && Get(mem, table[n], i) == 0
    ensures n.level > 0 ==> Subtree(table, Child(n, i)) == {}
  {
    if n.level > 0 {
      NoChild(mem, owner, table, n, i);
      assert NodeOk(mem, owner, table, n);
      forall m | m in table ensures !Under(m, Child(n, i)) {
        AncIn(mem, owner, table, m, n.level - 1);
      }
    }
  }

  // An entry that is not valid is 0.
  lemma UnmappedZero(a: Snap, root: nat)
    requires Inv(a.mem, a.owner, a.table, {})
    ensures forall v: nat :: IsValid(Lookup(a.mem, a.table, root, v)) || Lookup(a.mem, a.table, root, v) == 0
  {
    forall v: nat ensures IsValid(Lookup(a.mem, a.table, root, v)) || Lookup(a.mem, a.table, root, v) == 0 {
      if Leaf(root, v) in a.table {
        assert EntryAt(a.mem, a.owner, a.table, Leaf(root, v), v % ENTRIES);
      }
    }
  }
}
