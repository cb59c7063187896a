/**
 Sv39 page tables in physical memory (kernel/vm.c, kernel/riscv.h; section 4.4 of the RISC-V Privileged
 Architecture manual, version 20211203): what the pages of all page tables hold, which page is used for
 what, and the effect of each write on the translations.

 Pages are identified by their page numbers and hold 512 words.  A page-table page is a Node: the page
 for the 512^(level + 1) virtual pages whose number divided by that is the prefix.
 */
module PageTable {

  const PGSIZE := 4096
  const ENTRIES := 512
  const MAXVPN := 0x400_0000  // MAXVA / PGSIZE
  const TRAMPOLINE := MAXVPN - 1
  const TRAPFRAME := MAXVPN - 2

  const ZERO: Page := seq(ENTRIES, _ => 0)

  type Page = seq<nat>
  type Mem = map<nat, Page>

  datatype Node = Node(root: nat, level: nat, prefix: nat)

  // What a page is used for.  Other: allocated, but not part of a page table.
  datatype Owner = Free | Table(node: Node) | Data(root: nat, vpn: nat) | Other

  function Child(n: Node, i: nat): Node
    requires n.level > 0
  {
    Node(n.root, n.level - 1, n.prefix * ENTRIES + i)
  }

  function Parent(n: Node): Node {
    Node(n.root, n.level + 1, n.prefix / ENTRIES)
  }

  // ----- page-table entries -----

  predicate IsValid(w: nat) { w % 2 == 1 }

  function PageOf(w: nat): nat { w / 1024 }

  function Flags(w: nat): nat { w % 1024 }

  // PTE_R, PTE_W or PTE_X: bits 1 to 3.
  predicate IsLeaf(flags: nat) { flags / 2 % 8 != 0 }

  // PA2PTE(page * PGSIZE) | flags | PTE_V
  function Pte(page: nat, flags: nat): (w: nat)
    requires flags < 1024
    ensures IsValid(w) && PageOf(w) == page && Flags(w) == if flags % 2 == 1 then flags else flags + 1
    ensures IsLeaf(Flags(w)) == IsLeaf(flags)
  {
    page * 1024 + (if flags % 2 == 1 then flags else flags + 1)
  }

  // A pointer to a lower-level table has no flag but PTE_V.
  function Pointer(page: nat): (w: nat)
    ensures IsValid(w) && PageOf(w) == page && !IsLeaf(Flags(w))
  {
    Pte(page, 0)
  }

  // The pages of leaf mappings belong to the page table, except the trampoline's and the trapframe's.
  predicate Owns(vpn: nat) { vpn != TRAMPOLINE && vpn != TRAPFRAME }

  // ----- words in memory -----

  function Get(mem: Mem, page: nat, i: nat): nat {
    if page in mem && i < |mem[page]| then mem[page][i] else 0
  }

  function Contents(mem: Mem, page: nat): Page { if page in mem then mem[page] else [] }

  predicate IsZero(mem: Mem, page: nat) {
    page in mem && |mem[page]| == ENTRIES && forall i :: 0 <= i < ENTRIES ==> mem[page][i] == 0
  }

  // ----- the invariant -----

  predicate NodeOk(mem: Mem, owner: map<nat, Owner>, table: map<Node, nat>, n: Node)
    requires n in table
  {
    && table[n] in owner && owner[table[n]] == Table(n)
    && table[n] in mem && |mem[table[n]]| == ENTRIES && n.level <= 2
    && (n.level == 2 ==> n.prefix == 0 && n.root == table[n])
    && (n.level < 2 ==> PointsTo(mem, table, Parent(n), n.prefix % ENTRIES, table[n]))
  }

  predicate PointsTo(mem: Mem, table: map<Node, nat>, n: Node, i: nat, page: nat) {
    n in table && Get(mem, table[n], i) == Pointer(page)
  }

  predicate EntryOk(w: nat, owner: map<nat, Owner>, table: map<Node, nat>, n: Node, i: nat) {
    if !IsValid(w) then w == 0
    else if n.level > 0 then Child(n, i) in table && w == Pointer(table[Child(n, i)])
    else
      var vpn := n.prefix * ENTRIES + i;
      IsLeaf(Flags(w)) && (Owns(vpn) ==> PageOf(w) in owner && owner[PageOf(w)] == Data(n.root, vpn))
  }

  predicate EntryAt(mem: Mem, owner: map<nat, Owner>, table: map<Node, nat>, n: Node, i: nat)
    requires n in table
  {
    EntryOk(Get(mem, table[n], i), owner, table, n, i)
  }

  predicate OwnerOk(mem: Mem, owner: map<nat, Owner>, table: map<Node, nat>, p: nat)
    requires p in owner
  {
    && p in mem && |mem[p]| == ENTRIES
    && match owner[p]
       case Free => true
       case Other => true
       case Table(n) => n in table && table[n] == p
       case Data(root, vpn) => Owns(vpn) && IsValid(Lookup(mem, table, root, vpn)) && PageOf(Lookup(mem, table, root, vpn)) == p
  }

  ghost predicate Nodes(mem: Mem, owner: map<nat, Owner>, table: map<Node, nat>) {
    forall n {:trigger NodeOk(mem, owner, table, n)} :: n in table ==> NodeOk(mem, owner, table, n)
  }

  // The entries in skip are about to be overwritten.
  ghost predicate Entries(mem: Mem, owner: map<nat, Owner>, table: map<Node, nat>, skip: set<(Node, nat)>) {
    forall n, i {:trigger EntryAt(mem, owner, table, n, i)} :: n in table && 0 <= i < ENTRIES && (n, i) !in skip
      ==> EntryAt(mem, owner, table, n, i)
  }

  ghost predicate Owners(mem: Mem, owner: map<nat, Owner>, table: map<Node, nat>) {
    forall p {:trigger OwnerOk(mem, owner, table, p)} :: p in owner ==> OwnerOk(mem, owner, table, p)
  }

  ghost predicate Inv(mem: Mem, owner: map<nat, Owner>, table: map<Node, nat>, skip: set<(Node, nat)>) {
    Nodes(mem, owner, table) && Entries(mem, owner, table, skip) && Owners(mem, owner, table)
  }

  // ----- translation -----

  function Leaf(root: nat, vpn: nat): Node { Node(root, 0, vpn / ENTRIES) }

  // The page-table entry of a virtual page, 0 if there is no page for it.
  function Lookup(mem: Mem, table: map<Node, nat>, root: nat, vpn: nat): nat {
    var n := Leaf(root, vpn);
    if n in table then Get(mem, table[n], vpn % ENTRIES) else 0
  }

  ghost predicate SameLookups(mem: Mem, table: map<Node, nat>, mem': Mem, table': map<Node, nat>) {
    forall root, vpn :: Lookup(mem', table', root, vpn) == Lookup(mem, table, root, vpn)
  }

  // All translations are the same but one.
  ghost predicate SetsLookup(mem: Mem, table: map<Node, nat>, mem': Mem, table': map<Node, nat>, root: nat, vpn: nat, w: nat) {
    && Lookup(mem', table', root, vpn) == w
    && forall r, v :: r != root || v != vpn ==> Lookup(mem', table', r, v) == Lookup(mem, table, r, v)
  }

  // Distinct virtual pages, of one or of two page tables, have distinct entries.
  lemma SlotsDiffer(mem: Mem, owner: map<nat, Owner>, table: map<Node, nat>, r1: nat, v1: nat, r2: nat, v2: nat)
    requires Nodes(mem, owner, table) && Leaf(r1, v1) in table && Leaf(r2, v2) in table
    ensures (table[Leaf(r1, v1)], v1 % ENTRIES) == (table[Leaf(r2, v2)], v2 % ENTRIES) ==> r1 == r2 && v1 == v2
  {
    assert NodeOk(mem, owner, table, Leaf(r1, v1)) && NodeOk(mem, owner, table, Leaf(r2, v2));
  }

  // ----- the effect of writes -----

  function Put(mem: Mem, page: nat, i: nat, w: nat): Mem {
    if page in mem && i < |mem[page]| then
      var row: Page := mem[page][i := w];
      mem[page := row]
    else
      mem
  }

  lemma TablesElsewhere(mem: Mem, owner: map<nat, Owner>, table: map<Node, nat>, p: nat)
    requires Nodes(mem, owner, table) && p in owner && !owner[p].Table?
    ensures forall n :: n in table ==> table[n] != p
  {
    forall n | n in table ensures table[n] != p {
      assert NodeOk(mem, owner, table, n);
    }
  }

  // Writing a page that is no table changes nothing.
  lemma WritePage(mem: Mem, owner: map<nat, Owner>, table: map<Node, nat>, skip: set<(Node, nat)>, p: nat, x: Page)
    requires Inv(mem, owner, table, skip) && p in owner && !owner[p].Table? && |x| == ENTRIES
    ensures Inv(mem[p := x], owner, table, skip)
    ensures SameLookups(mem, table, mem[p := x], table)
  {
    var mem' := mem[p := x];
    TablesElsewhere(mem, owner, table, p);
    forall n | n in table ensures NodeOk(mem', owner, table, n) {
      assert NodeOk(mem, owner, table, n);
    }
    forall n, i | n in table && 0 <= i < ENTRIES && (n, i) !in skip ensures EntryAt(mem', owner, table, n, i) {
      assert EntryAt(mem, owner, table, n, i);
    }
    forall root, vpn ensures Lookup(mem', table, root, vpn) == Lookup(mem, table, root, vpn) {
    }
    forall q | q in owner ensures OwnerOk(mem', owner, table, q) {
      assert OwnerOk(mem, owner, table, q);
    }
  }

  // A page that is in no page table changes hands.
  lemma Reuse(mem: Mem, owner: map<nat, Owner>, table: map<Node, nat>, skip: set<(Node, nat)>, p: nat, o: Owner)
    requires Inv(mem, owner, table, skip) && p in owner && (owner[p].Free? || owner[p].Other?) && (o.Free? || o.Other?)
    ensures Inv(mem, owner[p := o], table, skip)
  {
    var owner' := owner[p := o];
    TablesElsewhere(mem, owner, table, p);
    forall n | n in table ensures NodeOk(mem, owner', table, n) {
      assert NodeOk(mem, owner, table, n);
    }
    forall n, i | n in table && 0 <= i < ENTRIES && (n, i) !in skip ensures EntryAt(mem, owner', table, n, i) {
      assert EntryAt(mem, owner, table, n, i);
    }
    forall q | q in owner' ensures OwnerOk(mem, owner', table, q) {
      assert q in owner;
      assert OwnerOk(mem, owner, table, q);
    }
  }

  lemma ChildParent(n: Node, i: nat)
    requires n.level > 0 && i < ENTRIES
    ensures Parent(Child(n, i)) == n && Child(n, i).prefix % ENTRIES == i
  {
  }

  lemma ParentChild(m: Node)
    ensures Child(Parent(m), m.prefix % ENTRIES) == m
  {
  }

  lemma PageIsNode(mem: Mem, owner: map<nat, Owner>, table: map<Node, nat>, n: Node, m: Node)
    requires Nodes(mem, owner, table) && n in table && m in table && table[n] == table[m]
    ensures n == m
  {
    assert NodeOk(mem, owner, table, n) && NodeOk(mem, owner, table, m);
  }

  // A zero entry has no table below it.
  lemma NoChild(mem: Mem, owner: map<nat, Owner>, table: map<Node, nat>, n: Node, i: nat)
    requires Nodes(mem, owner, table) && n in table && n.level > 0 && i < ENTRIES && Get(mem, table[n], i) == 0
    ensures Child(n, i) !in table
  {
    ChildParent(n, i);
    assert NodeOk(mem, owner, table, n);
    assert Child(n, i) in table ==> NodeOk(mem, owner, table, Child(n, i));
  }

  // Installing a zeroed page as the table below a zero entry changes no translation.
  lemma AttachTable(mem: Mem, owner: map<nat, Owner>, table: map<Node, nat>, skip: set<(Node, nat)>, n: Node, i: nat, p: nat)
    requires Inv(mem, owner, table, skip) && n in table && n.level > 0 && i < ENTRIES && Get(mem, table[n], i) == 0
    requires p in owner && owner[p].Other? && IsZero(mem, p)
    ensures var mem', owner', table' := Put(mem, table[n], i, Pointer(p)), owner[p := Table(Child(n, i))], table[Child(n, i) := p];
            && Inv(mem', owner', table', skip)
            && SameLookups(mem, table, mem', table')
  {
    var c := Child(n, i);
    NoChild(mem, owner, table, n, i);
    ChildParent(n, i);
    var mem', owner', table' := Put(mem, table[n], i, Pointer(p)), owner[p := Table(c)], table[c := p];
    AttachTableNodes(mem, owner, table, n, i, p);
    AttachTableEntries(mem, owner, table, skip, n, i, p);
    AttachTableLookups(mem, owner, table, n, i, p);
    forall q | q in owner' ensures OwnerOk(mem', owner', table', q) {
      assert q in owner;
      assert OwnerOk(mem, owner, table, q);
    }
  }

  lemma AttachTableNodes(mem: Mem, owner: map<nat, Owner>, table: map<Node, nat>, n: Node, i: nat, p: nat)
    requires Nodes(mem, owner, table) && Owners(mem, owner, table)
    requires n in table && n.level > 0 && i < ENTRIES && Get(mem, table[n], i) == 0 && Child(n, i) !in table
    requires p in owner && owner[p].Other? && IsZero(mem, p)
    ensures Nodes(Put(mem, table[n], i, Pointer(p)), owner[p := Table(Child(n, i))], table[Child(n, i) := p])
  {
    var c := Child(n, i);
    var mem', owner', table' := Put(mem, table[n], i, Pointer(p)), owner[p := Table(c)], table[c := p];
    ChildParent(n, i);
    assert NodeOk(mem, owner, table, n);
    TablesElsewhere(mem, owner, table, p);
    forall m | m in table' ensures NodeOk(mem', owner', table', m) {
      if m != c {
        assert NodeOk(mem, owner, table, m);
        if m.level < 2 && table[Parent(m)] == table[n] {
          PageIsNode(mem, owner, table, Parent(m), n);
        }
      }
    }
  }

  lemma AttachTableEntries(mem: Mem, owner: map<nat, Owner>, table: map<Node, nat>, skip: set<(Node, nat)>,
                           n: Node, i: nat, p: nat)
    requires Nodes(mem, owner, table) && Entries(mem, owner, table, skip)
    requires n in table && n.level > 0 && i < ENTRIES && Get(mem, table[n], i) == 0 && Child(n, i) !in table
    requires p in owner && owner[p].Other? && IsZero(mem, p)
    ensures Entries(Put(mem, table[n], i, Pointer(p)), owner[p := Table(Child(n, i))], table[Child(n, i) := p], skip)
  {
    var c := Child(n, i);
    var mem', owner', table' := Put(mem, table[n], i, Pointer(p)), owner[p := Table(c)], table[c := p];
    assert NodeOk(mem, owner, table, n);
    TablesElsewhere(mem, owner, table, p);
    forall m, k | m in table' && 0 <= k < ENTRIES && (m, k) !in skip
      ensures EntryAt(mem', owner', table', m, k)
    {
      if m != c && (m, k) != (n, i) {
        if table[m] == table[n] {
          PageIsNode(mem, owner, table, m, n);
        }
        assert EntryAt(mem, owner, table, m, k);
      }
    }
  }

  lemma AttachTableLookups(mem: Mem, owner: map<nat, Owner>, table: map<Node, nat>, n: Node, i: nat, p: nat)
    requires Nodes(mem, owner, table)
    requires n in table && n.level > 0 && i < ENTRIES && Child(n, i) !in table
    requires p in owner && owner[p].Other? && IsZero(mem, p)
    ensures SameLookups(mem, table, Put(mem, table[n], i, Pointer(p)), table[Child(n, i) := p])
  {
    var c := Child(n, i);
    var mem', table' := Put(mem, table[n], i, Pointer(p)), table[c := p];
    assert NodeOk(mem, owner, table, n);
    TablesElsewhere(mem, owner, table, p);
    forall root, vpn ensures Lookup(mem', table', root, vpn) == Lookup(mem, table, root, vpn) {
      var l := Leaf(root, vpn);
      if l in table && table[l] == table[n] {
        PageIsNode(mem, owner, table, l, n);
      }
    }
  }

  function Taken(owner: map<nat, Owner>, root: nat, vpn: nat, page: nat): map<nat, Owner> {
    if Owns(vpn) then owner[page := Data(root, vpn)] else owner
  }

  // Overwriting a leaf entry that no page depends on sets that translation and no other.
  lemma SetLeaf(mem: Mem, owner: map<nat, Owner>, table: map<Node, nat>, root: nat, vpn: nat, w: nat)
    requires Nodes(mem, owner, table) && Leaf(root, vpn) in table
    ensures var mem' := Put(mem, table[Leaf(root, vpn)], vpn % ENTRIES, w);
            && Nodes(mem', owner, table)
            && SetsLookup(mem, table, mem', table, root, vpn, w)
  {
    var l := Leaf(root, vpn);
    assert NodeOk(mem, owner, table, l);
    var mem' := Put(mem, table[l], vpn % ENTRIES, w);
    forall n | n in table ensures NodeOk(mem', owner, table, n) {
      assert NodeOk(mem, owner, table, n);
      if n.level < 2 && table[Parent(n)] == table[l] {
        PageIsNode(mem, owner, table, Parent(n), l);
      }
    }
    forall r, v | r != root || v != vpn ensures Lookup(mem', table, r, v) == Lookup(mem, table, r, v) {
      if Leaf(r, v) in table {
        SlotsDiffer(mem, owner, table, root, vpn, r, v);
      }
    }
  }

  // Mapping an unmapped virtual page.
  lemma AttachLeaf(mem: Mem, owner: map<nat, Owner>, table: map<Node, nat>, skip: set<(Node, nat)>,
                   root: nat, vpn: nat, page: nat, flags: nat)
    requires Inv(mem, owner, table, skip) && Leaf(root, vpn) in table && Lookup(mem, table, root, vpn) == 0
    requires flags < 1024 && IsLeaf(flags) && (Owns(vpn) ==> page in owner && owner[page].Other?)
    ensures var mem' := Put(mem, table[Leaf(root, vpn)], vpn % ENTRIES, Pte(page, flags));
            && Inv(mem', Taken(owner, root, vpn, page), table, skip)
            && SetsLookup(mem, table, mem', table, root, vpn, Pte(page, flags))
  {
    var l, owner' := Leaf(root, vpn), Taken(owner, root, vpn, page);
    assert NodeOk(mem, owner, table, l);
    var mem' := Put(mem, table[l], vpn % ENTRIES, Pte(page, flags));
    SetLeaf(mem, owner, table, root, vpn, Pte(page, flags));
    AttachLeafNodes(mem', owner, table, root, vpn, page);
    forall n, i | n in table && 0 <= i < ENTRIES && (n, i) !in skip
      ensures EntryAt(mem', owner', table, n, i)
    {
      if table[n] == table[l] {
        PageIsNode(mem, owner, table, n, l);
      }
      if (n, i) != (l, vpn % ENTRIES) {
        assert EntryAt(mem, owner, table, n, i);
      }
    }
    AttachLeafOwners(mem, owner, table, root, vpn, page, flags);
  }

  lemma AttachLeafNodes(mem: Mem, owner: map<nat, Owner>, table: map<Node, nat>, root: nat, vpn: nat, page: nat)
    requires Nodes(mem, owner, table) && (Owns(vpn) ==> page in owner && owner[page].Other?)
    ensures Nodes(mem, Taken(owner, root, vpn, page), table)
  {
    forall n | n in table ensures NodeOk(mem, Taken(owner, root, vpn, page), table, n) {
      assert NodeOk(mem, owner, table, n);
    }
  }

  lemma AttachLeafOwners(mem: Mem, owner: map<nat, Owner>, table: map<Node, nat>, root: nat, vpn: nat, page: nat, flags: nat)
    requires Nodes(mem, owner, table) && Owners(mem, owner, table)
    requires Leaf(root, vpn) in table && Lookup(mem, table, root, vpn) == 0
    requires flags < 1024 && (Owns(vpn) ==> page in owner && owner[page].Other?)
    ensures Owners(Put(mem, table[Leaf(root, vpn)], vpn % ENTRIES, Pte(page, flags)), Taken(owner, root, vpn, page), table)
  {
    var l, owner' := Leaf(root, vpn), Taken(owner, root, vpn, page);
    assert NodeOk(mem, owner, table, l);
    var mem' := Put(mem, table[l], vpn % ENTRIES, Pte(page, flags));
    SetLeaf(mem, owner, table, root, vpn, Pte(page, flags));
    forall q | q in owner' ensures OwnerOk(mem', owner', table, q) {
      assert q in owner;
      assert OwnerOk(mem, owner, table, q);
    }
  }

  // The page of a valid entry can be taken back once the entry is about to be overwritten.
  lemma DetachData(mem: Mem, owner: map<nat, Owner>, table: map<Node, nat>, skip: set<(Node, nat)>, root: nat, vpn: nat)
    requires Inv(mem, owner, table, skip) && IsValid(Lookup(mem, table, root, vpn)) && Owns(vpn)
    requires (Leaf(root, vpn), vpn % ENTRIES) !in skip
    ensures var p := PageOf(Lookup(mem, table, root, vpn));
            && p in owner && owner[p] == Data(root, vpn)
            && Inv(mem, owner[p := Other], table, skip + {(Leaf(root, vpn), vpn % ENTRIES)})
  {
    var p, l := PageOf(Lookup(mem, table, root, vpn)), Leaf(root, vpn);
    assert EntryAt(mem, owner, table, l, vpn % ENTRIES);
    assert vpn == l.prefix * ENTRIES + vpn % ENTRIES;
    var owner', skip' := owner[p := Other], skip + {(l, vpn % ENTRIES)};
    forall n | n in table ensures NodeOk(mem, owner', table, n) {
      assert NodeOk(mem, owner, table, n);
    }
    forall q | q in owner' ensures OwnerOk(mem, owner', table, q) {
      assert q in owner;
      assert OwnerOk(mem, owner, table, q);
    }
    forall n, i | n in table && 0 <= i < ENTRIES && (n, i) !in skip'
      ensures EntryAt(mem, owner', table, n, i)
    {
      assert EntryAt(mem, owner, table, n, i);
      assert NodeOk(mem, owner, table, n);
      if n.level == 0 && n.root == root && n.prefix * ENTRIES + i == vpn {
        SlotOf(n, i, root, vpn);
      }
    }
  }

  lemma OnePage(mem: Mem, owner: map<nat, Owner>, table: map<Node, nat>, p: nat, q: nat, root: nat, vpn: nat)
    requires Owners(mem, owner, table) && p in owner && q in owner && owner[p] == owner[q] == Data(root, vpn)
    ensures p == q
  {
    assert OwnerOk(mem, owner, table, p) && OwnerOk(mem, owner, table, q);
  }

  lemma SlotOf(n: Node, i: nat, root: nat, vpn: nat)
    requires n.level == 0 && i < ENTRIES && n.root == root && n.prefix * ENTRIES + i == vpn
    ensures n == Leaf(root, vpn) && i == vpn % ENTRIES
  {
  }

  // Zeroing a leaf entry that no page depends on.
  lemma ClearLeaf(mem: Mem, owner: map<nat, Owner>, table: map<Node, nat>, skip: set<(Node, nat)>, root: nat, vpn: nat)
    requires Inv(mem, owner, table, skip) && Leaf(root, vpn) in table
    requires forall p :: p in owner ==> owner[p] != Data(root, vpn)
    ensures var mem' := Put(mem, table[Leaf(root, vpn)], vpn % ENTRIES, 0);
            && Inv(mem', owner, table, skip - {(Leaf(root, vpn), vpn % ENTRIES)})
            && SetsLookup(mem, table, mem', table, root, vpn, 0)
  {
    var l, skip' := Leaf(root, vpn), skip - {(Leaf(root, vpn), vpn % ENTRIES)};
    assert NodeOk(mem, owner, table, l);
    var mem' := Put(mem, table[l], vpn % ENTRIES, 0);
    SetLeaf(mem, owner, table, root, vpn, 0);
    forall n, i | n in table && 0 <= i < ENTRIES && (n, i) !in skip'
      ensures EntryAt(mem', owner, table, n, i)
    {
      if table[n] == table[l] {
        PageIsNode(mem, owner, table, n, l);
      }
      if (n, i) != (l, vpn % ENTRIES) {
        assert EntryAt(mem, owner, table, n, i);
      }
    }
    forall q | q in owner ensures OwnerOk(mem', owner, table, q) {
      assert OwnerOk(mem, owner, table, q);
    }
  }

  // Zeroing an entry whose table is gone.
  lemma ClearPointer(mem: Mem, owner: map<nat, Owner>, table: map<Node, nat>, skip: set<(Node, nat)>, n: Node, i: nat)
    requires Inv(mem, owner, table, skip) && n in table && n.level > 0 && i < ENTRIES && Child(n, i) !in table
    ensures var mem' := Put(mem, table[n], i, 0);
            && Inv(mem', owner, table, skip - {(n, i)})
            && SameLookups(mem, table, mem', table)
  {
    assert NodeOk(mem, owner, table, n);
    var mem', skip' := Put(mem, table[n], i, 0), skip - {(n, i)};
    forall m | m in table ensures NodeOk(mem', owner, table, m) {
      assert NodeOk(mem, owner, table, m);
      if m.level < 2 && table[Parent(m)] == table[n] {
        PageIsNode(mem, owner, table, Parent(m), n);
        ParentChild(m);
      }
    }
    forall m, k | m in table && 0 <= k < ENTRIES && (m, k) !in skip'
      ensures EntryAt(mem', owner, table, m, k)
    {
      if table[m] == table[n] {
        PageIsNode(mem, owner, table, m, n);
      }
      if (m, k) != (n, i) {
        assert EntryAt(mem, owner, table, m, k);
      }
    }
    ClearPointerOwners(mem, owner, table, n, i);
  }

  lemma ClearPointerOwners(mem: Mem, owner: map<nat, Owner>, table: map<Node, nat>, n: Node, i: nat)
    requires Nodes(mem, owner, table) && Owners(mem, owner, table) && n in table && n.level > 0
    ensures Owners(Put(mem, table[n], i, 0), owner, table) && SameLookups(mem, table, Put(mem, table[n], i, 0), table)
  {
    var mem' := Put(mem, table[n], i, 0);
    forall root, vpn ensures Lookup(mem', table, root, vpn) == Lookup(mem, table, root, vpn) {
      if Leaf(root, vpn) in table && table[Leaf(root, vpn)] == table[n] {
        PageIsNode(mem, owner, table, Leaf(root, vpn), n);
      }
    }
    forall q | q in owner ensures OwnerOk(mem', owner, table, q) {
      assert OwnerOk(mem, owner, table, q);
    }
  }

  // The entry that points to a node; a root has none.
  function Above(n: Node): set<(Node, nat)> {
    if n.level < 2 then {(Parent(n), n.prefix % ENTRIES)} else {}
  }

  // Taking an empty node out of its page table changes no translation.
  lemma RemoveNode(mem: Mem, owner: map<nat, Owner>, table: map<Node, nat>, skip: set<(Node, nat)>, n: Node)
    requires Inv(mem, owner, table, skip) && n in table && IsZero(mem, table[n])
    ensures var owner', table' := owner[table[n] := Other], table - {n};
            && Inv(mem, owner', table', skip + Above(n))
            && SameLookups(mem, table, mem, table')
  {
    var owner', table', skip' := owner[table[n] := Other], table - {n}, skip + Above(n);
    assert NodeOk(mem, owner, table, n);
    forall m | m in table' ensures NodeOk(mem, owner', table', m) {
      assert NodeOk(mem, owner, table, m);
      if table[m] == table[n] {
        PageIsNode(mem, owner, table, m, n);
      }
    }
    forall m, k | m in table' && 0 <= k < ENTRIES && (m, k) !in skip'
      ensures EntryAt(mem, owner', table', m, k)
    {
      assert EntryAt(mem, owner, table, m, k) && NodeOk(mem, owner, table, m);
      if m.level > 0 {
        ChildParent(m, k);
      }
    }
    RemoveNodeOwners(mem, owner, table, n);
  }

  lemma RemoveNodeOwners(mem: Mem, owner: map<nat, Owner>, table: map<Node, nat>, n: Node)
    requires Owners(mem, owner, table) && n in table && table[n] in owner && IsZero(mem, table[n])
    ensures Owners(mem, owner[table[n] := Other], table - {n})
    ensures SameLookups(mem, table, mem, table - {n})
  {
    var owner', table' := owner[table[n] := Other], table - {n};
    forall root, vpn ensures Lookup(mem, table', root, vpn) == Lookup(mem, table, root, vpn) {
    }
    forall q | q in owner' ensures OwnerOk(mem, owner', table', q) {
      assert q in owner;
      assert OwnerOk(mem, owner, table, q);
    }
  }

  // Every node of a page table hangs below its root.
  lemma {:induction false} RootIn(mem: Mem, owner: map<nat, Owner>, table: map<Node, nat>, n: Node)
    requires Nodes(mem, owner, table) && n in table
    ensures Node(n.root, 2, 0) in table && table[Node(n.root, 2, 0)] == n.root
    decreases 2 - n.level
  {
    assert NodeOk(mem, owner, table, n);
    if n.level < 2 {
      RootIn(mem, owner, table, Parent(n));
    }
  }

  // A zeroed page becomes an empty page table.
  lemma AttachRoot(mem: Mem, owner: map<nat, Owner>, table: map<Node, nat>, skip: set<(Node, nat)>, p: nat)
    requires Inv(mem, owner, table, skip) && p in owner && owner[p].Other? && IsZero(mem, p)
    ensures var n := Node(p, 2, 0);
            && n !in table
            && Inv(mem, owner[p := Table(n)], table[n := p], skip)
            && SameLookups(mem, table, mem, table[n := p])
            && (forall vpn :: Lookup(mem, table, p, vpn) == 0)
  {
    var n := Node(p, 2, 0);
    assert n in table ==> NodeOk(mem, owner, table, n);
    forall m | m in table && m.root == p ensures false {
      RootIn(mem, owner, table, m);
    }
    var owner', table' := owner[p := Table(n)], table[n := p];
    forall m | m in table' ensures NodeOk(mem, owner', table', m) {
      assert m != n ==> NodeOk(mem, owner, table, m);
    }
    forall m, k | m in table' && 0 <= k < ENTRIES && (m, k) !in skip
      ensures EntryAt(mem, owner', table', m, k)
    {
      assert m != n ==> EntryAt(mem, owner, table, m, k);
    }
    forall q | q in owner' ensures OwnerOk(mem, owner', table', q) {
      assert q in owner;
      assert OwnerOk(mem, owner, table, q);
    }
  }
}
