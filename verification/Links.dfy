/**
 Link counts: directory entries and nlink under link, unlink and create (kernel/sysfile.c) with
 dirlookup, dirlink, ialloc and iput (kernel/fs.c).

 Path names are resolved by the caller: an operation gets the inode numbers that namei and nameiparent
 return.  Whether a write of a directory entry finds a disk block is a parameter.
 */
module Links {

  datatype Kind = Free | Dir | File | Device

  // An entry with inum 0 is unused.
  datatype Entry = Entry(inum: nat, name: string)

  datatype Inode = Inode(kind: Kind, nlink: int, entries: seq<Entry>)

  const EMPTY := Inode(Free, 0, [])

  const DOT := "."
  const DOTDOT := ".."

  // ----- the law -----

  predicate Linked(x: Inode) { x.kind.Dir? && x.nlink > 0 }

  // How many entries name inode i, not counting ".".
  function Occurrences(entries: seq<Entry>, i: nat): nat {
    if entries == [] then 0
    else (if entries[0].inum == i && entries[0].name != DOT then 1 else 0) + Occurrences(entries[1..], i)
  }

  function Part(x: Inode, i: nat): nat { if Linked(x) then Occurrences(x.entries, i) else 0 }

  // In all linked directories.
  function Refs(inodes: seq<Inode>, i: nat): nat {
    if inodes == [] then 0 else Part(inodes[0], i) + Refs(inodes[1..], i)
  }

  ghost predicate LawAt(inodes: seq<Inode>, i: nat)
    requires i < |inodes|
  {
    inodes[i].nlink == Refs(inodes, i)
  }

  // The number of links of every inode is the number of entries that name it.
  ghost predicate Law(inodes: seq<Inode>) {
    forall i {:trigger LawAt(inodes, i)} :: 0 < i < |inodes| ==> LawAt(inodes, i)
  }

  // ----- counting -----

  function One(e: Entry, i: nat): nat { if e.inum == i && e.name != DOT then 1 else 0 }

  lemma {:induction false} OccurrencesUpdate(entries: seq<Entry>, k: nat, e: Entry, i: nat)
    requires k < |entries|
    ensures Occurrences(entries[k := e], i) == Occurrences(entries, i) - One(entries[k], i) + One(e, i)
  {
    if k == 0 {
      assert entries[k := e][1..] == entries[1..];
    } else {
      OccurrencesUpdate(entries[1..], k - 1, e, i);
      assert entries[k := e][1..] == entries[1..][k - 1 := e];
    }
  }

  lemma {:induction false} OccurrencesAppend(entries: seq<Entry>, e: Entry, i: nat)
    ensures Occurrences(entries + [e], i) == Occurrences(entries, i) + One(e, i)
  {
    if entries == [] {
      assert entries + [e] == [e];
    } else {
      OccurrencesAppend(entries[1..], e, i);
      assert (entries + [e])[1..] == entries[1..] + [e];
    }
  }

  lemma {:induction false} RefsUpdate(inodes: seq<Inode>, d: nat, x: Inode, i: nat)
    requires d < |inodes|
    ensures Refs(inodes[d := x], i) == Refs(inodes, i) - Part(inodes[d], i) + Part(x, i)
  {
    if d == 0 {
      assert inodes[d := x][1..] == inodes[1..];
    } else {
      RefsUpdate(inodes[1..], d - 1, x, i);
      assert inodes[d := x][1..] == inodes[1..][d - 1 := x];
    }
  }

  lemma {:induction false} OccurrencesAtLeast(entries: seq<Entry>, k: nat, i: nat)
    requires k < |entries|
    ensures Occurrences(entries, i) >= One(entries[k], i)
  {
    if k > 0 {
      OccurrencesAtLeast(entries[1..], k - 1, i);
    }
  }

  lemma {:induction false} RefsAtLeast(inodes: seq<Inode>, d: nat, i: nat)
    requires d < |inodes|
    ensures Refs(inodes, i) >= Part(inodes[d], i)
  {
    if d > 0 {
      RefsAtLeast(inodes[1..], d - 1, i);
    }
  }

  // Only "." and ".." are in use.
  lemma {:induction false} OccurrencesEmpty(entries: seq<Entry>, i: nat)
    requires i > 0 && forall k :: 0 <= k < |entries| ==> entries[k].inum == 0
    ensures Occurrences(entries, i) == 0
  {
    if entries != [] {
      OccurrencesEmpty(entries[1..], i);
    }
  }

  lemma {:induction false} RefsZero(inodes: seq<Inode>, i: nat)
    requires forall d :: 0 <= d < |inodes| ==> Part(inodes[d], i) == 0
    ensures Refs(inodes, i) == 0
  {
    if inodes != [] {
      RefsZero(inodes[1..], i);
    }
  }

  lemma RefsTwo(inodes: seq<Inode>, c: nat, d: nat, i: nat)
    requires c < |inodes| && d < |inodes| && c != d
    ensures Refs(inodes, i) >= Part(inodes[c], i) + Part(inodes[d], i)
  {
    RefsUpdate(inodes, c, EMPTY, i);
    RefsAtLeast(inodes[c := EMPTY], d, i);
  }

  // ----- the shape of the tree -----

  const ROOT := 1

  predicate DirOk(x: Inode, d: nat) {
    && |x.entries| >= 2 && x.entries[0] == Entry(d, DOT) && x.entries[1].name == DOTDOT && x.entries[1].inum != 0
    && (x.entries[1].inum == d <==> d == ROOT)
    && (forall k :: 2 <= k < |x.entries| && x.entries[k].inum != 0 ==> x.entries[k].name != DOT && x.entries[k].name != DOTDOT)
    && (x.nlink == 0 ==> forall k :: 2 <= k < |x.entries| ==> x.entries[k].inum == 0)
  }

  // A directory has one entry besides the "." and ".." ones, in the directory that its own ".." names; its
  // slot there is its home.
  predicate ChildOk(inodes: seq<Inode>, home: map<nat, nat>, d: nat, k: nat)
    requires d < |inodes| && k < |inodes[d].entries|
  {
    var c := inodes[d].entries[k].inum;
    c != 0 ==> && c < |inodes| && c != d && !inodes[c].kind.Free?
               && (inodes[c].kind.Dir? ==> |inodes[c].entries| >= 2 && inodes[c].entries[1].inum == d && c in home && home[c] == k)
  }

  predicate HomeOk(inodes: seq<Inode>, home: map<nat, nat>, c: nat)
    requires c < |inodes| && |inodes[c].entries| >= 2
  {
    var p := inodes[c].entries[1].inum;
    && p < |inodes| && Linked(inodes[p]) && c in home && 2 <= home[c] < |inodes[p].entries|
    && inodes[p].entries[home[c]].inum == c
  }

  ghost predicate InodeOk(inodes: seq<Inode>, home: map<nat, nat>, d: nat)
    requires d < |inodes|
  {
    var x := inodes[d];
    && x.nlink >= 0
    && (x.kind.Free? ==> x == EMPTY)
    && (!x.kind.Dir? ==> x.entries == [])
    && (x.kind.Dir? ==> DirOk(x, d) && x.entries[1].inum < |inodes|)
    && (Linked(x) && d != ROOT ==> HomeOk(inodes, home, d))
    && (Linked(x) ==> Children(inodes, home, d))
  }

  ghost predicate Children(inodes: seq<Inode>, home: map<nat, nat>, d: nat)
    requires d < |inodes|
  {
    forall k {:trigger ChildOk(inodes, home, d, k)} :: 2 <= k < |inodes[d].entries| ==> ChildOk(inodes, home, d, k)
  }

  ghost predicate Shape(inodes: seq<Inode>, home: map<nat, nat>) {
    && |inodes| > ROOT && inodes[0] == EMPTY && Linked(inodes[ROOT])
    && (forall d {:trigger InodeOk(inodes, home, d)} :: 0 < d < |inodes| ==> InodeOk(inodes, home, d))
  }

  // ----- what the operations do -----

  function Add(x: Inode, k: nat, e: Entry): Inode
    requires k <= |x.entries|
  {
    x.(entries := if k < |x.entries| then x.entries[k := e] else x.entries + [e])
  }

  lemma PartAdd(x: Inode, k: nat, e: Entry, i: nat)
    requires k <= |x.entries| && (k < |x.entries| ==> x.entries[k].inum == 0) && i > 0
    ensures Part(Add(x, k, e), i) == Part(x, i) + (if Linked(x) then One(e, i) else 0)
  {
    if k < |x.entries| {
      OccurrencesUpdate(x.entries, k, e, i);
    } else {
      OccurrencesAppend(x.entries, e, i);
    }
  }

  // A new entry for something that is not a directory, whose count goes up.
  function AddFile(inodes: seq<Inode>, d: nat, k: nat, name: string, i: nat, x: Inode): seq<Inode>
    requires d < |inodes| && i < |inodes| && k <= |inodes[d].entries|
  {
    inodes[i := x][d := Add(inodes[d], k, Entry(i, name))]
  }

  // The law survives a new entry exactly if the directory it is put in is still linked.
  lemma AddFileLaw(inodes: seq<Inode>, d: nat, k: nat, name: string, i: nat, x: Inode)
    requires Law(inodes) && 0 < d < |inodes| && 0 < i < |inodes| && i != d && k <= |inodes[d].entries| && name != DOT
    requires k < |inodes[d].entries| ==> inodes[d].entries[k].inum == 0
    requires !inodes[i].kind.Dir? && !x.kind.Dir? && x.nlink == inodes[i].nlink + 1 && inodes[d].kind.Dir?
    ensures Law(AddFile(inodes, d, k, name, i, x)) <==> Linked(inodes[d])
  {
    var after := AddFile(inodes, d, k, name, i, x);
    forall j | 0 < j < |inodes|
      ensures LawAt(after, j) <==> Linked(inodes[d]) || j != i
    {
      assert LawAt(inodes, j);
      RefsUpdate(inodes, i, x, j);
      RefsUpdate(inodes[i := x], d, Add(inodes[d], k, Entry(i, name)), j);
      PartAdd(inodes[d], k, Entry(i, name), j);
    }
    assert Law(after) ==> LawAt(after, i);
  }

  // A name that is not yet in a directory, and an unused slot.
  predicate CanAdd(x: Inode, k: nat, name: string) {
    && k <= |x.entries| && (k < |x.entries| ==> x.entries[k].inum == 0) && name != DOT && name != DOTDOT
  }

  lemma AddFileChildren(inodes: seq<Inode>, home: map<nat, nat>, d: nat, k: nat, name: string, i: nat, x: Inode, e: nat)
    requires d < |inodes| && 0 < i < |inodes| && CanAdd(inodes[d], k, name) && i != d && k >= 2
    requires !inodes[i].kind.Dir? && !x.kind.Dir? && !x.kind.Free?
    requires e < |inodes| && e != i && Children(inodes, home, e)
    ensures Children(AddFile(inodes, d, k, name, i, x), home, e)
  {
    var after := AddFile(inodes, d, k, name, i, x);
    forall n | 2 <= n < |after[e].entries| ensures ChildOk(after, home, e, n) {
      assert (e, n) == (d, k) || ChildOk(inodes, home, e, n);
    }
  }

  lemma AddFileShape(inodes: seq<Inode>, home: map<nat, nat>, d: nat, k: nat, name: string, i: nat, x: Inode)
    requires Shape(inodes, home) && 0 < d < |inodes| && 0 < i < |inodes| && Linked(inodes[d]) && CanAdd(inodes[d], k, name)
    requires !inodes[i].kind.Dir? && !x.kind.Dir? && !x.kind.Free? && x.entries == [] && x.nlink >= 0
    ensures Shape(AddFile(inodes, d, k, name, i, x), home)
  {
    var after := AddFile(inodes, d, k, name, i, x);
    assert InodeOk(inodes, home, d);
    forall e | 0 < e < |inodes| ensures InodeOk(after, home, e) {
      assert InodeOk(inodes, home, e);
      if Linked(after[e]) {
        AddFileChildren(inodes, home, d, k, name, i, x, e);
      }
    }
  }

  // A new directory, with its two entries, and the entry for it.
  function AddDir(inodes: seq<Inode>, d: nat, k: nat, name: string, i: nat): seq<Inode>
    requires d < |inodes| && i < |inodes| && k <= |inodes[d].entries|
  {
    inodes[i := Inode(Dir, 1, [Entry(i, DOT), Entry(d, DOTDOT)])]
          [d := Add(inodes[d], k, Entry(i, name)).(nlink := inodes[d].nlink + 1)]
  }

  function B2N(b: bool): nat { if b then 1 else 0 }

  lemma OccurrencesNew(i: nat, d: nat, j: nat)
    ensures Occurrences([Entry(i, DOT), Entry(d, DOTDOT)], j) == B2N(j == d)
  {
    assert [Entry(i, DOT), Entry(d, DOTDOT)][1..] == [Entry(d, DOTDOT)];
    assert [Entry(d, DOTDOT)][1..] == [];
    assert |DOT| != |DOTDOT|;
    assert Occurrences([Entry(d, DOTDOT)], j) == B2N(j == d);
  }

  // What is new in the count of inode j: the entry, the new "..", and all the entries of a directory that
  // was not linked.
  lemma AddDirRefs(inodes: seq<Inode>, d: nat, k: nat, name: string, i: nat, j: nat)
    requires 0 < d < |inodes| && 0 < i < |inodes| && i != d && j > 0 && inodes[d].kind.Dir? && inodes[d].nlink >= 0
    requires !inodes[i].kind.Dir? && CanAdd(inodes[d], k, name)
    ensures Refs(AddDir(inodes, d, k, name, i), j)
         == Refs(inodes, j) + B2N(j == i) + B2N(j == d) + (if Linked(inodes[d]) then 0 else Occurrences(inodes[d].entries, j))
  {
    var x := Inode(Dir, 1, [Entry(i, DOT), Entry(d, DOTDOT)]);
    var y := Add(inodes[d], k, Entry(i, name)).(nlink := inodes[d].nlink + 1);
    RefsUpdate(inodes, i, x, j);
    RefsUpdate(inodes[i := x], d, y, j);
    OccurrencesNew(i, d, j);
    PartAdd(inodes[d].(nlink := 1), k, Entry(i, name), j);
  }

  lemma AddDirLaw(inodes: seq<Inode>, home: map<nat, nat>, d: nat, k: nat, name: string, i: nat)
    requires Shape(inodes, home) && Law(inodes) && 0 < d < |inodes| && 0 < i < |inodes| && inodes[d].kind.Dir?
    requires inodes[i] == EMPTY && CanAdd(inodes[d], k, name)
    ensures Law(AddDir(inodes, d, k, name, i)) <==> Linked(inodes[d])
  {
    assert InodeOk(inodes, home, d);
    var after, p := AddDir(inodes, d, k, name, i), inodes[d].entries[1].inum;
    assert p != 0 && |DOT| != |DOTDOT|;
    forall j | 0 < j < |inodes|
      ensures LawAt(after, j) <==> (Linked(inodes[d]) || Occurrences(inodes[d].entries, j) == 0)
    {
      assert LawAt(inodes, j);
      AddDirRefs(inodes, d, k, name, i, j);
    }
    OccurrencesAtLeast(inodes[d].entries, 1, p);
    assert Law(after) ==> LawAt(after, p);
  }

  lemma AddDirChildren(inodes: seq<Inode>, home: map<nat, nat>, d: nat, k: nat, name: string, i: nat, e: nat)
    requires 0 < d < |inodes| && 0 < i < |inodes| && CanAdd(inodes[d], k, name) && i != d && |inodes[d].entries| >= 2
    requires inodes[i] == EMPTY && inodes[d].kind.Dir? && inodes[d].entries[1].inum != 0 && k >= 2
    requires e < |inodes| && e != i && Children(inodes, home, e)
    ensures Children(AddDir(inodes, d, k, name, i), home[i := k], e)
  {
    var after, home' := AddDir(inodes, d, k, name, i), home[i := k];
    forall n | 2 <= n < |after[e].entries| ensures ChildOk(after, home', e, n) {
      assert (e, n) == (d, k) || ChildOk(inodes, home, e, n);
    }
  }

  lemma AddDirShape(inodes: seq<Inode>, home: map<nat, nat>, d: nat, k: nat, name: string, i: nat)
    requires Shape(inodes, home) && 0 < d < |inodes| && ROOT < i < |inodes| && Linked(inodes[d]) && CanAdd(inodes[d], k, name)
    requires inodes[i] == EMPTY
    ensures Shape(AddDir(inodes, d, k, name, i), home[i := k])
  {
    var after, home' := AddDir(inodes, d, k, name, i), home[i := k];
    assert InodeOk(inodes, home, d);
    forall e | 0 < e < |inodes| ensures InodeOk(after, home', e) {
      assert InodeOk(inodes, home, e);
      if Linked(after[e]) && e != i {
        AddDirChildren(inodes, home, d, k, name, i, e);
      }
    }
  }

  // ----- removing an entry -----

  const NONE := Entry(0, "")

  function RemoveFile(inodes: seq<Inode>, d: nat, k: nat, i: nat): seq<Inode>
    requires d < |inodes| && i < |inodes| && k < |inodes[d].entries|
  {
    inodes[i := inodes[i].(nlink := inodes[i].nlink - 1)][d := inodes[d].(entries := inodes[d].entries[k := NONE])]
  }

  lemma RemoveFileLaw(inodes: seq<Inode>, d: nat, k: nat, i: nat)
    requires Law(inodes) && 0 < d < |inodes| && 0 < i < |inodes| && i != d && 2 <= k < |inodes[d].entries| && Linked(inodes[d])
    requires !inodes[i].kind.Dir? && inodes[d].entries[k].inum == i && inodes[d].entries[k].name != DOT
    ensures inodes[i].nlink >= 1 && Law(RemoveFile(inodes, d, k, i))
  {
    var after := RemoveFile(inodes, d, k, i);
    forall j | 0 < j < |inodes| ensures LawAt(after, j) {
      assert LawAt(inodes, j);
      RefsUpdate(inodes, i, after[i], j);
      RefsUpdate(inodes[i := after[i]], d, after[d], j);
      OccurrencesUpdate(inodes[d].entries, k, NONE, j);
    }
    assert LawAt(inodes, i);
    RefsAtLeast(inodes, d, i);
    OccurrencesAtLeast(inodes[d].entries, k, i);
  }

  lemma RemoveFileShape(inodes: seq<Inode>, home: map<nat, nat>, d: nat, k: nat, i: nat)
    requires Shape(inodes, home) && 0 < d < |inodes| && 0 < i < |inodes| && 2 <= k < |inodes[d].entries| && Linked(inodes[d])
    requires inodes[i].kind.File? || inodes[i].kind.Device?
    requires inodes[i].nlink >= 1 && inodes[d].entries[k].inum == i
    ensures Shape(RemoveFile(inodes, d, k, i), home)
  {
    var after := RemoveFile(inodes, d, k, i);
    assert InodeOk(inodes, home, d);
    forall e | 0 < e < |inodes| ensures InodeOk(after, home, e) {
      assert InodeOk(inodes, home, e);
      if Linked(after[e]) {
        forall n | 2 <= n < |after[e].entries| ensures ChildOk(after, home, e, n) {
          assert ChildOk(inodes, home, e, n);
        }
      }
    }
  }

  function RemoveDir(inodes: seq<Inode>, d: nat, k: nat, i: nat): seq<Inode>
    requires d < |inodes| && i < |inodes| && k < |inodes[d].entries|
  {
    inodes[i := inodes[i].(nlink := inodes[i].nlink - 1)]
          [d := inodes[d].(entries := inodes[d].entries[k := NONE], nlink := inodes[d].nlink - 1)]
  }

  predicate IsEmpty(x: Inode) { forall k :: 2 <= k < |x.entries| ==> x.entries[k].inum == 0 }

  // An empty directory is not the parent of any linked directory.
  lemma EmptyNoChild(inodes: seq<Inode>, home: map<nat, nat>, i: nat, c: nat)
    requires Shape(inodes, home) && ROOT < i < |inodes| && 0 < c < |inodes| && IsEmpty(inodes[i]) && Linked(inodes[c])
    ensures |inodes[c].entries| >= 2 && inodes[c].entries[1].inum != i
  {
    assert InodeOk(inodes, home, c);
  }

  // It occurs only where its home is.
  lemma EmptyPart(inodes: seq<Inode>, home: map<nat, nat>, d: nat, k: nat, i: nat, c: nat)
    requires Shape(inodes, home) && 0 < d < |inodes| && ROOT < i < |inodes| && Linked(inodes[d]) && 2 <= k < |inodes[d].entries|
    requires inodes[i].kind.Dir? && IsEmpty(inodes[i]) && inodes[d].entries[k].inum == i && 0 < c < |inodes|
    ensures Part(inodes[c], i) == B2N(c == d)
  {
    assert InodeOk(inodes, home, d) && InodeOk(inodes, home, c) && ChildOk(inodes, home, d, k);
    if Linked(inodes[c]) {
      EmptyNoChild(inodes, home, i, c);
      forall n | 0 <= n < |inodes[c].entries| && (c, n) != (d, k) ensures One(inodes[c].entries[n], i) == 0 {
        assert n >= 2 ==> ChildOk(inodes, home, c, n);
      }
      if c == d {
        OccurrencesUpdate(inodes[d].entries, k, NONE, i);
        NoOccurrence(inodes[d].entries[k := NONE], i);
      } else {
        NoOccurrence(inodes[c].entries, i);
      }
    }
  }

  lemma {:induction false} NoOccurrence(entries: seq<Entry>, i: nat)
    requires forall n :: 0 <= n < |entries| ==> One(entries[n], i) == 0
    ensures Occurrences(entries, i) == 0
  {
    if entries != [] {
      assert One(entries[0], i) == 0;
      forall n | 0 <= n < |entries[1..]| ensures One(entries[1..][n], i) == 0 {
        assert entries[1..][n] == entries[n + 1];
      }
      NoOccurrence(entries[1..], i);
    }
  }

  // An empty directory has exactly one link.
  lemma EmptyOneLink(inodes: seq<Inode>, home: map<nat, nat>, d: nat, k: nat, i: nat)
    requires Shape(inodes, home) && 0 < d < |inodes| && ROOT < i < |inodes| && Linked(inodes[d]) && 2 <= k < |inodes[d].entries|
    requires inodes[i].kind.Dir? && IsEmpty(inodes[i]) && inodes[d].entries[k].inum == i
    ensures Refs(inodes, i) == 1
  {
    RefsUpdate(inodes, d, EMPTY, i);
    EmptyPart(inodes, home, d, k, i, d);
    var others := inodes[d := EMPTY];
    forall c | 0 <= c < |others| ensures Part(others[c], i) == 0 {
      if c != d && c > 0 {
        EmptyPart(inodes, home, d, k, i, c);
      }
    }
    RefsZero(others, i);
  }

  // A directory that has a subdirectory has two links at least.
  lemma ParentTwoLinks(inodes: seq<Inode>, home: map<nat, nat>, d: nat, i: nat)
    requires Shape(inodes, home) && 0 < d < |inodes| && ROOT < i < |inodes| && Linked(inodes[d]) && Linked(inodes[i]) && i != d
    requires IsEmpty(inodes[i]) && |inodes[i].entries| >= 2 && inodes[i].entries[1] == Entry(d, DOTDOT)
    ensures Refs(inodes, d) >= 2
  {
    assert |DOT| != |DOTDOT|;
    assert InodeOk(inodes, home, d);
    OccurrencesAtLeast(inodes[i].entries, 1, d);
    if d == ROOT {
      OccurrencesAtLeast(inodes[d].entries, 1, d);
      RefsTwo(inodes, d, i, d);
    } else {
      var q := inodes[d].entries[1].inum;
      assert InodeOk(inodes, home, q);
      OccurrencesAtLeast(inodes[q].entries, home[d], d);
      EmptyNoChild(inodes, home, i, d);
      RefsTwo(inodes, q, i, d);
    }
  }

  // The entry of an empty directory goes, and with it the directory's "..".
  lemma RemoveDirLaw(inodes: seq<Inode>, home: map<nat, nat>, d: nat, k: nat, i: nat)
    requires Shape(inodes, home) && Law(inodes) && 0 < d < |inodes| && 0 < i < |inodes| && Linked(inodes[d])
    requires 2 <= k < |inodes[d].entries| && inodes[d].entries[k].inum == i && inodes[i].kind.Dir? && IsEmpty(inodes[i])
    ensures i != d && i != ROOT && inodes[i].nlink == 1 && inodes[d].nlink >= 2
    ensures Law(RemoveDir(inodes, d, k, i))
  {
    assert InodeOk(inodes, home, d) && ChildOk(inodes, home, d, k);
    assert InodeOk(inodes, home, i) && LawAt(inodes, i) && LawAt(inodes, d);
    EmptyOneLink(inodes, home, d, k, i);
    ParentTwoLinks(inodes, home, d, i);
    var after := RemoveDir(inodes, d, k, i);
    forall j | 0 < j < |inodes| ensures LawAt(after, j) {
      RemoveDirRefs(inodes, d, k, i, j);
      assert LawAt(inodes, j);
    }
  }

  lemma RemoveDirRefs(inodes: seq<Inode>, d: nat, k: nat, i: nat, j: nat)
    requires 0 < d < |inodes| && 0 < i < |inodes| && i != d && j > 0 && 2 <= k < |inodes[d].entries|
    requires inodes[d].kind.Dir? && inodes[d].nlink >= 2 && inodes[i].kind.Dir? && inodes[i].nlink == 1
    requires inodes[d].entries[k].inum == i && inodes[d].entries[k].name != DOT
    requires |inodes[i].entries| >= 2 && inodes[i].entries[0].name == DOT && inodes[i].entries[1] == Entry(d, DOTDOT) && IsEmpty(inodes[i])
    ensures Refs(RemoveDir(inodes, d, k, i), j) == Refs(inodes, j) - B2N(j == i) - B2N(j == d)
  {
    var after := RemoveDir(inodes, d, k, i);
    RefsUpdate(inodes, i, after[i], j);
    RefsUpdate(inodes[i := after[i]], d, after[d], j);
    OccurrencesUpdate(inodes[d].entries, k, NONE, j);
    EmptyOccurrences(inodes[i].entries, d, j);
  }

  // Of an empty directory only ".." counts.
  lemma EmptyOccurrences(entries: seq<Entry>, d: nat, j: nat)
    requires |entries| >= 2 && entries[0].name == DOT && entries[1] == Entry(d, DOTDOT) && j > 0
    requires forall k :: 2 <= k < |entries| ==> entries[k].inum == 0
    ensures Occurrences(entries, j) == B2N(j == d)
  {
    assert |DOT| != |DOTDOT|;
    var rest := entries[1..][1..];
    forall k | 0 <= k < |rest| ensures rest[k].inum == 0 {
      assert rest[k] == entries[k + 2];
    }
    OccurrencesEmpty(rest, j);
    assert Occurrences(entries[1..], j) == B2N(j == d);
  }

  lemma RemoveDirShape(inodes: seq<Inode>, home: map<nat, nat>, d: nat, k: nat, i: nat)
    requires Shape(inodes, home) && 0 < d < |inodes| && ROOT < i < |inodes| && Linked(inodes[d]) && i != d
    requires 2 <= k < |inodes[d].entries| && inodes[d].entries[k].inum == i && inodes[i].kind.Dir? && IsEmpty(inodes[i])
    requires inodes[i].nlink == 1 && inodes[d].nlink >= 2
    ensures Shape(RemoveDir(inodes, d, k, i), home)
  {
    var after := RemoveDir(inodes, d, k, i);
    assert InodeOk(inodes, home, d) && InodeOk(inodes, home, i) && ChildOk(inodes, home, d, k);
    forall e | 0 < e < |inodes| ensures InodeOk(after, home, e) {
      assert InodeOk(inodes, home, e);
      if Linked(after[e]) {
        EmptyNoChild(inodes, home, i, e);
        RemoveDirChildren(inodes, home, d, k, i, e);
      }
    }
  }

  lemma RemoveDirChildren(inodes: seq<Inode>, home: map<nat, nat>, d: nat, k: nat, i: nat, e: nat)
    requires d < |inodes| && i < |inodes| && i != d && 2 <= k < |inodes[d].entries| && e < |inodes| && Children(inodes, home, e)
    ensures Children(RemoveDir(inodes, d, k, i), home, e)
  {
    var after := RemoveDir(inodes, d, k, i);
    forall n | 2 <= n < |after[e].entries| ensures ChildOk(after, home, e, n) {
      assert ChildOk(inodes, home, e, n);
    }
  }

  // ----- reclaiming -----

  // No linked directory names an inode without links.
  lemma Unnamed(inodes: seq<Inode>, i: nat, d: nat, k: nat)
    requires Law(inodes) && 0 < i < |inodes| && inodes[i].nlink == 0 && d < |inodes| && k < |inodes[d].entries| && Linked(inodes[d])
    ensures inodes[d].entries[k].inum == i ==> inodes[d].entries[k].name == DOT
  {
    assert LawAt(inodes, i);
    RefsAtLeast(inodes, d, i);
    OccurrencesAtLeast(inodes[d].entries, k, i);
  }

  // An inode that a linked directory names has links.
  lemma NamedLinked(inodes: seq<Inode>, d: nat, k: nat)
    requires Law(inodes) && 0 < d < |inodes| && k < |inodes[d].entries| && Linked(inodes[d])
    requires 0 < inodes[d].entries[k].inum < |inodes| && inodes[d].entries[k].name != DOT
    ensures inodes[inodes[d].entries[k].inum].nlink >= 1
  {
    var i := inodes[d].entries[k].inum;
    assert LawAt(inodes, i);
    RefsAtLeast(inodes, d, i);
    OccurrencesAtLeast(inodes[d].entries, k, i);
  }

  // iput on the last reference to an inode without links frees it.
  lemma Reclaim(inodes: seq<Inode>, home: map<nat, nat>, i: nat)
    requires Shape(inodes, home) && Law(inodes) && 0 < i < |inodes| && inodes[i].nlink == 0
    ensures Shape(inodes[i := EMPTY], home) && Law(inodes[i := EMPTY])
  {
    var after := inodes[i := EMPTY];
    forall j | 0 < j < |inodes| ensures LawAt(after, j) {
      assert LawAt(inodes, j);
      RefsUpdate(inodes, i, EMPTY, j);
    }
    forall e | 0 < e < |inodes| ensures InodeOk(after, home, e) {
      assert InodeOk(inodes, home, e);
      if Linked(after[e]) {
        Unnamed(inodes, i, e, 1);
        ReclaimChildren(inodes, home, i, e);
      }
    }
  }

  lemma ReclaimChildren(inodes: seq<Inode>, home: map<nat, nat>, i: nat, e: nat)
    requires Shape(inodes, home) && Law(inodes) && 0 < i < |inodes| && inodes[i].nlink == 0 && 0 < e < |inodes| && Linked(inodes[e])
    ensures Children(inodes[i := EMPTY], home, e)
  {
    var after := inodes[i := EMPTY];
    assert InodeOk(inodes, home, e);
    forall n | 2 <= n < |after[e].entries| ensures ChildOk(after, home, e, n) {
      assert ChildOk(inodes, home, e, n);
      Unnamed(inodes, i, e, n);
    }
  }

  // ----- references in memory -----

  // No inode is lost: one without links is free, or somebody refers to it.  Nobody refers to a free one.
  predicate Kept(x: Inode, refs: nat) {
    if x.kind.Free? then refs == 0 else x.nlink != 0 || refs > 0
  }

  ghost predicate NoneLost(inodes: seq<Inode>, refs: seq<nat>) {
    |refs| == |inodes| && forall i {:trigger Kept(inodes[i], refs[i])} :: 0 < i < |inodes| ==> Kept(inodes[i], refs[i])
  }

  // The inodes after the last reference to i has gone, if refs says so.
  function Dropped(inodes: seq<Inode>, i: nat, refs: nat): seq<Inode>
    requires i < |inodes|
  {
    if inodes[i].nlink == 0 && refs == 0 then inodes[i := EMPTY] else inodes
  }

  // A single directory, the root.
  function RootOnly(n: nat): seq<Inode>
    requires n > ROOT
  {
    seq(n, i => if i == ROOT then Inode(Dir, 1, [Entry(ROOT, DOT), Entry(ROOT, DOTDOT)]) else EMPTY)
  }

  lemma RootOnlyOk(n: nat)
    requires n > ROOT
    ensures Shape(RootOnly(n), map[]) && Law(RootOnly(n))
  {
    var inodes := RootOnly(n);
    assert |DOT| != |DOTDOT|;
    forall d | 0 < d < n ensures InodeOk(inodes, map[], d) {
    }
    forall i | 0 < i < n ensures LawAt(inodes, i) {
      OccurrencesNew(1, 1, i);
      var others := inodes[ROOT := EMPTY];
      RefsUpdate(inodes, ROOT, EMPTY, i);
      RefsZero(others, i);
    }
  }

  // ----- the case in which the law fails -----

  // A root directory, a directory that has been unlinked while in use, and a free inode.
  function WithUnlinked(): seq<Inode> {
    [EMPTY, Inode(Dir, 1, [Entry(1, DOT), Entry(1, DOTDOT)]), Inode(Dir, 0, [Entry(2, DOT), Entry(1, DOTDOT)]), EMPTY]
  }

  // A file created in the unlinked directory has one link and no entry in a linked directory.
  lemma UnlinkedBreaksLaw()
    ensures Shape(WithUnlinked(), map[]) && Law(WithUnlinked())
    ensures !Law(AddFile(WithUnlinked(), 2, 2, "f", 3, Inode(File, 1, [])))
  {
    var inodes := WithUnlinked();
    assert |DOT| != |DOTDOT|;
    forall d | 0 < d < |inodes| ensures InodeOk(inodes, map[], d) {
    }
    forall i | 0 < i < |inodes| ensures LawAt(inodes, i) {
      OccurrencesNew(1, 1, i);
      var others := inodes[1 := EMPTY];
      RefsUpdate(inodes, 1, EMPTY, i);
      RefsZero(others, i);
    }
    assert 'f' != '.';
    AddFileLaw(inodes, 2, 2, "f", 3, Inode(File, 1, []));
  }
}
