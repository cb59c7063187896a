/**
 link, unlink and create (kernel/sysfile.c) on the inodes of module Links, with all their failure exits:
 whatever happens, the law of link counts holds afterwards and no inode is lost, except in one case.  An entry
 put into a directory that has been unlinked breaks the law.  That needs only a reference to the directory:
 nameiparent returns it unlocked, and it may be unlinked before it is locked again.
 */
module LinkOps {
  import opened Collections
  import opened Links

  predicate Has(entries: seq<Entry>, name: string) {
    exists k :: 0 <= k < |entries| && entries[k].inum != 0 && entries[k].name == name
  }

  // The first slot with a name; the number of slots if there is none.
  function Find(entries: seq<Entry>, name: string): (k: nat)
    ensures k <= |entries| && (k < |entries| <==> Has(entries, name))
    ensures k < |entries| ==> entries[k].inum != 0 && entries[k].name == name
  {
    if entries == [] then 0
    else if entries[0].inum != 0 && entries[0].name == name then 0
    else
      assert forall k :: 0 < k < |entries| ==> entries[k] == entries[1..][k - 1];
      1 + Find(entries[1..], name)
  }

  lemma {:induction false} FindFirst(entries: seq<Entry>, name: string, k: nat)
    requires k <= |entries| && forall j :: 0 <= j < k ==> entries[j].inum == 0 || entries[j].name != name
    requires k < |entries| ==> entries[k].inum != 0 && entries[k].name == name
    ensures Find(entries, name) == k
  {
    if 0 < k {
      FindFirst(entries[1..], name, k - 1);
    }
  }

  class Files {
    var inodes: seq<Inode>
    var refs: seq<nat>  // references in memory
    ghost var home: map<nat, nat>

    ghost predicate Valid()
      reads this
    {
      Shape(inodes, home) && Law(inodes) && NoneLost(inodes, refs)
    }

    // A file system with a root directory and nothing else.
    constructor (n: nat)
      requires n > ROOT
      ensures Valid() && inodes == RootOnly(n) && refs == seq(n, _ => 0)
    {
      inodes, refs, home := RootOnly(n), seq(n, _ => 0), map[];
      RootOnlyOk(n);
    }

    predicate IsDir(d: nat)
      reads this
    {
      0 < d < |inodes| && inodes[d].kind.Dir?
    }

    // The slot of a name, -1 if there is none.
    method DirLookup(d: nat, name: string) returns (k: int)
      requires IsDir(d)
      ensures k == -1 <==> !Has(inodes[d].entries, name)
      ensures k != -1 ==> k == Find(inodes[d].entries, name)
    {
      k := 0;
      while k < |inodes[d].entries|
        invariant 0 <= k <= |inodes[d].entries|
        invariant forall j :: 0 <= j < k ==> inodes[d].entries[j].inum == 0 || inodes[d].entries[j].name != name
      {
        if inodes[d].entries[k].inum != 0 && inodes[d].entries[k].name == name {
          FindFirst(inodes[d].entries, name, k);
          return;
        }
        k := k + 1;
      }
      FindFirst(inodes[d].entries, name, k);
      return -1;
    }

    // Writes an entry into the first unused slot, if the name is new and there is room.
    method DirLink(d: nat, name: string, i: nat, room: bool) returns (ok: bool, ghost k: nat)
      requires IsDir(d)
      modifies this`inodes
      ensures ok == (room && !Has(old(inodes[d].entries), name))
      ensures !ok ==> inodes == old(inodes)
      ensures ok ==> && k <= |old(inodes[d].entries)| && (k < |old(inodes[d].entries)| ==> old(inodes[d].entries)[k].inum == 0)
                     && (forall j :: 0 <= j < k ==> old(inodes[d].entries)[j].inum != 0)
                     && inodes == old(inodes)[d := Add(old(inodes[d]), k, Entry(i, name))]
    {
      k := 0;
      var found := DirLookup(d, name);
      if found != -1 {
        return false, 0;
      }
      var off := 0;
      while off < |inodes[d].entries| && inodes[d].entries[off].inum != 0
        invariant 0 <= off <= |inodes[d].entries|
        invariant forall j :: 0 <= j < off ==> inodes[d].entries[j].inum != 0
      {
        off := off + 1;
      }
      if !room {
        return false, 0;
      }
      inodes := inodes[d := Add(inodes[d], off, Entry(i, name))];
      return true, off;
    }

    // "." and ".." are in every directory.
    lemma DotsPresent(d: nat)
      requires Valid() && IsDir(d)
      ensures Has(inodes[d].entries, DOT) && Has(inodes[d].entries, DOTDOT)
    {
      assert InodeOk(inodes, home, d);
      assert inodes[d].entries[0].inum != 0 && inodes[d].entries[1].inum != 0;
    }

    // sys_link: i is what the old path names, dp the parent of the new path.
    method Link(i: nat, dp: Option<nat>, name: string, room: bool) returns (ok: bool, ghost k: nat)
      requires Valid() && 0 < i < |inodes| && refs[i] > 0 && (dp.Some? ==> IsDir(dp.value))
      modifies this`inodes
      ensures |inodes| == |old(inodes)|
      ensures !ok ==> inodes == old(inodes)
      ensures ok <==> !old(inodes)[i].kind.Dir? && dp.Some? && room && !Has(old(inodes)[dp.value].entries, name)
      ensures Valid() <==> !ok || Linked(old(inodes)[dp.value])
      ensures ok ==> && k <= |old(inodes)[dp.value].entries|
                     && (forall j :: 0 <= j < k ==> old(inodes)[dp.value].entries[j].inum != 0)
                     && (k < |old(inodes)[dp.value].entries| ==> old(inodes)[dp.value].entries[k].inum == 0)
                     && inodes == AddFile(old(inodes), dp.value, k, name, i, old(inodes)[i].(nlink := old(inodes)[i].nlink + 1))
    {
      k := 0;
      if inodes[i].kind.Dir? {
        return false, 0;
      }
      ghost var was, x := inodes, inodes[i].(nlink := inodes[i].nlink + 1);
      assert Kept(was[i], refs[i]);
      if dp.Some? {
        DotsPresent(dp.value);
      }
      inodes := inodes[i := inodes[i].(nlink := inodes[i].nlink + 1)];
      ok := false;
      if dp.Some? {
        ok, k := DirLink(dp.value, name, i, room);
        if ok {
          ghost var d := dp.value;
          assert InodeOk(was, home, d) && InodeOk(was, home, i);
          assert inodes == AddFile(was, d, k, name, i, x);
          AddFileLaw(was, d, k, name, i, x);
          if Linked(was[d]) {
            AddFileShape(was, home, d, k, name, i, x);
            StillKept(was, inodes, refs, refs, i);
          }
        }
      }
      if !ok {
        inodes := inodes[i := inodes[i].(nlink := inodes[i].nlink - 1)];
        assert inodes == was;
      }
    }

    // Is the directory empty except for "." and ".."?
    method IsDirEmpty(d: nat) returns (r: bool)
      requires IsDir(d)
      ensures r == IsEmpty(inodes[d])
    {
      var off := 2;
      while off < |inodes[d].entries|
        invariant 2 <= off && forall k :: 2 <= k < off && k < |inodes[d].entries| ==> inodes[d].entries[k].inum == 0
      {
        if inodes[d].entries[off].inum != 0 {
          return false;
        }
        off := off + 1;
      }
      return true;
    }

    // sys_unlink.  The panic for an inode without links is never reached.  The last iput frees the inode if
    // nobody else refers to it.
    method Unlink(dp: nat, name: string) returns (ok: bool)
      requires Valid() && IsDir(dp) && refs[dp] > 0
      modifies this`inodes, this`refs
      ensures Valid() && refs == old(refs)
      ensures !ok ==> inodes == old(inodes)
      ensures ok ==> && Linked(old(inodes)[dp]) && Has(old(inodes)[dp].entries, name)
                     && Unlinks(old(inodes), inodes, dp, name, old(refs))
      ensures !ok <==> name == DOT || name == DOTDOT || !Has(old(inodes)[dp].entries, name) || Blocked(old(inodes), dp, name)
    {
      if name == DOT || name == DOTDOT {
        return false;
      }
      var k := DirLookup(dp, name);
      if k == -1 {
        return false;
      }
      assert InodeOk(inodes, home, dp);
      var i := inodes[dp].entries[k].inum;
      assert ChildOk(inodes, home, dp, k);
      assert InodeOk(inodes, home, i);
      NamedLinked(inodes, dp, k);
      assert inodes[i].nlink >= 1;
      if inodes[i].kind.Dir? {
        var empty := IsDirEmpty(i);
        if !empty {
          return false;
        }
      }
      ghost var was := refs;
      refs := refs[i := refs[i] + 1];
      Remove(dp, k, i);
      Iput(i);
      assert refs == was;
      return true;
    }

    // The removal of an entry and of what it stands for.
    method Remove(dp: nat, k: nat, i: nat)
      requires Shape(inodes, home) && Law(inodes) && IsDir(dp) && Linked(inodes[dp]) && 2 <= k < |inodes[dp].entries|
      requires 0 < i == inodes[dp].entries[k].inum && inodes[dp].entries[k].name !in {DOT, DOTDOT}
      requires i < |inodes| && (inodes[i].kind.Dir? ==> IsEmpty(inodes[i]))
      requires |refs| == |inodes| && refs[dp] > 0 && refs[i] > 0
      requires forall j {:trigger Kept(inodes[j], refs[j])} :: 0 < j < |inodes| && j != i ==> Kept(inodes[j], refs[j])
      modifies this`inodes
      ensures Valid() && inodes == Removed(old(inodes), dp, k, i)
    {
      ghost var was := inodes;
      assert InodeOk(was, home, dp) && ChildOk(was, home, dp, k) && InodeOk(was, home, i);
      inodes := inodes[dp := inodes[dp].(entries := inodes[dp].entries[k := NONE])];
      if inodes[i].kind.Dir? {
        RemoveDirLaw(was, home, dp, k, i);
        RemoveDirShape(was, home, dp, k, i);
        inodes := inodes[dp := inodes[dp].(nlink := inodes[dp].nlink - 1)];
      } else {
        RemoveFileLaw(was, dp, k, i);
        RemoveFileShape(was, home, dp, k, i);
      }
      inodes := inodes[i := inodes[i].(nlink := inodes[i].nlink - 1)];
      assert inodes == Removed(was, dp, k, i);
      forall j | 0 < j < |inodes| ensures Kept(inodes[j], refs[j]) {
        assert j != i && j != dp ==> Kept(was[j], refs[j]);
      }
    }

    // The first free inode, with a reference; 0 if there is none.
    method Ialloc(kind: Kind) returns (i: nat)
      requires Valid() && !kind.Free?
      modifies this`inodes, this`refs
      ensures i == 0 ==> inodes == old(inodes) && refs == old(refs) && forall j :: 0 < j < |inodes| ==> !inodes[j].kind.Free?
      ensures i != 0 ==> forall j :: 0 < j < i && j < |old(inodes)| ==> !old(inodes)[j].kind.Free?
      ensures i != 0 ==> && ROOT < i < |old(inodes)| && old(inodes)[i] == EMPTY && inodes == old(inodes)[i := Inode(kind, 0, [])]
                         && refs == old(refs)[i := 1] && old(refs)[i] == 0
    {
      i := 1;
      while i < |inodes|
        invariant 1 <= i <= |inodes| && forall j :: 0 < j < i ==> !inodes[j].kind.Free?
      {
        if inodes[i].kind.Free? {
          assert InodeOk(inodes, home, i) && Kept(inodes[i], refs[i]);
          inodes := inodes[i := Inode(kind, 0, [])];
          refs := refs[i := refs[i] + 1];
          return;
        }
        i := i + 1;
      }
      return 0;
    }

    // iput: drops a reference; the last one frees an inode without links.
    method Iput(i: nat)
      requires Valid() && 0 < i < |inodes| && refs[i] > 0
      modifies this`inodes, this`refs
      ensures Valid() && refs == old(refs)[i := old(refs)[i] - 1] && inodes == Dropped(old(inodes), i, refs[i])
    {
      ghost var was, before := inodes, refs;
      if refs[i] == 1 && inodes[i].nlink == 0 {
        Reclaim(inodes, home, i);
        inodes := inodes[i := EMPTY];
      }
      refs := refs[i := refs[i] - 1];
      assert Kept(was[i], before[i]);
      StillKept(was, inodes, before, refs, i);
    }

    // create: dp is the parent of the path; dots says whether "." and ".." find room, room whether the entry
    // in dp does.  Returns the inode, or 0.
    method Create(dp: nat, name: string, kind: Kind, dots: (bool, bool), room: bool) returns (r: nat, ghost slot: nat)
      requires Valid() && IsDir(dp) && !kind.Free?
      modifies this
      ensures |inodes| == |old(inodes)| == |old(refs)|
      ensures r == 0 || Has(old(inodes)[dp].entries, name) ==> inodes == old(inodes) && home == old(home)
      ensures refs == if 0 < r < |old(refs)| then old(refs)[r := old(refs)[r] + 1] else old(refs)
      ensures Valid() <==> r == 0 || Has(old(inodes)[dp].entries, name) || Linked(old(inodes)[dp])
      ensures Has(old(inodes)[dp].entries, name) ==> r == Existing(old(inodes), dp, name, kind)
      ensures r != 0 && !Has(old(inodes)[dp].entries, name) ==> Creates(old(inodes), inodes, dp, slot, name, r, kind)
      ensures !Has(old(inodes)[dp].entries, name) ==> (r == 0 <==> CannotCreate(old(inodes), kind, dots, room))
    {
      slot := 0;
      var k := DirLookup(dp, name);
      DotsPresent(dp);
      if k != -1 {
        var i := inodes[dp].entries[k].inum;
        if kind.File? && i < |inodes| && (inodes[i].kind.File? || inodes[i].kind.Device?) {
          refs := refs[i := refs[i] + 1];
          StillKept(inodes, inodes, old(refs), refs, i);
          return i, 0;
        }
        return 0, 0;
      }
      r, slot := CreateNew(dp, name, kind, dots, room);
    }

    method CreateNew(dp: nat, name: string, kind: Kind, dots: (bool, bool), room: bool) returns (r: nat, ghost k: nat)
      requires Valid() && IsDir(dp) && !kind.Free? && !Has(inodes[dp].entries, name) && name != DOT && name != DOTDOT
      modifies this
      ensures |inodes| == |old(inodes)| == |old(refs)|
      ensures r == 0 ==> inodes == old(inodes) && home == old(home)
      ensures refs == if 0 < r < |old(refs)| then old(refs)[r := old(refs)[r] + 1] else old(refs)
      ensures Valid() <==> r == 0 || Linked(old(inodes)[dp])
      ensures r != 0 ==> Creates(old(inodes), inodes, dp, k, name, r, kind)
      ensures r == 0 <==> CannotCreate(old(inodes), kind, dots, room)
    {
      k := 0;
      ghost var was := inodes;
      assert InodeOk(was, home, dp);
      var i := Ialloc(kind);
      if i == 0 {
        return 0, 0;
      }
      var ok;
      ok, k := Fill(dp, name, i, kind, dots, room, was);
      if !ok {
        inodes := inodes[i := inodes[i].(nlink := 0)];
        inodes := inodes[i := EMPTY];  // iput: the only reference
        refs := refs[i := refs[i] - 1];
        assert inodes == was && refs == old(refs);
        return 0, 0;
      }
      home := CreatedOk(was, home, old(refs), dp, k, name, i, kind);
      return i, k;
    }

    // Gives a new inode its link, its dots and its entry.
    method Fill(dp: nat, name: string, i: nat, kind: Kind, dots: (bool, bool), room: bool, ghost was: seq<Inode>)
      returns (ok: bool, ghost k: nat)
      requires 0 < dp < |was| && was[dp].kind.Dir? && !Has(was[dp].entries, name) && 0 < i < |was| && i != dp
      requires was[i] == EMPTY && inodes == was[i := Inode(kind, 0, [])]
      modifies this`inodes
      ensures |inodes| == |was| && ok == (room && (kind.Dir? ==> dots.0 && dots.1))
      ensures !ok ==> forall e :: 0 <= e < |was| && e != i ==> inodes[e] == was[e]
      ensures ok ==> && k <= |was[dp].entries| && (k < |was[dp].entries| ==> was[dp].entries[k].inum == 0)
                     && (forall j :: 0 <= j < k ==> was[dp].entries[j].inum != 0)
                     && inodes == Created(was, dp, k, name, i, kind)
    {
      k := 0;
      inodes := inodes[i := inodes[i].(nlink := 1)];
      ok := true;
      if kind.Dir? {
        ok := MakeDots(i, dp, dots);
      }
      if ok {
        ok, k := DirLink(dp, name, i, room);
      }
      if ok && kind.Dir? {
        inodes := inodes[dp := inodes[dp].(nlink := inodes[dp].nlink + 1)];
      }
      assert ok ==> inodes == Created(was, dp, k, name, i, kind);
    }

    // The "." and ".." entries of a new directory.
    method MakeDots(i: nat, dp: nat, dots: (bool, bool)) returns (ok: bool)
      requires 0 < i < |inodes| && inodes[i] == Inode(Dir, 1, []) && i != dp && dp > 0
      modifies this`inodes
      ensures |inodes| == |old(inodes)| && forall e :: 0 <= e < |inodes| && e != i ==> inodes[e] == old(inodes)[e]
      ensures ok == (dots.0 && dots.1)
      ensures ok ==> inodes == old(inodes)[i := Inode(Dir, 1, [Entry(i, DOT), Entry(dp, DOTDOT)])]
    {
      ghost var k;
      assert |DOT| != |DOTDOT|;
      ok, k := DirLink(i, DOT, i, dots.0);
      if ok {
        assert [] + [Entry(i, DOT)] == [Entry(i, DOT)];
        assert inodes[i] == Inode(Dir, 1, [Entry(i, DOT)]);
        ok, k := DirLink(i, DOTDOT, dp, dots.1);
        assert [Entry(i, DOT)] + [Entry(dp, DOTDOT)] == [Entry(i, DOT), Entry(dp, DOTDOT)];
        assert ok ==> inodes[i] == Inode(Dir, 1, [Entry(i, DOT), Entry(dp, DOTDOT)]);
      }
    }
  }

  // The inode that a name in a directory stands for.
  function Target(inodes: seq<Inode>, dp: nat, name: string): nat
    requires dp < |inodes| && Has(inodes[dp].entries, name)
  {
    inodes[dp].entries[Find(inodes[dp].entries, name)].inum
  }

  // What create returns for a name that is there already.
  function Existing(inodes: seq<Inode>, dp: nat, name: string, kind: Kind): nat
    requires dp < |inodes| && Has(inodes[dp].entries, name)
  {
    var i := Target(inodes, dp, name);
    if kind.File? && i < |inodes| && (inodes[i].kind.File? || inodes[i].kind.Device?) then i else 0
  }

  // No inode is free, or an entry finds no room.
  ghost predicate CannotCreate(inodes: seq<Inode>, kind: Kind, dots: (bool, bool), room: bool) {
    (forall j :: 0 < j < |inodes| ==> !inodes[j].kind.Free?) || (kind.Dir? && !(dots.0 && dots.1)) || !room
  }

  // The first free inode has become a file or directory with one entry, in the first unused slot.
  ghost predicate Creates(a: seq<Inode>, b: seq<Inode>, dp: nat, k: nat, name: string, i: nat, kind: Kind) {
    && dp < |a| && i < |a| && a[i] == EMPTY && k <= |a[dp].entries|
    && (forall j :: 0 < j < i ==> !a[j].kind.Free?) && (forall j :: 0 <= j < k ==> a[dp].entries[j].inum != 0)
    && (k < |a[dp].entries| ==> a[dp].entries[k].inum == 0)
    && b == Created(a, dp, k, name, i, kind)
  }

  function Created(a: seq<Inode>, dp: nat, k: nat, name: string, i: nat, kind: Kind): seq<Inode>
    requires dp < |a| && i < |a| && k <= |a[dp].entries|
  {
    if kind.Dir? then AddDir(a, dp, k, name, i) else AddFile(a, dp, k, name, i, Inode(kind, 1, []))
  }

  lemma CreatedOk(a: seq<Inode>, home: map<nat, nat>, refs: seq<nat>, dp: nat, k: nat, name: string, i: nat, kind: Kind)
    returns (home': map<nat, nat>)
    requires Shape(a, home) && Law(a) && NoneLost(a, refs) && 0 < dp < |a| && a[dp].kind.Dir? && CanAdd(a[dp], k, name)
    requires ROOT < i < |a| && a[i] == EMPTY && !kind.Free? && forall j :: 0 <= j < k ==> a[dp].entries[j].inum != 0
    ensures var b := Created(a, dp, k, name, i, kind);
            Shape(b, home') && Law(b) && NoneLost(b, refs[i := 1]) <==> Linked(a[dp])
  {
    home' := home;
    var b := Created(a, dp, k, name, i, kind);
    assert InodeOk(a, home, dp);
    if kind.Dir? {
      AddDirLaw(a, home, dp, k, name, i);
      if Linked(a[dp]) {
        AddDirShape(a, home, dp, k, name, i);
        home' := home[i := k];
        NewKept(a, b, refs, refs[i := 1], i, dp);
      }
    } else {
      AddFileLaw(a, dp, k, name, i, Inode(kind, 1, []));
      if Linked(a[dp]) {
        AddFileShape(a, home, dp, k, name, i, Inode(kind, 1, []));
        NewKept(a, b, refs, refs[i := 1], i, dp);
      }
    }
  }

  // Entry k of dp is gone, with the links it stands for.
  function Removed(a: seq<Inode>, dp: nat, k: nat, i: nat): seq<Inode>
    requires dp < |a| && i < |a| && k < |a[dp].entries|
  {
    if a[i].kind.Dir? then RemoveDir(a, dp, k, i) else RemoveFile(a, dp, k, i)
  }

  // The entry for the name, and the inode too if it was the last and nobody refers to it.
  predicate Unlinks(a: seq<Inode>, b: seq<Inode>, dp: nat, name: string, refs: seq<nat>)
    requires dp < |a| && Has(a[dp].entries, name)
  {
    var k, i := Find(a[dp].entries, name), Target(a, dp, name);
    i < |a| == |refs| && b == Dropped(Removed(a, dp, k, i), i, refs[i])
  }

  // Only inode i, or its references, have changed in a way that matters.
  lemma StillKept(a: seq<Inode>, b: seq<Inode>, refs: seq<nat>, refs': seq<nat>, i: nat)
    requires NoneLost(a, refs) && |b| == |a| && |refs'| == |refs| && 0 < i < |a| && Kept(b[i], refs'[i])
    requires forall j :: 0 < j < |a| && j != i ==> b[j].kind == a[j].kind && b[j].nlink == a[j].nlink && refs'[j] == refs[j]
    ensures NoneLost(b, refs')
  {
    forall j | 0 < j < |b| ensures Kept(b[j], refs'[j]) {
      assert Kept(a[j], refs[j]);
    }
  }

  // A new inode i with a reference, and more links for dp.
  lemma NewKept(a: seq<Inode>, b: seq<Inode>, refs: seq<nat>, refs': seq<nat>, i: nat, dp: nat)
    requires NoneLost(a, refs) && |b| == |a| && 0 < i < |a| && refs' == refs[i := 1] && !b[i].kind.Free?
    requires dp < |a| && dp != i && b[dp].kind.Dir? && b[dp].nlink > 0
    requires forall j :: 0 < j < |a| && j != i && j != dp ==> b[j] == a[j]
    ensures NoneLost(b, refs')
  {
    forall j | 0 < j < |b| ensures Kept(b[j], refs'[j]) {
      assert Kept(a[j], refs[j]);
    }
  }

  // The name is that of a directory that is not empty.
  predicate Blocked(inodes: seq<Inode>, dp: nat, name: string)
    requires dp < |inodes|
  {
    && Has(inodes[dp].entries, name)
    && var i := Target(inodes, dp, name);
       i < |inodes| && inodes[i].kind.Dir? && !IsEmpty(inodes[i])
  }
}
