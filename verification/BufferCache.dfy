/**
 The buffer cache of kernel/bio.c: buffers in a doubly linked ring through a head, most recently
 used first.  Sleep-locks on single buffers are not modelled; a caller holds the buffers it got.
 The contents of the buffers, without the ring, are a sequence of lines.
 */
module BufferCache {
  import opened RedoLog

  // ----- lines -----

  datatype Line = Line(valid: bool, dev: nat, blockno: nat, refcnt: nat, data: Block)

  const UNUSED := Line(false, 0, 0, 0, [])

  predicate Caches(l: Line, dev: nat, blockno: nat) { l.dev == dev && l.blockno == blockno }

  ghost predicate Cached(lines: seq<Line>, dev: nat, blockno: nat) {
    exists i :: 0 <= i < |lines| && Caches(lines[i], dev, blockno)
  }

  ghost predicate AllReferenced(lines: seq<Line>) { forall i :: 0 <= i < |lines| ==> lines[i].refcnt > 0 }

  // A block is in at most one line.  Buffers never used look like block 0 of device 0.
  ghost predicate Unique(lines: seq<Line>) {
    forall i, j {:trigger Apart(lines[i], lines[j])} :: 0 <= i < j < |lines| ==> Apart(lines[i], lines[j])
  }

  predicate Apart(x: Line, y: Line) { Caches(x, y.dev, y.blockno) ==> x.dev == 0 && x.blockno == 0 }

  // bget: a reference to the line of the block, or the line given to the block.
  function Got(l: Line, dev: nat, blockno: nat): Line {
    if Caches(l, dev, blockno) then l.(refcnt := l.refcnt + 1) else Line(false, dev, blockno, 1, l.data)
  }

  // bread: the same, with contents.
  function Fetched(l: Line, dev: nat, blockno: nat, data: Block): Line {
    var g := Got(l, dev, blockno);
    if g.valid then g else g.(valid := true, data := data)
  }

  // The line is that of the block, or unreferenced and the block is in none.
  ghost predicate Serves(lines: seq<Line>, k: nat, dev: nat, blockno: nat) {
    k < |lines| && (Caches(lines[k], dev, blockno) || (lines[k].refcnt == 0 && !Cached(lines, dev, blockno)))
  }

  lemma GotUnique(lines: seq<Line>, k: nat, l: Line, dev: nat, blockno: nat)
    requires Unique(lines) && Serves(lines, k, dev, blockno) && l.dev == dev && l.blockno == blockno
    ensures Unique(lines[k := l])
  {
    var lines' := lines[k := l];
    forall i, j | 0 <= i < j < |lines'| ensures Apart(lines'[i], lines'[j]) {
      assert Apart(lines[i], lines[j]);
    }
  }

  // What a client of device dev may rely on.  `view` is the current contents of every block: of its
  // buffer if it has a valid one, else of the disk.  A buffer nobody refers to is clean.
  ghost predicate Coherent(lines: seq<Line>, dev: nat, view: Disk, disk: Disk) {
    && |view| == |disk|
    && (forall i {:trigger Agrees(lines[i], dev, view, disk)} :: 0 <= i < |lines| ==> Agrees(lines[i], dev, view, disk))
    && (forall n {:trigger InView(lines, dev, n, view, disk)} :: 0 <= n < |disk| ==> InView(lines, dev, n, view, disk))
  }

  predicate Agrees(l: Line, dev: nat, view: Disk, disk: Disk)
    requires |view| == |disk|
  {
    l.dev == dev ==>
      && l.blockno < |disk|
      && (l.valid ==> l.data == view[l.blockno])
      && (l.valid && l.refcnt == 0 ==> l.data == disk[l.blockno])
  }

  ghost predicate InView(lines: seq<Line>, dev: nat, n: nat, view: Disk, disk: Disk)
    requires n < |view| == |disk|
  {
    (forall i :: 0 <= i < |lines| && Caches(lines[i], dev, n) ==> !lines[i].valid) ==> view[n] == disk[n]
  }

  // bread gives the current contents, whichever buffer it has to recycle.
  lemma FetchCoherent(lines: seq<Line>, k: nat, dev: nat, blockno: nat, view: Disk, disk: Disk)
    requires Coherent(lines, dev, view, disk) && Unique(lines) && Serves(lines, k, dev, blockno) && blockno < |disk|
    requires dev != 0 || blockno != 0
    ensures var l := Fetched(lines[k], dev, blockno, disk[blockno]);
            l.valid && l.data == view[blockno] && Coherent(lines[k := l], dev, view, disk)
  {
    var l := Fetched(lines[k], dev, blockno, disk[blockno]);
    var lines' := lines[k := l];
    assert Agrees(lines[k], dev, view, disk) && InView(lines, dev, blockno, view, disk);
    if !lines[k].valid && Caches(lines[k], dev, blockno) {
      forall i | 0 <= i < |lines| && Caches(lines[i], dev, blockno) ensures i == k {
        assert if i < k then Apart(lines[i], lines[k]) else i > k ==> Apart(lines[k], lines[i]);
      }
    }
    forall i | 0 <= i < |lines'| ensures Agrees(lines'[i], dev, view, disk) {
      assert Agrees(lines[i], dev, view, disk);
    }
    forall n | 0 <= n < |disk| ensures InView(lines', dev, n, view, disk) {
      FetchInView(lines, k, dev, blockno, view, disk, n);
    }
  }

  lemma FetchInView(lines: seq<Line>, k: nat, dev: nat, blockno: nat, view: Disk, disk: Disk, n: nat)
    requires Coherent(lines, dev, view, disk) && Unique(lines) && Serves(lines, k, dev, blockno) && blockno < |disk| && n < |disk|
    requires dev != 0 || blockno != 0
    ensures InView(lines[k := Fetched(lines[k], dev, blockno, disk[blockno])], dev, n, view, disk)
  {
    var lines' := lines[k := Fetched(lines[k], dev, blockno, disk[blockno])];
    assert InView(lines, dev, n, view, disk) && Agrees(lines[k], dev, view, disk);
    if forall i :: 0 <= i < |lines'| && Caches(lines'[i], dev, n) ==> !lines'[i].valid {
      assert !Caches(lines'[k], dev, n);
      if Caches(lines[k], dev, n) && lines[k].valid {
        assert view[n] == disk[n];
      } else {
        forall i | 0 <= i < |lines| && Caches(lines[i], dev, n) ensures !lines[i].valid {
          assert i != k ==> lines'[i] == lines[i];
        }
      }
    }
  }

  // A holder changes the contents of its buffer.
  lemma ModifyCoherent(lines: seq<Line>, k: nat, dev: nat, data: Block, view: Disk, disk: Disk)
    requires Coherent(lines, dev, view, disk) && Unique(lines) && k < |lines|
    requires lines[k].valid && lines[k].dev == dev && lines[k].refcnt > 0 && (dev != 0 || lines[k].blockno != 0)
    requires lines[k].blockno < |disk|
    ensures Coherent(lines[k := lines[k].(data := data)], dev, view[lines[k].blockno := data], disk)
  {
    var lines', n0 := lines[k := lines[k].(data := data)], lines[k].blockno;
    var view' := view[n0 := data];
    forall i | 0 <= i < |lines'| ensures Agrees(lines'[i], dev, view', disk) {
      assert Agrees(lines[i], dev, view, disk);
      assert if i < k then Apart(lines[i], lines[k]) else i > k ==> Apart(lines[k], lines[i]);
    }
    forall n | 0 <= n < |disk| ensures InView(lines', dev, n, view', disk) {
      assert InView(lines, dev, n, view, disk);
      if n == n0 {
        assert Caches(lines'[k], dev, n) && lines'[k].valid;
      } else {
        assert forall i :: 0 <= i < |lines| && Caches(lines[i], dev, n) ==> lines'[i] == lines[i];
      }
    }
  }

  // bwrite makes the buffer clean, and readers see no difference.
  lemma WriteCoherent(lines: seq<Line>, k: nat, dev: nat, view: Disk, disk: Disk)
    requires Coherent(lines, dev, view, disk) && k < |lines| && lines[k].valid && lines[k].dev == dev && lines[k].blockno < |disk|
    ensures Coherent(lines, dev, view, disk[lines[k].blockno := lines[k].data])
  {
    var disk' := disk[lines[k].blockno := lines[k].data];
    assert Agrees(lines[k], dev, view, disk);
    forall i | 0 <= i < |lines| ensures Agrees(lines[i], dev, view, disk') {
      assert Agrees(lines[i], dev, view, disk);
    }
    forall n | 0 <= n < |disk'| ensures InView(lines, dev, n, view, disk') {
      assert InView(lines, dev, n, view, disk);
    }
  }

  // brelse is safe for a buffer that is clean or still pinned.
  lemma ReleaseCoherent(lines: seq<Line>, k: nat, dev: nat, view: Disk, disk: Disk)
    requires Coherent(lines, dev, view, disk) && k < |lines| && lines[k].refcnt > 0
    requires lines[k].dev == dev && lines[k].valid && lines[k].refcnt == 1 ==>
               lines[k].blockno < |disk| && lines[k].data == disk[lines[k].blockno]
    ensures Coherent(lines[k := lines[k].(refcnt := lines[k].refcnt - 1)], dev, view, disk)
  {
    var lines' := lines[k := lines[k].(refcnt := lines[k].refcnt - 1)];
    forall i | 0 <= i < |lines'| ensures Agrees(lines'[i], dev, view, disk) {
      assert Agrees(lines[i], dev, view, disk);
    }
    forall n | 0 <= n < |disk| ensures InView(lines', dev, n, view, disk) {
      assert InView(lines, dev, n, view, disk);
      assert forall i :: 0 <= i < |lines| ==> lines'[i].valid == lines[i].valid && Caches(lines'[i], dev, n) == Caches(lines[i], dev, n);
    }
  }

  // ----- the ring -----

  class Buf {
    ghost const index: nat
    var valid: bool
    var dev: nat
    var blockno: nat
    var refcnt: nat
    var prev: Buf
    var next: Buf
    var data: Block

    constructor (ghost index: nat)
      ensures this.index == index && Contents() == UNUSED && next == this && prev == this
    {
      this.index := index;
      valid, dev, blockno, refcnt, data := false, 0, 0, 0, [];
      next, prev := this, this;
    }

    ghost function Contents(): Line
      reads this`valid, this`dev, this`blockno, this`refcnt, this`data
    {
      Line(valid, dev, blockno, refcnt, data)
    }
  }

  ghost predicate NoDup(s: seq<Buf>) {
    forall i, j :: 0 <= i < j < |s| ==> s[i] != s[j]
  }

  // Position i of the ring: the head is both before the first buffer and after the last.
  ghost function At(head: Buf, order: seq<Buf>, i: int): Buf {
    if 0 <= i < |order| then order[i] else head
  }

  // next and prev run from head through the buffers in this order and back to head.
  ghost predicate Linked(head: Buf, order: seq<Buf>)
    reads head`next, head`prev, order`next, order`prev
  {
    && head !in order && NoDup(order)
    && (forall i {:trigger At(head, order, i).next} :: -1 <= i < |order| ==>
          At(head, order, i).next == At(head, order, i + 1))
    && (forall i {:trigger At(head, order, i).prev} :: 0 <= i <= |order| ==>
          At(head, order, i).prev == At(head, order, i - 1))
  }

  // Takes b, at position k, out of the list.
  method Unlink(head: Buf, b: Buf, ghost order: seq<Buf>, ghost k: nat)
    requires Linked(head, order) && k < |order| && order[k] == b
    modifies head`next, head`prev, order`next, order`prev
    ensures Linked(head, order[..k] + order[k + 1..])
  {
    ghost var rest := order[..k] + order[k + 1..];
    assert b == At(head, order, k);
    b.next.prev := b.prev;
    b.prev.next := b.next;
    forall i | -1 <= i < |rest| ensures At(head, rest, i).next == At(head, rest, i + 1) {
      assert At(head, rest, i) == if i < k then At(head, order, i) else At(head, order, i + 1);
      assert At(head, rest, i + 1) == if i + 1 < k then At(head, order, i + 1) else At(head, order, i + 2);
    }
    forall i | 0 <= i <= |rest| ensures At(head, rest, i).prev == At(head, rest, i - 1) {
      assert At(head, rest, i) == if i < k then At(head, order, i) else At(head, order, i + 1);
      assert At(head, rest, i - 1) == if i - 1 < k then At(head, order, i - 1) else At(head, order, i);
    }
  }

  // Inserts b right after head.
  method PushFront(head: Buf, b: Buf, ghost order: seq<Buf>)
    requires Linked(head, order) && b != head && b !in order
    modifies head`next, head`prev, order`next, order`prev, b`next, b`prev
    ensures Linked(head, [b] + order)
  {
    assert At(head, order, -1) == head && head.next == At(head, order, 0);
    b.next := head.next;
    b.prev := head;
    head.next.prev := b;
    head.next := b;
    ghost var order' := [b] + order;
    forall i | -1 <= i < |order'| ensures At(head, order', i).next == At(head, order', i + 1) {
      if i > 0 {
        assert At(head, order', i) == At(head, order, i - 1) && At(head, order', i + 1) == At(head, order, i);
      }
    }
    forall i | 0 <= i <= |order'| ensures At(head, order', i).prev == At(head, order', i - 1) {
      if i > 1 {
        assert At(head, order', i) == At(head, order, i - 1) && At(head, order', i - 1) == At(head, order, i - 2);
      }
    }
  }

  // The order with its k-th buffer moved to the front.
  ghost function Front(order: seq<Buf>, k: nat): seq<Buf>
    requires k < |order|
  {
    [order[k]] + (order[..k] + order[k + 1..])
  }

  ghost predicate Permutes(bufs: seq<Buf>, order: seq<Buf>) {
    |order| == |bufs| && (forall i :: 0 <= i < |order| ==> order[i] in bufs) && (forall b :: b in bufs ==> b in order)
  }

  lemma FrontPermutes(bufs: seq<Buf>, order: seq<Buf>, k: nat)
    requires k < |order| && NoDup(order) && Permutes(bufs, order)
    ensures Permutes(bufs, Front(order, k)) && order[k] !in order[..k] + order[k + 1..]
  {
    assert order == order[..k] + [order[k]] + order[k + 1..];
    forall b | b in bufs ensures b in Front(order, k) {
      assert b in order;
    }
  }

  class Bcache {
    const head: Buf
    const bufs: seq<Buf>
    ghost var order: seq<Buf>  // the ring, most recently used first
    ghost var lines: seq<Line>

    ghost predicate Valid()
      reads this, head, bufs
    {
      && head !in bufs && Permutes(bufs, order) && Linked(head, order)
      && |lines| == |bufs| && Unique(lines)
      && (forall i :: 0 <= i < |bufs| ==> InLine(bufs[i], i, lines))
    }

    static ghost predicate InLine(b: Buf, i: nat, lines: seq<Line>)
      requires i < |lines|
      reads b`valid, b`dev, b`blockno, b`refcnt, b`data
    {
      b.index == i && b.Contents() == lines[i]
    }

    constructor (nbuf: nat)
      ensures Valid() && |bufs| == nbuf && fresh(head) && (forall b :: b in bufs ==> fresh(b))
      ensures forall i :: 0 <= i < nbuf ==> lines[i] == UNUSED
    {
      var h := new Buf(0);
      var bs: seq<Buf> := [];
      for i := 0 to nbuf
        invariant |bs| == i && h !in bs && fresh(h) && h.next == h && h.prev == h
        invariant forall j :: 0 <= j < i ==> fresh(bs[j]) && bs[j].index == j && bs[j].Contents() == UNUSED
      {
        var b := new Buf(i);
        bs := bs + [b];
      }
      head, bufs, order, lines := h, bs, [], seq(nbuf, _ => UNUSED);
      new;
      LinkAll();
      forall i, j | 0 <= i < j < |lines| ensures Apart(lines[i], lines[j]) {
      }
    }

    // binit's loop: puts every buffer at the front of the ring.
    method LinkAll()
      requires order == [] && Linked(head, order) && head !in bufs && forall j :: 0 <= j < |bufs| ==> bufs[j].index == j
      modifies this`order, head`next, head`prev, bufs`next, bufs`prev
      ensures Permutes(bufs, order) && Linked(head, order)
    {
      for i := 0 to |bufs|
        invariant Linked(head, order) && |order| == i
        invariant forall b :: b in order <==> b in bufs[..i]
        invariant forall k :: 0 <= k < |order| ==> order[k] in bufs
      {
        assert bufs[i] !in bufs[..i];
        assert bufs[..i + 1] == bufs[..i] + [bufs[i]];
        assert bufs[i] in bufs;
        PushFront(head, bufs[i], order);
        order := [bufs[i]] + order;
      }
      assert bufs[..|bufs|] == bufs;
    }

    lemma IndexOf(b: Buf)
      requires Valid() && b in bufs
      ensures b.index < |bufs| && bufs[b.index] == b && lines[b.index] == b.Contents()
    {
    }

    // Searches the ring from the most recently used end; head if the block is not cached.
    method Lookup(dev: nat, blockno: nat) returns (b: Buf)
      requires Valid()
      ensures b == head <==> !Cached(lines, dev, blockno)
      ensures b != head ==> b in bufs && Caches(b.Contents(), dev, blockno)
    {
      ghost var k := 0;
      assert At(head, order, -1) == head;
      b := head.next;
      while b != head && !(b.dev == dev && b.blockno == blockno)
        invariant 0 <= k <= |order| && b == At(head, order, k)
        invariant forall i :: 0 <= i < k ==> !Caches(order[i].Contents(), dev, blockno)
        decreases |order| - k
      {
        b := b.next;
        k := k + 1;
      }
      if b == head {
        forall i | 0 <= i < |lines| ensures !Caches(lines[i], dev, blockno) {
          assert bufs[i] in order;
        }
      } else {
        IndexOf(b);
      }
    }

    // Searches from the least recently used end for a buffer nobody refers to; head if there is none.
    method LeastRecent() returns (b: Buf, ghost k: int)
      requires Valid()
      ensures -1 <= k < |order| && b == At(head, order, k)
      ensures forall i :: k < i < |order| ==> order[i].refcnt > 0
      ensures b != head ==> b in bufs && b.refcnt == 0
      ensures b == head <==> AllReferenced(lines)
    {
      k := |order| - 1;
      assert At(head, order, |order|) == head;
      b := head.prev;
      while b != head && b.refcnt != 0
        invariant -1 <= k < |order| && b == At(head, order, k)
        invariant forall i :: k < i < |order| ==> order[i].refcnt > 0
        decreases k
      {
        b := b.prev;
        k := k - 1;
      }
      if b == head {
        forall i | 0 <= i < |lines| ensures lines[i].refcnt > 0 {
          assert bufs[i] in order;
        }
      } else {
        IndexOf(b);
      }
    }

    // Gives the fields of one buffer new values.
    method Assign(b: Buf, valid: bool, dev: nat, blockno: nat, refcnt: nat, data: Block)
      requires Valid() && b in bufs && b.index < |lines|
      requires Unique(lines[b.index := Line(valid, dev, blockno, refcnt, data)])
      modifies this`lines, b`valid, b`dev, b`blockno, b`refcnt, b`data
      ensures Valid() && lines == old(lines)[b.index := Line(valid, dev, blockno, refcnt, data)]
    {
      ghost var before, k := lines, b.index;
      b.valid, b.dev, b.blockno, b.refcnt, b.data := valid, dev, blockno, refcnt, data;
      assert Linked(head, order);
      lines := before[k := Line(valid, dev, blockno, refcnt, data)];
      forall i | 0 <= i < |bufs| ensures InLine(bufs[i], i, lines) {
        assert old(InLine(bufs[i], i, lines));
        assert i != k ==> bufs[i] != b;
      }
    }

    // A cached block's buffer, or else the least recently used free buffer, given to the block; head
    // stands for the panic when every buffer is in use.
    method Bget(dev: nat, blockno: nat) returns (b: Buf)
      requires Valid()
      modifies this`lines, bufs`valid, bufs`dev, bufs`blockno, bufs`refcnt, bufs`data
      ensures Valid()
      ensures b == head <==> !Cached(old(lines), dev, blockno) && AllReferenced(old(lines))
      ensures b == head ==> lines == old(lines)
      ensures b != head ==>
                && b in bufs && Serves(old(lines), b.index, dev, blockno)
                && lines == old(lines)[b.index := Got(old(lines)[b.index], dev, blockno)]
      ensures b != head && !Cached(old(lines), dev, blockno) ==>
                exists k :: 0 <= k < |order| && order[k] == b && forall i :: k < i < |order| ==> old(order[i].refcnt) > 0
    {
      b := Lookup(dev, blockno);
      if b == head {
        ghost var k;
        b, k := LeastRecent();
        if b == head {
          return;
        }
        assert order[k] == b;
      }
      IndexOf(b);
      ghost var l := Got(lines[b.index], dev, blockno);
      GotUnique(lines, b.index, l, dev, blockno);
      Take(b, dev, blockno);
    }

    // The assignments of bget.
    method Take(b: Buf, dev: nat, blockno: nat)
      requires Valid() && b in bufs && b.index < |lines|
      requires Unique(lines[b.index := Got(lines[b.index], dev, blockno)])
      modifies this`lines, b`valid, b`dev, b`blockno, b`refcnt, b`data
      ensures Valid() && lines == old(lines)[b.index := Got(old(lines)[b.index], dev, blockno)]
    {
      IndexOf(b);
      if b.dev == dev && b.blockno == blockno {
        Assign(b, b.valid, b.dev, b.blockno, b.refcnt + 1, b.data);
      } else {
        Assign(b, false, dev, blockno, 1, b.data);
      }
    }

    // The returned buffer is valid.
    method Bread(dev: nat, blockno: nat, disk: Disk) returns (b: Buf)
      requires Valid() && blockno < |disk|
      modifies this`lines, bufs`valid, bufs`dev, bufs`blockno, bufs`refcnt, bufs`data
      ensures Valid()
      ensures b == head <==> !Cached(old(lines), dev, blockno) && AllReferenced(old(lines))
      ensures b == head ==> lines == old(lines)
      ensures b != head ==>
                && b in bufs && Serves(old(lines), b.index, dev, blockno)
                && lines == old(lines)[b.index := Fetched(old(lines)[b.index], dev, blockno, disk[blockno])]
    {
      b := Bget(dev, blockno);
      if b != head {
        IndexOf(b);
        if !b.valid {
          SameBlockUnique(lines, b.index, lines[b.index].(valid := true, data := disk[blockno]));
          Assign(b, true, b.dev, b.blockno, b.refcnt, disk[blockno]);
        }
      }
    }

    // A holder changes the contents of its buffer.
    method Modify(b: Buf, data: Block)
      requires Valid() && b in bufs
      modifies this`lines, b`valid, b`dev, b`blockno, b`refcnt, b`data
      ensures Valid() && b.index < |lines| && lines == old(lines)[b.index := old(lines)[b.index].(data := data)]
    {
      IndexOf(b);
      SameBlockUnique(lines, b.index, lines[b.index].(data := data));
      Assign(b, b.valid, b.dev, b.blockno, b.refcnt, data);
    }

    method AddRefs(b: Buf, refcnt: nat)
      requires Valid() && b in bufs
      modifies this`lines, b`valid, b`dev, b`blockno, b`refcnt, b`data
      ensures Valid() && b.index < |lines| && lines == old(lines)[b.index := old(lines)[b.index].(refcnt := refcnt)]
    {
      IndexOf(b);
      SameBlockUnique(lines, b.index, lines[b.index].(refcnt := refcnt));
      Assign(b, b.valid, b.dev, b.blockno, refcnt, b.data);
    }

    method Bpin(b: Buf)
      requires Valid() && b in bufs
      modifies this`lines, b`valid, b`dev, b`blockno, b`refcnt, b`data
      ensures Valid() && b.index < |lines| && lines == old(lines)[b.index := old(lines)[b.index].(refcnt := old(lines)[b.index].refcnt + 1)]
    {
      IndexOf(b);
      AddRefs(b, b.refcnt + 1);
    }

    method Bunpin(b: Buf)
      requires Valid() && b in bufs && b.refcnt > 0
      modifies this`lines, b`valid, b`dev, b`blockno, b`refcnt, b`data
      ensures Valid() && b.index < |lines| && old(lines)[b.index].refcnt > 0
      ensures lines == old(lines)[b.index := old(lines)[b.index].(refcnt := old(lines)[b.index].refcnt - 1)]
    {
      IndexOf(b);
      AddRefs(b, b.refcnt - 1);
    }

    // Writes the buffer to disk.
    method Bwrite(b: Buf, disk: Disk) returns (disk': Disk)
      requires Valid() && b in bufs && b.blockno < |disk|
      ensures b.index < |lines| && lines[b.index].blockno < |disk| && disk' == disk[lines[b.index].blockno := lines[b.index].data]
    {
      IndexOf(b);
      disk' := disk[b.blockno := b.data];
    }

    method Relink(b: Buf, ghost k: nat, ghost rest: seq<Buf>)
      requires Linked(head, order) && k < |order| && order[k] == b && Permutes(bufs, order)
      requires rest == order[..k] + order[k + 1..] && b !in rest
      modifies head`next, head`prev, bufs`next, bufs`prev
      ensures Linked(head, [b] + rest)
    {
      forall x | x in rest ensures x in bufs {
        assert x in order;
      }
      assert b in order;
      Unlink(head, b, order, k);
      PushFront(head, b, rest);
    }

    method MoveToFront(b: Buf)
      requires Valid() && b in bufs
      modifies this`order, head`next, head`prev, bufs`next, bufs`prev
      ensures Valid()
      ensures exists k :: 0 <= k < |bufs| && old(order)[k] == b && order == Front(old(order), k)
    {
      ghost var k :| 0 <= k < |order| && order[k] == b;
      ghost var rest := order[..k] + order[k + 1..];
      FrontPermutes(bufs, order, k);
      Relink(b, k, rest);
      order := [b] + rest;
    }

    // Drops a reference; the last one moves the buffer to the front of the ring.
    method Brelse(b: Buf)
      requires Valid() && b in bufs && b.refcnt > 0
      modifies this`lines, this`order, b`valid, b`dev, b`blockno, b`refcnt, b`data, head`next, head`prev, bufs`next, bufs`prev
      ensures Valid() && b.index < |lines| && old(lines)[b.index].refcnt > 0
      ensures lines == old(lines)[b.index := old(lines)[b.index].(refcnt := old(lines)[b.index].refcnt - 1)]
      ensures lines[b.index].refcnt > 0 ==> order == old(order)
      ensures lines[b.index].refcnt == 0 ==> exists k :: 0 <= k < |bufs| && old(order)[k] == b && order == Front(old(order), k)
    {
      Bunpin(b);
      IndexOf(b);
      if b.refcnt == 0 {
        MoveToFront(b);
      }
    }
  }

  lemma SameBlockUnique(lines: seq<Line>, k: nat, l: Line)
    requires Unique(lines) && k < |lines| && l.dev == lines[k].dev && l.blockno == lines[k].blockno
    ensures Unique(lines[k := l])
  {
    var lines' := lines[k := l];
    forall i, j | 0 <= i < j < |lines'| ensures Apart(lines'[i], lines'[j]) {
      assert Apart(lines[i], lines[j]);
    }
  }
}
