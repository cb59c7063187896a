/**
 The allocator and the inode layer of kernel/fs.c as methods on one file system object: balloc,
 bfree, bmap, itrunc, readi, writei, and the chunked filewrite of kernel/file.c.  The ghost field
 `logged` is the set of blocks passed to log_write in the current transaction.
 */
module FileSystem {
  import opened Collections
  import opened FsImage
  import RedoLog

  const BPB := BSIZE * 8
  const IPB := 16

  // The bitmap block that holds the bit of block b, and the block that holds inode i.
  function BBlock(lay: Layout, b: nat): nat { b / BPB + lay.bmapStart }
  function IBlock(lay: Layout, i: nat): nat { i / IPB + lay.inodeStart }

  // Every block below a file's size is allocated.
  ghost predicate NoHoles(lay: Layout, m: Image)
    requires Shape(lay, m)
  {
    && (forall i :: 0 <= i < |m.inodes| ==> m.inodes[i].size <= MAXFILE * BSIZE)
    && (forall i: nat, bn: nat :: i < |m.inodes| && bn < MAXFILE && bn * BSIZE < m.inodes[i].size ==> Addr(lay, m, i, bn) != 0)
  }

  // m' is m with blocks added to inode i: no size, no contents and no existing block have changed.
  ghost predicate Extends(lay: Layout, m: Image, m': Image, i: nat) {
    && Shape(lay, m) && Shape(lay, m') && |m'.inodes| == |m.inodes|
    && (forall f :: 0 <= f < |m.inodes| ==> m'.inodes[f].size == m.inodes[f].size)
    && (forall f :: 0 <= f < |m.inodes| && f != i ==> m'.inodes[f] == m.inodes[f])
    && (forall f: nat, bn: nat {:trigger ExtendsAt(lay, m, m', f, bn)} :: f < |m.inodes| && bn < MAXFILE ==> ExtendsAt(lay, m, m', f, bn))
  }

  predicate ExtendsAt(lay: Layout, m: Image, m': Image, f: nat, bn: nat)
    requires Shape(lay, m) && Shape(lay, m') && f < |m.inodes| == |m'.inodes| && bn < MAXFILE
  {
    && Data(lay, m', f, bn) == Data(lay, m, f, bn)
    && (Addr(lay, m, f, bn) != 0 ==> Addr(lay, m', f, bn) == Addr(lay, m, f, bn))
  }

  lemma ExtendsTrans(lay: Layout, m: Image, m': Image, m'': Image, i: nat)
    requires Extends(lay, m, m', i) && Extends(lay, m', m'', i)
    ensures Extends(lay, m, m'', i)
  {
    forall f: nat, bn: nat | f < |m.inodes| && bn < MAXFILE ensures ExtendsAt(lay, m, m'', f, bn) {
      assert ExtendsAt(lay, m, m', f, bn) && ExtendsAt(lay, m', m'', f, bn);
    }
  }

  lemma GainsExtends(lay: Layout, m: Image, owner: map<nat, Slot>, m': Image, slot: Slot, b: nat)
    requires Owned(lay, m, owner) && Gains(lay, m, m', slot, b) && !m.bitmap[b] && Held(lay, m, slot) == 0
    requires m'.disk[b] == ZeroBlock()
    requires forall c :: 0 <= c < lay.size && c != b && m'.disk[c] != m.disk[c] ==>
               c in owner && owner[c].Direct? && owner[c].k == NDIRECT
    requires forall f :: 0 <= f < |m.inodes| ==> m'.inodes[f].size == m.inodes[f].size
    requires forall f :: 0 <= f < |m.inodes| && f != slot.inum ==> m'.inodes[f] == m.inodes[f]
    ensures Extends(lay, m, m', slot.inum)
  {
    forall f: nat, bn: nat | f < |m.inodes| && bn < MAXFILE ensures ExtendsAt(lay, m, m', f, bn) {
      GainsSameData(lay, m, owner, m', slot, b, f, bn);
      assert IsSlot(m, SlotOf(f, bn));
    }
  }

  lemma LinkEntryKeeps(lay: Layout, m: Image, owner: map<nat, Slot>, i: nat, j: nat, b: nat)
    requires Owned(lay, m, owner) && i < |m.inodes| && j < NINDIRECT && b < lay.size && !m.bitmap[b]
    requires m.inodes[i].addrs[NDIRECT] != 0 && Held(lay, m, Entry(i, j)) == 0
    ensures Owned(lay, LinkEntry(lay, m, i, j, b), owner[b := Entry(i, j)])
    ensures Extends(lay, m, LinkEntry(lay, m, i, j, b), i)
    ensures Held(lay, LinkEntry(lay, m, i, j, b), Entry(i, j)) == b && m.inodes[i].addrs[NDIRECT] != b
  {
    var m' := LinkEntry(lay, m, i, j, b);
    assert SlotOk(lay, m, owner, Direct(i, NDIRECT));
    FreeIsNotIndirect(lay, m, owner, i, b);
    LinkEntryGains(lay, m, owner, i, j, b);
    GainsOwned(lay, m, owner, m', Entry(i, j), b);
    GainsExtends(lay, m, owner, m', Entry(i, j), b);
  }

  // m' is m after some blocks of file i were allocated or overwritten: other files are untouched.
  ghost predicate Grown(lay: Layout, m: Image, m': Image, i: nat) {
    && Shape(lay, m) && Shape(lay, m') && i < |m.inodes| == |m'.inodes|
    && m'.inodes[i].size == m.inodes[i].size
    && (forall f: nat :: f < |m.inodes| && f != i ==> m'.inodes[f] == m.inodes[f] && View(lay, m', f) == View(lay, m, f))
    && (forall f: nat, bn: nat {:trigger KeepsBlock(lay, m, m', f, bn)} :: f < |m.inodes| && bn < MAXFILE ==> KeepsBlock(lay, m, m', f, bn))
  }

  predicate KeepsBlock(lay: Layout, m: Image, m': Image, f: nat, bn: nat)
    requires Shape(lay, m) && Shape(lay, m') && f < |m.inodes| == |m'.inodes| && bn < MAXFILE
  {
    Addr(lay, m, f, bn) != 0 ==> Addr(lay, m', f, bn) != 0
  }

  lemma GrownTrans(lay: Layout, m: Image, m': Image, m'': Image, i: nat)
    requires Grown(lay, m, m', i) && Grown(lay, m', m'', i)
    ensures Grown(lay, m, m'', i)
  {
    forall f: nat, bn: nat | f < |m.inodes| && bn < MAXFILE ensures KeepsBlock(lay, m, m'', f, bn) {
      assert KeepsBlock(lay, m, m', f, bn) && KeepsBlock(lay, m', m'', f, bn);
    }
  }

  lemma ExtendsGrown(lay: Layout, m: Image, m': Image, i: nat)
    requires Extends(lay, m, m', i) && i < |m.inodes|
    ensures Grown(lay, m, m', i) && View(lay, m', i) == View(lay, m, i)
  {
    forall f: nat | f < |m.inodes| ensures View(lay, m', f) == View(lay, m, f) {
      forall bn: nat | bn < MAXFILE ensures View(lay, m', f)[bn] == View(lay, m, f)[bn] {
        assert ExtendsAt(lay, m, m', f, bn);
      }
    }
    forall f: nat, bn: nat | f < |m.inodes| && bn < MAXFILE ensures KeepsBlock(lay, m, m', f, bn) {
      assert ExtendsAt(lay, m, m', f, bn);
    }
  }

  lemma WriteDataGrown(lay: Layout, m: Image, owner: map<nat, Slot>, i: nat, bn: nat, data: Block)
    requires Owned(lay, m, owner) && i < |m.inodes| && bn < MAXFILE && |data| == BSIZE
    requires 0 < Addr(lay, m, i, bn) < lay.size
    ensures var m' := m.(disk := m.disk[Addr(lay, m, i, bn) := data]);
            && Owned(lay, m', owner) && Grown(lay, m, m', i)
            && View(lay, m', i) == View(lay, m, i)[bn := data]
            && Addr(lay, m', i, bn) == Addr(lay, m, i, bn)
  {
    var m' := m.(disk := m.disk[Addr(lay, m, i, bn) := data]);
    WriteDataOwned(lay, m, owner, i, bn, data);
    forall f: nat, fn: nat | f < |m.inodes| && fn < MAXFILE
      ensures Addr(lay, m', f, fn) == Addr(lay, m, f, fn)
      ensures Data(lay, m', f, fn) == if f == i && fn == bn then data else Data(lay, m, f, fn)
    {
      WriteDataData(lay, m, owner, i, bn, data, f, fn);
    }
    forall f: nat | f < |m.inodes| && f != i ensures View(lay, m', f) == View(lay, m, f) {
      assert forall fn: nat :: fn < MAXFILE ==> Data(lay, m', f, fn) == Data(lay, m, f, fn);
    }
  }

  // Another file's addresses depend on its own inode and its own indirect block only.
  lemma OthersKeepAddrs(lay: Layout, m: Image, owner: map<nat, Slot>, m': Image, i: nat)
    requires Owned(lay, m, owner) && Shape(lay, m') && NoHoles(lay, m) && i < |m.inodes| == |m'.inodes|
    requires m'.disk == m.disk && m'.inodes[i].size == 0
    requires forall f :: 0 <= f < |m.inodes| && f != i ==> m'.inodes[f] == m.inodes[f]
    ensures NoHoles(lay, m')
  {
    forall f: nat, bn: nat | f < |m.inodes| && f != i && bn < MAXFILE
      ensures Addr(lay, m', f, bn) == Addr(lay, m, f, bn)
    {
    }
  }

  // The number of blocks that bytes [off, off + n) lie in.
  function Touched(off: nat, n: nat): nat {
    if n == 0 then 0 else (off + n - 1) / BSIZE - off / BSIZE + 1
  }

  // A write that does not start on a block boundary starts in a block that exists already.
  function FirstExists(off: nat, rounds: nat): nat {
    if off % BSIZE != 0 && rounds > 0 then 1 else 0
  }

  function NonZero(x: nat): set<nat> {
    if x == 0 then {} else {x}
  }

  // The indirect block of a file, and whether a byte offset lies in a block that is not there yet.
  function Indirect(m: Image, i: nat): nat {
    if i < |m.inodes| && NDIRECT < |m.inodes[i].addrs| then m.inodes[i].addrs[NDIRECT] else 0
  }

  ghost predicate IsMissing(lay: Layout, m: Image, i: nat, off: nat) {
    Shape(lay, m) && i < |m.inodes| && off / BSIZE < MAXFILE && Addr(lay, m, i, off / BSIZE) == 0
  }

  // What one round logs: the bitmap blocks bms, the indirect block and the block itself.
  ghost predicate LogsRound(lay: Layout, m: Image, m': Image, i: nat, off: nat, logged: set<nat>, logged': set<nat>,
                            bms: set<nat>, addr: nat)
  {
    && logged' <= logged + bms + NonZero(Indirect(m', i)) + NonZero(addr)
    && |bms| <= (if IsMissing(lay, m, i, off) then 1 else 0) + (if Indirect(m', i) != Indirect(m, i) then 1 else 0)
    && (Indirect(m, i) != 0 ==> Indirect(m', i) == Indirect(m, i))
  }

  // What all rounds so far have logged: the indirect block and the blocks in extra.
  ghost predicate Account(start: set<nat>, logged: set<nat>, extra: set<nat>, ind0: nat, ind: nat, off: nat, n: nat,
                          rounds: nat, needed: nat)
  {
    && logged <= start + extra + NonZero(ind)
    && |extra| <= rounds + needed + (if ind != ind0 then 1 else 0)
    && (ind0 != 0 ==> ind == ind0)
    && rounds <= Touched(off, n) && needed + FirstExists(off, rounds) <= rounds
  }

  predicate IsAt(off: nat, n: nat, tot: nat, rounds: nat) {
    tot < n ==> (off + tot) / BSIZE == off / BSIZE + rounds
  }

  // Adding one round's blocks; the indirect block, once there, is the same in every round.
  lemma AccountRound(lay: Layout, m0: Image, m: Image, m': Image, i: nat, start: set<nat>, logged: set<nat>, logged': set<nat>, extra: set<nat>,
                     bms: set<nat>, addr: nat, off: nat, n: nat, tot: nat, rounds: nat, needed: nat)
    returns (extra': set<nat>, needed': nat)
    requires Account(start, logged, extra, Indirect(m0, i), Indirect(m, i), off, n, rounds, needed) && tot < n && IsAt(off, n, tot, rounds)
    requires LogsRound(lay, m, m', i, off + tot, logged, logged', bms, addr)
    requires rounds == 0 ==> tot == 0 && m == m0
    requires off % BSIZE != 0 ==> !IsMissing(lay, m0, i, off)
    ensures Account(start, logged', extra', Indirect(m0, i), Indirect(m', i), off, n, rounds + 1, needed')
  {
    hide IsMissing, Indirect, Touched;
    RoundsFit(off, n, tot, rounds);
    LogMore(start, logged, logged', extra, bms, addr, Indirect(m, i), Indirect(m', i));
    hide NonZero;
    extra' := extra + bms + NonZero(addr);
    needed' := needed + if IsMissing(lay, m, i, off + tot) then 1 else 0;
  }

  lemma LogMore(start: set<nat>, logged: set<nat>, logged': set<nat>, extra: set<nat>, bms: set<nat>, addr: nat, ind: nat, ind': nat)
    requires logged <= start + extra + NonZero(ind) && (ind != 0 ==> ind' == ind)
    requires logged' <= logged + bms + NonZero(ind') + NonZero(addr)
    ensures logged' <= start + (extra + bms + NonZero(addr)) + NonZero(ind')
    ensures |extra + bms + NonZero(addr)| <= |extra| + |bms| + 1
  {
    UnionSize(extra, bms);
    UnionSize(extra + bms, NonZero(addr));
  }

  lemma RoundsFit(off: nat, n: nat, tot: nat, rounds: nat)
    requires tot < n && IsAt(off, n, tot, rounds)
    ensures rounds + 1 <= Touched(off, n)
  {
  }

  lemma UnionSize(a: set<nat>, b: set<nat>)
    ensures |a + b| <= |a| + |b|
  {
    assert a + b == a + (b - a);
    SubsetSize(b - a, b);
  }

  ghost predicate AllAllocated(lay: Layout, m: Image, i: nat, from: nat, to: nat)
    requires Shape(lay, m) && i < |m.inodes|
  {
    forall bn: nat :: bn < MAXFILE && from / BSIZE <= bn && bn * BSIZE < to ==> Addr(lay, m, i, bn) != 0
  }

  lemma FirstBlockExists(lay: Layout, m: Image, i: nat, off: nat)
    requires Shape(lay, m) && NoHoles(lay, m) && i < |m.inodes| && off <= m.inodes[i].size && off % BSIZE != 0
    ensures off / BSIZE < MAXFILE && Addr(lay, m, i, off / BSIZE) != 0
  {
    assert off / BSIZE * BSIZE < off;
  }

  // What one more round adds to the part already written.
  lemma MoreAllocated(lay: Layout, m: Image, m': Image, i: nat, off: nat, tot: nat, k: nat)
    requires Grown(lay, m, m', i) && AllAllocated(lay, m, i, off, off + tot)
    requires 0 < k && (off + tot) % BSIZE + k <= BSIZE && (off + tot) / BSIZE < MAXFILE
    requires Addr(lay, m', i, (off + tot) / BSIZE) != 0
    ensures AllAllocated(lay, m', i, off, off + tot + k)
  {
    forall bn: nat | bn < MAXFILE && off / BSIZE <= bn && bn * BSIZE < off + tot + k
      ensures Addr(lay, m', i, bn) != 0
    {
      if bn != (off + tot) / BSIZE {
        assert bn * BSIZE < off + tot;
        assert KeepsBlock(lay, m, m', i, bn);
      }
    }
  }

  // n bytes at an offset lie in one block, or are the rest of it.
  predicate Fits(off: nat, n: nat) { off % BSIZE + n <= BSIZE }

  predicate EndsBlock(off: nat, n: nat) { (off + n) / BSIZE == off / BSIZE + 1 }

  // How many bytes one round copies: up to the end of the block.
  function RoundLen(off: nat, left: nat): (m: nat)
    requires left > 0
    ensures 0 < m <= left && m <= BSIZE && Fits(off, m)
    ensures m == left || EndsBlock(off, m)
  {
    if left <= BSIZE - off % BSIZE then left else BSIZE - off % BSIZE
  }

  lemma RoundDone(lay: Layout, m0: Image, m: Image, m': Image, i: nat, off: nat, src: seq<byte>, tot: nat, k: nat)
    requires Grown(lay, m0, m, i) && Grown(lay, m, m', i) && 0 < k && tot + k <= |src| && off + |src| <= MAXFILE * BSIZE
    requires Written(View(lay, m0, i), View(lay, m, i), off, src, tot) && AllAllocated(lay, m, i, off, off + tot)
    requires (off + tot) % BSIZE + k <= BSIZE
    requires var bn := (off + tot) / BSIZE;
             && bn < MAXFILE && Addr(lay, m', i, bn) != 0
             && View(lay, m', i) == View(lay, m, i)[bn := Splice(View(lay, m, i)[bn], (off + tot) % BSIZE, src[tot..tot + k])]
    ensures Grown(lay, m0, m', i) && AllAllocated(lay, m', i, off, off + tot + k)
    ensures Written(View(lay, m0, i), View(lay, m', i), off, src, tot + k)
  {
    GrownTrans(lay, m0, m, m', i);
    WrittenMore(View(lay, m0, i), View(lay, m, i), off, src, tot, k);
    MoreAllocated(lay, m, m', i, off, tot, k);
  }

  lemma RoundFailed(lay: Layout, m0: Image, m: Image, m': Image, i: nat, off: nat, tot: nat)
    requires Grown(lay, m0, m, i) && Grown(lay, m, m', i) && AllAllocated(lay, m, i, off, off + tot)
    ensures Grown(lay, m0, m', i) && AllAllocated(lay, m', i, off, off + tot)
  {
    GrownTrans(lay, m0, m, m', i);
    forall bn: nat | bn < MAXFILE && off / BSIZE <= bn && bn * BSIZE < off + tot ensures Addr(lay, m', i, bn) != 0 {
      assert KeepsBlock(lay, m, m', i, bn);
    }
  }

  // v' is v with the first put of some bytes copied into the block at byte offset off.
  predicate IsPut(v: seq<Block>, v': seq<Block>, off: nat, bytes: seq<byte>, put: nat)
    requires IsView(v) && IsView(v') && off < MAXFILE * BSIZE && Fits(off, |bytes|) && put <= |bytes|
  {
    v' == if put > 0 then v[off / BSIZE := Splice(v[off / BSIZE], off % BSIZE, bytes[..put])] else v
  }

  // What writei's loop has achieved with m0, after tot bytes.
  ghost predicate Progress(lay: Layout, m0: Image, m: Image, owner: map<nat, Slot>, i: nat, src: seq<byte>, off: nat, tot: nat) {
    && Owned(lay, m, owner) && Grown(lay, m0, m, i) && tot <= |src|
    && Written(View(lay, m0, i), View(lay, m, i), off, src, tot)
    && AllAllocated(lay, m, i, off, off + tot)
  }

  lemma ProgressStart(lay: Layout, m: Image, owner: map<nat, Slot>, i: nat, src: seq<byte>, off: nat)
    requires Owned(lay, m, owner) && NoHoles(lay, m) && i < |m.inodes| && off <= m.inodes[i].size
    ensures Progress(lay, m, m, owner, i, src, off, 0)
  {
    assert forall f: nat, bn: nat :: f < |m.inodes| && bn < MAXFILE ==> KeepsBlock(lay, m, m, f, bn);
  }

  lemma ProgressOwned(lay: Layout, m0: Image, m: Image, owner: map<nat, Slot>, i: nat, src: seq<byte>, off: nat, tot: nat)
    requires Progress(lay, m0, m, owner, i, src, off, tot)
    ensures Owned(lay, m, owner) && Shape(lay, m) && i < |m.inodes|
  {
  }

  lemma GrownShape(lay: Layout, m: Image, m': Image, i: nat)
    requires Grown(lay, m, m', i)
    ensures Shape(lay, m') && i < |m'.inodes| == |m.inodes|
  {
  }

  // However many bytes of a round have been copied.
  lemma RoundEnds(lay: Layout, m0: Image, m: Image, owner: map<nat, Slot>, m': Image, owner': map<nat, Slot>, i: nat, off: nat,
                  src: seq<byte>, tot: nat, k: nat, put: nat)
    requires Progress(lay, m0, m, owner, i, src, off, tot) && Owned(lay, m', owner') && Grown(lay, m, m', i)
    requires 0 < k && tot + k <= |src| && off + |src| <= MAXFILE * BSIZE && Fits(off + tot, k) && put <= k
    requires put > 0 ==> Addr(lay, m', i, (off + tot) / BSIZE) != 0
    requires IsPut(View(lay, m, i), View(lay, m', i), off + tot, src[tot..tot + k], put)
    ensures Progress(lay, m0, m', owner', i, src, off, tot + put)
  {
    if put > 0 {
      assert src[tot..tot + k][..put] == src[tot..tot + put];
      RoundDone(lay, m0, m, m', i, off, src, tot, put);
    } else {
      RoundFailed(lay, m0, m, m', i, off, tot);
    }
  }

  // The largest chunk filewrite puts into one transaction.
  const MAXOPBLOCKS := RedoLog.MAXOPBLOCKS
  const MAXCHUNK := (MAXOPBLOCKS - 1 - 1 - 2) / 2 * BSIZE

  // One chunk logs its extra blocks, the indirect block and the inode block: at most MAXOPBLOCKS.
  lemma ChunkFits(logged: set<nat>, extra: set<nat>, ind0: nat, ind: nat, iblock: nat, off: nat, n: nat, rounds: nat, needed: nat)
    requires Account({}, logged, extra, ind0, ind, off, n, rounds, needed) && n <= MAXCHUNK
    ensures |logged + {iblock}| <= MAXOPBLOCKS
  {
    SubsetSize(logged, extra + NonZero(ind));
    UnionSize(extra, NonZero(ind));
    UnionSize(logged, {iblock});
  }

  function Max(a: nat, b: nat): nat {
    if a > b then a else b
  }

  // How many of the put bytes are in the file, if tot of them count towards its size.
  function Seen(size: nat, off: nat, tot: nat, put: nat): (n: nat)
    requires tot <= put
    ensures tot <= n <= put && (n == tot || off + n <= size)
  {
    if off + put <= Max(off + tot, size) then put else if off + tot <= size then size - off else tot
  }

  // The end of writei: with the size raised to the end of the bytes that count, there are no holes and the
  // file's bytes are the old ones overwritten.
  lemma WriteDone(lay: Layout, m: Image, m': Image, owner': map<nat, Slot>, i: nat, off: nat, src: seq<byte>, tot: nat, put: nat)
    requires Grown(lay, m, m', i) && Owned(lay, m', owner') && NoHoles(lay, m)
    requires off <= m.inodes[i].size && tot <= put <= |src| && off + put <= MAXFILE * BSIZE
    requires AllAllocated(lay, m', i, off, off + put) && Written(View(lay, m, i), View(lay, m', i), off, src, put)
    ensures var m'' := Resize(m', i, Max(off + tot, m.inodes[i].size));
            && Owned(lay, m'', owner') && NoHoles(lay, m'')
            && FileBytes(lay, m'', i) == Overwrite(FileBytes(lay, m, i), off, src[..Seen(m.inodes[i].size, off, tot, put)])
            && forall f: nat :: f < |m.inodes| && f != i ==> FileBytes(lay, m'', f) == FileBytes(lay, m, f)
  {
    var m'' := Resize(m', i, Max(off + tot, m.inodes[i].size));
    ResizeOwned(lay, m', owner', i, Max(off + tot, m.inodes[i].size));
    forall f: nat | f < |m.inodes| ensures View(lay, m'', f) == View(lay, m', f) {
      assert forall bn: nat :: bn < MAXFILE ==> Data(lay, m'', f, bn) == Data(lay, m', f, bn);
    }
    WriteNoHoles(lay, m, m', m'', i, off, tot);
    WrittenBytes(lay, m, m'', i, off, src, put, Seen(m.inodes[i].size, off, tot, put));
  }

  lemma WriteNoHoles(lay: Layout, m: Image, m': Image, m'': Image, i: nat, off: nat, tot: nat)
    requires Grown(lay, m, m', i) && NoHoles(lay, m) && off <= m.inodes[i].size && off + tot <= MAXFILE * BSIZE
    requires AllAllocated(lay, m', i, off, off + tot) && Shape(lay, m'')
    requires m'' == Resize(m', i, Max(off + tot, m.inodes[i].size))
    requires forall f: nat, bn: nat :: f < |m.inodes| && bn < MAXFILE ==> Addr(lay, m'', f, bn) == Addr(lay, m', f, bn)
    ensures NoHoles(lay, m'')
  {
    forall f: nat, bn: nat | f < |m''.inodes| && bn < MAXFILE && bn * BSIZE < m''.inodes[f].size
      ensures Addr(lay, m'', f, bn) != 0
    {
      assert KeepsBlock(lay, m, m', f, bn);
      if f == i && bn * BSIZE >= m.inodes[i].size {
        assert off / BSIZE <= bn;
      }
    }
  }

  lemma SameBlock(off: nat, k: nat)
    requires off % BSIZE + k < BSIZE
    ensures (off + k) / BSIZE == off / BSIZE && (off + k) % BSIZE == off % BSIZE + k
  {
  }

  // Part of a block is a slice of the file.
  lemma BlockBytes(lay: Layout, m: Image, owner: map<nat, Slot>, i: nat, off: nat, n: nat)
    requires Owned(lay, m, owner) && i < |m.inodes| && off % BSIZE + n <= BSIZE && 0 < n
    requires off + n <= m.inodes[i].size <= MAXFILE * BSIZE && Addr(lay, m, i, off / BSIZE) != 0
    ensures var a := Addr(lay, m, i, off / BSIZE);
            a < lay.size && m.disk[a][off % BSIZE..off % BSIZE + n] == FileBytes(lay, m, i)[off..off + n]
  {
    var bn, o := off / BSIZE, off % BSIZE;
    AddrOwned(lay, m, owner, i, bn);
    var a, v := Addr(lay, m, i, bn), View(lay, m, i);
    assert v[bn] == m.disk[a];
    var left, right := m.disk[a][o..o + n], FileBytes(lay, m, i)[off..off + n];
    forall k | 0 <= k < n ensures left[k] == right[k] {
      SameBlock(off, k);
    }
  }

  lemma OverwriteTwice(s: seq<byte>, off: nat, a: seq<byte>, b: seq<byte>)
    requires off <= |s|
    ensures off + |a| <= |Overwrite(s, off, a)|
    ensures Overwrite(Overwrite(s, off, a), off + |a|, b) == Overwrite(s, off, a + b)
  {
    assert Overwrite(s, off, a)[..off + |a|] == s[..off] + a;
  }

  lemma ChunkBytes(s: seq<byte>, off: nat, src: seq<byte>, k: nat, n1: nat, n: nat)
    requires off <= |s| && k + n1 <= |src| && n <= n1
    ensures off + k <= |Overwrite(s, off, src[..k])|
    ensures Overwrite(Overwrite(s, off, src[..k]), off + k, src[k..k + n1][..n]) == Overwrite(s, off, src[..k + n])
  {
    OverwriteTwice(s, off, src[..k], src[k..k + n1][..n]);
    assert src[..k] + src[k..k + n1][..n] == src[..k + n];
  }

  predicate IsSlice(s: seq<byte>, off: nat, n: nat, t: seq<byte>) { off + n <= |s| && t == s[off..off + n] }

  lemma NoSlice(s: seq<byte>, off: nat)
    requires off <= |s|
    ensures IsSlice(s, off, 0, [])
  {
  }

  lemma SliceMore(s: seq<byte>, off: nat, n: nat, k: nat, t: seq<byte>, u: seq<byte>)
    requires IsSlice(s, off, n, t) && IsSlice(s, off + n, k, u)
    ensures IsSlice(s, off, n + k, t + u)
  {
  }
  lemma RoundPartial(lay: Layout, m0: Image, m: Image, owner: map<nat, Slot>, i: nat, off: nat, src: seq<byte>, tot: nat, k: nat, put: nat,
                     readable: nat)
    requires Progress(lay, m0, m, owner, i, src, off, tot) && Shape(lay, m0) && NoHoles(lay, m0)
    requires k <= BSIZE && tot + k <= |src| && put <= k && off + |src| <= MAXFILE * BSIZE
    requires put < k ==> put == 0 || (tot < readable && put == readable - tot)
    requires put < k && !IsMissing(lay, m, i, off + tot) ==> put == if readable > tot then readable - tot else 0
    ensures put < k ==> Partial(m0, i, off, tot, tot + put, readable, |src|)
  {
    if put < k && off + tot < m0.inodes[i].size {
      var bn := (off + tot) / BSIZE;
      assert bn * BSIZE <= off + tot;
      assert KeepsBlock(lay, m0, m, i, bn);
    }
  }

  lemma RoundAt(m0: Image, i: nat, off: nat, n: nat, tot: nat, tot': nat, rounds: nat, readable: nat)
    requires tot < n && IsAt(off, n, tot, rounds) && i < |m0.inodes|
    ensures tot < tot' <= n && (tot' == n || EndsBlock(off + tot, tot' - tot))
            ==> IsAt(off, n, tot', rounds + 1) && (tot' == n ==> Partial(m0, i, off, tot', tot', readable, n))
  {
  }

  // tot of n bytes count as written, and put bytes are in blocks: more only after a copy that failed in the middle
  // of a block.  That is certain if the file had the block already.
  predicate Partial(m0: Image, i: nat, off: nat, tot: nat, put: nat, readable: nat, n: nat) {
    && tot <= put <= n && (put == tot || (put == readable < n && put - tot < BSIZE))
    && (i < |m0.inodes| && tot < n && off + tot < m0.inodes[i].size ==> put == Max(tot, readable))
  }

  // How much of the file has changed, if tot of n bytes count as written: more than that exactly if the next
  // byte can be read and replaces one of the file.
  function Changed(size: nat, off: nat, tot: nat, readable: nat, n: nat): nat {
    if tot < n && tot < readable && off + tot < size then (if off + readable <= size then readable else size - off) else tot
  }

  // It is then the readable rest of a block.
  predicate Excess(size: nat, off: nat, tot: nat, seen: nat, readable: nat, n: nat) {
    && tot <= seen <= n && tot <= readable && seen == Changed(size, off, tot, readable, n)
    && (seen != tot ==> readable < n && seen - tot < BSIZE)
  }

  // Every change on disk is in a block that has been logged: bits of the bitmap, and blocks other than the
  // stray ones.
  ghost predicate Covers(lay: Layout, m: Image, logged: set<nat>, m': Image, logged': set<nat>, stray: set<nat>) {
    && logged <= logged' && |m'.bitmap| == |m.bitmap| && |m'.disk| == |m.disk|
    && (forall b {:trigger BitCovered(lay, m, m', logged', b)} :: 0 <= b < |m.bitmap| ==> BitCovered(lay, m, m', logged', b))
    && (forall b {:trigger BlockCovered(m, m', logged' + stray, b)} :: 0 <= b < |m.disk| ==> BlockCovered(m, m', logged' + stray, b))
  }

  predicate BitCovered(lay: Layout, m: Image, m': Image, logged: set<nat>, b: nat)
    requires b < |m.bitmap| == |m'.bitmap|
  {
    m'.bitmap[b] != m.bitmap[b] ==> BBlock(lay, b) in logged
  }

  predicate BlockCovered(m: Image, m': Image, logged: set<nat>, b: nat)
    requires b < |m.disk| == |m'.disk|
  {
    m'.disk[b] != m.disk[b] ==> b in logged
  }

  lemma CoversNone(lay: Layout, m: Image, logged: set<nat>, m': Image, logged': set<nat>)
    requires m'.bitmap == m.bitmap && m'.disk == m.disk && logged <= logged'
    ensures Covers(lay, m, logged, m', logged', {})
  {
  }

  lemma CoversBits(lay: Layout, m: Image, logged: set<nat>, m': Image, logged': set<nat>)
    requires |m'.bitmap| == |m.bitmap| && m'.disk == m.disk && logged <= logged'
    requires forall b :: 0 <= b < |m.bitmap| && m'.bitmap[b] != m.bitmap[b] ==> BBlock(lay, b) in logged'
    ensures Covers(lay, m, logged, m', logged', {})
  {
  }

  lemma CoversTrans(lay: Layout, m: Image, l: set<nat>, m': Image, l': set<nat>, m'': Image, l'': set<nat>, stray: set<nat>)
    requires Covers(lay, m, l, m', l', {}) && Covers(lay, m', l', m'', l'', stray)
    ensures Covers(lay, m, l, m'', l'', stray)
  {
    forall b | 0 <= b < |m.bitmap| ensures BitCovered(lay, m, m'', l'', b) {
      assert BitCovered(lay, m, m', l', b) && BitCovered(lay, m', m'', l'', b);
    }
    forall b | 0 <= b < |m.disk| ensures BlockCovered(m, m'', l'' + stray, b) {
      assert BlockCovered(m, m', l' + {}, b) && BlockCovered(m', m'', l'' + stray, b);
    }
  }

  // What writei logs: every change, and the inode, which is the only one to change.  A block in which a copy has
  // failed may be stray.
  ghost predicate LogsWrite(lay: Layout, m: Image, logged: set<nat>, m': Image, logged': set<nat>, i: nat, stray: set<nat>) {
    && Covers(lay, m, logged, m', logged', stray) && IBlock(lay, i) in logged' && |stray| <= 1
    && |m'.inodes| == |m.inodes| && forall f :: 0 <= f < |m.inodes| && f != i ==> m'.inodes[f] == m.inodes[f]
  }

  lemma CoversMore(lay: Layout, m: Image, l: set<nat>, m': Image, l': set<nat>, m'': Image, l'': set<nat>, stray: set<nat>)
    requires Covers(lay, m, l, m', l', stray) && m''.bitmap == m'.bitmap && m''.disk == m'.disk && l' <= l''
    ensures Covers(lay, m, l, m'', l'', stray)
  {
    forall b | 0 <= b < |m.bitmap| ensures BitCovered(lay, m, m'', l'', b) {
      assert BitCovered(lay, m, m', l', b);
    }
    forall b | 0 <= b < |m.disk| ensures BlockCovered(m, m'', l'' + stray, b) {
      assert BlockCovered(m, m', l' + stray, b);
    }
  }

  // Why a write of n bytes stops after tot of them: the next block's share cannot be read in full, or the file
  // has no such block and none is free.
  ghost predicate Halts(lay: Layout, m: Image, i: nat, off: nat, tot: nat, n: nat, readable: nat) {
    tot < n && (readable < tot + RoundLen(off + tot, n - tot) || (DiskFull(m.bitmap) && IsMissing(lay, m, i, off + tot)))
  }

  lemma ResizeHalts(lay: Layout, m: Image, owner: map<nat, Slot>, i: nat, size: nat, off: nat, tot: nat, n: nat, readable: nat)
    requires Owned(lay, m, owner) && i < |m.inodes|
    ensures Halts(lay, m, i, off, tot, n, readable) ==> Halts(lay, Resize(m, i, size), i, off, tot, n, readable)
  {
    ResizeOwned(lay, m, owner, i, size);
  }

  // filewrite writes the chunk at k.
  function ChunkLen(n: nat, k: nat): (n1: nat)
    requires k < n
    ensures 0 < n1 <= MAXCHUNK && k + n1 <= n && (n1 == MAXCHUNK || k + n1 == n)
  {
    if n - k > MAXCHUNK then MAXCHUNK else n - k
  }

  function Left(readable: nat, k: nat): nat { if readable > k then readable - k else 0 }

  // writei has returned r for the chunk at k, which is not its length: the chunk is out of range, or it was
  // halted.  size is the file's size before the write of n bytes.
  ghost predicate ChunkStops(lay: Layout, m: Image, i: nat, size: nat, off: nat, n: nat, k: nat, r: int, readable: nat) {
    && k < n
    && if r == -1 then off > size || off + k + ChunkLen(n, k) > MAXFILE * BSIZE
       else 0 <= r < ChunkLen(n, k) && Halts(lay, m, i, off + k, r, ChunkLen(n, k), Left(readable, k))
  }

  // The end of writei, after the loop: the new size, and what has been written.
  lemma RangeDone(lay: Layout, m: Image, owner0: map<nat, Slot>, m': Image, owner: map<nat, Slot>, i: nat, off: nat, src: seq<byte>,
                  tot: nat, put: nat, readable: nat)
    requires Progress(lay, m, m', owner, i, src, off, put) && Partial(m, i, off, tot, put, readable, |src|) && tot <= readable
    requires Owned(lay, m, owner0) && NoHoles(lay, m) && i < |m.inodes| && off <= m.inodes[i].size && off + |src| <= MAXFILE * BSIZE
    ensures i < |m'.inodes| == |m.inodes| && m'.inodes[i].size == m.inodes[i].size
    ensures Owned(lay, m', owner) && (|src| <= readable ==> put == tot)
    ensures forall f :: 0 <= f < |m.inodes| && f != i ==> m'.inodes[f] == m.inodes[f]
    ensures var m'', seen := Resize(m', i, Max(off + tot, m.inodes[i].size)), Seen(m.inodes[i].size, off, tot, put);
            && Owned(lay, m'', owner) && NoHoles(lay, m'') && Wrote(lay, m, m'', i, off, src, seen)
            && Excess(m.inodes[i].size, off, tot, seen, readable, |src|)
  {
    WriteDone(lay, m, m', owner, i, off, src, tot, put);
  }

  // How many bytes of the file the chunk has changed.
  function ChunkChanged(size: nat, off: nat, n: nat, k: nat, r: int, readable: nat): nat
    requires k < n
  {
    if r < 0 then 0 else Changed(Max(size, off + k), off + k, r, Left(readable, k), ChunkLen(n, k))
  }

  // Why a write of n bytes stops early, in short.
  ghost predicate Stopped(size: nat, off: nat, n: nat, readable: nat, bitmap: seq<bool>) {
    readable < n || DiskFull(bitmap) || off > size || off + n > MAXFILE * BSIZE
  }

  lemma ChunkStopped(lay: Layout, m: Image, i: nat, size: nat, off: nat, n: nat, k: nat, r: int, readable: nat)
    requires ChunkStops(lay, m, i, size, off, n, k, r, readable)
    ensures Stopped(size, off, n, readable, m.bitmap)
  {
  }

  // The file has the first done bytes of src at offset off, and the others are as they were; a write that starts
  // past the end changes nothing.
  ghost predicate Wrote(lay: Layout, m0: Image, m: Image, i: nat, off: nat, src: seq<byte>, done: nat) {
    && Shape(lay, m0) && Shape(lay, m) && NoHoles(lay, m0) && NoHoles(lay, m)
    && i < |m0.inodes| == |m.inodes| && done <= |src|
    && (if off <= m0.inodes[i].size then FileBytes(lay, m, i) == Overwrite(FileBytes(lay, m0, i), off, src[..done])
        else done == 0 && m == m0)
    && (forall f: nat :: f < |m.inodes| && f != i ==> FileBytes(lay, m, f) == FileBytes(lay, m0, f))
  }

  lemma WroteMore(lay: Layout, m0: Image, m: Image, m': Image, i: nat, off: nat, src: seq<byte>, k: nat, n1: nat, r: nat, n: nat,
                  readable: nat)
    requires Wrote(lay, m0, m, i, off, src, k) && 0 < n1 && k + n1 <= |src| && i < |m.inodes|
    requires off + k <= m.inodes[i].size && Wrote(lay, m, m', i, off + k, src[k..k + n1], n)
    requires Excess(m.inodes[i].size, off + k, r, n, readable, n1)
    ensures Wrote(lay, m0, m', i, off, src, k + n) && n <= n1 && (r == n1 <==> n == n1) && r <= n1 && r <= readable
    ensures n == Changed(m.inodes[i].size, off + k, r, readable, n1)
  {
    ChunkBytes(FileBytes(lay, m0, i), off, src, k, n1, n);
  }

  lemma ChunkOffset(lay: Layout, m0: Image, m: Image, i: nat, off: nat, src: seq<byte>, k: nat)
    requires Wrote(lay, m0, m, i, off, src, k) && off < 0x1_0000_0000
    ensures i < |m.inodes| && off + k < 0x1_0000_0000
    ensures i < |m0.inodes|
    ensures if off <= m0.inodes[i].size then m.inodes[i].size == Max(m0.inodes[i].size, off + k) else k == 0 && m == m0
  {
    if off <= m0.inodes[i].size {
      assert |Overwrite(FileBytes(lay, m0, i), off, src[..k])| == m.inodes[i].size;
    }
  }

  ghost predicate DiskFull(bitmap: seq<bool>) { forall c :: 0 <= c < |bitmap| ==> bitmap[c] }

  class Fs {
    const lay: Layout
    var bitmap: seq<bool>
    var disk: seq<Block>
    var inodes: seq<Inode>
    ghost var owner: map<nat, Slot>
    ghost var logged: set<nat>

    ghost function Img(): Image
      reads this
    {
      Image(bitmap, disk, inodes)
    }

    ghost predicate Valid()
      reads this
    {
      Owned(lay, Img(), owner) && NoHoles(lay, Img())
    }

    // What mkfs makes, without its files: empty inodes, and only the metadata in use.
    constructor (lay: Layout, ninodes: nat)
      requires lay.Valid()
      ensures Valid() && this.lay == lay && |inodes| == ninodes && logged == {}
      ensures forall f: nat :: f < ninodes ==> FileBytes(lay, Img(), f) == []
      ensures forall b :: 0 <= b < lay.size ==> (bitmap[b] <==> b < lay.dataStart)
    {
      this.lay := lay;
      bitmap, disk := seq(lay.size, b => b < lay.dataStart), seq(lay.size, _ => ZeroBlock());
      inodes := seq(ninodes, _ => Inode(seq(NDIRECT + 1, _ => 0), 0));
      owner, logged := map[], {};
    }

    // The first free block, marked and zeroed; 0 if there is none.
    method Balloc() returns (b: nat)
      requires Owned(lay, Img(), owner)
      modifies this`bitmap, this`disk, this`logged
      ensures b == 0 ==> bitmap == old(bitmap) && disk == old(disk) && logged == old(logged)
                         && forall c :: 0 <= c < lay.size ==> bitmap[c]
      ensures b != 0 ==> b < lay.size && !old(bitmap[b]) && (forall c :: 0 <= c < b ==> old(bitmap[c]))
                         && bitmap == old(bitmap)[b := true] && disk == old(disk)[b := ZeroBlock()]
                         && logged == old(logged) + {BBlock(lay, b), b}
    {
      var base := 0;
      while base < lay.size
        invariant base % BPB == 0
        invariant bitmap == old(bitmap) && disk == old(disk) && logged == old(logged)
        invariant forall c :: 0 <= c < base && c < lay.size ==> bitmap[c]
        decreases lay.size - base
      {
        var bi := 0;
        while bi < BPB && base + bi < lay.size
          invariant 0 <= bi <= BPB
          invariant bitmap == old(bitmap) && disk == old(disk) && logged == old(logged)
          invariant forall c :: 0 <= c < base + bi && c < lay.size ==> bitmap[c]
        {
          if !bitmap[base + bi] {
            b := base + bi;
            bitmap := bitmap[b := true];
            disk := disk[b := ZeroBlock()];
            logged := logged + {BBlock(lay, b), b};
            return;
          }
          bi := bi + 1;
        }
        base := base + BPB;
      }
      b := 0;
    }

    // Clears a bit; the source panics on a block that is free already.
    method Bfree(b: nat)
      requires b < |bitmap| && bitmap[b]
      modifies this`bitmap, this`logged
      ensures bitmap == old(bitmap)[b := false] && logged == old(logged) + {BBlock(lay, b)}
    {
      bitmap := bitmap[b := false];
      logged := logged + {BBlock(lay, b)};
    }

    // balloc into addrs[k].
    method AllocDirect(i: nat, k: nat) returns (b: nat)
      requires Owned(lay, Img(), owner) && i < |inodes| && k <= NDIRECT && inodes[i].addrs[k] == 0
      modifies this`bitmap, this`disk, this`inodes, this`owner, this`logged
      ensures Owned(lay, Img(), owner) && Extends(lay, old(Img()), Img(), i)
      ensures b == 0 ==> Img() == old(Img()) && owner == old(owner) && logged == old(logged)
                         && forall c :: 0 <= c < lay.size ==> bitmap[c]
      ensures b != 0 ==> b < lay.size && Img() == LinkDirect(old(Img()), i, k, b)
                         && logged == old(logged) + {BBlock(lay, b), b}
      ensures Covers(lay, old(Img()), old(logged), Img(), logged, {})
    {
      ghost var m := Img();
      b := Balloc();
      CoversNone(lay, m, old(logged), m, logged);
      if b != 0 {
        inodes := inodes[i := inodes[i].(addrs := inodes[i].addrs[k := b])];
        LinkDirectGains(lay, m, owner, i, k, b);
        GainsOwned(lay, m, owner, Img(), Direct(i, k), b);
        GainsExtends(lay, m, owner, Img(), Direct(i, k), b);
        owner := owner[b := Direct(i, k)];
      }
    }

    // balloc into entry j of the indirect block.
    method AllocEntry(i: nat, j: nat) returns (b: nat)
      requires Owned(lay, Img(), owner) && i < |inodes| && j < NINDIRECT
      requires inodes[i].addrs[NDIRECT] != 0 && Held(lay, Img(), Entry(i, j)) == 0
      modifies this`bitmap, this`disk, this`owner, this`logged
      ensures Owned(lay, Img(), owner) && Extends(lay, old(Img()), Img(), i)
      ensures b == 0 ==> Img() == old(Img()) && owner == old(owner) && logged == old(logged)
                         && forall c :: 0 <= c < lay.size ==> bitmap[c]
      ensures b != 0 ==> b < lay.size && Held(lay, Img(), Entry(i, j)) == b
                         && logged == old(logged) + {BBlock(lay, b), b, inodes[i].addrs[NDIRECT]}
      ensures Covers(lay, old(Img()), old(logged), Img(), logged, {})
    {
      ghost var m := Img();
      b := Balloc();
      CoversNone(lay, m, old(logged), m, logged);
      if b != 0 {
        var ind := inodes[i].addrs[NDIRECT];
        LinkEntryKeeps(lay, m, owner, i, j, b);
        disk := disk[ind := PutWord(disk[ind], j, b)];
        logged := logged + {ind};
        owner := owner[b := Entry(i, j)];
        assert Img() == LinkEntry(lay, m, i, j, b);
      }
    }

    // The address in addrs[k], allocated if there is none yet.
    method MapDirect(i: nat, k: nat) returns (addr: nat, ghost bms: set<nat>)
      requires Owned(lay, Img(), owner) && i < |inodes| && k <= NDIRECT
      modifies this`bitmap, this`disk, this`inodes, this`owner, this`logged
      ensures Owned(lay, Img(), owner) && Extends(lay, old(Img()), Img(), i)
      ensures addr == inodes[i].addrs[k]
      ensures addr == 0 ==> forall c :: 0 <= c < lay.size ==> bitmap[c]
      ensures old(inodes[i].addrs[k]) != 0 ==> addr == old(inodes[i].addrs[k])
      ensures addr == old(inodes[i].addrs[k]) ==>
                bms == {} && Img() == old(Img()) && owner == old(owner) && logged == old(logged)
      ensures addr != old(inodes[i].addrs[k]) ==>
                |bms| == 1 && logged == old(logged) + bms + {addr} && Img() == LinkDirect(old(Img()), i, k, addr)
      ensures Covers(lay, old(Img()), old(logged), Img(), logged, {})
    {
      addr, bms := inodes[i].addrs[k], {};
      CoversNone(lay, Img(), logged, Img(), logged);
      if addr == 0 {
        addr := AllocDirect(i, k);
        bms := if addr == 0 then {} else {BBlock(lay, addr)};
      }
    }

    // The address in entry j of an existing indirect block, allocated if there is none yet.
    method MapEntry(i: nat, j: nat) returns (addr: nat, ghost bms: set<nat>)
      requires Owned(lay, Img(), owner) && i < |inodes| && j < NINDIRECT && inodes[i].addrs[NDIRECT] != 0
      modifies this`bitmap, this`disk, this`owner, this`logged
      ensures Owned(lay, Img(), owner) && Extends(lay, old(Img()), Img(), i)
      ensures addr == Held(lay, Img(), Entry(i, j))
      ensures addr == 0 ==> forall c :: 0 <= c < lay.size ==> bitmap[c]
      ensures old(Held(lay, Img(), Entry(i, j))) != 0 ==> addr == old(Held(lay, Img(), Entry(i, j)))
      ensures addr == old(Held(lay, Img(), Entry(i, j))) ==>
                bms == {} && Img() == old(Img()) && owner == old(owner) && logged == old(logged)
      ensures addr != old(Held(lay, Img(), Entry(i, j))) ==>
                |bms| == 1 && logged == old(logged) + bms + {addr, inodes[i].addrs[NDIRECT]}
      ensures Covers(lay, old(Img()), old(logged), Img(), logged, {})
    {
      CoversNone(lay, Img(), logged, Img(), logged);
      addr, bms := Word(disk[inodes[i].addrs[NDIRECT]], j), {};
      if addr == 0 {
        addr := AllocEntry(i, j);
        bms := if addr == 0 then {} else {BBlock(lay, addr)};
      }
    }

    // The address of block bn, allocated if there is none yet; 0 if the disk is full.  `bms` collects
    // the bitmap blocks logged.
    method Bmap(i: nat, bn: nat) returns (addr: nat, ghost bms: set<nat>)
      requires Owned(lay, Img(), owner) && i < |inodes| && bn < MAXFILE
      modifies this`bitmap, this`disk, this`inodes, this`owner, this`logged
      ensures Owned(lay, Img(), owner) && Extends(lay, old(Img()), Img(), i)
      ensures addr == Addr(lay, Img(), i, bn)
      ensures addr == 0 ==> forall c :: 0 <= c < lay.size ==> bitmap[c]
      ensures old(Addr(lay, Img(), i, bn)) != 0 ==> Img() == old(Img()) && owner == old(owner) && logged == old(logged)
      ensures logged <= old(logged) + bms + NonZero(inodes[i].addrs[NDIRECT]) + NonZero(addr)
      ensures |bms| <= (if old(Addr(lay, Img(), i, bn)) == 0 then 1 else 0)
                       + (if inodes[i].addrs[NDIRECT] != old(inodes[i].addrs[NDIRECT]) then 1 else 0)
      ensures old(inodes[i].addrs[NDIRECT]) != 0 ==> inodes[i].addrs[NDIRECT] == old(inodes[i].addrs[NDIRECT])
      ensures Covers(lay, old(Img()), old(logged), Img(), logged, {})
    {
      hide Covers;
      if bn < NDIRECT {
        addr, bms := MapDirect(i, bn);
      } else {
        addr, bms := MapIndirect(i, bn - NDIRECT);
      }
    }

    // The branch of bmap for blocks beyond the direct ones.
    method MapIndirect(i: nat, j: nat) returns (addr: nat, ghost bms: set<nat>)
      requires Owned(lay, Img(), owner) && i < |inodes| && j < NINDIRECT
      modifies this`bitmap, this`disk, this`inodes, this`owner, this`logged
      ensures Owned(lay, Img(), owner) && Extends(lay, old(Img()), Img(), i)
      ensures addr == Held(lay, Img(), Entry(i, j))
      ensures addr == 0 ==> forall c :: 0 <= c < lay.size ==> bitmap[c]
      ensures old(Held(lay, Img(), Entry(i, j))) != 0 ==> Img() == old(Img()) && owner == old(owner) && logged == old(logged)
      ensures logged <= old(logged) + bms + NonZero(inodes[i].addrs[NDIRECT]) + NonZero(addr)
      ensures |bms| <= (if old(Held(lay, Img(), Entry(i, j))) == 0 then 1 else 0)
                       + (if inodes[i].addrs[NDIRECT] != old(inodes[i].addrs[NDIRECT]) then 1 else 0)
      ensures old(inodes[i].addrs[NDIRECT]) != 0 ==> inodes[i].addrs[NDIRECT] == old(inodes[i].addrs[NDIRECT])
      ensures Covers(lay, old(Img()), old(logged), Img(), logged, {})
    {
      hide Covers;
      ghost var m := Img();
      var ind;
      ind, bms := MapDirect(i, NDIRECT);
      if ind == 0 {
        return 0, bms;
      }
      ghost var m', bms', logged' := Img(), bms, logged;
      addr, bms := MapEntry(i, j);
      CoversTrans(lay, m, old(logged), m', logged', Img(), logged, {});
      ExtendsTrans(lay, m, m', Img(), i);
      bms := bms' + bms;
    }

    // First loop of itrunc.
    method FreeDirect(i: nat)
      requires Owned(lay, Img(), owner) && i < |inodes|
      modifies this`bitmap, this`inodes, this`owner, this`logged
      ensures Owned(lay, Img(), owner) && |inodes| == |old(inodes)|
      ensures inodes == old(inodes)[i := inodes[i]] && inodes[i].size == old(inodes[i].size)
      ensures forall k :: 0 <= k < NDIRECT ==> inodes[i].addrs[k] == 0
      ensures inodes[i].addrs[NDIRECT] == old(inodes[i].addrs[NDIRECT])
      ensures Covers(lay, old(Img()), old(logged), Img(), logged, {})
    {
      hide Covers;
      CoversNone(lay, Img(), logged, Img(), logged);
      for k := 0 to NDIRECT
        invariant Covers(lay, old(Img()), old(logged), Img(), logged, {})
        invariant Owned(lay, Img(), owner) && |inodes| == |old(inodes)|
        invariant inodes == old(inodes)[i := inodes[i]] && inodes[i].size == old(inodes[i].size)
        invariant forall c :: 0 <= c < k ==> inodes[i].addrs[c] == 0
        invariant inodes[i].addrs[NDIRECT] == old(inodes[i].addrs[NDIRECT])
      {
        if inodes[i].addrs[k] != 0 {
          ghost var m, l := Img(), logged;
          FreeOneDirect(i, k);
          CoversTrans(lay, old(Img()), old(logged), m, l, Img(), logged, {});
        }
      }
    }

    method FreeOneDirect(i: nat, k: nat)
      requires Owned(lay, Img(), owner) && i < |inodes| && k < NDIRECT && inodes[i].addrs[k] != 0
      modifies this`bitmap, this`inodes, this`owner, this`logged
      ensures Owned(lay, Img(), owner)
      ensures inodes == old(inodes)[i := old(inodes[i]).(addrs := old(inodes[i].addrs)[k := 0])]
      ensures Covers(lay, old(Img()), old(logged), Img(), logged, {})
    {
      ghost var m := Img();
      UnlinkDirectOwned(lay, m, owner, i, k);
      owner := owner - {inodes[i].addrs[k]};
      Bfree(inodes[i].addrs[k]);
      inodes := inodes[i := inodes[i].(addrs := inodes[i].addrs[k := 0])];
      assert Img() == UnlinkDirect(m, i, k);
    }

    // Second loop of itrunc: frees the blocks of all entries.
    method FreeEntries(i: nat)
      requires Owned(lay, Img(), owner) && i < |inodes| && inodes[i].addrs[NDIRECT] != 0
      modifies this`bitmap, this`logged
      ensures |bitmap| == lay.size
      ensures forall b :: 0 <= b < lay.size ==>
                (bitmap[b] <==> old(bitmap[b]) && !(b in owner && owner[b].Entry? && owner[b].inum == i))
      ensures old(logged) <= logged && forall b :: 0 <= b < lay.size && bitmap[b] != old(bitmap[b]) ==> BBlock(lay, b) in logged
    {
      var ind := inodes[i].addrs[NDIRECT];
      forall b | b in owner && owner[b].Entry? ensures owner[b].j < NINDIRECT {
        assert BlockOk(lay, Img(), owner, b);
      }
      for j := 0 to NINDIRECT
        invariant |bitmap| == lay.size
        invariant forall b :: 0 <= b < lay.size ==>
                    (bitmap[b] <==> old(bitmap[b]) && !(b in owner && owner[b].Entry? && owner[b].inum == i && owner[b].j < j))
        invariant old(logged) <= logged && forall b :: 0 <= b < lay.size && bitmap[b] != old(bitmap[b]) ==> BBlock(lay, b) in logged
      {
        var w := Word(disk[ind], j);
        ghost var m := Image(old(bitmap), disk, inodes);
        assert SlotOk(lay, m, owner, Entry(i, j));
        if w != 0 {
          assert BlockOk(lay, m, owner, w);
          Bfree(w);
        }
        forall b | b in owner && owner[b].Entry? && owner[b].inum == i ensures owner[b].j == j ==> b == w != 0 {
          assert BlockOk(lay, m, owner, b);
        }
      }
    }

    // Both loops of itrunc: every slot of the inode ends up empty.
    method FreeSlots(i: nat)
      requires Owned(lay, Img(), owner) && i < |inodes|
      modifies this`bitmap, this`inodes, this`owner, this`logged
      ensures Owned(lay, Img(), owner) && |inodes| == |old(inodes)|
      ensures forall k :: 0 <= k <= NDIRECT ==> inodes[i].addrs[k] == 0
      ensures forall f :: 0 <= f < |inodes| && f != i ==> inodes[f] == old(inodes[f])
      ensures Covers(lay, old(Img()), old(logged), Img(), logged, {})
    {
      hide Covers;
      FreeDirect(i);
      if inodes[i].addrs[NDIRECT] != 0 {
        ghost var m, l := Img(), logged;
        DropIndirect(i);
        CoversTrans(lay, old(Img()), old(logged), m, l, Img(), logged, {});
      }
    }

    // Frees exactly the blocks the inode held.
    method Itrunc(i: nat)
      requires Valid() && i < |inodes|
      modifies this
      ensures Valid() && |inodes| == |old(inodes)| && disk == old(disk)
      ensures forall b :: b in owner <==> b in old(owner) && old(owner)[b].inum != i
      ensures forall b :: 0 <= b < lay.size ==> (bitmap[b] <==> old(bitmap[b]) && !(b in old(owner) && old(owner)[b].inum == i))
      ensures inodes[i].size == 0 && forall k :: 0 <= k <= NDIRECT ==> inodes[i].addrs[k] == 0
      ensures forall f :: 0 <= f < |inodes| && f != i ==> inodes[f] == old(inodes[f])
      ensures Covers(lay, old(Img()), old(logged), Img(), logged, {}) && IBlock(lay, i) in logged
    {
      hide Covers;
      FreeSlots(i);
      ghost var m, l := Img(), logged;
      inodes := inodes[i := inodes[i].(size := 0)];
      logged := logged + {IBlock(lay, i)};
      CoversNone(lay, m, l, Img(), logged);
      CoversTrans(lay, old(Img()), old(logged), m, l, Img(), logged, {});
      ResizeOwned(lay, m, owner, i, 0);
      TruncFrees(lay, old(Img()), old(owner), Img(), owner, i);
      OthersKeepAddrs(lay, old(Img()), old(owner), Img(), i);
    }

    method DropIndirect(i: nat)
      requires Owned(lay, Img(), owner) && i < |inodes| && inodes[i].addrs[NDIRECT] != 0
      modifies this`bitmap, this`inodes, this`owner, this`logged
      ensures Owned(lay, Img(), owner)
      ensures inodes == old(inodes)[i := old(inodes[i]).(addrs := old(inodes[i].addrs)[NDIRECT := 0])]
      ensures Covers(lay, old(Img()), old(logged), Img(), logged, {})
    {
      ghost var m := Img();
      assert SlotOk(lay, m, owner, Direct(i, NDIRECT)) && BlockOk(lay, m, owner, inodes[i].addrs[NDIRECT]);
      assert forall b :: b in owner && owner[b] == Direct(i, NDIRECT) ==> BlockOk(lay, m, owner, b);
      hide Covers;
      FreeEntries(i);
      Bfree(inodes[i].addrs[NDIRECT]);
      CoversBits(lay, m, old(logged), Img(), logged);
      ghost var m', l := Img(), logged;
      inodes := inodes[i := inodes[i].(addrs := inodes[i].addrs[NDIRECT := 0])];
      CoversMore(lay, m, old(logged), m', l, Img(), logged, {});
      DropIndirectOwned(lay, m, owner, Img(), i);
      owner := map b | b in owner && !IsIndirectPart(owner[b], i) :: owner[b];
    }

    // The block for a byte of the file, found or made.
    method FindBlock(i: nat, off: nat) returns (a: nat, ghost bms: set<nat>)
      requires Owned(lay, Img(), owner) && i < |inodes| && off < MAXFILE * BSIZE
      modifies this`bitmap, this`disk, this`inodes, this`owner, this`logged
      ensures Owned(lay, Img(), owner) && Grown(lay, old(Img()), Img(), i) && |inodes| == |old(inodes)|
      ensures View(lay, Img(), i) == old(View(lay, Img(), i)) && a == Addr(lay, Img(), i, off / BSIZE)
      ensures a == 0 ==> DiskFull(bitmap) && IsMissing(lay, Img(), i, off) && IsMissing(lay, old(Img()), i, off)
      ensures Covers(lay, old(Img()), old(logged), Img(), logged, {})
      ensures LogsRound(lay, old(Img()), Img(), i, off, old(logged), logged, bms, a)
    {
      hide Covers;
      ghost var m := Img();
      a, bms := Bmap(i, off / BSIZE);
      ExtendsGrown(lay, m, Img(), i);
    }

    // One round of writei's loop: find the block, copy the bytes in, log it.  The copy stops after `readable`
    // bytes; the block then keeps what was copied, but is not logged.
    method WriteBlock(i: nat, off: nat, bytes: seq<byte>, readable: nat)
      returns (done: bool, ghost put: nat, ghost addr: nat, ghost bms: set<nat>)
      requires Owned(lay, Img(), owner) && i < |inodes| && bytes != []
      requires off < MAXFILE * BSIZE && Fits(off, |bytes|)
      modifies this`bitmap, this`disk, this`inodes, this`owner, this`logged
      ensures Owned(lay, Img(), owner) && Grown(lay, old(Img()), Img(), i)
      ensures put <= |bytes| && (done <==> put == |bytes|) && (put > 0 ==> Addr(lay, Img(), i, off / BSIZE) != 0)
      ensures !done ==> if readable < |bytes| then put == 0 || put == readable else DiskFull(bitmap)
      ensures done ==> |bytes| <= readable
      ensures !done ==> readable < |bytes| || (DiskFull(bitmap) && IsMissing(lay, Img(), i, off))
      ensures Covers(lay, old(Img()), old(logged), Img(), logged, if done || put == 0 then {} else {addr})
      ensures !done && put != 0 ==> readable < |bytes|
      ensures !done && !IsMissing(lay, old(Img()), i, off) ==> put == readable
      ensures IsPut(old(View(lay, Img(), i)), View(lay, Img(), i), off, bytes, put)
      ensures LogsRound(lay, old(Img()), Img(), i, off, old(logged), logged, bms, addr)
    {
      hide Covers, Grown, Owned, IsMissing, DiskFull, Addr, View;
      ghost var m := Img();
      var a;
      a, bms := FindBlock(i, off);
      ghost var m', l := Img(), logged;
      addr, put := a, 0;
      if a == 0 {
        return false, put, addr, bms;
      }
      done, put := CopyIn(i, off, bytes, readable, a);
      GrownTrans(lay, m, m', Img(), i);
      CoversTrans(lay, m, old(logged), m', l, Img(), logged, if done || put == 0 then {} else {a});
    }

    // The copy into block a of the file.
    method CopyIn(i: nat, off: nat, bytes: seq<byte>, readable: nat, a: nat) returns (done: bool, ghost put: nat)
      requires Owned(lay, Img(), owner) && i < |inodes| && off < MAXFILE * BSIZE && Fits(off, |bytes|)
      requires 0 < a == Addr(lay, Img(), i, off / BSIZE)
      modifies this`disk, this`logged
      ensures Owned(lay, Img(), owner) && Grown(lay, old(Img()), Img(), i) && Addr(lay, Img(), i, off / BSIZE) != 0
      ensures put == (if readable < |bytes| then readable else |bytes|) && (done <==> put == |bytes|)
      ensures IsPut(old(View(lay, Img(), i)), View(lay, Img(), i), off, bytes, put)
      ensures logged == if done then old(logged) + {a} else old(logged)
      ensures Covers(lay, old(Img()), old(logged), Img(), logged, if done || put == 0 then {} else {a})
    {
      ghost var m, bn := Img(), off / BSIZE;
      AddrOwned(lay, m, owner, i, bn);
      assert View(lay, m, i)[bn] == disk[a];
      var n := if readable < |bytes| then readable else |bytes|;
      put := n;
      var data := Splice(disk[a], off % BSIZE, bytes[..n]);
      WriteDataGrown(lay, m, owner, i, bn, data);
      disk := disk[a := data];
      assert put == 0 ==> data == View(lay, m, i)[bn];
      done := readable >= |bytes|;
      if done {
        logged := logged + {a};
      }
    }

    // One round.  The caller's bytes beyond `readable` cannot be copied.
    method WriteRound(i: nat, src: seq<byte>, off: nat, tot: nat, readable: nat, ghost m0: Image)
      returns (done: bool, tot': nat, ghost put: nat, ghost addr: nat, ghost bms: set<nat>)
      requires Progress(lay, m0, Img(), owner, i, src, off, tot) && i < |inodes|
      requires tot < |src| && off + |src| <= MAXFILE * BSIZE && Shape(lay, m0) && NoHoles(lay, m0)
      modifies this`bitmap, this`disk, this`inodes, this`owner, this`logged
      ensures Progress(lay, m0, Img(), owner, i, src, off, put) && |inodes| == |old(inodes)|
      ensures !done ==> tot' == tot && Partial(m0, i, off, tot, put, readable, |src|) && Halts(lay, Img(), i, off, tot, |src|, readable)
      ensures done ==> put == tot' && tot < tot' <= |src| && tot' <= readable && (tot' == |src| || EndsBlock(off + tot, tot' - tot))
      ensures Covers(lay, old(Img()), old(logged), Img(), logged, if put == tot' then {} else {addr})
      ensures LogsRound(lay, old(Img()), Img(), i, off + tot, old(logged), logged, bms, addr)
    {
      hide Progress, IsPut, Grown, LogsRound, Owned, Shape, NoHoles, DiskFull, Partial, IsMissing, Fits, EndsBlock, RoundLen, Addr, View, Covers;
      ProgressOwned(lay, m0, Img(), owner, i, src, off, tot);
      var m := RoundLen(off + tot, |src| - tot);
      ghost var before, owner0 := Img(), owner;
      done, put, addr, bms := WriteBlock(i, off + tot, src[tot..tot + m], if readable > tot then readable - tot else 0);
      tot' := if done then tot + m else tot;
      GrownShape(lay, before, Img(), i);
      RoundEnds(lay, m0, before, owner0, Img(), owner, i, off, src, tot, m, put);
      RoundPartial(lay, m0, before, owner0, i, off, src, tot, m, put, readable);
      put := tot + put;
    }

    lemma LoopStart(i: nat, src: seq<byte>, off: nat, readable: nat)
      requires Valid() && i < |inodes| && off <= inodes[i].size
      ensures Progress(lay, Img(), Img(), owner, i, src, off, 0) && (off % BSIZE != 0 ==> !IsMissing(lay, Img(), i, off))
      ensures Account(logged, logged, {}, Indirect(Img(), i), Indirect(Img(), i), off, |src|, 0, 0)
      ensures IsAt(off, |src|, 0, 0) && (src == [] ==> Partial(Img(), i, off, 0, 0, readable, 0))
      ensures Shape(lay, Img()) && NoHoles(lay, Img())
    {
      if off % BSIZE != 0 {
        FirstBlockExists(lay, Img(), i, off);
      }
      ProgressStart(lay, Img(), owner, i, src, off);
    }

    // writei's loop.  `rounds` counts the rounds; `extra` collects the blocks logged, other than the
    // indirect block; `put` counts the bytes put into blocks.
    method WriteLoop(i: nat, src: seq<byte>, off: nat, readable: nat)
      returns (tot: nat, ghost put: nat, ghost rounds: nat, ghost extra: set<nat>, ghost needed: nat, ghost stray: set<nat>)
      requires Valid() && i < |inodes| && off <= inodes[i].size && off + |src| <= MAXFILE * BSIZE
      modifies this`bitmap, this`disk, this`inodes, this`owner, this`logged
      ensures Progress(lay, old(Img()), Img(), owner, i, src, off, put) && Partial(old(Img()), i, off, tot, put, readable, |src|)
      ensures |inodes| == |old(inodes)| && tot <= readable && (tot < |src| ==> Halts(lay, Img(), i, off, tot, |src|, readable))
      ensures Covers(lay, old(Img()), old(logged), Img(), logged, stray) && |stray| <= 1 && (put == tot ==> stray == {})
      ensures Account(old(logged), logged, extra, Indirect(old(Img()), i), Indirect(Img(), i), off, |src|, rounds, needed)
    {
      hide Progress, LogsRound, Account, IsAt, Owned, Shape, NoHoles, Halts, Partial, IsMissing, Indirect, Covers;
      tot, put, rounds, extra, needed, stray := 0, 0, 0, {}, 0, {};
      ghost var m0 := Img();
      CoversNone(lay, m0, logged, m0, logged);
      LoopStart(i, src, off, readable);
      while tot < |src|
        invariant Progress(lay, m0, Img(), owner, i, src, off, tot) && put == tot <= |src| && |inodes| == |old(inodes)|
        invariant Account(old(logged), logged, extra, Indirect(m0, i), Indirect(Img(), i), off, |src|, rounds, needed)
        invariant IsAt(off, |src|, tot, rounds) && (rounds == 0 ==> tot == 0 && Img() == m0)
        invariant tot == |src| ==> Partial(m0, i, off, tot, put, readable, |src|)
        invariant tot <= readable && stray == {} && Covers(lay, m0, old(logged), Img(), logged, {})
      {
        ghost var m, logged1 := Img(), logged;
        var done, tot';
        ghost var addr, bms;
        done, tot', put, addr, bms := WriteRound(i, src, off, tot, readable, m0);
        extra, needed := AccountRound(lay, m0, m, Img(), i, old(logged), logged1, logged, extra, bms, addr, off, |src|, tot, rounds, needed);
        RoundAt(m0, i, off, |src|, tot, tot', rounds, readable);
        stray := if put == tot' then {} else {addr};
        CoversTrans(lay, m0, old(logged), m, logged1, Img(), logged, stray);
        rounds := rounds + 1;
        if !done {
          break;
        }
        tot := tot';
      }
    }

    // writei for a range that passes its checks.  It stops early only if the caller's bytes cannot be
    // read or the disk is full.  `seen` bytes of the file get new contents: those that count, and those that
    // a failed copy left in a block that the file already had.
    method WriteRange(i: nat, src: seq<byte>, off: nat, readable: nat) returns (tot: nat, ghost seen: nat, ghost stray: set<nat>)
      requires Valid() && i < |inodes| && off <= inodes[i].size && off + |src| <= MAXFILE * BSIZE
      modifies this`bitmap, this`disk, this`inodes, this`owner, this`logged
      ensures Valid() && |inodes| == |old(inodes)| && Excess(old(inodes[i].size), off, tot, seen, readable, |src|)
      ensures Wrote(lay, old(Img()), Img(), i, off, src, seen)
      ensures tot < |src| ==> Halts(lay, Img(), i, off, tot, |src|, readable)
      ensures old(logged) == {} && |src| <= MAXCHUNK ==> |logged| <= MAXOPBLOCKS
      ensures LogsWrite(lay, old(Img()), old(logged), Img(), logged, i, stray) && (|src| <= readable ==> stray == {})
    {
      hide Covers, Halts, Progress, Partial, Wrote, Excess, Owned, NoHoles, Account, Indirect;
      ghost var m := Img();
      ghost var put, rounds, extra, needed;
      tot, put, rounds, extra, needed, stray := WriteLoop(i, src, off, readable);
      ghost var m' := Img();
      RangeDone(lay, m, old(owner), m', owner, i, off, src, tot, put, readable);
      seen := Seen(m.inodes[i].size, off, tot, put);
      if old(logged) == {} && |src| <= MAXCHUNK {
        ChunkFits(logged, extra, Indirect(m, i), Indirect(m', i), IBlock(lay, i), off, |src|, rounds, needed);
      }
      if off + tot > inodes[i].size {
        inodes := inodes[i := inodes[i].(size := off + tot)];
      }
      assert Img() == Resize(m', i, Max(off + tot, m.inodes[i].size));
      ResizeHalts(lay, m', owner, i, Max(off + tot, m.inodes[i].size), off, tot, |src|, readable);
      ghost var l := logged;
      logged := logged + {IBlock(lay, i)};
      CoversMore(lay, m, old(logged), m', l, Img(), logged, stray);
    }

    // Writes src at byte offset off; returns the number of bytes written, or -1 for a bad range.
    method Writei(i: nat, src: seq<byte>, off: nat, readable: nat) returns (r: int, ghost seen: nat, ghost stray: set<nat>)
      requires Valid() && i < |inodes| && off < 0x1_0000_0000 && |src| < 0x1_0000_0000
      modifies this`bitmap, this`disk, this`inodes, this`owner, this`logged
      ensures Valid() && |inodes| == |old(inodes)|
      ensures r == -1 <==> off > old(inodes[i].size) || off + |src| > MAXFILE * BSIZE
      ensures r == -1 ==> Img() == old(Img()) && logged == old(logged)
      ensures r != -1 ==> 0 <= r && Excess(old(inodes[i].size), off, r, seen, readable, |src|)
      ensures r != -1 ==> Wrote(lay, old(Img()), Img(), i, off, src, seen)
      ensures 0 <= r < |src| ==> Halts(lay, Img(), i, off, r, |src|, readable)
      ensures old(logged) == {} && |src| <= MAXCHUNK ==> |logged| <= MAXOPBLOCKS
      ensures r != -1 ==> LogsWrite(lay, old(Img()), old(logged), Img(), logged, i, stray) && (|src| <= readable ==> stray == {})
    {
      seen, stray := 0, {};
      if off > inodes[i].size || (off + |src|) % 0x1_0000_0000 < off {
        return -1, 0, {};
      }
      if off + |src| > MAXFILE * BSIZE {
        return -1, 0, {};
      }
      r, seen, stray := WriteRange(i, src, off, readable);
    }

    // Reads up to n bytes at offset off.  bmap is the allocating one, but with no holes in the file it
    // finds every block, so nothing is allocated and nothing logged.  -1 if a copy to the caller fails.
    method Readi(i: nat, off: nat, n: nat, writable: nat) returns (r: int, out: seq<byte>)
      requires Valid() && i < |inodes| && off < 0x1_0000_0000 && n < 0x1_0000_0000
      modifies this`bitmap, this`disk, this`inodes, this`owner, this`logged
      ensures Valid() && Img() == old(Img()) && owner == old(owner) && logged == old(logged)
      ensures var len := if off > inodes[i].size || off + n >= 0x1_0000_0000 then 0
                         else if off + n > inodes[i].size then inodes[i].size - off else n;
              if len <= writable then r == len && out == (if len == 0 then [] else FileBytes(lay, Img(), i)[off..off + len])
              else r == -1
    {
      if off > inodes[i].size || (off + n) % 0x1_0000_0000 < off {
        return 0, [];
      }
      var len := n;
      if off + len > inodes[i].size {
        len := inodes[i].size - off;
      }
      r, out := ReadRange(i, off, len, writable);
    }

    method ReadRange(i: nat, off: nat, len: nat, writable: nat) returns (r: int, out: seq<byte>)
      requires Valid() && i < |inodes| && off + len <= inodes[i].size
      modifies this`bitmap, this`disk, this`inodes, this`owner, this`logged
      ensures Valid() && Img() == old(Img()) && owner == old(owner) && logged == old(logged)
      ensures if len <= writable then r == len && IsSlice(FileBytes(lay, Img(), i), off, len, out) else r == -1
    {
      ghost var file := FileBytes(lay, Img(), i);
      hide FileBytes, Owned, NoHoles, IsSlice;
      var tot := 0;
      out := [];
      NoSlice(file, off);
      while tot < len
        invariant Valid() && Img() == old(Img()) && owner == old(owner) && logged == old(logged)
        invariant tot <= len && tot <= writable && IsSlice(file, off, tot, out)
      {
        var m := RoundLen(off + tot, len - tot);
        var bytes := ReadBlock(i, off + tot, m, file);
        if tot + m > writable {
          return -1, out;
        }
        SliceMore(file, off, tot, m, out, bytes);
        out := out + bytes;
        tot := tot + m;
      }
      r := tot;
    }

    // One round of readi's loop.
    method ReadBlock(i: nat, off: nat, m: nat, ghost file: seq<byte>) returns (bytes: seq<byte>)
      requires Valid() && i < |inodes| && Fits(off, m) && 0 < m && off + m <= inodes[i].size
      requires file == FileBytes(lay, Img(), i)
      modifies this`bitmap, this`disk, this`inodes, this`owner, this`logged
      ensures Valid() && Img() == old(Img()) && owner == old(owner) && logged == old(logged)
      ensures IsSlice(file, off, m, bytes)
    {
      var bn := off / BSIZE;
      assert bn * BSIZE <= off;
      ghost var bms;
      var addr;
      addr, bms := Bmap(i, bn);
      BlockBytes(lay, Img(), owner, i, off, m);
      bytes := disk[addr][off % BSIZE..off % BSIZE + m];
    }

    // One transaction of filewrite: begin_op, writei, end_op.
    method WriteTransaction(i: nat, src: seq<byte>, off: nat, readable: nat) returns (r: int, ghost seen: nat, ghost stray: set<nat>)
      requires Valid() && i < |inodes| && off < 0x1_0000_0000 && |src| <= MAXCHUNK
      modifies this`bitmap, this`disk, this`inodes, this`owner, this`logged
      ensures Valid() && |inodes| == |old(inodes)| && |logged| <= MAXOPBLOCKS
      ensures r == -1 <==> off > old(inodes[i].size) || off + |src| > MAXFILE * BSIZE
      ensures r == -1 ==> Img() == old(Img())
      ensures r != -1 ==> && 0 <= r && Excess(old(inodes[i].size), off, r, seen, readable, |src|)
                          && (r < |src| ==> Halts(lay, Img(), i, off, r, |src|, readable))
      ensures r != -1 ==> Wrote(lay, old(Img()), Img(), i, off, src, seen)
      ensures r != -1 ==> LogsWrite(lay, old(Img()), {}, Img(), logged, i, stray) && (|src| <= readable ==> stray == {})
    {
      logged := {};
      r, seen, stray := Writei(i, src, off, readable);
    }

    // One chunk of filewrite, from position k of src; n bytes of the file get new contents.
    method WriteChunk(i: nat, src: seq<byte>, off: nat, k: nat, readable: nat, ghost m0: Image)
      returns (n1: nat, r: int, ghost n: nat)
      requires Valid() && i < |inodes| && k < |src| && off < 0x1_0000_0000 && Wrote(lay, m0, Img(), i, off, src, k)
      modifies this`bitmap, this`disk, this`inodes, this`owner, this`logged
      ensures Valid() && |inodes| == |old(inodes)| && |logged| <= MAXOPBLOCKS && Wrote(lay, m0, Img(), i, off, src, k + n)
      ensures n <= n1 && 0 < n1 && k + n1 <= |src| && (r == n1 <==> n == n1)
      ensures i < |m0.inodes| && n1 == ChunkLen(|src|, k)
      ensures r != n1 ==> && ChunkStops(lay, Img(), i, m0.inodes[i].size, off, |src|, k, r, readable)
                          && n == ChunkChanged(m0.inodes[i].size, off, |src|, k, r, readable)
      ensures r == n1 ==> k + n1 <= readable && off <= m0.inodes[i].size && off + k + n1 <= MAXFILE * BSIZE
    {
      hide Wrote, Excess, Overwrite, FileBytes, NoHoles, Owned, Halts, LogsWrite, Changed;
      n1 := if |src| - k > MAXCHUNK then MAXCHUNK else |src| - k;
      ghost var m := Img();
      ChunkOffset(lay, m0, m, i, off, src, k);
      ghost var stray;
      r, n, stray := WriteTransaction(i, src[k..k + n1], off + k, Left(readable, k));
      if r == -1 {
        n := 0;
      } else {
        WroteMore(lay, m0, m, Img(), i, off, src, k, n1, r, n, Left(readable, k));
      }
    }

    // Writes in chunks of at most MAXCHUNK bytes, one transaction each.  `done` bytes of the file get new
    // contents, in order; n is returned if that is all of them, else -1.  A write that fails has written every
    // chunk before the one at `last`, where writei returned `r`.
    method Filewrite(i: nat, src: seq<byte>, off: nat, readable: nat)
      returns (ret: int, ghost done: nat, ghost last: nat, ghost r: int)
      requires Valid() && i < |inodes| && off < 0x1_0000_0000
      modifies this`bitmap, this`disk, this`inodes, this`owner, this`logged
      ensures Valid() && |inodes| == |old(inodes)| && Wrote(lay, old(Img()), Img(), i, off, src, done)
      ensures done <= |src| && ret == if done == |src| then |src| else -1
      ensures ret == -1 ==> ChunkStops(lay, Img(), i, old(inodes[i].size), off, |src|, last, r, readable) && last % MAXCHUNK == 0
      ensures ret == -1 ==> done == last + ChunkChanged(old(inodes[i].size), off, |src|, last, r, readable)
      ensures ret == -1 ==> Stopped(old(inodes[i].size), off, |src|, readable, bitmap)
      ensures ret > 0 ==> ret <= readable && off <= old(inodes[i].size) && off + ret <= MAXFILE * BSIZE
    {
      hide Wrote, Stopped, Valid, Overwrite, FileBytes, NoHoles, ChunkStops, ChunkChanged;
      ghost var m0 := Img();
      NothingWritten(i, src, off);
      var k := 0;
      done, last, r := 0, 0, 0;
      while k < |src|
        invariant k == |src| || k % MAXCHUNK == 0
        invariant Valid() && |inodes| == |old(inodes)| && k == done <= |src| && Wrote(lay, m0, Img(), i, off, src, done)
        invariant k > 0 ==> k <= readable && off <= m0.inodes[i].size && off + k <= MAXFILE * BSIZE
      {
        var n1, r1;
        ghost var n;
        n1, r1, n := WriteChunk(i, src, off, k, readable, m0);
        done, last, r := done + n, k, r1;
        if r1 != n1 {
          ChunkStopped(lay, Img(), i, m0.inodes[i].size, off, |src|, k, r1, readable);
          break;
        }
        k := k + r1;
      }
      ret := if k == |src| then |src| else -1;
    }

    lemma NothingWritten(i: nat, src: seq<byte>, off: nat)
      requires Valid() && i < |inodes|
      ensures Wrote(lay, Img(), Img(), i, off, src, 0)
    {
    }
  }
}
