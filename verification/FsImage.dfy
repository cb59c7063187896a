/**
 The file-system image of kernel/fs.c: the block bitmap, the blocks, and the inodes with their
 direct and indirect block numbers.  This module says who owns which block and what a file
 contains, and how the single updates made by kernel/fs.c change that.
 */
module FsImage {

  const BSIZE := 1024
  const NDIRECT := 12
  const NINDIRECT := 256
  const MAXFILE := NDIRECT + NINDIRECT

  type byte = x: int | 0 <= x < 256
  type Block = seq<byte>

  function ZeroBlock(): (b: Block)
    ensures |b| == BSIZE && forall i :: 0 <= i < BSIZE ==> b[i] == 0
  {
    seq(BSIZE, _ => 0)
  }

  // ----- 32-bit words in a block, little-endian -----

  function Word(b: Block, i: nat): nat
    requires i < NINDIRECT && |b| == BSIZE
  {
    (b[4 * i] as int) + 0x100 * (b[4 * i + 1] as int) + 0x1_0000 * (b[4 * i + 2] as int) + 0x100_0000 * (b[4 * i + 3] as int)
  }

  lemma FourBytes(v: nat)
    requires v < 0x1_0000_0000
    ensures v == v % 0x100 + 0x100 * (v / 0x100 % 0x100) + 0x1_0000 * (v / 0x1_0000 % 0x100) + 0x100_0000 * (v / 0x100_0000)
    ensures v / 0x100_0000 < 0x100
  {
    var q := v / 0x100;
    var r := q / 0x100;
    assert r == v / 0x1_0000 && r / 0x100 == v / 0x100_0000;
    assert v == 0x100 * q + v % 0x100 && q == 0x100 * r + q % 0x100 && r == 0x100 * (r / 0x100) + r % 0x100;
  }

  function PutWord(b: Block, i: nat, v: nat): (r: Block)
    requires i < NINDIRECT && v < 0x1_0000_0000 && |b| == BSIZE
    ensures |r| == BSIZE && Word(r, i) == v
    ensures forall j: nat :: j < NINDIRECT && j != i ==> Word(r, j) == Word(b, j)
  {
    FourBytes(v);
    b[4 * i := v % 0x100][4 * i + 1 := v / 0x100 % 0x100]
     [4 * i + 2 := v / 0x1_0000 % 0x100][4 * i + 3 := v / 0x100_0000]
  }

  // ----- the image -----

  // Blocks below dataStart hold the boot block, superblock, log, inodes and bitmap.
  datatype Layout = Layout(size: nat, dataStart: nat, bmapStart: nat, inodeStart: nat) {
    predicate Valid() {
      0 < dataStart <= size < 0x1_0000_0000
    }
  }

  datatype Inode = Inode(addrs: seq<nat>, size: nat)

  datatype Image = Image(bitmap: seq<bool>, disk: seq<Block>, inodes: seq<Inode>)

  // A place that can hold a block number.
  datatype Slot =
    | Direct(inum: nat, k: nat)  // addrs[k]; addrs[NDIRECT] is the indirect block
    | Entry(inum: nat, j: nat)   // entry j of the indirect block

  predicate Shape(lay: Layout, m: Image) {
    && lay.Valid() && |m.bitmap| == |m.disk| == lay.size
    && (forall b :: 0 <= b < lay.size ==> |m.disk[b]| == BSIZE)
    && (forall i :: 0 <= i < |m.inodes| ==> |m.inodes[i].addrs| == NDIRECT + 1)
    && (forall i, k :: 0 <= i < |m.inodes| && 0 <= k <= NDIRECT ==> m.inodes[i].addrs[k] < lay.size)
  }

  predicate IsSlot(m: Image, s: Slot) {
    match s
    case Direct(i, k) => i < |m.inodes| && k <= NDIRECT
    case Entry(i, j) => i < |m.inodes| && j < NINDIRECT
  }

  // The block number in a slot; 0 is none.
  function Held(lay: Layout, m: Image, s: Slot): nat
    requires Shape(lay, m) && IsSlot(m, s)
  {
    match s
    case Direct(i, k) => m.inodes[i].addrs[k]
    case Entry(i, j) =>
      var ind := m.inodes[i].addrs[NDIRECT];
      if ind == 0 then 0 else Word(m.disk[ind], j)
  }

  predicate SlotOk(lay: Layout, m: Image, owner: map<nat, Slot>, s: Slot)
    requires Shape(lay, m) && IsSlot(m, s)
  {
    Held(lay, m, s) != 0 ==> Held(lay, m, s) in owner && owner[Held(lay, m, s)] == s
  }

  predicate BlockOk(lay: Layout, m: Image, owner: map<nat, Slot>, b: nat)
    requires Shape(lay, m) && b in owner
  {
    lay.dataStart <= b < lay.size && IsSlot(m, owner[b]) && Held(lay, m, owner[b]) == b
  }

  // Every block in a slot is owned by that slot alone, and the bitmap marks exactly the metadata and
  // the owned blocks.
  ghost predicate Owned(lay: Layout, m: Image, owner: map<nat, Slot>) {
    && Shape(lay, m)
    && (forall s {:trigger SlotOk(lay, m, owner, s)} :: IsSlot(m, s) ==> SlotOk(lay, m, owner, s))
    && (forall b {:trigger BlockOk(lay, m, owner, b)} :: b in owner ==> BlockOk(lay, m, owner, b))
    && (forall b :: 0 <= b < lay.size ==> (m.bitmap[b] <==> b < lay.dataStart || b in owner))
  }

  // The slot of block bn of a file.
  function SlotOf(i: nat, bn: nat): Slot {
    if bn < NDIRECT then Direct(i, bn) else Entry(i, bn - NDIRECT)
  }

  function Addr(lay: Layout, m: Image, i: nat, bn: nat): nat
    requires Shape(lay, m) && i < |m.inodes| && bn < MAXFILE
  {
    Held(lay, m, SlotOf(i, bn))
  }

  // Block bn of a file; a block not allocated reads as zeros.
  function Data(lay: Layout, m: Image, i: nat, bn: nat): Block
    requires Shape(lay, m) && i < |m.inodes| && bn < MAXFILE
  {
    var a := Addr(lay, m, i, bn);
    if 0 < a < lay.size then m.disk[a] else ZeroBlock()
  }

  // Blocks of files have distinct addresses, none of them an indirect block.
  lemma AddrOwned(lay: Layout, m: Image, owner: map<nat, Slot>, i: nat, bn: nat)
    requires Owned(lay, m, owner) && i < |m.inodes| && bn < MAXFILE && Addr(lay, m, i, bn) != 0
    ensures var a := Addr(lay, m, i, bn); a in owner && owner[a] == SlotOf(i, bn) && a < lay.size
  {
    assert SlotOk(lay, m, owner, SlotOf(i, bn));
    assert BlockOk(lay, m, owner, Addr(lay, m, i, bn));
  }

  // ----- the updates -----

  // Slot s comes to hold the free block b; all other slots hold what they did.
  ghost predicate Gains(lay: Layout, m: Image, m': Image, slot: Slot, b: nat)
    requires Shape(lay, m)
  {
    && Shape(lay, m') && |m'.inodes| == |m.inodes| && IsSlot(m, slot) && b < lay.size
    && m'.bitmap == m.bitmap[b := true]
    && (forall s :: IsSlot(m, s) ==> Held(lay, m', s) == if s == slot then b else Held(lay, m, s))
  }

  lemma GainsOwned(lay: Layout, m: Image, owner: map<nat, Slot>, m': Image, slot: Slot, b: nat)
    requires Owned(lay, m, owner) && Gains(lay, m, m', slot, b) && !m.bitmap[b] && Held(lay, m, slot) == 0
    ensures Owned(lay, m', owner[b := slot])
  {
    assert b !in owner && b >= lay.dataStart;
    var owner' := owner[b := slot];
    forall s | IsSlot(m', s) ensures SlotOk(lay, m', owner', s) {
      assert SlotOk(lay, m, owner, s);
    }
    forall c | c in owner' ensures BlockOk(lay, m', owner', c) {
      assert c != b ==> BlockOk(lay, m, owner, c);
    }
  }

  // An indirect block is owned, so a free block is not one.
  lemma FreeIsNotIndirect(lay: Layout, m: Image, owner: map<nat, Slot>, i: nat, b: nat)
    requires Owned(lay, m, owner) && i < |m.inodes| && b < lay.size && !m.bitmap[b]
    ensures m.inodes[i].addrs[NDIRECT] != b
  {
    assert SlotOk(lay, m, owner, Direct(i, NDIRECT));
  }

  // balloc's result stored in addrs[k].
  function LinkDirect(m: Image, i: nat, k: nat, b: nat): Image
    requires i < |m.inodes| && k < |m.inodes[i].addrs| && b < |m.bitmap| == |m.disk|
  {
    Image(m.bitmap[b := true], m.disk[b := ZeroBlock()],
          m.inodes[i := m.inodes[i].(addrs := m.inodes[i].addrs[k := b])])
  }

  // A fresh indirect block has no entries only because balloc zeroes it.
  lemma LinkDirectGains(lay: Layout, m: Image, owner: map<nat, Slot>, i: nat, k: nat, b: nat)
    requires Owned(lay, m, owner) && i < |m.inodes| && k <= NDIRECT && b < lay.size && !m.bitmap[b]
    requires m.inodes[i].addrs[k] == 0
    ensures Gains(lay, m, LinkDirect(m, i, k, b), Direct(i, k), b)
  {
    var m' := LinkDirect(m, i, k, b);
    forall s | IsSlot(m, s)
      ensures Held(lay, m', s) == if s == Direct(i, k) then b else Held(lay, m, s)
    {
      FreeIsNotIndirect(lay, m, owner, s.inum, b);
    }
  }

  // balloc's result stored in entry j of the indirect block.
  function LinkEntry(lay: Layout, m: Image, i: nat, j: nat, b: nat): Image
    requires Shape(lay, m) && i < |m.inodes| && j < NINDIRECT && b < lay.size
  {
    var ind := m.inodes[i].addrs[NDIRECT];
    m.(bitmap := m.bitmap[b := true],
       disk := m.disk[b := ZeroBlock()][ind := PutWord(m.disk[ind], j, b)])
  }

  lemma IndirectsDiffer(lay: Layout, m: Image, owner: map<nat, Slot>, i: nat, f: nat)
    requires Owned(lay, m, owner) && i < |m.inodes| && f < |m.inodes| && i != f
    ensures m.inodes[i].addrs[NDIRECT] != 0 ==> m.inodes[f].addrs[NDIRECT] != m.inodes[i].addrs[NDIRECT]
  {
    assert SlotOk(lay, m, owner, Direct(i, NDIRECT)) && SlotOk(lay, m, owner, Direct(f, NDIRECT));
  }

  lemma LinkEntryGains(lay: Layout, m: Image, owner: map<nat, Slot>, i: nat, j: nat, b: nat)
    requires Owned(lay, m, owner) && i < |m.inodes| && j < NINDIRECT && b < lay.size && !m.bitmap[b]
    requires m.inodes[i].addrs[NDIRECT] != 0 && Held(lay, m, Entry(i, j)) == 0
    ensures Gains(lay, m, LinkEntry(lay, m, i, j, b), Entry(i, j), b)
  {
    var m' := LinkEntry(lay, m, i, j, b);
    FreeIsNotIndirect(lay, m, owner, i, b);
    forall s | IsSlot(m, s)
      ensures Held(lay, m', s) == if s == Entry(i, j) then b else Held(lay, m, s)
    {
      FreeIsNotIndirect(lay, m, owner, s.inum, b);
      if s.inum != i {
        IndirectsDiffer(lay, m, owner, i, s.inum);
      }
    }
  }

  // Linking a zeroed block, wherever it goes, changes the contents of no file.
  lemma GainsSameData(lay: Layout, m: Image, owner: map<nat, Slot>, m': Image, slot: Slot, b: nat, f: nat, bn: nat)
    requires Owned(lay, m, owner) && Gains(lay, m, m', slot, b) && !m.bitmap[b] && Held(lay, m, slot) == 0
    requires m'.disk[b] == ZeroBlock() && f < |m.inodes| && bn < MAXFILE
    requires forall c :: 0 <= c < lay.size && c != b && m'.disk[c] != m.disk[c] ==>
               c in owner && owner[c].Direct? && owner[c].k == NDIRECT
    ensures Data(lay, m', f, bn) == Data(lay, m, f, bn)
  {
    assert IsSlot(m, SlotOf(f, bn));
    if Addr(lay, m, f, bn) != 0 {
      AddrOwned(lay, m, owner, f, bn);
    }
  }

  lemma SameHeldOwned(lay: Layout, m: Image, owner: map<nat, Slot>, m': Image)
    requires Owned(lay, m, owner) && Shape(lay, m') && |m'.inodes| == |m.inodes| && m'.bitmap == m.bitmap
    requires forall s :: IsSlot(m, s) ==> Held(lay, m', s) == Held(lay, m, s)
    ensures Owned(lay, m', owner)
  {
    forall s | IsSlot(m', s) ensures SlotOk(lay, m', owner, s) {
      assert SlotOk(lay, m, owner, s);
    }
    forall b | b in owner ensures BlockOk(lay, m', owner, b) {
      assert BlockOk(lay, m, owner, b);
    }
  }

  // Overwriting an allocated block of a file changes that block of that file and nothing else.
  lemma WriteDataOwned(lay: Layout, m: Image, owner: map<nat, Slot>, i: nat, bn: nat, data: Block)
    requires Owned(lay, m, owner) && i < |m.inodes| && bn < MAXFILE && |data| == BSIZE
    requires 0 < Addr(lay, m, i, bn) < lay.size
    ensures var m' := m.(disk := m.disk[Addr(lay, m, i, bn) := data]); Owned(lay, m', owner)
  {
    var a := Addr(lay, m, i, bn);
    var m' := m.(disk := m.disk[a := data]);
    AddrOwned(lay, m, owner, i, bn);
    forall s | IsSlot(m, s) ensures Held(lay, m', s) == Held(lay, m, s) {
      assert SlotOk(lay, m, owner, Direct(s.inum, NDIRECT));
    }
    SameHeldOwned(lay, m, owner, m');
  }

  lemma WriteDataData(lay: Layout, m: Image, owner: map<nat, Slot>, i: nat, bn: nat, data: Block, f: nat, fn: nat)
    requires Owned(lay, m, owner) && i < |m.inodes| && bn < MAXFILE && |data| == BSIZE
    requires 0 < Addr(lay, m, i, bn) < lay.size && f < |m.inodes| && fn < MAXFILE
    ensures var m' := m.(disk := m.disk[Addr(lay, m, i, bn) := data]);
            && Shape(lay, m')
            && Addr(lay, m', f, fn) == Addr(lay, m, f, fn)
            && Data(lay, m', f, fn) == if f == i && fn == bn then data else Data(lay, m, f, fn)
  {
    var a := Addr(lay, m, i, bn);
    AddrOwned(lay, m, owner, i, bn);
    assert SlotOk(lay, m, owner, Direct(f, NDIRECT));
    if Addr(lay, m, f, fn) != 0 {
      AddrOwned(lay, m, owner, f, fn);
    }
  }

  // ----- truncation -----

  // bfree of a direct block, then clearing its slot.
  function UnlinkDirect(m: Image, i: nat, k: nat): Image
    requires i < |m.inodes| && k < |m.inodes[i].addrs| && m.inodes[i].addrs[k] < |m.bitmap|
  {
    m.(bitmap := m.bitmap[m.inodes[i].addrs[k] := false],
       inodes := m.inodes[i := m.inodes[i].(addrs := m.inodes[i].addrs[k := 0])])
  }

  lemma UnlinkDirectOwned(lay: Layout, m: Image, owner: map<nat, Slot>, i: nat, k: nat)
    requires Owned(lay, m, owner) && i < |m.inodes| && k < NDIRECT && m.inodes[i].addrs[k] != 0
    ensures m.bitmap[m.inodes[i].addrs[k]]
    ensures Owned(lay, UnlinkDirect(m, i, k), owner - {m.inodes[i].addrs[k]})
  {
    var b := m.inodes[i].addrs[k];
    assert SlotOk(lay, m, owner, Direct(i, k)) && BlockOk(lay, m, owner, b);
    var m', owner' := UnlinkDirect(m, i, k), owner - {b};
    forall s | IsSlot(m', s) ensures SlotOk(lay, m', owner', s) {
      assert SlotOk(lay, m, owner, s);
    }
    forall c | c in owner' ensures BlockOk(lay, m', owner', c) {
      assert BlockOk(lay, m, owner, c);
    }
  }

  // Does the slot belong to inode i's indirect part?
  predicate IsIndirectPart(s: Slot, i: nat) {
    s.inum == i && (s.Entry? || s.k == NDIRECT)
  }

  // Dropping the indirect block drops its entries with it; their blocks must all have been freed.
  lemma DropIndirectOwned(lay: Layout, m: Image, owner: map<nat, Slot>, m': Image, i: nat)
    requires Owned(lay, m, owner) && i < |m.inodes|
    requires m'.disk == m.disk && m'.inodes == m.inodes[i := m.inodes[i].(addrs := m.inodes[i].addrs[NDIRECT := 0])]
    requires |m'.bitmap| == lay.size
    requires forall b :: 0 <= b < lay.size ==>
               (m'.bitmap[b] <==> m.bitmap[b] && !(b in owner && IsIndirectPart(owner[b], i)))
    ensures Owned(lay, m', map b | b in owner && !IsIndirectPart(owner[b], i) :: owner[b])
  {
    var owner' := map b | b in owner && !IsIndirectPart(owner[b], i) :: owner[b];
    forall s | IsSlot(m', s) ensures SlotOk(lay, m', owner', s) {
      assert SlotOk(lay, m, owner, s);
    }
    forall b | b in owner ensures lay.dataStart <= b && (b in owner' ==> BlockOk(lay, m', owner', b)) {
      assert BlockOk(lay, m, owner, b);
    }
  }

  // The size field has no part in who owns what.
  function Resize(m: Image, i: nat, size: nat): Image
    requires i < |m.inodes|
  {
    m.(inodes := m.inodes[i := m.inodes[i].(size := size)])
  }

  lemma ResizeOwned(lay: Layout, m: Image, owner: map<nat, Slot>, i: nat, size: nat)
    requires Owned(lay, m, owner) && i < |m.inodes|
    ensures Owned(lay, Resize(m, i, size), owner)
    ensures forall f: nat, bn: nat :: f < |m.inodes| && bn < MAXFILE ==>
              && Addr(lay, Resize(m, i, size), f, bn) == Addr(lay, m, f, bn)
              && Data(lay, Resize(m, i, size), f, bn) == Data(lay, m, f, bn)
  {
    var m' := Resize(m, i, size);
    forall s | IsSlot(m, s) ensures Held(lay, m', s) == Held(lay, m, s) {}
    SameHeldOwned(lay, m, owner, m');
  }

  // Emptying the slots of one inode frees its blocks and no others.
  lemma TruncFrees(lay: Layout, m: Image, owner: map<nat, Slot>, m': Image, owner': map<nat, Slot>, i: nat)
    requires Owned(lay, m, owner) && Owned(lay, m', owner') && i < |m.inodes| == |m'.inodes| && m'.disk == m.disk
    requires forall f :: 0 <= f < |m.inodes| && f != i ==> m'.inodes[f] == m.inodes[f]
    requires forall k :: 0 <= k <= NDIRECT ==> m'.inodes[i].addrs[k] == 0
    ensures forall b :: b in owner' <==> b in owner && owner[b].inum != i
    ensures forall b :: 0 <= b < lay.size ==> (m'.bitmap[b] <==> m.bitmap[b] && !(b in owner && owner[b].inum == i))
  {
    forall s | IsSlot(m, s) ensures Held(lay, m', s) == if s.inum == i then 0 else Held(lay, m, s) {}
    forall b | b in owner' ensures b in owner && owner[b] == owner'[b] && owner[b].inum != i {
      assert BlockOk(lay, m', owner', b) && SlotOk(lay, m, owner, owner'[b]);
    }
    forall b | b in owner && owner[b].inum != i ensures b in owner' {
      assert BlockOk(lay, m, owner, b) && SlotOk(lay, m', owner', owner[b]);
    }
    forall b | b in owner ensures lay.dataStart <= b < lay.size {
      assert BlockOk(lay, m, owner, b);
    }
  }

  // ----- file contents -----

  // All blocks of a file.
  ghost function View(lay: Layout, m: Image, i: nat): (v: seq<Block>)
    requires Shape(lay, m) && i < |m.inodes|
    ensures |v| == MAXFILE && (forall bn: nat :: bn < MAXFILE ==> v[bn] == Data(lay, m, i, bn) && |v[bn]| == BSIZE)
  {
    seq(MAXFILE, bn requires 0 <= bn < MAXFILE => Data(lay, m, i, bn))
  }

  ghost predicate IsView(v: seq<Block>) {
    |v| == MAXFILE && forall bn :: 0 <= bn < MAXFILE ==> |v[bn]| == BSIZE
  }

  function ByteOf(v: seq<Block>, x: nat): byte
    requires IsView(v) && x < MAXFILE * BSIZE
  {
    v[x / BSIZE][x % BSIZE]
  }

  // A block with `bytes` copied in at offset o.
  function Splice(b: Block, o: nat, bytes: seq<byte>): (r: Block)
    requires |b| == BSIZE && o + |bytes| <= BSIZE
    ensures |r| == BSIZE
    ensures forall k :: 0 <= k < BSIZE ==> r[k] == if o <= k < o + |bytes| then bytes[k - o] else b[k]
  {
    b[..o] + bytes + b[o + |bytes|..]
  }

  // v' is v with the first tot bytes of src written at byte offset off.
  ghost predicate Written(v: seq<Block>, v': seq<Block>, off: nat, src: seq<byte>, tot: nat)
    requires IsView(v) && IsView(v') && tot <= |src|
  {
    forall x: nat :: x < MAXFILE * BSIZE ==>
      ByteOf(v', x) == if off <= x < off + tot then src[x - off] else ByteOf(v, x)
  }

  lemma WrittenMore(v: seq<Block>, v': seq<Block>, off: nat, src: seq<byte>, tot: nat, m: nat)
    requires IsView(v) && IsView(v') && tot + m <= |src| && Written(v, v', off, src, tot)
    requires off + tot + m <= MAXFILE * BSIZE && 0 < m && (off + tot) % BSIZE + m <= BSIZE
    ensures (off + tot) / BSIZE < MAXFILE
    ensures var bn, o := (off + tot) / BSIZE, (off + tot) % BSIZE;
            var v'' := v'[bn := Splice(v'[bn], o, src[tot..tot + m])];
            IsView(v'') && Written(v, v'', off, src, tot + m)
  {
    var bn, o := (off + tot) / BSIZE, (off + tot) % BSIZE;
    var v'' := v'[bn := Splice(v'[bn], o, src[tot..tot + m])];
    forall x: nat | x < MAXFILE * BSIZE
      ensures ByteOf(v'', x) == if off <= x < off + tot + m then src[x - off] else ByteOf(v, x)
    {
      var k := x % BSIZE;
      assert x == BSIZE * (x / BSIZE) + k && off + tot == BSIZE * bn + o;
      if x / BSIZE == bn {
        assert x - (off + tot) == k - o;
        if o <= k < o + m {
          assert v''[bn][k] == src[tot..tot + m][k - o] == src[x - off];
        }
      } else {
        assert v''[x / BSIZE] == v'[x / BSIZE];
      }
      assert ByteOf(v', x) == if off <= x < off + tot then src[x - off] else ByteOf(v, x);
    }
  }

  // The bytes of a file.
  ghost function FileBytes(lay: Layout, m: Image, i: nat): (s: seq<byte>)
    requires Shape(lay, m) && i < |m.inodes| && m.inodes[i].size <= MAXFILE * BSIZE
    ensures |s| == m.inodes[i].size
  {
    var v := View(lay, m, i);
    seq(m.inodes[i].size, x requires 0 <= x < m.inodes[i].size => ByteOf(v, x))
  }

  // A byte sequence overwritten from position off on, growing if need be.
  function Overwrite(s: seq<byte>, off: nat, bytes: seq<byte>): seq<byte>
    requires off <= |s|
  {
    s[..off] + bytes + if off + |bytes| < |s| then s[off + |bytes|..] else []
  }

  // Of the put bytes, those below the new end of the file count.
  lemma WrittenBytes(lay: Layout, m: Image, m': Image, i: nat, off: nat, src: seq<byte>, put: nat, seen: nat)
    requires Shape(lay, m) && Shape(lay, m') && i < |m.inodes| == |m'.inodes| && seen <= put <= |src|
    requires off <= m.inodes[i].size <= MAXFILE * BSIZE && off + put <= MAXFILE * BSIZE
    requires m'.inodes[i].size == if off + seen > m.inodes[i].size then off + seen else m.inodes[i].size
    requires seen == put || off + seen == m'.inodes[i].size
    requires Written(View(lay, m, i), View(lay, m', i), off, src, put)
    ensures FileBytes(lay, m', i) == Overwrite(FileBytes(lay, m, i), off, src[..seen])
  {
    var s, s' := FileBytes(lay, m, i), FileBytes(lay, m', i);
    var t := Overwrite(s, off, src[..seen]);
    assert |s'| == |t|;
    forall x: nat | x < |t| ensures s'[x] == t[x] {
      assert ByteOf(View(lay, m', i), x) == if off <= x < off + put then src[x - off] else ByteOf(View(lay, m, i), x);
    }
  }
}
