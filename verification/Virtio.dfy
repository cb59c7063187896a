/**
 The virtio block driver of kernel/virtio_disk.c against an asynchronous device, as a state machine.

 The driver's steps run under vdisk_lock.  The device follows section 2.6 of OASIS Virtio 1.1: it takes
 chain heads from the available ring in order and puts each into the used ring when it is done with
 it, at any time and in any order.  Ring indices are 16 bits wide and wrap.
 */
module Virtio {
  import opened Collections

  const NUM := 8
  const WRAP := 0x1_0000

  // What a descriptor's address points at: request header, the data of a buffer, or a status byte.
  datatype Mem = Nothing | HeaderOf(op: nat) | DataOf(buf: nat) | StatusOf(op: nat)

  datatype Desc = Desc(addr: Mem, len: nat, hasNext: bool, deviceWrites: bool, next: nat)

  const CLEAR := Desc(Nothing, 0, false, false, 0)

  // A request header: what to do, and the first 512-byte sector.
  datatype Header = Header(write: bool, sector: nat)

  const HEADER_LEN := 16
  const BSIZE := 1024
  const PER_BLOCK := BSIZE / 512

  // The contents of a sector, and of a block.
  type Sector = nat
  type Block = (Sector, Sector)

  function Contents(data: map<nat, Block>, b: nat): Block { if b in data then data[b] else (0, 0) }

  function SectorAt(disk: map<nat, Sector>, n: nat): Sector { if n in disk then disk[n] else 0 }

  // Block b of the disk.
  function BlockAt(disk: map<nat, Sector>, b: nat): Block { (SectorAt(disk, PER_BLOCK * b), SectorAt(disk, PER_BLOCK * b + 1)) }

  // Per-chain bookkeeping, indexed by the chain's head; status is 0xff until the device writes it.
  datatype Info = Info(buf: Option<nat>, status: nat)

  // The life of a request.
  datatype Stage = Building | Posted | Fetched | Used | Signalled

  datatype Request = Request(buf: nat, blockno: nat, mid: nat, tail: nat, write: bool, stage: Stage)

  datatype State = State(
    free: seq<bool>, desc: seq<Desc>, info: seq<Info>, ops: seq<Header>,
    avail: seq<nat>, availIdx: nat,  // written by the driver
    used: seq<nat>, usedIdx: nat,    // written by the device
    driverUsed: nat,                 // used_idx: how far the driver has read
    deviceAvail: nat,                // how far the device has read
    busy: set<nat>,                  // buffers with b->disk == 1
    data: map<nat, Block>,           // b->data of every buffer
    disk: map<nat, Sector>,
    building: Option<nat>,           // the chain being set up, while the lock is held for it
    // not stored anywhere: the outstanding requests by head, the head of the chain each descriptor is
    // in, and the two queues
    reqs: map<nat, Request>, owner: seq<Option<nat>>, posted: seq<nat>, finished: seq<nat>)

  // ----- descriptors -----

  function FreeCount(free: seq<bool>): nat {
    if free == [] then 0 else (if free[0] then 1 else 0) + FreeCount(free[1..])
  }

  lemma {:induction false} FreeCountUpdate(free: seq<bool>, i: nat, v: bool)
    requires i < |free|
    ensures FreeCount(free[i := v]) == FreeCount(free) - (if free[i] then 1 else 0) + (if v then 1 else 0)
  {
    if i == 0 {
      assert free[i := v][1..] == free[1..];
    } else {
      FreeCountUpdate(free[1..], i - 1, v);
      assert free[i := v][1..] == free[1..][i - 1 := v];
    }
  }

  lemma {:induction false} FreeCountBound(free: seq<bool>)
    ensures FreeCount(free) <= |free|
    ensures FreeCount(free) == 0 <==> forall i :: 0 <= i < |free| ==> !free[i]
  {
    if free != [] {
      FreeCountBound(free[1..]);
      assert forall i :: 0 < i < |free| ==> free[i] == free[1..][i - 1];
    }
  }

  // alloc_desc: the first free descriptor, |free| if there is none.
  function FirstFree(free: seq<bool>, from: nat): (i: nat)
    requires from <= |free|
    ensures from <= i <= |free| && (i < |free| ==> free[i])
    ensures forall k :: from <= k < i ==> !free[k]
    decreases |free| - from
  {
    if from == |free| || free[from] then from else FirstFree(free, from + 1)
  }

  // alloc3_desc: three descriptors, or none at all.
  function Alloc3(free: seq<bool>): (r: Option<(nat, nat, nat)>)
    ensures r.Some? ==> var (i, j, k) := r.value;
              && i < |free| && j < |free| && k < |free| && i != j && i != k && j != k && free[i] && free[j] && free[k]
  {
    var i := FirstFree(free, 0);
    if i == |free| then None else
      var j := FirstFree(free[i := false], 0);
      if j == |free| then None else
        var k := FirstFree(free[i := false][j := false], 0);
        if k == |free| then None else Some((i, j, k))
  }

  lemma Alloc3Succeeds(free: seq<bool>)
    ensures Alloc3(free).Some? <==> FreeCount(free) >= 3
  {
    FreeCountBound(free);
    var i := FirstFree(free, 0);
    if i < |free| {
      FreeCountUpdate(free, i, false);
      FreeCountBound(free[i := false]);
      var j := FirstFree(free[i := false], 0);
      if j < |free| {
        FreeCountUpdate(free[i := false], j, false);
        FreeCountBound(free[i := false][j := false]);
      }
    }
  }

  datatype Freed = Panic | Freed(free: seq<bool>, desc: seq<Desc>)

  // free_chain: frees descriptor i and those chained to it; panics on one that is free already.
  function FreeChain(free: seq<bool>, desc: seq<Desc>, i: nat): Freed
    requires |free| == |desc|
    decreases |free| - FreeCount(free)
  {
    if i >= |free| || free[i] then Panic
    else
      FreeCountUpdate(free, i, true);
      FreeCountBound(free[i := true]);
      var free', desc' := free[i := true], desc[i := CLEAR];
      if desc[i].hasNext then FreeChain(free', desc', desc[i].next) else Freed(free', desc')
  }

  // The three descriptors of a request, as virtio_disk_rw formats them.
  predicate IsChain(desc: seq<Desc>, head: nat, r: Request) {
    && head < |desc| && r.mid < |desc| && r.tail < |desc|
    && head != r.mid && head != r.tail && r.mid != r.tail
    && desc[head] == Desc(HeaderOf(head), HEADER_LEN, true, false, r.mid)
    && desc[r.mid] == Desc(DataOf(r.buf), BSIZE, true, !r.write, r.tail)
    && desc[r.tail] == Desc(StatusOf(head), 1, false, true, 0)
  }

  lemma FreeChainOfThree(free: seq<bool>, desc: seq<Desc>, head: nat, r: Request)
    requires |free| == |desc| && IsChain(desc, head, r) && !free[head] && !free[r.mid] && !free[r.tail]
    ensures FreeChain(free, desc, head)
         == Freed(SetThree(free, head, r, true), SetThree(desc, head, r, CLEAR))
    ensures FreeCount(SetThree(free, head, r, true)) == FreeCount(free) + 3
  {
    var free1, desc1 := free[head := true], desc[head := CLEAR];
    var free2, desc2 := free1[r.mid := true], desc1[r.mid := CLEAR];
    FreeCountUpdate(free, head, true);
    FreeCountUpdate(free1, r.mid, true);
    FreeCountUpdate(free2, r.tail, true);
    assert FreeChain(free2, desc2, r.tail) == Freed(free2[r.tail := true], desc2[r.tail := CLEAR]);
    assert FreeChain(free1, desc1, r.mid) == FreeChain(free2, desc2, r.tail);
  }

  // ----- steps -----

  datatype Step =
    | Modify(buf: nat, data: Block) // whoever holds the buffer's lock changes its contents
    | Build(buf: nat, blockno: nat, write: bool)  // virtio_disk_rw up to the write of avail->ring
    | Publish                       // avail->idx += 1, then wait
    | Fetch                         // device: takes the next head from the available ring
    | Complete(head: nat)           // device: finishes a chain it has fetched
    | Interrupt                     // one round of virtio_disk_intr's loop
    | Finish(head: nat)             // virtio_disk_rw after its wait

  predicate Shape(s: State) {
    && |s.free| == |s.desc| == |s.info| == |s.ops| == |s.avail| == |s.used| == |s.owner| == NUM
    && s.availIdx < WRAP && s.usedIdx < WRAP && s.driverUsed < WRAP && s.deviceAvail < WRAP
  }

  predicate Enabled(s: State, step: Step)
    requires Shape(s)
  {
    match step
    case Modify(buf, data) => forall h :: h in s.reqs ==> s.reqs[h].buf != buf
    case Build(buf, blockno, write) =>
      // the caller holds the buffer's lock, so no other request is using it
      s.building.None? && (forall h :: h in s.reqs ==> s.reqs[h].buf != buf) && Alloc3(s.free).Some?
    case Publish => s.building.Some? && s.building.value in s.reqs
    case Fetch => s.deviceAvail != s.availIdx
    case Complete(head) => head in s.reqs && head < NUM && s.reqs[head].stage.Fetched?
    case Interrupt => s.building.None? && s.driverUsed != s.usedIdx
    case Finish(head) =>
      && s.building.None? && head in s.reqs && s.reqs[head].buf !in s.busy
      && head < NUM && s.reqs[head].mid < NUM && s.reqs[head].tail < NUM
  }

  function Incr(i: nat): nat { (i + 1) % WRAP }

  function DoBuild(s: State, buf: nat, blockno: nat, write: bool): State
    requires Shape(s) && Alloc3(s.free).Some?
  {
    var (i, j, k) := Alloc3(s.free).value;
    var r := Request(buf, blockno, j, k, write, Building);
    s.(free := SetThree(s.free, i, r, false),
       desc := FormatChain(s.desc, i, r),
       info := s.info[i := Info(Some(buf), 0xff)],
       ops := s.ops[i := Header(write, blockno * PER_BLOCK)],
       busy := s.busy + {buf},
       avail := s.avail[s.availIdx % NUM := i],
       building := Some(i),
       reqs := s.reqs[i := r],
       owner := SetThree(s.owner, i, r, Some(i)))
  }

  function DoPublish(s: State): State
    requires s.building.Some? && s.building.value in s.reqs
  {
    var h := s.building.value;
    s.(availIdx := Incr(s.availIdx), building := None,
       reqs := s.reqs[h := s.reqs[h].(stage := Posted)], posted := s.posted + [h])
  }

  // The device reads a head; what it gets is whatever the ring slot holds.
  function DoFetch(s: State): State
    requires Shape(s)
  {
    var h := s.avail[s.deviceAvail % NUM];
    s.(deviceAvail := Incr(s.deviceAvail),
       reqs := if h in s.reqs then s.reqs[h := s.reqs[h].(stage := Fetched)] else s.reqs,
       posted := if s.posted == [] then [] else s.posted[1..])
  }

  // What the device makes of a chain: it follows the descriptors, and moves data only if they are what a block
  // request needs, with the data on the side that the header asks for.
  datatype Service = Bad | Moved(data: map<nat, Block>, disk: map<nat, Sector>, op: nat)

  function Serve(desc: seq<Desc>, ops: seq<Header>, data: map<nat, Block>, disk: map<nat, Sector>, head: nat): Service {
    if head >= |desc| then Bad else
      var d0 := desc[head];
      if !d0.addr.HeaderOf? || d0.addr.op >= |ops| || d0.len != HEADER_LEN || d0.deviceWrites || !d0.hasNext || d0.next >= |desc| then Bad
      else
        var d1, op := desc[d0.next], ops[d0.addr.op];
        if !d1.addr.DataOf? || d1.len != BSIZE || d1.deviceWrites == op.write || !d1.hasNext || d1.next >= |desc| then Bad
        else
          var d2, b := desc[d1.next], d1.addr.buf;
          if !d2.addr.StatusOf? || d2.len != 1 || !d2.deviceWrites || d2.hasNext then Bad
          else if op.write then
            Moved(data, disk[op.sector := Contents(data, b).0][op.sector + 1 := Contents(data, b).1], d2.addr.op)
          else
            Moved(data[b := (SectorAt(disk, op.sector), SectorAt(disk, op.sector + 1))], disk, d2.addr.op)
  }

  // A chain that makes no sense is answered with an error.
  function DoComplete(s: State, head: nat): State
    requires Shape(s) && head in s.reqs && head < NUM
  {
    var v := Serve(s.desc, s.ops, s.data, s.disk, head);
    s.(info := if v.Moved? && v.op < NUM then s.info[v.op := s.info[v.op].(status := 0)] else s.info[head := s.info[head].(status := 1)],
       data := if v.Moved? then v.data else s.data,
       disk := if v.Moved? then v.disk else s.disk,
       used := s.used[s.usedIdx % NUM := head], usedIdx := Incr(s.usedIdx),
       reqs := s.reqs[head := s.reqs[head].(stage := Used)], finished := s.finished + [head])
  }

  // The driver releases the buffer recorded for the id it reads from the used ring.
  function DoInterrupt(s: State): State
    requires Shape(s)
  {
    var id := s.used[s.driverUsed % NUM];
    s.(busy := if id < NUM && s.info[id].buf.Some? then s.busy - {s.info[id].buf.value} else s.busy,
       driverUsed := Incr(s.driverUsed),
       reqs := if id in s.reqs then s.reqs[id := s.reqs[id].(stage := Signalled)] else s.reqs,
       finished := if s.finished == [] then [] else s.finished[1..])
  }

  function DoFinish(s: State, head: nat): State
    requires Shape(s) && head in s.reqs && head < NUM && s.reqs[head].mid < NUM && s.reqs[head].tail < NUM
  {
    var r := FreeChain(s.free, s.desc, head);
    s.(info := s.info[head := s.info[head].(buf := None)],
       free := if r.Freed? then r.free else s.free,
       desc := if r.Freed? then r.desc else s.desc,
       reqs := s.reqs - {head},
       owner := SetThree(s.owner, head, s.reqs[head], None))
  }

  function Apply(s: State, step: Step): State
    requires Shape(s) && Enabled(s, step)
  {
    match step
    case Modify(buf, data) => s.(data := s.data[buf := data])
    case Build(buf, blockno, write) => DoBuild(s, buf, blockno, write)
    case Publish => DoPublish(s)
    case Fetch => DoFetch(s)
    case Complete(head) => DoComplete(s, head)
    case Interrupt => DoInterrupt(s)
    case Finish(head) => DoFinish(s, head)
  }

  // ----- what every step keeps -----

  // The chain of a request is as formatted, and its three descriptors are its own.
  predicate OwnChain(desc: seq<Desc>, owner: seq<Option<nat>>, h: nat, r: Request) {
    && |desc| == |owner| && IsChain(desc, h, r)
    && owner[h] == Some(h) && owner[r.mid] == Some(h) && owner[r.tail] == Some(h)
  }

  // A descriptor is free, or belongs to the chain of an outstanding request.
  predicate OwnedRight(free: seq<bool>, owner: seq<Option<nat>>, reqs: map<nat, Request>, d: nat)
    requires d < |free| == |owner|
  {
    && (free[d] <==> owner[d].None?)
    && (owner[d].Some? ==> owner[d].value in reqs && InChain(owner[d].value, reqs[owner[d].value], d))
  }

  predicate InChain(h: nat, r: Request, d: nat) {
    d == h || d == r.mid || d == r.tail
  }

  ghost predicate Chains(free: seq<bool>, desc: seq<Desc>, owner: seq<Option<nat>>, reqs: map<nat, Request>) {
    && |free| == |desc| == |owner| == NUM
    && (forall h {:trigger OwnChain(desc, owner, h, reqs[h])} :: h in reqs ==> OwnChain(desc, owner, h, reqs[h]))
    && (forall d :: 0 <= d < NUM ==> OwnedRight(free, owner, reqs, d))
    && FreeCount(free) + 3 * |reqs| == NUM
  }

  // A request's buffer is recorded with its chain and is busy until the request is signalled; the device
  // has reported success for a used chain.
  predicate BufferOk(info: seq<Info>, busy: set<nat>, h: nat, r: Request) {
    && h < |info| && info[h].buf == Some(r.buf)
    && (r.stage.Used? ==> info[h].status == 0)
    && (r.buf in busy <==> !r.stage.Signalled?)
  }

  ghost predicate Buffers(info: seq<Info>, reqs: map<nat, Request>, busy: set<nat>) {
    && (forall h {:trigger BufferOk(info, busy, h, reqs[h])} :: h in reqs ==> BufferOk(info, busy, h, reqs[h]))
    && (forall g, h :: g in reqs && h in reqs && g != h ==> reqs[g].buf != reqs[h].buf)
  }

  // A request's header asks for what the caller wanted.
  predicate HeaderOk(ops: seq<Header>, h: nat, r: Request) {
    h < |ops| && ops[h] == Header(r.write, PER_BLOCK * r.blockno)
  }

  ghost predicate Headers(ops: seq<Header>, reqs: map<nat, Request>) {
    forall h {:trigger HeaderOk(ops, h, reqs[h])} :: h in reqs ==> HeaderOk(ops, h, reqs[h])
  }

  // At most one chain is being set up, and its head is in the next slot of the available ring.
  ghost predicate Setup(reqs: map<nat, Request>, building: Option<nat>, slot: nat) {
    && (forall h :: h in reqs ==> (reqs[h].stage.Building? <==> building == Some(h)))
    && (building.Some? ==> building.value in reqs && slot == building.value)
  }

  // A ring holds a queue in the slots between the reader's index and the writer's.
  ghost predicate Ring(ring: seq<nat>, reader: nat, writer: nat, queue: seq<nat>) {
    && |ring| == NUM && reader < WRAP && writer == (reader + |queue|) % WRAP
    && forall k :: 0 <= k < |queue| ==> ring[(reader + k) % NUM] == queue[k]
  }

  // The queue lists the requests of one stage, each once.
  ghost predicate Lists(queue: seq<nat>, reqs: map<nat, Request>, stage: Stage) {
    && (forall j, k :: 0 <= j < k < |queue| ==> queue[j] != queue[k])
    && (forall h :: h in queue <==> h in reqs && reqs[h].stage == stage)
  }

  ghost predicate ChainsInv(s: State) {
    && Shape(s) && Chains(s.free, s.desc, s.owner, s.reqs) && Buffers(s.info, s.reqs, s.busy) && Headers(s.ops, s.reqs)
    && Setup(s.reqs, s.building, s.avail[s.availIdx % NUM])
  }

  ghost predicate RingsInv(s: State) {
    && Ring(s.avail, s.deviceAvail, s.availIdx, s.posted) && Lists(s.posted, s.reqs, Posted)
    && Ring(s.used, s.driverUsed, s.usedIdx, s.finished) && Lists(s.finished, s.reqs, Used)
  }

  ghost predicate Inv(s: State) {
    ChainsInv(s) && RingsInv(s)
  }

  // ----- rings -----

  function Elems(q: seq<nat>): set<nat> { set k | 0 <= k < |q| :: q[k] }

  lemma {:induction false} DistinctSize(q: seq<nat>)
    requires forall j, k :: 0 <= j < k < |q| ==> q[j] != q[k]
    ensures |Elems(q)| == |q|
  {
    if q != [] {
      var last := |q| - 1;
      DistinctSize(q[..last]);
      assert Elems(q) == Elems(q[..last]) + {q[last]} by {
        assert forall k :: 0 <= k < last ==> q[..last][k] == q[k];
      }
      assert q[last] !in Elems(q[..last]);
    }
  }

  // There are at most two outstanding requests, so a queue never fills its ring.
  lemma QueueFits(queue: seq<nat>, reqs: map<nat, Request>, stage: Stage)
    requires 3 * |reqs| <= NUM && Lists(queue, reqs, stage)
    ensures |queue| <= |reqs| <= 2
  {
    DistinctSize(queue);
    SubsetSize(Elems(queue), reqs.Keys);
  }

  lemma SameSlot(x: nat, y: nat)
    ensures (x + NUM * y) % NUM == x % NUM
  {
  }

  lemma NextSlots(x: nat, d: nat)
    requires 0 < d < NUM
    ensures (x + d) % NUM != x % NUM
  {
  }

  // The slot at the writer's index is none of the unread ones: WRAP is a multiple of NUM.
  lemma WriterApart(reader: nat, writer: nat, n: nat, k: nat)
    requires writer == (reader + n) % WRAP && k < n < NUM
    ensures (reader + k) % NUM != writer % NUM
  {
    var q := (reader + n) / WRAP;
    assert reader + n == writer + NUM * (WRAP / NUM * q);
    SameSlot(writer, WRAP / NUM * q);
    NextSlots(reader + k, n - k);
  }

  // Writing the slot at the writer's index disturbs no unread entry, even when the index has wrapped.
  lemma RingWrite(ring: seq<nat>, reader: nat, writer: nat, queue: seq<nat>, h: nat)
    requires Ring(ring, reader, writer, queue) && |queue| < NUM
    ensures Ring(ring[writer % NUM := h], reader, writer, queue)
  {
    forall k | 0 <= k < |queue| ensures ring[writer % NUM := h][(reader + k) % NUM] == queue[k] {
      WriterApart(reader, writer, |queue|, k);
    }
  }

  // Bumping the writer's index makes the slot part of the queue.
  lemma RingPush(ring: seq<nat>, reader: nat, writer: nat, queue: seq<nat>)
    requires Ring(ring, reader, writer, queue) && |queue| < NUM
    ensures Ring(ring, reader, Incr(writer), queue + [ring[writer % NUM]])
  {
    assert writer % NUM == (reader + |queue|) % NUM;
  }

  lemma IncrWraps(i: nat, n: nat)
    requires i < WRAP
    ensures (Incr(i) + n) % WRAP == (i + (n + 1)) % WRAP && (Incr(i) + n) % NUM == (i + (n + 1)) % NUM
  {
    if i + 1 == WRAP {
      SameSlot(n, WRAP / NUM);
    }
  }

  // Different indices mean a non-empty queue, and the reader's slot holds its first entry.
  lemma RingPop(ring: seq<nat>, reader: nat, writer: nat, queue: seq<nat>)
    requires Ring(ring, reader, writer, queue) && reader != writer
    ensures queue != [] && ring[reader % NUM] == queue[0]
    ensures Ring(ring, Incr(reader), writer, queue[1..])
  {
    assert queue != [];
    IncrWraps(reader, |queue| - 1);
    forall k | 0 <= k < |queue| - 1 ensures ring[(Incr(reader) + k) % NUM] == queue[1..][k] {
      IncrWraps(reader, k);
      assert ring[(reader + (k + 1)) % NUM] == queue[k + 1];
    }
    assert ring[(reader + 0) % NUM] == queue[0];
  }

  // ----- every step keeps the invariant -----

  // Moving a request to another stage leaves the chains alone.
  lemma ChainsStage(free: seq<bool>, desc: seq<Desc>, owner: seq<Option<nat>>, reqs: map<nat, Request>, h: nat, stage: Stage)
    requires Chains(free, desc, owner, reqs) && h in reqs
    ensures Chains(free, desc, owner, reqs[h := reqs[h].(stage := stage)])
  {
    var reqs' := reqs[h := reqs[h].(stage := stage)];
    assert reqs'.Keys == reqs.Keys;
    forall g | g in reqs' ensures OwnChain(desc, owner, g, reqs'[g]) {
      assert OwnChain(desc, owner, g, reqs[g]);
    }
    forall d | 0 <= d < NUM ensures OwnedRight(free, owner, reqs', d) {
      assert OwnedRight(free, owner, reqs, d);
    }
  }

  function FormatChain(desc: seq<Desc>, i: nat, r: Request): seq<Desc>
    requires i < |desc| && r.mid < |desc| && r.tail < |desc|
  {
    desc[i := Desc(HeaderOf(i), HEADER_LEN, true, false, r.mid)]
        [r.mid := Desc(DataOf(r.buf), BSIZE, true, !r.write, r.tail)]
        [r.tail := Desc(StatusOf(i), 1, false, true, 0)]
  }

  function SetThree<T>(s: seq<T>, i: nat, r: Request, v: T): seq<T>
    requires i < |s| && r.mid < |s| && r.tail < |s|
  {
    s[i := v][r.mid := v][r.tail := v]
  }

  // Formatting free descriptors touches no other chain.
  lemma BuildApart(desc: seq<Desc>, owner: seq<Option<nat>>, i: nat, r: Request, h: nat, q: Request)
    requires OwnChain(desc, owner, h, q) && i < |desc| && r.mid < |desc| && r.tail < |desc|
    requires owner[i].None? && owner[r.mid].None? && owner[r.tail].None?
    ensures OwnChain(FormatChain(desc, i, r), SetThree(owner, i, r, Some(i)), h, q)
  {
  }

  lemma BuildCounts(free: seq<bool>, i: nat, r: Request)
    requires i < |free| && r.mid < |free| && r.tail < |free|
    requires i != r.mid && i != r.tail && r.mid != r.tail && free[i] && free[r.mid] && free[r.tail]
    ensures FreeCount(SetThree(free, i, r, false)) == FreeCount(free) - 3
  {
    FreeCountUpdate(free, i, false);
    FreeCountUpdate(free[i := false], r.mid, false);
    FreeCountUpdate(free[i := false][r.mid := false], r.tail, false);
  }

  lemma BuildOwner(free: seq<bool>, owner: seq<Option<nat>>, reqs: map<nat, Request>, i: nat, r: Request, d: nat)
    requires d < |free| == |owner| && i < |free| && r.mid < |free| && r.tail < |free| && OwnedRight(free, owner, reqs, d)
    requires i !in reqs
    ensures OwnedRight(SetThree(free, i, r, false), SetThree(owner, i, r, Some(i)), reqs[i := r], d)
  {
  }

  lemma ChainsBuild(free: seq<bool>, desc: seq<Desc>, owner: seq<Option<nat>>, reqs: map<nat, Request>,
                    i: nat, r: Request)
    requires Chains(free, desc, owner, reqs) && i < NUM && r.mid < NUM && r.tail < NUM
    requires i != r.mid && i != r.tail && r.mid != r.tail && free[i] && free[r.mid] && free[r.tail]
    ensures i !in reqs
    ensures Chains(SetThree(free, i, r, false), FormatChain(desc, i, r), SetThree(owner, i, r, Some(i)), reqs[i := r])
  {
    var reqs' := reqs[i := r];
    var desc', owner', free' := FormatChain(desc, i, r), SetThree(owner, i, r, Some(i)), SetThree(free, i, r, false);
    assert OwnedRight(free, owner, reqs, i) && OwnedRight(free, owner, reqs, r.mid) && OwnedRight(free, owner, reqs, r.tail);
    assert i in reqs ==> OwnChain(desc, owner, i, reqs[i]);
    BuildCounts(free, i, r);
    assert reqs'.Keys == reqs.Keys + {i};
    forall h | h in reqs' ensures OwnChain(desc', owner', h, reqs'[h]) {
      if h != i {
        BuildApart(desc, owner, i, r, h, reqs[h]);
      }
    }
    forall d | 0 <= d < NUM ensures OwnedRight(free', owner', reqs', d) {
      BuildOwner(free, owner, reqs, i, r, d);
    }
  }

  // Freeing one request's chain touches no other.
  lemma ChainsFinish(free: seq<bool>, desc: seq<Desc>, owner: seq<Option<nat>>, reqs: map<nat, Request>, i: nat)
    requires Chains(free, desc, owner, reqs) && i in reqs
    ensures OwnChain(desc, owner, i, reqs[i])
    ensures var r := reqs[i];
            && FreeChain(free, desc, i) == Freed(SetThree(free, i, r, true), SetThree(desc, i, r, CLEAR))
            && Chains(SetThree(free, i, r, true), SetThree(desc, i, r, CLEAR), SetThree(owner, i, r, None), reqs - {i})
  {
    var r, reqs' := reqs[i], reqs - {i};
    assert OwnChain(desc, owner, i, r);
    assert OwnedRight(free, owner, reqs, i) && OwnedRight(free, owner, reqs, r.mid) && OwnedRight(free, owner, reqs, r.tail);
    FreeChainOfThree(free, desc, i, r);
    var desc', owner', free' := SetThree(desc, i, r, CLEAR), SetThree(owner, i, r, None), SetThree(free, i, r, true);
    assert reqs'.Keys == reqs.Keys - {i};
    forall h | h in reqs' ensures OwnChain(desc', owner', h, reqs'[h]) {
      FinishApart(desc, owner, i, r, h, reqs[h]);
    }
    forall d | 0 <= d < NUM ensures OwnedRight(free', owner', reqs', d) {
      FinishOwner(free, owner, reqs, i, d);
    }
  }

  lemma FinishOwner(free: seq<bool>, owner: seq<Option<nat>>, reqs: map<nat, Request>, i: nat, d: nat)
    requires d < |free| == |owner| && i in reqs && i < |free| && reqs[i].mid < |free| && reqs[i].tail < |free|
    requires OwnedRight(free, owner, reqs, d)
    ensures OwnedRight(SetThree(free, i, reqs[i], true), SetThree(owner, i, reqs[i], None), reqs - {i}, d)
  {
  }

  lemma FinishApart(desc: seq<Desc>, owner: seq<Option<nat>>, i: nat, r: Request, h: nat, q: Request)
    requires OwnChain(desc, owner, i, r) && OwnChain(desc, owner, h, q) && h != i
    ensures OwnChain(SetThree(desc, i, r, CLEAR), SetThree(owner, i, r, None), h, q)
  {
  }

  // A request moves to another stage: it joins, leaves, or does not concern a queue.
  lemma ListsStage(queue: seq<nat>, reqs: map<nat, Request>, stage: Stage, h: nat, next: Stage)
    requires Lists(queue, reqs, stage) && h in reqs
    ensures var reqs' := reqs[h := reqs[h].(stage := next)];
            && (reqs[h].stage != stage && next != stage ==> Lists(queue, reqs', stage))
            && (reqs[h].stage != stage && next == stage ==> Lists(queue + [h], reqs', stage))
            && (queue != [] && queue[0] == h && next != stage ==> Lists(queue[1..], reqs', stage))
  {
  }

  lemma BuffersStage(info: seq<Info>, reqs: map<nat, Request>, busy: set<nat>, h: nat, next: Stage)
    requires Buffers(info, reqs, busy) && h in reqs && !reqs[h].stage.Signalled? && !next.Signalled? && !next.Used?
    ensures Buffers(info, reqs[h := reqs[h].(stage := next)], busy)
  {
    var reqs' := reqs[h := reqs[h].(stage := next)];
    forall g | g in reqs' ensures BufferOk(info, busy, g, reqs'[g]) {
      assert BufferOk(info, busy, g, reqs[g]);
    }
  }

  lemma BuffersUsed(info: seq<Info>, reqs: map<nat, Request>, busy: set<nat>, h: nat)
    requires Buffers(info, reqs, busy) && h in reqs && !reqs[h].stage.Signalled?
    ensures h < |info| && Buffers(info[h := info[h].(status := 0)], reqs[h := reqs[h].(stage := Used)], busy)
  {
    assert BufferOk(info, busy, h, reqs[h]);
    var info', reqs' := info[h := info[h].(status := 0)], reqs[h := reqs[h].(stage := Used)];
    forall g | g in reqs' ensures BufferOk(info', busy, g, reqs'[g]) {
      assert BufferOk(info, busy, g, reqs[g]);
    }
  }

  lemma BuffersSignal(info: seq<Info>, reqs: map<nat, Request>, busy: set<nat>, h: nat)
    requires Buffers(info, reqs, busy) && h in reqs
    ensures Buffers(info, reqs[h := reqs[h].(stage := Signalled)], busy - {reqs[h].buf})
  {
    forall g | g in reqs && g != h ensures BufferOk(info, busy - {reqs[h].buf}, g, reqs[g]) {
      assert BufferOk(info, busy, g, reqs[g]);
    }
    assert BufferOk(info, busy, h, reqs[h]);
  }

  lemma HeadersStage(ops: seq<Header>, reqs: map<nat, Request>, h: nat, next: Stage)
    requires Headers(ops, reqs) && h in reqs
    ensures Headers(ops, reqs[h := reqs[h].(stage := next)])
  {
    var reqs' := reqs[h := reqs[h].(stage := next)];
    forall g | g in reqs' ensures HeaderOk(ops, g, reqs'[g]) {
      assert HeaderOk(ops, g, reqs[g]);
    }
  }

  lemma SetupStage(reqs: map<nat, Request>, building: Option<nat>, slot: nat, h: nat, next: Stage)
    requires Setup(reqs, building, slot) && h in reqs && !reqs[h].stage.Building? && !next.Building?
    ensures Setup(reqs[h := reqs[h].(stage := next)], building, slot)
  {
  }

  lemma PublishKeepsInv(s: State)
    requires Inv(s) && Enabled(s, Publish)
    ensures Inv(DoPublish(s))
  {
    var h := s.building.value;
    ChainsStage(s.free, s.desc, s.owner, s.reqs, h, Posted);
    BuffersStage(s.info, s.reqs, s.busy, h, Posted);
    HeadersStage(s.ops, s.reqs, h, Posted);
    QueueFits(s.posted, s.reqs, Posted);
    RingPush(s.avail, s.deviceAvail, s.availIdx, s.posted);
    ListsStage(s.posted, s.reqs, Posted, h, Posted);
    ListsStage(s.finished, s.reqs, Used, h, Posted);
  }

  // What the device finds in the ring is the oldest posted request.
  lemma FetchesOldest(s: State)
    requires Inv(s) && Enabled(s, Fetch)
    ensures s.posted != [] && s.posted[0] in s.reqs && s.reqs[s.posted[0]].stage.Posted?
    ensures var h := s.posted[0];
            DoFetch(s) == s.(deviceAvail := Incr(s.deviceAvail), posted := s.posted[1..],
                             reqs := s.reqs[h := s.reqs[h].(stage := Fetched)])
    ensures Ring(s.avail, Incr(s.deviceAvail), s.availIdx, s.posted[1..])
  {
    RingPop(s.avail, s.deviceAvail, s.availIdx, s.posted);
    assert s.posted[0] in s.posted;
  }

  lemma FetchKeepsChains(s: State)
    requires Inv(s) && Enabled(s, Fetch)
    ensures ChainsInv(DoFetch(s))
  {
    FetchesOldest(s);
    ChainsStage(s.free, s.desc, s.owner, s.reqs, s.posted[0], Fetched);
    BuffersStage(s.info, s.reqs, s.busy, s.posted[0], Fetched);
    HeadersStage(s.ops, s.reqs, s.posted[0], Fetched);
    SetupStage(s.reqs, s.building, s.avail[s.availIdx % NUM], s.posted[0], Fetched);
  }

  lemma FetchKeepsRings(s: State)
    requires Inv(s) && Enabled(s, Fetch)
    ensures RingsInv(DoFetch(s))
  {
    FetchesOldest(s);
    ListsStage(s.posted, s.reqs, Posted, s.posted[0], Fetched);
    ListsStage(s.finished, s.reqs, Used, s.posted[0], Fetched);
  }

  // What a request does: the disk gets the contents of the buffer, or the buffer those of the block.
  function NewDisk(data: map<nat, Block>, disk: map<nat, Sector>, r: Request): map<nat, Sector> {
    var n := PER_BLOCK * r.blockno;
    if r.write then disk[n := Contents(data, r.buf).0][n + 1 := Contents(data, r.buf).1] else disk
  }

  function NewData(data: map<nat, Block>, disk: map<nat, Sector>, r: Request): map<nat, Block> {
    if r.write then data else data[r.buf := BlockAt(disk, r.blockno)]
  }

  // Blocks do not share sectors, so other blocks and other buffers are left alone.
  lemma EffectOn(data: map<nat, Block>, disk: map<nat, Sector>, r: Request, b: nat)
    ensures BlockAt(NewDisk(data, disk, r), b) == if r.write && b == r.blockno then Contents(data, r.buf) else BlockAt(disk, b)
    ensures Contents(NewData(data, disk, r), b) == if !r.write && b == r.buf then BlockAt(disk, r.blockno) else Contents(data, b)
  {
  }

  // The device does it, and reports success in the request's own status byte.
  lemma ServesRequest(s: State, head: nat)
    requires ChainsInv(s) && head in s.reqs
    ensures head < NUM
    ensures Serve(s.desc, s.ops, s.data, s.disk, head)
         == Moved(NewData(s.data, s.disk, s.reqs[head]), NewDisk(s.data, s.disk, s.reqs[head]), head)
    ensures DoComplete(s, head) == s.(info := s.info[head := s.info[head].(status := 0)],
              data := NewData(s.data, s.disk, s.reqs[head]), disk := NewDisk(s.data, s.disk, s.reqs[head]),
              used := s.used[s.usedIdx % NUM := head], usedIdx := Incr(s.usedIdx),
              reqs := s.reqs[head := s.reqs[head].(stage := Used)], finished := s.finished + [head])
  {
    assert OwnChain(s.desc, s.owner, head, s.reqs[head]) && HeaderOk(s.ops, head, s.reqs[head]);
  }

  lemma CompleteKeepsChains(s: State, head: nat)
    requires ChainsInv(s) && Enabled(s, Complete(head))
    ensures ChainsInv(DoComplete(s, head))
  {
    ServesRequest(s, head);
    HeadersStage(s.ops, s.reqs, head, Used);
    ChainsStage(s.free, s.desc, s.owner, s.reqs, head, Used);
    BuffersUsed(s.info, s.reqs, s.busy, head);
    assert Shape(DoComplete(s, head));
    SetupStage(s.reqs, s.building, s.avail[s.availIdx % NUM], head, Used);
  }

  lemma CompleteKeepsRings(s: State, head: nat)
    requires Inv(s) && Enabled(s, Complete(head))
    ensures RingsInv(DoComplete(s, head))
  {
    ServesRequest(s, head);
    QueueFits(s.finished, s.reqs, Used);
    RingWrite(s.used, s.driverUsed, s.usedIdx, s.finished, head);
    RingPush(s.used[s.usedIdx % NUM := head], s.driverUsed, s.usedIdx, s.finished);
    ListsStage(s.posted, s.reqs, Posted, head, Used);
    ListsStage(s.finished, s.reqs, Used, head, Used);
  }

  // The driver releases the buffer of the request the device finished longest ago, and no other; the
  // status it checks is 0.
  lemma SignalsOldest(s: State)
    requires Inv(s) && Enabled(s, Interrupt)
    ensures s.finished != [] && s.finished[0] in s.reqs && s.finished[0] < NUM && s.reqs[s.finished[0]].stage.Used?
    ensures s.info[s.finished[0]].status == 0
    ensures var h := s.finished[0];
            DoInterrupt(s) == s.(driverUsed := Incr(s.driverUsed), finished := s.finished[1..],
                                 busy := s.busy - {s.reqs[h].buf}, reqs := s.reqs[h := s.reqs[h].(stage := Signalled)])
    ensures Ring(s.used, Incr(s.driverUsed), s.usedIdx, s.finished[1..])
  {
    RingPop(s.used, s.driverUsed, s.usedIdx, s.finished);
    assert s.finished[0] in s.finished;
    assert BufferOk(s.info, s.busy, s.finished[0], s.reqs[s.finished[0]]);
  }

  lemma InterruptKeepsChains(s: State)
    requires Inv(s) && Enabled(s, Interrupt)
    ensures ChainsInv(DoInterrupt(s))
  {
    SignalsOldest(s);
    ChainsStage(s.free, s.desc, s.owner, s.reqs, s.finished[0], Signalled);
    BuffersSignal(s.info, s.reqs, s.busy, s.finished[0]);
    HeadersStage(s.ops, s.reqs, s.finished[0], Signalled);
    SetupStage(s.reqs, s.building, s.avail[s.availIdx % NUM], s.finished[0], Signalled);
  }

  lemma InterruptKeepsRings(s: State)
    requires Inv(s) && Enabled(s, Interrupt)
    ensures RingsInv(DoInterrupt(s))
  {
    SignalsOldest(s);
    ListsStage(s.posted, s.reqs, Posted, s.finished[0], Signalled);
    ListsStage(s.finished, s.reqs, Used, s.finished[0], Signalled);
  }

  lemma ListsAdd(queue: seq<nat>, reqs: map<nat, Request>, stage: Stage, i: nat, r: Request)
    requires Lists(queue, reqs, stage) && i !in reqs && r.stage != stage
    ensures Lists(queue, reqs[i := r], stage)
  {
  }

  lemma ListsRemove(queue: seq<nat>, reqs: map<nat, Request>, stage: Stage, i: nat)
    requires Lists(queue, reqs, stage) && i in reqs && reqs[i].stage != stage
    ensures Lists(queue, reqs - {i}, stage)
  {
  }

  lemma BuffersBuild(info: seq<Info>, reqs: map<nat, Request>, busy: set<nat>, i: nat, r: Request)
    requires Buffers(info, reqs, busy) && i !in reqs && i < |info| && r.stage.Building?
    requires forall h :: h in reqs ==> reqs[h].buf != r.buf
    ensures Buffers(info[i := Info(Some(r.buf), 0xff)], reqs[i := r], busy + {r.buf})
  {
    var info', busy' := info[i := Info(Some(r.buf), 0xff)], busy + {r.buf};
    forall h | h in reqs ensures BufferOk(info', busy', h, reqs[h]) {
      assert BufferOk(info, busy, h, reqs[h]);
    }
  }

  lemma HeadersBuild(ops: seq<Header>, reqs: map<nat, Request>, i: nat, r: Request)
    requires Headers(ops, reqs) && i !in reqs && i < |ops|
    ensures Headers(ops[i := Header(r.write, PER_BLOCK * r.blockno)], reqs[i := r])
  {
    var ops' := ops[i := Header(r.write, PER_BLOCK * r.blockno)];
    forall h | h in reqs ensures HeaderOk(ops', h, reqs[h]) {
      assert HeaderOk(ops, h, reqs[h]);
    }
  }

  lemma BuildKeepsInv(s: State, buf: nat, blockno: nat, write: bool)
    requires Inv(s) && Enabled(s, Build(buf, blockno, write))
    ensures Inv(DoBuild(s, buf, blockno, write))
  {
    var (i, j, k) := Alloc3(s.free).value;
    var r := Request(buf, blockno, j, k, write, Building);
    ChainsBuild(s.free, s.desc, s.owner, s.reqs, i, r);
    HeadersBuild(s.ops, s.reqs, i, r);
    BuffersBuild(s.info, s.reqs, s.busy, i, r);
    QueueFits(s.posted, s.reqs, Posted);
    RingWrite(s.avail, s.deviceAvail, s.availIdx, s.posted, i);
    ListsAdd(s.posted, s.reqs, Posted, i, r);
    ListsAdd(s.finished, s.reqs, Used, i, r);
  }

  lemma BuffersFinish(info: seq<Info>, reqs: map<nat, Request>, busy: set<nat>, i: nat)
    requires Buffers(info, reqs, busy) && i in reqs && i < |info|
    ensures Buffers(info[i := info[i].(buf := None)], reqs - {i}, busy)
  {
    var info' := info[i := info[i].(buf := None)];
    forall h | h in reqs && h != i ensures BufferOk(info', busy, h, reqs[h]) {
      assert BufferOk(info, busy, h, reqs[h]);
    }
  }

  // A requester whose buffer is no longer busy has been signalled, so the device is done with its chain.
  lemma FinishesSignalled(s: State, head: nat)
    requires Inv(s) && Enabled(s, Finish(head))
    ensures s.reqs[head].stage.Signalled? && OwnChain(s.desc, s.owner, head, s.reqs[head])
    ensures var r := s.reqs[head];
            && FreeChain(s.free, s.desc, head) == Freed(SetThree(s.free, head, r, true), SetThree(s.desc, head, r, CLEAR))
            && Chains(SetThree(s.free, head, r, true), SetThree(s.desc, head, r, CLEAR), SetThree(s.owner, head, r, None),
                      s.reqs - {head})
  {
    assert BufferOk(s.info, s.busy, head, s.reqs[head]);
    ChainsFinish(s.free, s.desc, s.owner, s.reqs, head);
  }

  lemma FinishKeepsInv(s: State, head: nat)
    requires Inv(s) && Enabled(s, Finish(head))
    ensures OwnChain(s.desc, s.owner, head, s.reqs[head]) && Inv(DoFinish(s, head))
  {
    FinishesSignalled(s, head);
    BuffersFinish(s.info, s.reqs, s.busy, head);
    forall h | h in s.reqs - {head} ensures HeaderOk(s.ops, h, (s.reqs - {head})[h]) {
      assert HeaderOk(s.ops, h, s.reqs[h]);
    }
    ListsRemove(s.posted, s.reqs, Posted, head);
    ListsRemove(s.finished, s.reqs, Used, head);
  }

  lemma StepKeepsInv(s: State, step: Step)
    requires Inv(s) && Enabled(s, step)
    ensures Inv(Apply(s, step))
  {
    match step
    case Modify(buf, data) =>
    case Build(buf, blockno, write) => BuildKeepsInv(s, buf, blockno, write);
    case Publish => PublishKeepsInv(s);
    case Fetch =>
      FetchKeepsChains(s);
      FetchKeepsRings(s);
    case Complete(head) =>
      CompleteKeepsChains(s, head);
      CompleteKeepsRings(s, head);
    case Interrupt =>
      InterruptKeepsChains(s);
      InterruptKeepsRings(s);
    case Finish(head) => FinishKeepsInv(s, head);
  }

  // ----- runs -----

  // All descriptors free, all indices 0, as virtio_disk_init leaves them.
  function Init(disk: map<nat, Sector>): State {
    State(seq(NUM, _ => true), seq(NUM, _ => CLEAR), seq(NUM, _ => Info(None, 0)), seq(NUM, _ => Header(false, 0)),
          seq(NUM, _ => 0), 0, seq(NUM, _ => 0), 0, 0, 0, {}, map[], disk, None, map[], seq(NUM, _ => None), [], [])
  }

  lemma InitInv(disk: map<nat, Sector>)
    ensures Inv(Init(disk))
  {
    var f := Init(disk).free;
    assert f == [true, true, true, true, true, true, true, true];
    FreeCountAll(f);
  }

  lemma {:induction false} FreeCountAll(free: seq<bool>)
    requires forall i :: 0 <= i < |free| ==> free[i]
    ensures FreeCount(free) == |free|
  {
    if free != [] {
      FreeCountAll(free[1..]);
    }
  }

  ghost predicate Taken(s: State, step: Step, t: State) {
    Shape(s) && Enabled(s, step) && t == Apply(s, step)
  }

  ghost predicate IsRun(states: seq<State>, steps: seq<Step>) {
    && |states| == |steps| + 1 && states[0] == Init(states[0].disk)
    && (forall i {:trigger steps[i]} :: 0 <= i < |steps| ==> Taken(states[i], steps[i], states[i + 1]))
  }

  lemma RunStepInv(states: seq<State>, steps: seq<Step>, i: nat)
    requires IsRun(states, steps) && 0 < i < |states| && Inv(states[i - 1])
    ensures Inv(states[i])
  {
    assert Taken(states[i - 1], steps[i - 1], states[i]);
    StepKeepsInv(states[i - 1], steps[i - 1]);
  }

  lemma {:induction false} RunInv(states: seq<State>, steps: seq<Step>, i: nat)
    requires IsRun(states, steps) && i < |states|
    ensures Inv(states[i])
  {
    if i == 0 {
      InitInv(states[0].disk);
    } else {
      RunInv(states, steps, i - 1);
      RunStepInv(states, steps, i);
    }
  }

  // Descriptors are conserved, and the chains of outstanding requests are disjoint and not free.
  lemma Conservation(states: seq<State>, steps: seq<Step>, i: nat, g: nat, h: nat, d: nat)
    requires IsRun(states, steps) && i < |states|
    ensures var s := states[i];
            && |s.free| == NUM
            && FreeCount(s.free) + 3 * |s.reqs| == NUM
            && (g in s.reqs && InChain(g, s.reqs[g], d) ==> d < NUM && !s.free[d])
            && (g in s.reqs && h in s.reqs && g != h && InChain(g, s.reqs[g], d) ==> !InChain(h, s.reqs[h], d))
            && (d < NUM && !s.free[d] ==> exists k :: k in s.reqs && InChain(k, s.reqs[k], d))
  {
    RunInv(states, steps, i);
    var s := states[i];
    assert g in s.reqs ==> OwnChain(s.desc, s.owner, g, s.reqs[g]);
    assert h in s.reqs ==> OwnChain(s.desc, s.owner, h, s.reqs[h]);
    if d < NUM {
      assert OwnedRight(s.free, s.owner, s.reqs, d);
    }
  }

  // A chain is freed only when the device has finished it, and then exactly its three descriptors are,
  // without a panic.
  lemma FreedWhenDone(states: seq<State>, steps: seq<Step>, i: nat, head: nat)
    requires IsRun(states, steps) && i < |steps| && steps[i] == Finish(head)
    ensures var s := states[i];
            && head in s.reqs && s.reqs[head].stage.Signalled? && IsChain(s.desc, head, s.reqs[head]) && |s.free| == NUM == |s.desc|
            && FreeChain(s.free, s.desc, head)
               == Freed(SetThree(s.free, head, s.reqs[head], true), SetThree(s.desc, head, s.reqs[head], CLEAR))
  {
    RunInv(states, steps, i);
    assert Taken(states[i], steps[i], states[i + 1]);
    FinishesSignalled(states[i], head);
  }

  // An interrupt releases exactly the buffer whose request the device has completed, and finds its status 0.
  lemma ReleasesOwnBuffer(states: seq<State>, steps: seq<Step>, i: nat)
    requires IsRun(states, steps) && i < |steps| && steps[i] == Interrupt
    ensures var s, t := states[i], states[i + 1];
            && Shape(s)
            && var id := s.used[s.driverUsed % NUM];
            && id in s.reqs && id < NUM && s.reqs[id].stage.Used? && s.info[id].status == 0
            && t.busy == s.busy - {s.reqs[id].buf} && s.reqs[id].buf in s.busy
  {
    RunInv(states, steps, i);
    assert Taken(states[i], steps[i], states[i + 1]);
    var s := states[i];
    SignalsOldest(s);
    RingPop(s.used, s.driverUsed, s.usedIdx, s.finished);
    assert BufferOk(s.info, s.busy, s.finished[0], s.reqs[s.finished[0]]);
  }

  lemma UnreadApart(ring: seq<nat>, reader: nat, writer: nat, queue: seq<nat>, reqs: map<nat, Request>, stage: Stage, k: nat)
    requires Ring(ring, reader, writer, queue) && Lists(queue, reqs, stage) && 3 * |reqs| <= NUM
    ensures k < |queue| ==> (reader + k) % NUM != writer % NUM
  {
    QueueFits(queue, reqs, stage);
    if k < |queue| {
      WriterApart(reader, writer, |queue|, k);
    }
  }

  // Neither side writes a ring slot that the other has yet to read, whatever the indices have wrapped to.
  lemma NoOverrun(states: seq<State>, steps: seq<Step>, i: nat, k: nat)
    requires IsRun(states, steps) && i < |states|
    ensures var s := states[i];
            && s.availIdx == (s.deviceAvail + |s.posted|) % WRAP && s.usedIdx == (s.driverUsed + |s.finished|) % WRAP
            && (k < |s.posted| ==> (s.deviceAvail + k) % NUM != s.availIdx % NUM)
            && (k < |s.finished| ==> (s.driverUsed + k) % NUM != s.usedIdx % NUM)
  {
    RunInv(states, steps, i);
    var s := states[i];
    UnreadApart(s.avail, s.deviceAvail, s.availIdx, s.posted, s.reqs, Posted, k);
    UnreadApart(s.used, s.driverUsed, s.usedIdx, s.finished, s.reqs, Used, k);
  }

  // ----- a request from its call to its return -----

  // What the caller asked for, and the descriptors taken for it.
  predicate IsCall(s: State, step: Step, head: nat, c: Request) {
    Alloc3(s.free) == Some((head, c.mid, c.tail)) && step == Build(c.buf, c.blockno, c.write)
  }

  predicate IsFor(r: Request, c: Request) { r == c.(stage := r.stage) }

  // The request is outstanding, the device has completed it or not, and the buffer has these contents.
  predicate Outstanding(s: State, head: nat, c: Request, completed: bool, v: Block) {
    && head in s.reqs && IsFor(s.reqs[head], c) && completed == (s.reqs[head].stage.Used? || s.reqs[head].stage.Signalled?)
    && Contents(s.data, c.buf) == v
  }

  lemma BuildStarts(s: State, step: Step, head: nat, c: Request)
    requires Inv(s) && Enabled(s, step) && IsCall(s, step, head, c)
    ensures Outstanding(Apply(s, step), head, c, false, Contents(s.data, c.buf))
  {
  }

  lemma BuildApartFrom(s: State, head: nat)
    requires Inv(s) && head in s.reqs && Alloc3(s.free).Some?
    ensures Alloc3(s.free).value.0 != head
  {
    assert OwnedRight(s.free, s.owner, s.reqs, Alloc3(s.free).value.0) && OwnChain(s.desc, s.owner, head, s.reqs[head]);
  }

  // No step of others touches the request, its buffer or its completion.
  lemma OthersApart(s: State, step: Step, head: nat, c: Request, completed: bool, v: Block)
    requires Inv(s) && Enabled(s, step) && Outstanding(s, head, c, completed, v)
    requires step != Complete(head) && step != Finish(head)
    ensures Outstanding(Apply(s, step), head, c, completed, v)
  {
    hide Chains, RingsInv, Headers, FreeChain, Serve, Alloc3;
    match step
    case Modify(_, _) =>
    case Build(buf, blockno, write) => BuildApartFrom(s, head);
    case Publish =>
    case Fetch => FetchesOldest(s);
    case Complete(h) =>
      ServesRequest(s, h);
      EffectOn(s.data, s.disk, s.reqs[h], c.buf);
    case Interrupt => SignalsOldest(s);
    case Finish(h) =>
  }

  // The completion itself: the block gets what the buffer holds, or the buffer what the block holds; all other
  // blocks and buffers stay.
  lemma Completes(s: State, head: nat, c: Request, v: Block, b: nat)
    requires Inv(s) && Enabled(s, Complete(head)) && Outstanding(s, head, c, false, v)
    ensures var t := DoComplete(s, head);
            && Outstanding(t, head, c, true, if c.write then v else BlockAt(s.disk, c.blockno))
            && BlockAt(t.disk, b) == (if c.write && b == c.blockno then v else BlockAt(s.disk, b))
            && Contents(t.data, b) == (if !c.write && b == c.buf then BlockAt(s.disk, c.blockno) else Contents(s.data, b))
  {
    ServesRequest(s, head);
    EffectOn(s.data, s.disk, s.reqs[head], b);
    EffectOn(s.data, s.disk, s.reqs[head], c.buf);
  }

  // From its call at step i on, until it returns.
  ghost predicate Called(states: seq<State>, steps: seq<Step>, i: nat, k: nat, head: nat, c: Request) {
    && IsRun(states, steps) && i < k < |states| == |steps| + 1 && IsCall(states[i], steps[i], head, c)
    && forall j :: i < j < k ==> steps[j] != Finish(head)
  }

  // The last completion before step k, i if there is none.
  function ServedAt(steps: seq<Step>, i: nat, k: nat, head: nat): (m: nat)
    requires i < k <= |steps|
    ensures i <= m < k && (m > i ==> steps[m] == Complete(head))
  {
    if k == i + 1 then i else if steps[k - 1] == Complete(head) then k - 1 else ServedAt(steps, i, k - 1, head)
  }

  // What the buffer holds: its contents at the call, or what a read has brought.
  function Brought(states: seq<State>, i: nat, m: nat, c: Request): Block
    requires i <= m < |states|
  {
    if m == i || c.write then Contents(states[i].data, c.buf) else BlockAt(states[m].disk, c.blockno)
  }

  lemma {:induction false} StaysOutstanding(states: seq<State>, steps: seq<Step>, i: nat, k: nat, head: nat, c: Request)
    requires Called(states, steps, i, k, head, c)
    ensures var m := ServedAt(steps, i, k, head);
            && Outstanding(states[k], head, c, m != i, Brought(states, i, m, c))
            && (m != i ==> CompletedAt(states[m], states[m + 1], c, Contents(states[i].data, c.buf)))
            && forall n :: i < n < k && n != m ==> steps[n] != Complete(head)
  {
    hide Outstanding, Inv, Enabled, Apply, BlockAt, Contents, CompletedAt, IsRun, IsCall;
    RunTaken(states, steps, k - 1);
    if k == i + 1 {
      BuildStarts(states[i], steps[i], head, c);
    } else {
      StaysOutstanding(states, steps, i, k - 1, head, c);
      var m := ServedAt(steps, i, k - 1, head);
      if steps[k - 1] == Complete(head) {
        CompletesOnce(states[k - 1], head, c, m != i, Brought(states, i, m, c));
      } else {
        OthersApart(states[k - 1], steps[k - 1], head, c, m != i, Brought(states, i, m, c));
      }
    }
  }

  // The three descriptors taken are as virtio_disk_rw formats them until the request returns: the device may write
  // the data exactly if this is a read, the header never and the status always.
  lemma Formatted(states: seq<State>, steps: seq<Step>, i: nat, k: nat, head: nat, c: Request)
    requires Called(states, steps, i, k, head, c)
    ensures IsChain(states[k].desc, head, c) && head < |states[k].ops| && states[k].ops[head] == Header(c.write, PER_BLOCK * c.blockno)
  {
    StaysOutstanding(states, steps, i, k, head, c);
    RunInv(states, steps, k);
    var s := states[k];
    assert OwnChain(s.desc, s.owner, head, s.reqs[head]) && HeaderOk(s.ops, head, s.reqs[head]);
  }

  // A request takes effect at one moment between its call and its return: it has exactly one completion, at step
  // m.  What a write leaves in the block then is what the buffer held at the call; what a read returns is what
  // the block held then.
  lemma Served(states: seq<State>, steps: seq<Step>, i: nat, k: nat, head: nat, c: Request) returns (m: nat)
    requires Called(states, steps, i, k, head, c) && k < |steps| && steps[k] == Finish(head)
    ensures i < m < k && steps[m] == Complete(head) && forall j :: i < j < k && j != m ==> steps[j] != Complete(head)
    ensures CompletedAt(states[m], states[m + 1], c, Contents(states[i].data, c.buf))
    ensures Contents(states[k].data, c.buf) == if c.write then Contents(states[i].data, c.buf) else BlockAt(states[m].disk, c.blockno)
  {
    StaysOutstanding(states, steps, i, k, head, c);
    m := ServedAt(steps, i, k, head);
    RunTaken(states, steps, k);
    FinishReturns(states[k], head, c, m != i, Brought(states, i, m, c));
  }

  lemma RunTaken(states: seq<State>, steps: seq<Step>, i: nat)
    requires IsRun(states, steps) && i < |steps|
    ensures Inv(states[i]) && Enabled(states[i], steps[i]) && states[i + 1] == Apply(states[i], steps[i])
  {
    RunInv(states, steps, i);
    assert Taken(states[i], steps[i], states[i + 1]);
  }

  // A write has put v into its block, and a read the block into its buffer; all else is as it was.
  predicate CompletedOn(s: State, t: State, c: Request, v: Block, b: nat) {
    && BlockAt(t.disk, b) == (if c.write && b == c.blockno then v else BlockAt(s.disk, b))
    && Contents(t.data, b) == (if !c.write && b == c.buf then BlockAt(s.disk, c.blockno) else Contents(s.data, b))
  }

  ghost predicate CompletedAt(s: State, t: State, c: Request, v: Block) {
    forall b: nat :: CompletedOn(s, t, c, v, b)
  }

  lemma CompletesOnce(s: State, head: nat, c: Request, completed: bool, v: Block)
    requires Inv(s) && Enabled(s, Complete(head)) && Outstanding(s, head, c, completed, v)
    ensures !completed && CompletedAt(s, Apply(s, Complete(head)), c, v)
    ensures Outstanding(Apply(s, Complete(head)), head, c, true, if c.write then v else BlockAt(s.disk, c.blockno))
  {
    var t := Apply(s, Complete(head));
    forall b: nat ensures CompletedOn(s, t, c, v, b) {
      Completes(s, head, c, v, b);
    }
    Completes(s, head, c, v, 0);
  }

  lemma FinishReturns(s: State, head: nat, c: Request, completed: bool, v: Block)
    requires Inv(s) && Enabled(s, Finish(head)) && Outstanding(s, head, c, completed, v)
    ensures completed && Contents(s.data, c.buf) == v
  {
    FinishesSignalled(s, head);
  }

  // The disk changes only by the completion of a write.
  lemma DiskChanges(states: seq<State>, steps: seq<Step>, i: nat)
    requires IsRun(states, steps) && i < |steps| && states[i + 1].disk != states[i].disk
    ensures steps[i].Complete? && steps[i].head in states[i].reqs && states[i].reqs[steps[i].head].write
  {
    RunInv(states, steps, i);
    assert Taken(states[i], steps[i], states[i + 1]);
    if steps[i].Complete? {
      ServesRequest(states[i], steps[i].head);
    }
  }

  // ----- progress -----

  // How many steps a request has before it, and all those with heads below n together.
  function Left(stage: Stage): nat {
    match stage
    case Building => 5
    case Posted => 4
    case Fetched => 3
    case Used => 2
    case Signalled => 1
  }

  function Weight(reqs: map<nat, Request>, n: nat): nat {
    if n == 0 then 0 else Weight(reqs, n - 1) + if n - 1 in reqs then Left(reqs[n - 1].stage) else 0
  }

  lemma {:induction false} WeightStage(reqs: map<nat, Request>, n: nat, h: nat, next: Stage)
    requires h in reqs
    ensures Weight(reqs[h := reqs[h].(stage := next)], n) == Weight(reqs, n) + if h < n then Left(next) - Left(reqs[h].stage) else 0
  {
    if n > 0 {
      WeightStage(reqs, n - 1, h, next);
    }
  }

  lemma {:induction false} WeightRemove(reqs: map<nat, Request>, n: nat, h: nat)
    requires h in reqs
    ensures Weight(reqs - {h}, n) == Weight(reqs, n) - if h < n then Left(reqs[h].stage) else 0
  {
    if n > 0 {
      WeightRemove(reqs, n - 1, h);
    }
  }

  lemma HeadInRange(s: State, h: nat)
    requires ChainsInv(s) && h in s.reqs
    ensures h < NUM && s.reqs[h].mid < NUM && s.reqs[h].tail < NUM
  {
    assert OwnChain(s.desc, s.owner, h, s.reqs[h]);
  }

  lemma NotEmptyRing(ring: seq<nat>, reader: nat, writer: nat, queue: seq<nat>)
    requires Ring(ring, reader, writer, queue) && 0 < |queue| < NUM
    ensures reader != writer
  {
  }

  // While a request is outstanding, driver or device can take a step that brings one nearer to its return.
  lemma SomeStep(s: State, h: nat) returns (step: Step)
    requires Inv(s) && h in s.reqs
    ensures Enabled(s, step) && Weight(Apply(s, step).reqs, NUM) < Weight(s.reqs, NUM)
  {
    HeadInRange(s, h);
    if s.building.Some? {
      step := Publish;
      var g := s.building.value;
      HeadInRange(s, g);
      WeightStage(s.reqs, NUM, g, Posted);
    } else {
      step := StageStep(s, h);
    }
  }

  lemma FetchMoves(s: State, h: nat)
    requires Inv(s) && h in s.reqs && s.reqs[h].stage.Posted?
    ensures Enabled(s, Fetch) && Weight(Apply(s, Fetch).reqs, NUM) < Weight(s.reqs, NUM)
  {
    assert h in s.posted;
    QueueFits(s.posted, s.reqs, Posted);
    NotEmptyRing(s.avail, s.deviceAvail, s.availIdx, s.posted);
    FetchesOldest(s);
    HeadInRange(s, s.posted[0]);
    WeightStage(s.reqs, NUM, s.posted[0], Fetched);
  }

  lemma InterruptMoves(s: State, h: nat)
    requires Inv(s) && h in s.reqs && s.reqs[h].stage.Used? && s.building.None?
    ensures Enabled(s, Interrupt) && Weight(Apply(s, Interrupt).reqs, NUM) < Weight(s.reqs, NUM)
  {
    assert h in s.finished;
    QueueFits(s.finished, s.reqs, Used);
    NotEmptyRing(s.used, s.driverUsed, s.usedIdx, s.finished);
    SignalsOldest(s);
    HeadInRange(s, s.finished[0]);
    WeightStage(s.reqs, NUM, s.finished[0], Signalled);
  }

  lemma StageStep(s: State, h: nat) returns (step: Step)
    requires Inv(s) && h in s.reqs && s.building.None?
    ensures Enabled(s, step) && Weight(Apply(s, step).reqs, NUM) < Weight(s.reqs, NUM)
  {
    HeadInRange(s, h);
    match s.reqs[h].stage
    case Posted =>
      FetchMoves(s, h);
      step := Fetch;
    case Fetched =>
      step := Complete(h);
      ServesRequest(s, h);
      WeightStage(s.reqs, NUM, h, Used);
    case Used =>
      InterruptMoves(s, h);
      step := Interrupt;
    case Signalled =>
      assert BufferOk(s.info, s.busy, h, s.reqs[h]);
      step := Finish(h);
      WeightRemove(s.reqs, NUM, h);
    case Building =>
      assert false;
  }

  // So every run can be continued to one in which all requests have returned and all descriptors are free.
  lemma {:induction false} Drains(states: seq<State>, steps: seq<Step>) returns (states': seq<State>, steps': seq<Step>)
    requires IsRun(states, steps)
    ensures IsRun(states', steps') && states <= states' && steps <= steps'
    ensures states'[|steps'|].reqs == map[] && FreeCount(states'[|steps'|].free) == NUM
    decreases Weight(states[|steps|].reqs, NUM)
  {
    var s := states[|steps|];
    RunInv(states, steps, |steps|);
    if h :| h in s.reqs {
      var step := SomeStep(s, h);
      var t := Apply(s, step);
      RunAppend(states, steps, step, t);
      states', steps' := Drains(states + [t], steps + [step]);
    } else {
      states', steps' := states, steps;
    }
  }

  lemma RunAppend(states: seq<State>, steps: seq<Step>, step: Step, t: State)
    requires IsRun(states, steps) && Taken(states[|steps|], step, t)
    ensures IsRun(states + [t], steps + [step])
  {
    var states', steps' := states + [t], steps + [step];
    forall i | 0 <= i < |steps'| ensures Taken(states'[i], steps'[i], states'[i + 1]) {
      if i < |steps| {
        assert Taken(states[i], steps[i], states[i + 1]);
      }
    }
  }
}
