/**
 The on-disk part of kernel/log.c: the header block, installing a committed transaction, and
 recovery after a crash.  A disk is a sequence of blocks; writing one block is atomic.
 */
module RedoLog {

  const MAXOPBLOCKS := 10
  const LOGSIZE := MAXOPBLOCKS * 3
  const WORDS := 256  // 32-bit words in a block: BSIZE / 4

  // A block, as 32-bit words.
  type Block = seq<nat>
  type Disk = seq<Block>

  // Where the log lives: a header at `start`, then size - 1 slots.
  datatype Layout = Layout(start: nat, size: nat, nblocks: nat) {
    predicate Valid() {
      size >= 1 && start + size <= nblocks
    }

    // Any block outside the log.
    predicate IsHome(b: nat) {
      b < nblocks && !(start <= b < start + size)
    }
  }

  // The block numbers listed in a header block.
  function Head(b: Block): seq<nat> {
    if |b| > 0 && b[0] < |b| then b[1..b[0] + 1] else []
  }

  // write_head overwrites the count and the listed entries and leaves the rest of the block alone.
  function PutHead(b: Block, h: seq<nat>): (r: Block)
    requires |h| < |b|
    ensures |r| == |b| && Head(r) == h
  {
    [|h|] + h + b[|h| + 1..]
  }

  // The header's words: the count, the entries in order, and what was there before.
  lemma HeaderWords(b: Block, h: seq<nat>, k: nat)
    requires |h| < |b| && k < |b|
    ensures PutHead(b, h)[k] == if k == 0 then |h| else if k <= |h| then h[k - 1] else b[k]
  {
  }

  // A header that has been read is the one that would be written: the same count and the same entries.
  lemma HeaderRoundTrip(b: Block)
    requires |b| > 0 && b[0] < |b|
    ensures |Head(b)| == b[0] && PutHead(b, Head(b)) == b
  {
    assert b == [b[0]] + b[1..b[0] + 1] + b[b[0] + 1..];
  }

  ghost predicate ValidHead(lay: Layout, h: seq<nat>) {
    && |h| <= LOGSIZE && |h| < lay.size
    && (forall k :: 0 <= k < |h| ==> lay.IsHome(h[k]))
    && (forall j, k :: 0 <= j < k < |h| ==> h[j] != h[k])
  }

  // The log slot of entry k.
  function Slot(lay: Layout, k: nat): nat {
    lay.start + k + 1
  }

  ghost predicate SameHome(lay: Layout, d: Disk, want: Disk)
    requires |d| == |want| == lay.nblocks
  {
    forall b: nat :: lay.IsHome(b) ==> d[b] == want[b]
  }

  // The disk holds enough to rebuild `want`: blocks named by the header have their contents in the
  // log, all others are in place.
  ghost predicate Recoverable(lay: Layout, d: Disk, want: Disk) {
    && lay.Valid() && |d| == |want| == lay.nblocks && |d[lay.start]| == WORDS
    && var h := Head(d[lay.start]);
    && ValidHead(lay, h)
    && (forall k :: 0 <= k < |h| ==> d[Slot(lay, k)] == want[h[k]])
    && (forall b: nat :: lay.IsHome(b) && b !in h ==> d[b] == want[b])
  }

  // install_trans: copies the first n listed blocks from the log to their homes.
  function Install(lay: Layout, d: Disk, h: seq<nat>, n: nat): (r: Disk)
    requires lay.Valid() && |d| == lay.nblocks && n <= |h|
    requires |h| < lay.size && forall k :: 0 <= k < |h| ==> h[k] < lay.nblocks
    ensures |r| == |d|
  {
    if n == 0 then d else Install(lay, d, h, n - 1)[h[n - 1] := d[Slot(lay, n - 1)]]
  }

  // recover_from_log, as one function of the disk.
  function Recover(lay: Layout, d: Disk): (r: Disk)
    requires lay.Valid() && |d| == lay.nblocks && |d[lay.start]| == WORDS
    requires var h := Head(d[lay.start]); |h| < lay.size && forall k :: 0 <= k < |h| ==> h[k] < lay.nblocks
    ensures |r| == |d|
  {
    var h := Head(d[lay.start]);
    Install(lay, d, h, |h|)[lay.start := PutHead(d[lay.start], [])]
  }

  lemma {:induction false} InstallAt(lay: Layout, d: Disk, h: seq<nat>, n: nat)
    requires lay.Valid() && |d| == lay.nblocks && n <= |h| && ValidHead(lay, h)
    ensures var r := Install(lay, d, h, n);
            && (forall k :: 0 <= k < n ==> r[h[k]] == d[Slot(lay, k)])
            && (forall b: nat :: b < lay.nblocks && b !in h[..n] ==> r[b] == d[b])
  {
    if n > 0 {
      InstallAt(lay, d, h, n - 1);
      var r := Install(lay, d, h, n);
      forall b: nat | b < lay.nblocks && b !in h[..n] ensures r[b] == d[b] {
        assert h[..n] == h[..n - 1] + [h[n - 1]];
      }
      forall k | 0 <= k < n - 1 ensures r[h[k]] == d[Slot(lay, k)] {
        assert h[k] != h[n - 1];
      }
    }
  }

  // Recovery rebuilds exactly the committed contents, and a disk that needs no recovery is left alone.
  lemma RecoverRestores(lay: Layout, d: Disk, want: Disk)
    requires Recoverable(lay, d, want)
    ensures SameHome(lay, Recover(lay, d), want)
    ensures Recoverable(lay, Recover(lay, d), want)
    ensures Head(Recover(lay, d)[lay.start]) == []
  {
    var h := Head(d[lay.start]);
    InstallAt(lay, d, h, |h|);
    assert h[..|h|] == h;
    forall b: nat | lay.IsHome(b)
      ensures Recover(lay, d)[b] == want[b]
    {
      if b in h {
        var k :| 0 <= k < |h| && h[k] == b;
      }
    }
  }
}
