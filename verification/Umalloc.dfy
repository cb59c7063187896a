/**
 The storage allocator of user/umalloc.c: an address-ordered circular list of free blocks, with first fit
 and coalescing.  Addresses and sizes are in units of one header (16 bytes).

 The list starts at the static header base, which lies below the heap.  free is the set of the headers on
 it, live the set of the headers handed out, and owner maps every unit obtained from sbrk to the block
 that it is in.
 */
module Umalloc {

  type Words = map<int, int>

  function At(m: Words, a: int): int { if a in m then m[a] else 0 }

  // ----- the list of free blocks -----

  // b follows a in address order; after the last block comes base.
  ghost predicate Succ(free: set<int>, base: int, a: int, b: int) {
    && b in free
    && if b > a then forall x :: x in free ==> x <= a || b <= x else b == base && forall x :: x in free ==> x <= a
  }

  ghost predicate ListedOk(free: set<int>, base: int, ptr: Words, size: Words, a: int) {
    Succ(free, base, a, At(ptr, a)) && (if a == base then At(size, a) == 0 else At(size, a) >= 1)
  }

  // Two free blocks do not overlap, and only the blocks in loose may touch the one before them.
  predicate Apart(size: Words, loose: set<int>, a: int, b: int) {
    a < b ==> a + At(size, a) <= b && (b !in loose ==> a + At(size, a) < b)
  }

  ghost predicate Ring(free: set<int>, base: int, ptr: Words, size: Words, loose: set<int>) {
    && base in free && (forall a :: a in free ==> a >= base)
    && (forall a {:trigger ListedOk(free, base, ptr, size, a)} :: a in free ==> ListedOk(free, base, ptr, size, a))
    && (forall a, b {:trigger Apart(size, loose, a, b)} :: a in free && b in free ==> Apart(size, loose, a, b))
  }

  // ----- blocks and units -----

  predicate InBlock(size: Words, b: int, u: int) { b <= u < b + At(size, b) }

  // Each unit is in the block that owns it, and that block is free or live.
  ghost predicate UnitOk(free: set<int>, live: set<int>, size: Words, owner: map<int, int>, u: int)
    requires u in owner
  {
    owner[u] in free + live && InBlock(size, owner[u], u)
  }

  // A block owns its units.
  ghost predicate BlockOk(size: Words, owner: map<int, int>, b: int) {
    forall u :: InBlock(size, b, u) ==> u in owner && owner[u] == b
  }

  ghost predicate Cover(free: set<int>, live: set<int>, base: int, size: Words, owner: map<int, int>) {
    && (forall u {:trigger UnitOk(free, live, size, owner, u)} :: u in owner ==> UnitOk(free, live, size, owner, u))
    && (forall b {:trigger BlockOk(size, owner, b)} :: b in free + live ==> BlockOk(size, owner, b))
    && (forall b {:trigger b in live} :: b in live ==> b > base && b !in free && At(size, b) >= 1)
  }

  // ----- insertion and coalescing -----

  // A live block is put between two neighbours on the list; it may touch either.
  lemma Insert(free: set<int>, live: set<int>, base: int, ptr: Words, size: Words, owner: map<int, int>, p: int, b: int)
    requires Ring(free, base, ptr, size, {}) && Cover(free, live, base, size, owner)
    requires p in free && b in live && p < b && (At(ptr, p) <= p || b < At(ptr, p))
    ensures Ring(free + {b}, base, ptr[b := At(ptr, p)][p := b], size, {b, At(ptr, p)})
    ensures Cover(free + {b}, live - {b}, base, size, owner)
  {
    InsertListed(free, base, ptr, size, p, b);
    var q := At(ptr, p);
    assert ListedOk(free, base, ptr, size, p);
    forall x, y | x in free + {b} && y in free + {b} && x < y ensures Apart(size, {b, q}, x, y) {
      if x == b {
        InsertBefore(free, live, base, ptr, size, owner, p, b, y);
      } else if y == b {
        LiveApart(free, live, base, size, owner, x, b);
      } else {
        assert Apart(size, {}, x, y);
      }
    }
    InsertCover(free, live, base, size, owner, b);
  }

  lemma InsertListed(free: set<int>, base: int, ptr: Words, size: Words, p: int, b: int)
    requires Ring(free, base, ptr, size, {})
    requires p in free && b !in free && At(size, b) >= 1 && p < b && (At(ptr, p) <= p || b < At(ptr, p))
    ensures var free', ptr' := free + {b}, ptr[b := At(ptr, p)][p := b];
            forall a {:trigger ListedOk(free', base, ptr', size, a)} :: a in free' ==> ListedOk(free', base, ptr', size, a)
  {
    var free', ptr' := free + {b}, ptr[b := At(ptr, p)][p := b];
    assert ListedOk(free, base, ptr, size, p);
    forall a | a in free' ensures ListedOk(free', base, ptr', size, a) {
      if a in free {
        assert ListedOk(free, base, ptr, size, a);
      }
    }
  }

  lemma InsertBefore(free: set<int>, live: set<int>, base: int, ptr: Words, size: Words, owner: map<int, int>, p: int, b: int, y: int)
    requires Ring(free, base, ptr, size, {}) && Cover(free, live, base, size, owner)
    requires p in free && b in live && p < b < y && y in free && (At(ptr, p) <= p || b < At(ptr, p))
    ensures Apart(size, {b, At(ptr, p)}, b, y)
  {
    assert ListedOk(free, base, ptr, size, p);
    var q := At(ptr, p);
    assert ListedOk(free, base, ptr, size, q);
    LiveApart(free, live, base, size, owner, b, q);
  }

  lemma InsertCover(free: set<int>, live: set<int>, base: int, size: Words, owner: map<int, int>, b: int)
    requires Cover(free, live, base, size, owner) && b in live
    ensures Cover(free + {b}, live - {b}, base, size, owner)
  {
    forall u | u in owner ensures UnitOk(free + {b}, live - {b}, size, owner, u) {
      assert UnitOk(free, live, size, owner, u);
    }
    forall c | c in free + {b} + (live - {b}) ensures BlockOk(size, owner, c) {
      assert c in free + live;
    }
  }

  // Blocks that own their units do not overlap.
  lemma LiveApart(free: set<int>, live: set<int>, base: int, size: Words, owner: map<int, int>, a: int, b: int)
    requires Cover(free, live, base, size, owner) && a in free + live && b in free + live && a < b && At(size, b) >= 1
    ensures a + At(size, a) <= b
  {
    assert BlockOk(size, owner, a) && BlockOk(size, owner, b);
    if a + At(size, a) > b {
      assert InBlock(size, a, b) && InBlock(size, b, b);
    }
  }

  // A block that does not touch the next one.
  lemma Tighten(free: set<int>, base: int, ptr: Words, size: Words, loose: set<int>, p: int)
    requires Ring(free, base, ptr, size, loose) && p in free && p + At(size, p) != At(ptr, p)
    ensures Ring(free, base, ptr, size, loose - {At(ptr, p)})
  {
    var q := At(ptr, p);
    assert ListedOk(free, base, ptr, size, p);
    forall x, y | x in free && y in free ensures Apart(size, loose - {q}, x, y) {
      assert Apart(size, loose, x, y);
      if y == q && x < y {
        assert ListedOk(free, base, ptr, size, x);
        assert Apart(size, loose, p, q) && Apart(size, loose, x, p);
      }
    }
  }

  function Merged(owner: map<int, int>, b: int, a: int): map<int, int> {
    map u | u in owner :: if owner[u] == b then a else owner[u]
  }

  // A block swallows the next one, which it touches.
  lemma Join(free: set<int>, live: set<int>, base: int, ptr: Words, size: Words, owner: map<int, int>, loose: set<int>, a: int)
    requires Ring(free, base, ptr, size, loose) && Cover(free, live, base, size, owner)
    requires a in free && a + At(size, a) == At(ptr, a) && a != base
    ensures var b := At(ptr, a);
            && b in free && b > a
            && Ring(free - {b}, base, ptr[a := At(ptr, b)], size[a := At(size, a) + At(size, b)], loose - {b})
            && Cover(free - {b}, live, base, size[a := At(size, a) + At(size, b)], Merged(owner, b, a))
  {
    var b := At(ptr, a);
    assert ListedOk(free, base, ptr, size, a) && ListedOk(free, base, ptr, size, base);
    assert ListedOk(free, base, ptr, size, b);
    JoinListed(free, base, ptr, size, loose, a);
    JoinApart(free, base, ptr, size, loose, a);
    JoinCover(free, live, base, size, owner, a, b);
  }

  lemma JoinListed(free: set<int>, base: int, ptr: Words, size: Words, loose: set<int>, a: int)
    requires Ring(free, base, ptr, size, loose) && a in free && a + At(size, a) == At(ptr, a) && a != base && At(ptr, a) > a
    ensures var b := At(ptr, a);
            var free', ptr', size' := free - {b}, ptr[a := At(ptr, b)], size[a := At(size, a) + At(size, b)];
            forall x {:trigger ListedOk(free', base, ptr', size', x)} :: x in free' ==> ListedOk(free', base, ptr', size', x)
  {
    var b := At(ptr, a);
    var free', ptr', size' := free - {b}, ptr[a := At(ptr, b)], size[a := At(size, a) + At(size, b)];
    assert ListedOk(free, base, ptr, size, a);
    assert ListedOk(free, base, ptr, size, b);
    forall x | x in free' ensures ListedOk(free', base, ptr', size', x) {
      assert ListedOk(free, base, ptr, size, x);
    }
  }

  lemma JoinApart(free: set<int>, base: int, ptr: Words, size: Words, loose: set<int>, a: int)
    requires Ring(free, base, ptr, size, loose) && a in free && a + At(size, a) == At(ptr, a) && At(ptr, a) > a
    ensures var b := At(ptr, a);
            forall x, y {:trigger Apart(size[a := At(size, a) + At(size, b)], loose - {b}, x, y)} ::
              x in free - {b} && y in free - {b} ==> Apart(size[a := At(size, a) + At(size, b)], loose - {b}, x, y)
  {
    var b := At(ptr, a);
    assert ListedOk(free, base, ptr, size, a);
    forall x, y | x in free - {b} && y in free - {b} ensures Apart(size[a := At(size, a) + At(size, b)], loose - {b}, x, y) {
      assert Apart(size, loose, x, y) && Apart(size, loose, b, y);
    }
  }

  lemma JoinCover(free: set<int>, live: set<int>, base: int, size: Words, owner: map<int, int>, a: int, b: int)
    requires Cover(free, live, base, size, owner) && a in free && b in free && a < b == a + At(size, a) && At(size, b) >= 1
    ensures Cover(free - {b}, live, base, size[a := At(size, a) + At(size, b)], Merged(owner, b, a))
  {
    var free', size', owner' := free - {b}, size[a := At(size, a) + At(size, b)], Merged(owner, b, a);
    assert BlockOk(size, owner, a) && BlockOk(size, owner, b);
    forall u | u in owner' ensures UnitOk(free', live, size', owner', u) {
      assert UnitOk(free, live, size, owner, u);
    }
    forall c | c in free' + live ensures BlockOk(size', owner', c) {
      assert BlockOk(size, owner, c);
      forall u | InBlock(size', c, u) ensures u in owner' && owner'[u] == c {
        assert InBlock(size, c, u) || (c == a && InBlock(size, b, u));
      }
    }
  }

  // ----- taking memory from the list, and from sbrk -----

  // A whole block leaves the list.
  lemma Take(free: set<int>, live: set<int>, base: int, ptr: Words, size: Words, owner: map<int, int>, prev: int)
    requires Ring(free, base, ptr, size, {}) && Cover(free, live, base, size, owner)
    requires prev in free && At(ptr, prev) != base
    ensures var p := At(ptr, prev);
            && p in free && p > prev
            && Ring(free - {p}, base, ptr[prev := At(ptr, p)], size, {})
            && Cover(free - {p}, live + {p}, base, size, owner)
  {
    var p := At(ptr, prev);
    assert ListedOk(free, base, ptr, size, prev);
    assert ListedOk(free, base, ptr, size, p);
    var free', ptr' := free - {p}, ptr[prev := At(ptr, p)];
    forall x | x in free' ensures ListedOk(free', base, ptr', size, x) {
      assert ListedOk(free, base, ptr, size, x);
    }
    forall x, y | x in free' && y in free' ensures Apart(size, {}, x, y) {
      assert Apart(size, {}, x, y);
    }
    forall u | u in owner ensures UnitOk(free', live + {p}, size, owner, u) {
      assert UnitOk(free, live, size, owner, u);
    }
    forall c | c in free' + (live + {p}) ensures BlockOk(size, owner, c) {
      assert c in free + live;
    }
  }

  // Free blocks may shrink, but not to nothing.
  lemma Resize(free: set<int>, base: int, ptr: Words, size: Words, size': Words)
    requires Ring(free, base, ptr, size, {})
    requires forall a :: a in free ==> At(size', a) == At(size, a) || 1 <= At(size', a) < At(size, a)
    ensures Ring(free, base, ptr, size', {})
  {
    forall x | x in free ensures ListedOk(free, base, ptr, size', x) {
      assert ListedOk(free, base, ptr, size, x);
    }
    forall x, y | x in free && y in free ensures Apart(size', {}, x, y) {
      assert Apart(size, {}, x, y);
    }
  }

  // No block starts inside another.
  lemma NoBlockInside(free: set<int>, live: set<int>, base: int, ptr: Words, size: Words, owner: map<int, int>, p: int, b: int)
    requires Ring(free, base, ptr, size, {}) && Cover(free, live, base, size, owner)
    requires p in free && InBlock(size, p, b) && b != p
    ensures b !in free + live
  {
    if b in free + live {
      assert ListedOk(free, base, ptr, size, p);
      assert b in free ==> ListedOk(free, base, ptr, size, b);
      LiveApart(free, live, base, size, owner, p, b);
    }
  }

  function Carved(owner: map<int, int>, b: int, n: int): map<int, int> {
    map u | u in owner :: if b <= u < b + n then b else owner[u]
  }

  // The tail end of a larger block is cut off.
  lemma Split(free: set<int>, live: set<int>, base: int, ptr: Words, size: Words, owner: map<int, int>, p: int, n: int)
    requires Ring(free, base, ptr, size, {}) && Cover(free, live, base, size, owner)
    requires p in free && 1 <= n < At(size, p)
    ensures var k := At(size, p) - n;
            && p + k !in free + live && p + k > base
            && Ring(free, base, ptr, size[p := k][p + k := n], {})
            && Cover(free, live + {p + k}, base, size[p := k][p + k := n], Carved(owner, p + k, n))
  {
    var k := At(size, p) - n;
    var b, size' := p + k, size[p := k][p + k := n];
    assert ListedOk(free, base, ptr, size, p);
    NoBlockInside(free, live, base, ptr, size, owner, p, b);
    Resize(free, base, ptr, size, size');
    SplitCover(free, live, base, size, owner, p, n);
  }

  lemma SplitCover(free: set<int>, live: set<int>, base: int, size: Words, owner: map<int, int>, p: int, n: int)
    requires Cover(free, live, base, size, owner) && p in free && p >= base && 1 <= n < At(size, p)
    requires p + At(size, p) - n !in free + live
    ensures var b := p + At(size, p) - n;
            Cover(free, live + {b}, base, size[p := At(size, p) - n][b := n], Carved(owner, b, n))
  {
    var k := At(size, p) - n;
    var b := p + k;
    var size', owner' := size[p := k][b := n], Carved(owner, b, n);
    assert BlockOk(size, owner, p);
    forall u | u in owner' ensures UnitOk(free, live + {b}, size', owner', u) {
      assert UnitOk(free, live, size, owner, u);
      assert InBlock(size', b, u) ==> InBlock(size, p, u);
    }
    forall c | c in free + (live + {b}) ensures BlockOk(size', owner', c) {
      assert c != b ==> BlockOk(size, owner, c);
      forall u | InBlock(size', c, u) ensures u in owner' && owner'[u] == c {
        assert if c == b then InBlock(size, p, u) else InBlock(size, c, u);
        assert b <= u < b + n ==> InBlock(size, p, u);
      }
    }
  }

  predicate InRange(b: int, n: int, u: int) { b <= u < b + n }

  function Granted(owner: map<int, int>, b: int, n: int): map<int, int> {
    owner + (map u: int {:trigger InRange(b, n, u)} | b <= u < b + n && InRange(b, n, u) :: b)
  }

  lemma OwnsHeader(free: set<int>, live: set<int>, base: int, ptr: Words, size: Words, owner: map<int, int>, b: int)
    requires Ring(free, base, ptr, size, {}) && Cover(free, live, base, size, owner) && b in free + live && b != base
    ensures b in owner
  {
    assert BlockOk(size, owner, b);
    assert b in free ==> ListedOk(free, base, ptr, size, b);
    assert InBlock(size, b, b);
  }

  // New memory from sbrk, as a live block.
  lemma Grant(free: set<int>, live: set<int>, base: int, ptr: Words, size: Words, owner: map<int, int>, b: int, n: int)
    requires Ring(free, base, ptr, size, {}) && Cover(free, live, base, size, owner)
    requires n >= 1 && b > base && forall u :: b <= u < b + n ==> u !in owner
    ensures b !in free + live
    ensures Ring(free, base, ptr, size[b := n], {})
    ensures Cover(free, live + {b}, base, size[b := n], Granted(owner, b, n))
  {
    if b in free + live {
      OwnsHeader(free, live, base, ptr, size, owner, b);
    }
    Resize(free, base, ptr, size, size[b := n]);
    GrantCover(free, live, base, size, owner, b, n);
  }

  lemma GrantCover(free: set<int>, live: set<int>, base: int, size: Words, owner: map<int, int>, b: int, n: int)
    requires Cover(free, live, base, size, owner) && b !in free + live
    requires n >= 1 && b > base && forall u :: b <= u < b + n ==> u !in owner
    ensures Cover(free, live + {b}, base, size[b := n], Granted(owner, b, n))
  {
    var size', owner' := size[b := n], Granted(owner, b, n);
    forall u | u in owner' ensures UnitOk(free, live + {b}, size', owner', u) {
      assert u in owner ==> UnitOk(free, live, size, owner, u);
    }
    forall c | c in free + (live + {b}) ensures BlockOk(size', owner', c) {
      assert c != b ==> BlockOk(size, owner, c);
      forall u | InBlock(size', c, u) ensures u in owner' && owner'[u] == c {
        assert c != b ==> InBlock(size, c, u);
        assert c == b ==> InRange(b, n, u);
      }
    }
  }

  // ----- going round the list -----

  // The blocks still to come on a lap from start, at p; wrapped once base has been passed.
  function Ahead(free: set<int>, start: int, p: int, wrapped: bool): set<int> {
    set x | x in free && if wrapped then p <= x < start else x >= p || x < start
  }

  // A lap visits every block: each step takes one out of the set of those to come, until start comes again.
  lemma Advance(free: set<int>, base: int, ptr: Words, size: Words, start: int, p: int, wrapped: bool)
    requires Ring(free, base, ptr, size, {}) && start in free && p in free && (if wrapped then p < start else p >= start)
    ensures var q := At(ptr, p);
            var wrapped' := wrapped || q <= p;
            && q in free && Ahead(free, start, q, wrapped') == Ahead(free, start, p, wrapped) - {p}
            && (if wrapped' then q <= start else q >= start)
            && (q == start <==> Ahead(free, start, p, wrapped) == {p})
  {
    assert ListedOk(free, base, ptr, size, p);
    var q := At(ptr, p);
    assert p in Ahead(free, start, p, wrapped);
    assert q == p ==> q == start;
    if q == start {
      forall x | x in Ahead(free, start, p, wrapped) ensures x == p {
        assert x in free && x >= base;
      }
      assert Ahead(free, start, p, wrapped) == {p};
    }
    assert q != start ==> q in Ahead(free, start, p, wrapped);
  }

  // ----- free -----

  lemma Predecessor(free: set<int>, base: int, b: int) returns (t: int)
    requires base in free && base < b
    ensures t in free && t < b && forall x :: x in free ==> x <= t || b <= x
    decreases |free|
  {
    if x :| x in free && base < x < b {
      t := Predecessor(free - {base}, x, b);
      forall y | y in free ensures y <= t || b <= y {
        assert y != base ==> y in free - {base};
        assert x in free - {base};
      }
    } else {
      t := base;
    }
  }

  // The words after the first if statement of free, and after the second.
  function RightPtr(ptr: Words, size: Words, p: int, b: int): Words {
    if b + At(size, b) == At(ptr, p) then ptr[b := At(ptr, At(ptr, p))] else ptr[b := At(ptr, p)]
  }

  function RightSize(ptr: Words, size: Words, p: int, b: int): Words {
    if b + At(size, b) == At(ptr, p) then size[b := At(size, b) + At(size, At(ptr, p))] else size
  }

  function LeftPtr(ptr: Words, size: Words, p: int, b: int): Words {
    if p + At(size, p) == b then ptr[p := At(ptr, b)] else ptr[p := b]
  }

  function LeftSize(size: Words, p: int, b: int): Words {
    if p + At(size, p) == b then size[p := At(size, p) + At(size, b)] else size
  }

  // The state of the list after the first if statement, had the block been linked in already.
  lemma Right(free: set<int>, live: set<int>, base: int, ptr: Words, size: Words, owner: map<int, int>, p: int, b: int)
    returns (free': set<int>, owner': map<int, int>)
    requires Ring(free, base, ptr, size, {}) && Cover(free, live, base, size, owner)
    requires p in free && b in live && p < b && (At(ptr, p) <= p || b < At(ptr, p))
    ensures p in free' && b in free' && owner'.Keys == owner.Keys
    ensures At(RightSize(ptr, size, p, b), b) >= At(size, b)
    ensures Ring(free', base, RightPtr(ptr, size, p, b)[p := b], RightSize(ptr, size, p, b), {b})
    ensures Cover(free', live - {b}, base, RightSize(ptr, size, p, b), owner')
  {
    var q, ptr1 := At(ptr, p), ptr[b := At(ptr, p)][p := b];
    Insert(free, live, base, ptr, size, owner, p, b);
    if b + At(size, b) == q {
      Join(free + {b}, live - {b}, base, ptr1, size, owner, {b, q}, b);
      assert ListedOk(free, base, ptr, size, q);
      assert ptr1[b := At(ptr1, q)] == RightPtr(ptr, size, p, b)[p := b];
      assert {b, q} - {q} == {b};
      free', owner' := free + {b} - {q}, Merged(owner, q, b);
    } else {
      Tighten(free + {b}, base, ptr1, size, {b, q}, b);
      assert {b, q} - {q} == {b} || b == q;
      free', owner' := free + {b}, owner;
    }
  }

  lemma Left(free: set<int>, live: set<int>, base: int, ptr: Words, size: Words, owner: map<int, int>, p: int, b: int)
    returns (free': set<int>, owner': map<int, int>, big: int)
    requires Ring(free, base, ptr[p := b], size, {b}) && Cover(free, live, base, size, owner) && p in free && b in free && p < b
    ensures p in free' && owner'.Keys == owner.Keys && big in free' && At(LeftSize(size, p, b), big) >= At(size, b)
    ensures Ring(free', base, LeftPtr(ptr, size, p, b), LeftSize(size, p, b), {})
    ensures Cover(free', live, base, LeftSize(size, p, b), owner')
  {
    assert {b} - {b} == {};
    if p + At(size, p) == b {
      assert ListedOk(free, base, ptr[p := b], size, p);
      Join(free, live, base, ptr[p := b], size, owner, {b}, p);
      assert ptr[p := b][p := At(ptr, b)] == ptr[p := At(ptr, b)];
      free', owner', big := free - {b}, Merged(owner, b, p), p;
    } else {
      Tighten(free, base, ptr[p := b], size, {b}, p);
      free', owner', big := free, owner, b;
    }
  }

  // ----- malloc -----

  const UINT := 0x1_0000_0000
  const INT := 0x8000_0000

  // nunits: the sum is computed in 64 bits, since sizeof is, and the result fits in 32.
  function Units(nbytes: nat): (n: int)
    requires nbytes < UINT
    ensures 1 <= n < UINT && (n - 1) * 16 >= nbytes && (n - 2) * 16 < nbytes
  {
    (nbytes + 16 - 1) / 16 + 1
  }

  // The least number of units that is neither below nu nor below 4096.
  function CoreUnits(nu: int): (n: int)
    ensures n >= nu && n >= 4096 && (n == nu || n == 4096)
  {
    if nu < 4096 then 4096 else nu
  }

  function Span(b: int, n: int): set<int> { set u {:trigger InRange(b, n, u)} | b <= u < b + n && InRange(b, n, u) }

  // sbrk takes an int: the product of units and header size, a 64-bit number, loses its upper half.  In units.
  function SbrkArg(nu: int): (n: int)
    ensures n <= nu || nu < 0
  {
    var m := nu % (INT / 8);
    if m < INT / 16 then m else m - INT / 8
  }

  // In bytes, that is what the compiler does.
  lemma ArgTruncates(nu: nat)
    ensures var low := 16 * nu % UINT; 16 * SbrkArg(nu) == if low < INT then low else low - UINT
  {
    var q := nu / (INT / 8);
    assert 16 * nu == UINT * q + 16 * (nu % (INT / 8));
  }

  // The kernel's side: growing can fail, and shrinking below zero wraps around and does nothing.
  function Break(brk: nat, n: int, grows: bool): (b: nat)
    ensures b == brk + n <==> n == 0 || (n > 0 && grows) || (n < 0 && brk + n >= 0)
  {
    if n > 0 && !grows then brk else if brk + n >= 0 then brk + n else brk
  }

  // When the argument is the number of bytes wanted, for any request.
  lemma ArgFits(nbytes: nat)
    requires nbytes < UINT
    ensures SbrkArg(CoreUnits(Units(nbytes))) == CoreUnits(Units(nbytes)) <==> 16 * CoreUnits(Units(nbytes)) < INT
    ensures 16 * CoreUnits(Units(nbytes)) < INT <==> nbytes <= 0x7FFF_FFE0
  {
    var n := CoreUnits(Units(nbytes));
    assert n <= 0x1000_0001;
    assert n < INT / 8 ==> n % (INT / 8) == n;
    assert n >= INT / 8 ==> n % (INT / 8) == n - INT / 8;
  }

  // The largest request asks sbrk for one unit, so what sbrk returns next lies inside the block; a smaller one
  // makes sbrk give memory back.
  lemma LargeRequests(brk: nat)
    ensures var n := CoreUnits(Units(0xFFFF_FFFF));
            n == 0x1000_0001 && SbrkArg(n) == 1 && Break(brk, SbrkArg(n), true) in Span(brk, n)
    ensures var n := CoreUnits(Units(0x7FFF_FFE1));
            brk >= 0x800_0000 ==> Break(brk, SbrkArg(n), true) == brk - 0x800_0000
  {
    assert InRange(brk, 0x1000_0001, brk + 1);
  }

  ghost predicate NoFit(free: set<int>, size: Words, n: int) { forall a :: a in free ==> At(size, a) < n }

  // No block that the list visits from start, before it comes to p, is large enough.
  ghost predicate FirstFit(free: set<int>, size: Words, start: int, p: int, n: int) {
    forall x :: x in free && (if start <= p then start <= x < p else x < p || start <= x) ==> At(size, x) < n
  }

  // b is the last n units of the block at p.
  predicate IsEndOf(size: Words, p: int, b: int, n: int) { p <= b && b + n == p + At(size, p) }

  lemma GrantedKeys(owner: map<int, int>, b: int, n: int)
    ensures Granted(owner, b, n).Keys == owner.Keys + Span(b, n)
  {
    forall u ensures u in Granted(owner, b, n) <==> u in owner || u in Span(b, n) {
      assert InRange(b, n, u) <==> b <= u < b + n;
    }
  }

  // After sbrk, all units are below the break exactly if it moved by what was wanted.
  lemma MemoryIff(owner: map<int, int>, owner': map<int, int>, brk: nat, brk': nat, nbytes: nat, grows: bool)
    requires nbytes < UINT && (forall u :: u in owner ==> u < brk)
    requires owner'.Keys == owner.Keys + Span(brk, CoreUnits(Units(nbytes)))
    requires var n := SbrkArg(CoreUnits(Units(nbytes))); (n <= 0 || grows) && brk' == Break(brk, n, grows)
    ensures (forall u :: u in owner' ==> u < brk') <==> 16 * CoreUnits(Units(nbytes)) < INT
    ensures 16 * CoreUnits(Units(nbytes)) < INT ==> brk' > brk
  {
    ArgFits(nbytes);
    var n := CoreUnits(Units(nbytes));
    assert InRange(brk, n, brk + n - 1) && brk + n - 1 in owner'.Keys;
    forall u | u in owner' ensures u < brk + n {
      assert u in owner || u in Span(brk, n);
    }
  }

  class Allocator {
    const base: int
    var ptr: Words
    var size: Words
    var freep: int  // 0 before the first call
    var brk: nat    // the end of the process's memory
    ghost var free: set<int>
    ghost var live: set<int>
    ghost var owner: map<int, int>

    // The list and the blocks are in order.
    ghost predicate Listed()
      reads this
    {
      && base > 0
      && (freep == 0 ==> live == {} && owner == map[])
      && (freep != 0 ==> freep in free && Ring(free, base, ptr, size, {}) && Cover(free, live, base, size, owner))
    }

    // And every unit of every block is memory of the process.
    ghost predicate Valid()
      reads this
    {
      Listed() && base < brk && forall u :: u in owner ==> u < brk
    }

    ghost predicate NoRoom(n: int)
      reads this
    {
      freep == 0 || NoFit(free, size, n)
    }

    // The first call: a list with base alone.
    method Start()
      requires Valid() && freep == 0
      modifies this`ptr, this`size, this`freep, this`free
      ensures Valid() && freep == base && free == {base}
      ensures forall n :: n >= 1 ==> NoFit(free, size, n)
    {
      ptr := ptr[base := base];
      freep := base;
      size := size[base := 0];
      free := {base};
    }

    constructor (base: int, brk: nat)
      requires 0 < base < brk
      ensures Valid() && live == {} && owner == map[] && this.base == base && this.brk == brk && freep == 0
    {
      this.base, this.brk, ptr, size, freep := base, brk, map[], map[], 0;
      free, live, owner := {}, {}, map[];
    }

    // -1 if the process cannot grow, else where the memory ended before.
    method Sbrk(n: int, grows: bool) returns (p: int)
      modifies this`brk
      ensures p == if n > 0 && !grows then -1 else old(brk)
      ensures brk == Break(old(brk), n, grows)
    {
      p := brk;
      if n > 0 {
        if !grows {
          return -1;
        }
        brk := brk + n;
      } else if n < 0 && brk + n >= 0 {
        brk := brk + n;
      }
    }

    // The search of free: where the block belongs in address order.
    method Locate(b: int) returns (p: int)
      requires Listed() && b in live
      ensures p in free && p < b && (At(ptr, p) <= p || b < At(ptr, p))
    {
      ghost var t := Predecessor(free, base, b);
      ghost var start, wrapped := freep, false;
      p := freep;
      while !(b > p && b < At(ptr, p))
        invariant p in free && t in Ahead(free, start, p, wrapped) && (if wrapped then p < start else p >= start)
        decreases |Ahead(free, start, p, wrapped)|
      {
        assert ListedOk(free, base, ptr, size, p);
        if p >= At(ptr, p) && (b > p || b < At(ptr, p)) {
          break;
        }
        assert p != t;
        Advance(free, base, ptr, size, start, p, wrapped);
        wrapped := wrapped || At(ptr, p) <= p;
        p := At(ptr, p);
      }
      assert ListedOk(free, base, ptr, size, p);
    }

    // The block joins the free ones, in a block at least as large; all other live blocks and the total stay.
    method Free(ap: int) returns (ghost big: int)
      requires Listed() && ap - 1 in live
      modifies this`ptr, this`size, this`freep, this`free, this`live, this`owner
      ensures Listed() && live == old(live) - {ap - 1} && owner.Keys == old(owner.Keys)
      ensures forall b :: b in live ==> At(size, b) == At(old(size), b)
      ensures freep != 0 && big in free && At(size, big) >= At(old(size), ap - 1)
    {
      var b := ap - 1;
      var p := Locate(b);
      ghost var free1, owner1 := Right(free, live, base, ptr, size, owner, p, b);
      assert ListedOk(free, base, ptr, size, p) && At(ptr, p) in free;
      ghost var ptr1, size1 := RightPtr(ptr, size, p, b), RightSize(ptr, size, p, b);
      if b + At(size, b) == At(ptr, p) {
        size, ptr := size[b := At(size, b) + At(size, At(ptr, p))], ptr[b := At(ptr, At(ptr, p))];
      } else {
        ptr := ptr[b := At(ptr, p)];
      }
      assert ptr == ptr1 && size == size1;
      free, owner, big := Left(free1, live - {b}, base, ptr1, size1, owner1, p, b);
      if p + At(size, p) == b {
        size, ptr := size[p := At(size, p) + At(size, b)], ptr[p := At(ptr, b)];
      } else {
        ptr := ptr[p := b];
      }
      assert ptr == LeftPtr(ptr1, size1, p, b) && size == LeftSize(size1, p, b);
      freep := p;
      live := live - {b};
    }

    // The new block is as large as asked for, and at least 4096 units, whatever sbrk gave.
    method Morecore(nu: int, grows: bool) returns (ok: bool, ghost big: int)
      requires Valid() && freep != 0 && nu >= 1
      modifies this
      ensures Listed() && freep != 0 && live == old(live) && (ok <==> SbrkArg(CoreUnits(nu)) <= 0 || grows)
      ensures ok ==> owner.Keys == old(owner.Keys) + Span(old(brk), CoreUnits(nu)) && big in free && At(size, big) >= nu
      ensures ok ==> forall u :: old(brk) <= u < old(brk) + 4096 || old(brk) <= u < old(brk) + nu ==> u in owner
      ensures ok ==> brk == Break(old(brk), SbrkArg(CoreUnits(nu)), grows)
      ensures !ok ==> owner == old(owner) && free == old(free) && size == old(size) && brk == old(brk)
      ensures forall b :: b in live ==> At(size, b) == At(old(size), b)
    {
      var n := if nu < 4096 then 4096 else nu;
      var p := Sbrk(SbrkArg(n), grows);
      if p == -1 {
        return false, 0;
      }
      Grant(free, live, base, ptr, size, owner, p, n);
      size := size[p := n];
      live, owner := live + {p}, Granted(owner, p, n);
      GrantedKeys(old(owner), p, n);
      big := Free(p + 1);
      ok := true;
      forall u | p <= u < p + n ensures u in owner {
        assert InRange(p, n, u);
      }
    }

    // One lap from the block after freep: the first block that fits, and the one before it.
    method Search(nunits: int) returns (found: bool, prev: int, p: int)
      requires Listed() && freep != 0 && nunits >= 1
      ensures found ==> prev in free && p in free && p == At(ptr, prev) && At(size, p) >= nunits && p != base
      ensures found ==> FirstFit(free, size, At(ptr, freep), p, nunits)
      ensures !found ==> NoFit(free, size, nunits)
    {
      prev := freep;
      p := At(ptr, prev);
      assert ListedOk(free, base, ptr, size, freep) && ListedOk(free, base, ptr, size, base);
      ghost var start, wrapped := p, false;
      while true
        invariant prev in free && p == At(ptr, prev) && p in free && (if wrapped then p < start else p >= start)
        invariant forall x :: x in free && x !in Ahead(free, start, p, wrapped) ==> At(size, x) < nunits
        invariant freep in Ahead(free, start, p, wrapped)
        decreases |Ahead(free, start, p, wrapped)|
      {
        if At(size, p) >= nunits {
          return true, prev, p;
        }
        Advance(free, base, ptr, size, start, p, wrapped);
        if p == freep {
          return false, prev, p;
        }
        wrapped := wrapped || At(ptr, p) <= p;
        prev, p := p, At(ptr, p);
      }
    }

    // Hands out a block that fits, or the end of it.
    method Carve(prev: int, p: int, nunits: int) returns (b: int)
      requires Listed() && freep != 0 && prev in free && p == At(ptr, prev) && At(size, p) >= nunits >= 1 && p != base
      modifies this`ptr, this`size, this`freep, this`free, this`live, this`owner
      ensures Listed() && b !in old(live) && live == old(live) + {b} && At(size, b) == nunits && owner.Keys == old(owner.Keys)
      ensures freep == prev && b + nunits == p + At(old(size), p)
      ensures if At(old(size), p) == nunits then free == old(free) - {p} else free == old(free) && At(size, p) + nunits == At(old(size), p)
      ensures forall x :: x in free && x != p ==> At(size, x) == At(old(size), x)
      ensures forall x :: x in old(live) ==> At(size, x) == At(old(size), x)
    {
      assert ListedOk(free, base, ptr, size, prev);
      if At(size, p) == nunits {
        Take(free, live, base, ptr, size, owner, prev);
        ptr := ptr[prev := At(ptr, p)];
        b := p;
        free := free - {p};
      } else {
        Split(free, live, base, ptr, size, owner, p, nunits);
        var k := At(size, p) - nunits;
        size := size[p := k];
        b := p + k;
        size := size[b := nunits];
        owner := Carved(owner, b, nunits);
      }
      live := live + {b};
      freep := prev;
    }

    // 0 only when nothing on the list fits and sbrk fails.  The source's loop goes on after a successful
    // morecore from freep, where a search begins; it then ends within that lap, so sbrk is called once at most.
    // The blocks are all memory of the process afterwards exactly if sbrk was not needed, or failed, or the
    // number of bytes wanted fits in an int.
    method Malloc(nbytes: nat, grows: bool) returns (r: int)
      requires Valid() && nbytes < UINT
      modifies this
      ensures Listed()
      ensures Valid() <==> r == 0 || !old(NoRoom(Units(nbytes))) || 16 * CoreUnits(Units(nbytes)) < INT
      ensures r == 0 <==> !grows && SbrkArg(CoreUnits(Units(nbytes))) > 0 && old(NoRoom(Units(nbytes)))
      ensures !old(NoRoom(Units(nbytes))) ==>
                exists p :: IsEndOf(old(size), p, r - 1, Units(nbytes))
                            && p in old(free) && old(FirstFit(free, size, At(ptr, freep), p, Units(nbytes)))
      ensures r == 0 ==> live == old(live)
      ensures r != 0 ==> r - 1 !in old(live) && live == old(live) + {r - 1} && At(size, r - 1) == Units(nbytes)
      ensures forall b :: b in old(live) ==> At(size, b) == At(old(size), b)
      ensures owner.Keys == old(owner.Keys)
                          + if r != 0 && old(NoRoom(Units(nbytes))) then Span(old(brk), CoreUnits(Units(nbytes))) else {}
      ensures brk == if old(NoRoom(Units(nbytes))) then Break(old(brk), SbrkArg(CoreUnits(Units(nbytes))), grows) else old(brk)
    {
      var nunits := Units(nbytes);
      if freep == 0 {
        Start();
      }
      ghost var big;
      var found, prev, p := Search(nunits);
      if !found {
        var ok;
        ok, big := Morecore(nunits, grows);
        if !ok {
          return 0;
        }
        found, prev, p := Search(nunits);
        MemoryIff(old(owner), owner, old(brk), brk, nbytes, grows);
      }
      var b := Carve(prev, p, nunits);
      assert b > base;
      return b + 1;
    }
  }
}
