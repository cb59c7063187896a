/**
 The tournament lock of user/libtournament.c over the Peterson locks of
 kernel/petersonlock.c, for 2^L processes and any number of levels L.

 Every shared read or write is one step: setting the flag, setting the turn, and the
 two reads of the spin test.  A run is a schedule, a sequence of process ids; each
 entry lets that process take its next step.  Level 0 is the root of the tree and
 level L-1 holds the leaves' parents, as in the source.
 */
module Tournament {

  // ----- the shape of the tree -----

  function Pow2(n: nat): (r: nat)
    ensures r > 0
  {
    if n == 0 then 1 else 2 * Pow2(n - 1)
  }

  // p >> h
  function Shr(p: nat, h: nat): nat {
    if h == 0 then p else Shr(p, h - 1) / 2
  }

  // The subtree of level `i` that process `p` belongs to: p >> (L - i).
  function Group(L: nat, i: nat, p: nat): nat
    requires i <= L
  {
    Shr(p, L - i)
  }

  // The side on which `p` arrives at its level-`i` node: bit L-i-1 of p.
  function Role(L: nat, i: nat, p: nat): (r: nat)
    requires i < L
    ensures r < 2
  {
    Shr(p, L - i - 1) % 2
  }

  // The lock used by `p` at level `i`; nodes are numbered level by level from the root.
  function Node(L: nat, i: nat, p: nat): nat
    requires i < L
  {
    Group(L, i, p) + Pow2(i) - 1
  }

  // A node's subtree is split in two by the role: this is the child's subtree number.
  lemma GroupStep(L: nat, i: nat, p: nat)
    requires i < L
    ensures Group(L, i + 1, p) == 2 * Group(L, i, p) + Role(L, i, p)
  {
  }

  lemma {:induction false} GroupBound(L: nat, i: nat, p: nat)
    requires i <= L && p < Pow2(L)
    ensures Group(L, i, p) < Pow2(i)
    decreases L - i
  {
    if i < L {
      GroupBound(L, i + 1, p);
      GroupStep(L, i, p);
    } else {
      assert Group(L, L, p) == p;
    }
  }

  lemma {:induction false} Pow2Monotone(i: nat, j: nat)
    requires i <= j
    ensures Pow2(i) <= Pow2(j)
  {
    if i < j {
      Pow2Monotone(i, j - 1);
    }
  }

  // A lock number determines its level and its subtree, and it is one of the 2^L - 1 locks.
  lemma NodeBound(L: nat, i: nat, p: nat)
    requires i < L && p < Pow2(L)
    ensures Pow2(i) <= Node(L, i, p) + 1 < Pow2(i + 1) <= Pow2(L)
  {
    GroupBound(L, i, p);
    Pow2Monotone(i + 1, L);
  }

  lemma NodeInjective(L: nat, i: nat, p: nat, j: nat, q: nat)
    requires i < L && j < L && p < Pow2(L) && q < Pow2(L)
    requires Node(L, i, p) == Node(L, j, q)
    ensures i == j && Group(L, i, p) == Group(L, j, q)
  {
    NodeBound(L, i, p);
    NodeBound(L, j, q);
    if i < j {
      Pow2Monotone(i + 1, j);
    } else if j < i {
      Pow2Monotone(j + 1, i);
    }
  }

  // Two distinct processes meet with opposite roles at exactly one node.
  lemma Meet(L: nat, p: nat, q: nat) returns (i: nat)
    requires p < Pow2(L) && q < Pow2(L) && p != q
    ensures i < L && Node(L, i, p) == Node(L, i, q) && Role(L, i, p) != Role(L, i, q)
    ensures forall j: nat, k: nat :: j < L && k < L && Node(L, j, p) == Node(L, k, q) && Role(L, j, p) != Role(L, k, q)
                           ==> j == i && k == i
  {
    GroupBound(L, 0, p);
    GroupBound(L, 0, q);
    i := MeetFrom(L, 0, p, q);
    forall j: nat, k: nat | j < L && k < L && Node(L, j, p) == Node(L, k, q) && Role(L, j, p) != Role(L, k, q)
      ensures j == i && k == i
    {
      NodeInjective(L, j, p, k, q);
      if j < i {
        GroupsAgreeAbove(L, j + 1, i, p, q);
        GroupStep(L, j, p);
        GroupStep(L, j, q);
      } else if i < j {
        GroupsAgreeAbove(L, i + 1, j, p, q);
        GroupStep(L, i, p);
        GroupStep(L, i, q);
      }
    }
  }

  // Processes in one subtree of level j are in one subtree of every level above it.
  lemma {:induction false} GroupsAgreeAbove(L: nat, i: nat, j: nat, p: nat, q: nat)
    requires i <= j <= L && Group(L, j, p) == Group(L, j, q)
    ensures Group(L, i, p) == Group(L, i, q)
    decreases j - i
  {
    if i < j {
      GroupsAgreeAbove(L, i + 1, j, p, q);
      GroupStep(L, i, p);
      GroupStep(L, i, q);
    }
  }

  lemma {:induction false} MeetFrom(L: nat, i: nat, p: nat, q: nat) returns (k: nat)
    requires i <= L && p < Pow2(L) && q < Pow2(L) && p != q
    requires Group(L, i, p) == Group(L, i, q)
    ensures i <= k < L && Group(L, k, p) == Group(L, k, q) && Role(L, k, p) != Role(L, k, q)
    decreases L - i
  {
    if i == L {
      assert false;
    } else if Role(L, i, p) != Role(L, i, q) {
      k := i;
    } else {
      GroupStep(L, i, p);
      GroupStep(L, i, q);
      k := MeetFrom(L, i + 1, p, q);
    }
  }

  // ----- the protocol -----

  datatype Lock = Lock(flag: seq<bool>, turn: nat)

  // Where a process is.  `lv` is the loop index of tournament_acquire or tournament_release.
  datatype Pc =
    | Idle              // not competing
    | SetFlag(lv: nat)  // about to set flag[role]
    | SetTurn(lv: nat)  // about to give the turn away
    | ReadFlag(lv: nat) // about to read flag[other] in the spin test
    | ReadTurn(lv: nat) // saw flag[other] set, about to read turn
    | Critical          // acquire has returned
    | Release(lv: nat)  // about to clear flag[role]

  datatype State = State(locks: seq<Lock>, pcs: seq<Pc>)

  predicate Shape(L: nat, s: State) {
    && L >= 1
    && |s.pcs| == Pow2(L)
    && |s.locks| == Pow2(L) - 1
    && (forall n :: 0 <= n < |s.locks| ==> |s.locks[n].flag| == 2 && s.locks[n].turn < 2)
    && (forall p :: 0 <= p < |s.pcs| && !s.pcs[p].Idle? && !s.pcs[p].Critical? ==> s.pcs[p].lv < L)
  }

  function Init(L: nat): (s: State)
    requires L >= 1
    ensures Shape(L, s)
  {
    State(seq(Pow2(L) - 1, _ => Lock([false, false], 0)), seq(Pow2(L), _ => Idle))
  }

  function LockOf(L: nat, s: State, i: nat, p: nat): (l: Lock)
    requires Shape(L, s) && i < L && p < |s.pcs|
    ensures |l.flag| == 2 && l.turn < 2
  {
    NodeBound(L, i, p);
    s.locks[Node(L, i, p)]
  }

  // What follows a passed spin test: the next level up, or the critical section.
  function Passed(lv: nat): Pc {
    if lv == 0 then Critical else SetFlag(lv - 1)
  }

  // Is the process about to touch its level-i lock?
  predicate At(pc: Pc, i: nat) {
    !pc.Idle? && !pc.Critical? && pc.lv == i
  }

  // What a process at level pc.lv does to that level's lock, and where it goes from there.
  function NextLock(pc: Pc, lock: Lock, role: nat): Lock
    requires |lock.flag| == 2 && role < 2
  {
    match pc
    case SetFlag(_) => lock.(flag := lock.flag[role := true])
    case SetTurn(_) => lock.(turn := 1 - role)
    case Release(_) => lock.(flag := lock.flag[role := false])
    case _ => lock
  }

  function NextPc(L: nat, pc: Pc, lock: Lock, role: nat): Pc
    requires L >= 1 && |lock.flag| == 2 && role < 2 && !pc.Idle? && !pc.Critical?
  {
    match pc
    case SetFlag(lv) => SetTurn(lv)
    case SetTurn(lv) => ReadFlag(lv)
    case ReadFlag(lv) => if lock.flag[1 - role] then ReadTurn(lv) else Passed(lv)
    case ReadTurn(lv) => if lock.turn == 1 - role then ReadFlag(lv) else Passed(lv)
    case Release(lv) => if lv == L - 1 then Idle else Release(lv + 1)
  }

  // One step of process p.
  function Step(L: nat, s: State, p: nat): (t: State)
    requires Shape(L, s) && p < |s.pcs|
    ensures Shape(L, t)
  {
    var pc := s.pcs[p];
    if pc.Idle? then s.(pcs := s.pcs[p := SetFlag(L - 1)])
    else if pc.Critical? then s.(pcs := s.pcs[p := Release(0)])
    else
      NodeBound(L, pc.lv, p);
      var n := Node(L, pc.lv, p);
      var role := Role(L, pc.lv, p);
      State(s.locks[n := NextLock(pc, s.locks[n], role)], s.pcs[p := NextPc(L, pc, s.locks[n], role)])
  }

  predicate IsSchedule(L: nat, schedule: seq<nat>) {
    forall k :: 0 <= k < |schedule| ==> schedule[k] < Pow2(L)
  }

  function Exec(L: nat, s: State, schedule: seq<nat>): (t: State)
    requires Shape(L, s) && IsSchedule(L, schedule)
    ensures Shape(L, t)
  {
    if schedule == [] then s else
      var last := |schedule| - 1;
      Step(L, Exec(L, s, schedule[..last]), schedule[last])
  }

  // ----- what every step keeps -----

  // Has passed level i and not yet released it.
  predicate Holds(pc: Pc, i: nat) {
    match pc
    case Idle => false
    case Critical => true
    case Release(j) => j <= i
    case _ => pc.lv < i
  }

  predicate Spinning(pc: Pc, i: nat) {
    pc == ReadFlag(i) || pc == ReadTurn(i)
  }

  // Has its flag up at level i.
  predicate Flagged(pc: Pc, i: nat) {
    pc == SetTurn(i) || Spinning(pc, i) || Holds(pc, i)
  }

  // Occupies its side of its level-i node.
  predicate Inside(pc: Pc, i: nat) {
    pc == SetFlag(i) || Flagged(pc, i)
  }

  // Peterson's argument for two processes a and b at one level-i node, seen from a: they do
  // not both hold it, and once b has written `turn`, b sees it against itself while a holds.
  predicate PairOk(a: Pc, b: Pc, i: nat, lock: Lock, roleA: nat) {
    && !(Holds(a, i) && Holds(b, i))
    && (Holds(a, i) && Spinning(b, i) ==> lock.turn == roleA)
  }

  ghost predicate Pairs(L: nat, s: State)
    requires Shape(L, s)
  {
    forall p: nat, q: nat, i: nat :: p < |s.pcs| && q < |s.pcs| && p != q && i < L && SameNode(L, i, p, q)
      ==> PairOk(s.pcs[p], s.pcs[q], i, LockOf(L, s, i, p), Role(L, i, p))
  }

  ghost predicate FlagsUp(L: nat, s: State)
    requires Shape(L, s)
  {
    forall p: nat, i: nat :: p < |s.pcs| && i < L && Flagged(s.pcs[p], i) ==> LockOf(L, s, i, p).flag[Role(L, i, p)]
  }

  // A flag that is up belongs to some process on that side of the node.
  ghost predicate FlagsOwned(L: nat, s: State)
    requires Shape(L, s)
  {
    forall p: nat, i: nat, r: nat {:trigger Owned(L, s, i, p, r)} ::
      p < |s.pcs| && i < L && r < 2 && LockOf(L, s, i, p).flag[r] ==> Owned(L, s, i, p, r)
  }

  ghost predicate Owned(L: nat, s: State, i: nat, p: nat, r: nat)
    requires Shape(L, s) && i < L
  {
    exists q: nat :: q < |s.pcs| && Owns(L, s, q, i, p, r)
  }

  predicate SameNode(L: nat, i: nat, p: nat, q: nat)
    requires i <= L
  {
    Group(L, i, p) == Group(L, i, q)
  }

  predicate Owns(L: nat, s: State, q: nat, i: nat, p: nat, r: nat)
    requires Shape(L, s) && i < L && q < |s.pcs|
  {
    SameNode(L, i, p, q) && Role(L, i, q) == r && Flagged(s.pcs[q], i)
  }

  ghost predicate Safe(L: nat, s: State) {
    Shape(L, s) && FlagsUp(L, s) && Pairs(L, s)
  }

  ghost predicate Inv(L: nat, s: State) {
    Safe(L, s) && FlagsOwned(L, s)
  }

  // At most one process is in each (node, role) position.
  lemma UniquePosition(L: nat, s: State, i: nat, p: nat, q: nat)
    requires Shape(L, s) && Pairs(L, s) && i < L && p < |s.pcs| && q < |s.pcs|
    requires SameNode(L, i, p, q) && Role(L, i, p) == Role(L, i, q)
    requires Inside(s.pcs[p], i) && Inside(s.pcs[q], i)
    ensures p == q
  {
    GroupStep(L, i, p);
    GroupStep(L, i, q);
    assert SameNode(L, i + 1, p, q);
    if i + 1 < L {
      assert Holds(s.pcs[p], i + 1) && Holds(s.pcs[q], i + 1);
    }
  }

  // What a step of p does, seen at q's level-i node: it acts there exactly if p is at that node.
  lemma LockView(L: nat, s: State, p: nat, i: nat, q: nat)
    requires Shape(L, s) && p < |s.pcs| && q < |s.pcs| && i < L
    ensures LockOf(L, Step(L, s, p), i, q)
         == if At(s.pcs[p], i) && SameNode(L, i, p, q) then NextLock(s.pcs[p], LockOf(L, s, i, q), Role(L, i, p))
            else LockOf(L, s, i, q)
  {
    NodeBound(L, i, q);
    if !s.pcs[p].Idle? && !s.pcs[p].Critical? {
      NodeBound(L, s.pcs[p].lv, p);
      if Node(L, i, q) == Node(L, s.pcs[p].lv, p) {
        NodeInjective(L, i, q, s.pcs[p].lv, p);
      }
    }
  }

  lemma PcView(L: nat, s: State, p: nat, i: nat)
    requires Shape(L, s) && p < |s.pcs| && i < L
    ensures |Step(L, s, p).pcs| == |s.pcs|
    ensures forall q :: 0 <= q < |s.pcs| && q != p ==> Step(L, s, p).pcs[q] == s.pcs[q]
    ensures At(s.pcs[p], i) ==> Step(L, s, p).pcs[p] == NextPc(L, s.pcs[p], LockOf(L, s, i, p), Role(L, i, p))
    ensures Flagged(Step(L, s, p).pcs[p], i) ==> Inside(s.pcs[p], i)
    // away from level i, nothing changes there
    ensures !At(s.pcs[p], i) ==>
              && Holds(Step(L, s, p).pcs[p], i) == Holds(s.pcs[p], i)
              && Spinning(Step(L, s, p).pcs[p], i) == Spinning(s.pcs[p], i)
              && Flagged(Step(L, s, p).pcs[p], i) == Flagged(s.pcs[p], i)
  {
  }

  // Two processes with their flags up at a node after a step are on its two sides, and a third
  // process cannot have been the one that stepped there.
  lemma TwoSides(L: nat, s: State, p: nat, i: nat, a: nat, b: nat)
    requires Safe(L, s) && p < |s.pcs| && a < |s.pcs| && b < |s.pcs| && a != b && i < L && SameNode(L, i, a, b)
    requires Inside(s.pcs[a], i) && Inside(s.pcs[b], i)
    ensures Role(L, i, a) != Role(L, i, b)
    ensures At(s.pcs[p], i) && SameNode(L, i, p, a) ==> p == a || p == b
  {
    if Role(L, i, a) == Role(L, i, b) {
      UniquePosition(L, s, i, a, b);
    }
    if At(s.pcs[p], i) && SameNode(L, i, p, a) {
      assert Inside(s.pcs[p], i);
      UniquePosition(L, s, i, p, if Role(L, i, p) == Role(L, i, a) then a else b);
    }
  }

  // Peterson's algorithm on one lock: a's step at level i keeps the pair property both ways.
  lemma PetersonStep(L: nat, a: Pc, b: Pc, i: nat, lock: Lock, roleA: nat)
    requires L >= 1 && |lock.flag| == 2 && lock.turn < 2 && roleA < 2 && At(a, i) && i < L
    requires Flagged(b, i) ==> lock.flag[1 - roleA]
    requires PairOk(a, b, i, lock, roleA) && PairOk(b, a, i, lock, 1 - roleA)
    ensures PairOk(NextPc(L, a, lock, roleA), b, i, NextLock(a, lock, roleA), roleA)
    ensures PairOk(b, NextPc(L, a, lock, roleA), i, NextLock(a, lock, roleA), 1 - roleA)
  {
  }

  // The pair property before a step, from both sides of the node.
  lemma PairBefore(L: nat, s: State, i: nat, a: nat, b: nat)
    requires Safe(L, s) && a < |s.pcs| && b < |s.pcs| && a != b && i < L && SameNode(L, i, a, b)
    requires Role(L, i, a) != Role(L, i, b)
    ensures PairOk(s.pcs[a], s.pcs[b], i, LockOf(L, s, i, a), Role(L, i, a))
    ensures PairOk(s.pcs[b], s.pcs[a], i, LockOf(L, s, i, a), 1 - Role(L, i, a))
    ensures Flagged(s.pcs[a], i) ==> LockOf(L, s, i, a).flag[Role(L, i, a)]
    ensures Flagged(s.pcs[b], i) ==> LockOf(L, s, i, a).flag[1 - Role(L, i, a)]
  {
    assert LockOf(L, s, i, a) == LockOf(L, s, i, b);
    assert SameNode(L, i, b, a);
  }

  lemma PairStep(L: nat, s: State, p: nat, i: nat, a: nat, b: nat)
    requires Safe(L, s) && p < |s.pcs| && a < |s.pcs| && b < |s.pcs| && a != b && i < L && SameNode(L, i, a, b)
    ensures var t := Step(L, s, p); PairOk(t.pcs[a], t.pcs[b], i, LockOf(L, t, i, a), Role(L, i, a))
  {
    var t := Step(L, s, p);
    PcView(L, s, p, i);
    if Flagged(t.pcs[a], i) && Flagged(t.pcs[b], i) {
      TwoSides(L, s, p, i, a, b);
      PairBefore(L, s, i, a, b);
      LockView(L, s, p, i, a);
      var lock, role := LockOf(L, s, i, a), Role(L, i, a);
      if p == a && At(s.pcs[a], i) {
        PetersonStep(L, s.pcs[a], s.pcs[b], i, lock, role);
      } else if p == b && At(s.pcs[b], i) {
        assert SameNode(L, i, b, a) && LockOf(L, s, i, b) == lock;
        PetersonStep(L, s.pcs[b], s.pcs[a], i, lock, 1 - role);
      }
    }
  }

  lemma FlagStep(L: nat, s: State, p: nat, i: nat, q: nat)
    requires Safe(L, s) && p < |s.pcs| && q < |s.pcs| && i < L && Flagged(Step(L, s, p).pcs[q], i)
    ensures LockOf(L, Step(L, s, p), i, q).flag[Role(L, i, q)]
  {
    PcView(L, s, p, i);
    LockView(L, s, p, i, q);
    if p != q && At(s.pcs[p], i) && SameNode(L, i, p, q) {
      TwoSides(L, s, p, i, p, q);
    }
  }

  lemma OwnerStep(L: nat, s: State, p: nat, i: nat, q: nat, r: nat) returns (w: nat)
    requires Shape(L, s) && p < |s.pcs| && q < |s.pcs| && i < L && r < 2
    requires LockOf(L, s, i, q).flag[r] ==> Owned(L, s, i, q, r)
    requires LockOf(L, Step(L, s, p), i, q).flag[r]
    ensures w < |s.pcs| && Owns(L, Step(L, s, p), w, i, q, r)
  {
    PcView(L, s, p, i);
    LockView(L, s, p, i, q);
    if s.pcs[p] == SetFlag(i) && SameNode(L, i, p, q) && Role(L, i, p) == r {
      w := p;
    } else {
      w :| w < |s.pcs| && Owns(L, s, w, i, q, r);
    }
  }

  lemma StepKeepsInv(L: nat, s: State, p: nat)
    requires Inv(L, s) && p < |s.pcs|
    ensures Inv(L, Step(L, s, p))
  {
    var t := Step(L, s, p);
    forall q: nat, i: nat | q < |t.pcs| && i < L && Flagged(t.pcs[q], i)
      ensures LockOf(L, t, i, q).flag[Role(L, i, q)]
    {
      FlagStep(L, s, p, i, q);
    }
    forall q: nat, i: nat, r: nat | q < |t.pcs| && i < L && r < 2 && LockOf(L, t, i, q).flag[r]
      ensures Owned(L, t, i, q, r)
    {
      assert LockOf(L, s, i, q).flag[r] ==> Owned(L, s, i, q, r);
      var w := OwnerStep(L, s, p, i, q, r);
    }
    forall a: nat, b: nat, i: nat | a < |t.pcs| && b < |t.pcs| && a != b && i < L && SameNode(L, i, a, b)
      ensures PairOk(t.pcs[a], t.pcs[b], i, LockOf(L, t, i, a), Role(L, i, a))
    {
      PairStep(L, s, p, i, a, b);
    }
  }

  lemma InitInv(L: nat)
    requires L >= 1
    ensures Inv(L, Init(L))
  {
    forall p: nat, i: nat | p < Pow2(L) && i < L
      ensures LockOf(L, Init(L), i, p) == Lock([false, false], 0)
    {
      NodeBound(L, i, p);
    }
  }

  lemma {:induction false} Reachable(L: nat, schedule: seq<nat>)
    requires L >= 1 && IsSchedule(L, schedule)
    ensures Inv(L, Exec(L, Init(L), schedule))
  {
    if schedule == [] {
      InitInv(L);
    } else {
      var last := |schedule| - 1;
      Reachable(L, schedule[..last]);
      StepKeepsInv(L, Exec(L, Init(L), schedule[..last]), schedule[last]);
    }
  }

  // Mutual exclusion: in every run, at most one process is between acquire and release,
  // and more generally every node of the tree has at most one holder.
  lemma MutualExclusion(L: nat, schedule: seq<nat>, p: nat, q: nat)
    requires L >= 1 && IsSchedule(L, schedule) && p < Pow2(L) && q < Pow2(L) && p != q
    ensures var s := Exec(L, Init(L), schedule); !(s.pcs[p].Critical? && s.pcs[q].Critical?)
    ensures var s := Exec(L, Init(L), schedule);
            forall i: nat :: i < L && Node(L, i, p) == Node(L, i, q) ==> !(Holds(s.pcs[p], i) && Holds(s.pcs[q], i))
  {
    Reachable(L, schedule);
    GroupBound(L, 0, p);
    GroupBound(L, 0, q);
    assert SameNode(L, 0, p, q);
    var s := Exec(L, Init(L), schedule);
    forall i: nat | i < L && Node(L, i, p) == Node(L, i, q)
      ensures !(Holds(s.pcs[p], i) && Holds(s.pcs[q], i))
    {
      assert SameNode(L, i, p, q);
    }
  }

  // ----- progress -----

  // The spin test of a process waiting at level i, on the current values.
  predicate MustWait(lock: Lock, role: nat)
    requires |lock.flag| == 2 && role < 2
  {
    lock.flag[1 - role] && lock.turn == 1 - role
  }

  predicate Blocked(L: nat, s: State, p: nat)
    requires Shape(L, s) && p < |s.pcs|
  {
    var pc := s.pcs[p];
    (pc.ReadFlag? || pc.ReadTurn?) && MustWait(LockOf(L, s, pc.lv, p), Role(L, pc.lv, p))
  }

  // If anyone is competing or holding, someone who is can move on: a waiting process is held up
  // either by its opponent at that node, who then is not, or by someone nearer the root.
  lemma {:induction false} SomeoneMoves(L: nat, s: State, p: nat) returns (q: nat)
    requires Inv(L, s) && p < |s.pcs| && !s.pcs[p].Idle?
    ensures q < |s.pcs| && !s.pcs[q].Idle? && !Blocked(L, s, q)
    decreases if Blocked(L, s, p) then s.pcs[p].lv + 1 else 0
  {
    if !Blocked(L, s, p) {
      q := p;
    } else {
      var i := s.pcs[p].lv;
      var r := Opponent(L, s, p, i);
      if Spinning(s.pcs[r], i) {
        assert LockOf(L, s, i, r) == LockOf(L, s, i, p);
        q := r;
      } else {
        q := SomeoneMoves(L, s, r);
      }
    }
  }

  lemma Opponent(L: nat, s: State, p: nat, i: nat) returns (r: nat)
    requires Inv(L, s) && p < |s.pcs| && i < L && LockOf(L, s, i, p).flag[1 - Role(L, i, p)]
    ensures r < |s.pcs| && SameNode(L, i, p, r) && Role(L, i, r) == 1 - Role(L, i, p) && Flagged(s.pcs[r], i)
  {
    assert Owned(L, s, i, p, 1 - Role(L, i, p));
    r :| r < |s.pcs| && Owns(L, s, r, i, p, 1 - Role(L, i, p));
  }

  // A process that is not blocked leaves its spin loop within two steps of its own.
  predicate MovedOn(before: Pc, after: Pc) {
    after != before && ((before.ReadFlag? || before.ReadTurn?) ==> !Spinning(after, before.lv))
  }

  predicate Acquiring(pc: Pc) {
    pc.SetFlag? || pc.SetTurn? || pc.ReadFlag? || pc.ReadTurn?
  }

  // Steps a process has left before it enters the critical section or has finished releasing.
  function Work(L: nat, pc: Pc): nat {
    match pc
    case Idle => 0
    case Critical => 0
    case SetFlag(i) => 3 * i + 3
    case SetTurn(i) => 3 * i + 2
    case Release(i) => if i < L then L - i else 0
    case _ => 3 * pc.lv + 1
  }

  function TotalWork(L: nat, pcs: seq<Pc>): nat {
    if pcs == [] then 0 else Work(L, pcs[0]) + TotalWork(L, pcs[1..])
  }

  lemma {:induction false} TotalWorkUpdate(L: nat, pcs: seq<Pc>, q: nat, pc: Pc)
    requires q < |pcs|
    ensures TotalWork(L, pcs[q := pc]) == TotalWork(L, pcs) - Work(L, pcs[q]) + Work(L, pc)
  {
    if q == 0 {
      assert pcs[q := pc][1..] == pcs[1..];
    } else {
      TotalWorkUpdate(L, pcs[1..], q - 1, pc);
      assert pcs[q := pc][1..] == pcs[1..][q - 1 := pc];
    }
  }

  // What two steps of one process achieve on one lock.
  predicate Advances(L: nat, before: Pc, after: Pc) {
    && MovedOn(before, after)
    && (!before.Critical? ==> Work(L, after) < Work(L, before))
    && (Acquiring(before) ==> Acquiring(after) || after.Critical?)
  }

  lemma MovesOnLock(L: nat, pc: Pc, lock: Lock, role: nat, i: nat)
    requires L >= 1 && |lock.flag| == 2 && role < 2 && i < L && At(pc, i)
    requires Spinning(pc, i) ==> !MustWait(lock, role)
    ensures var next := NextPc(L, pc, lock, role);
            Advances(L, pc, next)
            || (At(next, i) && NextLock(pc, lock, role) == lock && Advances(L, pc, NextPc(L, next, lock, role)))
  {
  }

  lemma ExecTwice(L: nat, s: State, q: nat)
    requires Shape(L, s) && q < |s.pcs|
    ensures IsSchedule(L, [q]) && Exec(L, s, [q]) == Step(L, s, q)
    ensures IsSchedule(L, [q, q]) && Exec(L, s, [q, q]) == Step(L, Step(L, s, q), q)
  {
    assert [q, q][..1] == [q] && [q][..0] == [];
  }

  lemma MovesInTwo(L: nat, s: State, q: nat) returns (ext: seq<nat>)
    requires Shape(L, s) && q < |s.pcs| && !s.pcs[q].Idle? && !Blocked(L, s, q)
    ensures ext == [q] || ext == [q, q]
    ensures IsSchedule(L, ext)
    ensures var t := Exec(L, s, ext); t.pcs == s.pcs[q := t.pcs[q]] && Advances(L, s.pcs[q], t.pcs[q])
  {
    ExecTwice(L, s, q);
    var t := Step(L, s, q);
    if Advances(L, s.pcs[q], t.pcs[q]) {
      ext := [q];
    } else {
      var i := s.pcs[q].lv;
      MovesOnLock(L, s.pcs[q], LockOf(L, s, i, q), Role(L, i, q), i);
      PcView(L, s, q, i);
      LockView(L, s, q, i, q);
      PcView(L, t, q, i);
      assert Advances(L, s.pcs[q], Step(L, t, q).pcs[q]);
      ext := [q, q];
    }
  }

  lemma {:induction false} ExecConcat(L: nat, s: State, a: seq<nat>, b: seq<nat>)
    requires Shape(L, s) && IsSchedule(L, a) && IsSchedule(L, b)
    ensures IsSchedule(L, a + b) && Exec(L, s, a + b) == Exec(L, Exec(L, s, a), b)
  {
    if b == [] {
      assert a + b == a;
    } else {
      var last := |b| - 1;
      ExecConcat(L, s, a, b[..last]);
      assert (a + b)[..|a + b| - 1] == a + b[..last];
      hide Step;
    }
  }

  lemma {:induction false} ExecKeepsInv(L: nat, s: State, schedule: seq<nat>)
    requires Inv(L, s) && IsSchedule(L, schedule)
    ensures Inv(L, Exec(L, s, schedule))
  {
    if schedule != [] {
      var last := |schedule| - 1;
      ExecKeepsInv(L, s, schedule[..last]);
      StepKeepsInv(L, Exec(L, s, schedule[..last]), schedule[last]);
    }
  }

  lemma {:induction false} EntryFrom(L: nat, s: State, p: nat) returns (ext: seq<nat>, w: nat)
    requires Inv(L, s) && p < |s.pcs| && Acquiring(s.pcs[p])
    ensures IsSchedule(L, ext) && w < |s.pcs| && Exec(L, s, ext).pcs[w].Critical?
    decreases TotalWork(L, s.pcs)
  {
    var q := SomeoneMoves(L, s, p);
    if s.pcs[q].Critical? {
      ext, w := [], q;
    } else {
      var first := MovesInTwo(L, s, q);
      var t := Exec(L, s, first);
      if t.pcs[q].Critical? {
        ext, w := first, q;
      } else {
        ExecKeepsInv(L, s, first);
        TotalWorkUpdate(L, s.pcs, q, t.pcs[q]);
        var rest;
        rest, w := EntryFrom(L, t, p);
        ExecConcat(L, s, first, rest);
        ext := first + rest;
      }
    }
  }

  // No deadlock: after any run that leaves someone trying to acquire, the run can be continued so
  // that some process is in the critical section.
  lemma DeadlockFree(L: nat, schedule: seq<nat>, p: nat) returns (ext: seq<nat>, w: nat)
    requires L >= 1 && IsSchedule(L, schedule) && p < Pow2(L)
    requires Acquiring(Exec(L, Init(L), schedule).pcs[p])
    ensures IsSchedule(L, schedule + ext) && w < Pow2(L)
    ensures Exec(L, Init(L), schedule + ext).pcs[w].Critical?
  {
    Reachable(L, schedule);
    ext, w := EntryFrom(L, Exec(L, Init(L), schedule), p);
    ExecConcat(L, Init(L), schedule, ext);
  }

  // ----- bounded bypass -----

  // Does the next step take q past p's level-i node while p waits there?
  predicate Overtakes(L: nat, s: State, p: nat, i: nat, q: nat)
    requires Shape(L, s) && p < |s.pcs| && q < |s.pcs| && i < L
  {
    q != p && SameNode(L, i, p, q) && Spinning(s.pcs[q], i) && Holds(Step(L, s, q).pcs[q], i)
  }

  function Overtakings(L: nat, s: State, p: nat, i: nat, schedule: seq<nat>): nat
    requires Shape(L, s) && p < |s.pcs| && i < L && IsSchedule(L, schedule)
  {
    if schedule == [] then 0 else
      var last := |schedule| - 1;
      var before := schedule[..last];
      Overtakings(L, s, p, i, before)
      + if Overtakes(L, Exec(L, s, before), p, i, schedule[last]) then 1 else 0
  }

  // p does not get past its level-i node.
  ghost predicate NeverHolds(L: nat, s: State, p: nat, i: nat, schedule: seq<nat>)
    requires Shape(L, s) && p < |s.pcs| && i < L && IsSchedule(L, schedule)
  {
    forall k :: 0 <= k <= |schedule| ==> !Holds(Exec(L, s, schedule[..k]).pcs[p], i)
  }

  // Every rival waiting at p's node has given the turn to p.
  ghost predicate TurnIsMine(L: nat, s: State, p: nat, i: nat)
    requires Shape(L, s) && p < |s.pcs| && i < L
  {
    forall q: nat :: q < |s.pcs| && q != p && SameNode(L, i, p, q) && Spinning(s.pcs[q], i)
      ==> LockOf(L, s, i, p).turn == Role(L, i, p)
  }

  lemma OvertakeOnce(L: nat, s: State, p: nat, i: nat, r: nat)
    requires Safe(L, s) && p < |s.pcs| && r < |s.pcs| && i < L
    requires Spinning(s.pcs[p], i)
    requires Overtakes(L, s, p, i, r)
    ensures TurnIsMine(L, Step(L, s, r), p, i) && !TurnIsMine(L, s, p, i)
  {
    PcView(L, s, r, i);
    TwoSides(L, s, r, i, p, r);
    PairBefore(L, s, i, p, r);
    assert LockOf(L, s, i, p) == LockOf(L, s, i, r);
    var t := Step(L, s, r);
    forall q: nat | q < |t.pcs| && q != p && SameNode(L, i, p, q) && Spinning(t.pcs[q], i)
      ensures false
    {
      assert Spinning(s.pcs[q], i);
      TwoSides(L, s, q, i, p, r);
    }
  }

  lemma TurnStaysMine(L: nat, s: State, p: nat, i: nat, r: nat)
    requires Safe(L, s) && p < |s.pcs| && r < |s.pcs| && i < L
    requires Spinning(s.pcs[p], i) && TurnIsMine(L, s, p, i)
    ensures TurnIsMine(L, Step(L, s, r), p, i)
  {
    PcView(L, s, r, i);
    LockView(L, s, r, i, p);
    var t := Step(L, s, r);
    forall q: nat | q < |t.pcs| && q != p && SameNode(L, i, p, q) && Spinning(t.pcs[q], i)
      ensures LockOf(L, t, i, p).turn == Role(L, i, p)
    {
      TwoSides(L, s, r, i, p, q);
    }
  }

  // A process at the test of a node leaves it only by getting past the node.
  lemma StaysAtTest(L: nat, s: State, p: nat, i: nat, r: nat)
    requires Shape(L, s) && p < |s.pcs| && r < |s.pcs| && i < L
    requires Spinning(s.pcs[p], i) && !Holds(Step(L, s, r).pcs[p], i)
    ensures Spinning(Step(L, s, r).pcs[p], i)
  {
    PcView(L, s, r, i);
  }

  // Once a process has given the turn away at a node, it stays at its test until it gets past the node, and
  // its rivals pass that node at most once before it does, however the run continues.
  lemma {:induction false} BoundedBypass(L: nat, s: State, p: nat, i: nat, schedule: seq<nat>)
    requires Inv(L, s) && p < |s.pcs| && i < L && IsSchedule(L, schedule)
    requires Spinning(s.pcs[p], i) && NeverHolds(L, s, p, i, schedule)
    ensures Spinning(Exec(L, s, schedule).pcs[p], i)
    ensures Overtakings(L, s, p, i, schedule) <= 1
    ensures Overtakings(L, s, p, i, schedule) == 1 ==> TurnIsMine(L, Exec(L, s, schedule), p, i)
  {
    if schedule != [] {
      var last := |schedule| - 1;
      var before := schedule[..last];
      forall k | 0 <= k <= |before| ensures !Holds(Exec(L, s, before[..k]).pcs[p], i) {
        assert before[..k] == schedule[..k];
      }
      BoundedBypass(L, s, p, i, before);
      ExecKeepsInv(L, s, before);
      var t := Exec(L, s, before);
      assert schedule[..|schedule|] == schedule;
      StaysAtTest(L, t, p, i, schedule[last]);
      if Overtakes(L, t, p, i, schedule[last]) {
        OvertakeOnce(L, t, p, i, schedule[last]);
      } else if TurnIsMine(L, t, p, i) {
        TurnStaysMine(L, t, p, i, schedule[last]);
      }
    }
  }

  // ----- a process on its own -----

  // One lock replaced.
  function WithLock(L: nat, s: State, i: nat, p: nat, lock: Lock): (locks: seq<Lock>)
    requires Shape(L, s) && i < L && p < |s.pcs|
    ensures |locks| == |s.locks|
  {
    NodeBound(L, i, p);
    s.locks[Node(L, i, p) := lock]
  }

  // What acquire leaves in a lock, and release.
  function Taken(lock: Lock, role: nat): Lock
    requires |lock.flag| == 2 && role < 2
  {
    Lock(lock.flag[role := true], 1 - role)
  }

  function Lowered(lock: Lock, role: nat): Lock
    requires |lock.flag| == 2 && role < 2
  {
    lock.(flag := lock.flag[role := false])
  }

  // Not a lock of p's path at a level from lo up to hi.
  ghost predicate OffPath(L: nat, p: nat, lo: nat, hi: nat, n: nat)
    requires hi <= L
  {
    forall j: nat :: lo <= j < hi ==> n != Node(L, j, p)
  }

  // t is s with p's locks taken at the levels from lo up to hi, or lowered; everything else is the same.
  ghost predicate OnPath(L: nat, s: State, t: State, p: nat, lo: nat, hi: nat, taken: bool)
    requires Shape(L, s) && Shape(L, t) && p < |s.pcs| && hi <= L
  {
    && (forall j: nat {:trigger LockOf(L, t, j, p)} :: lo <= j < hi ==>
          LockOf(L, t, j, p) == if taken then Taken(LockOf(L, s, j, p), Role(L, j, p)) else Lowered(LockOf(L, s, j, p), Role(L, j, p)))
    && (forall n: nat {:trigger OffPath(L, p, lo, hi, n)} :: n < |s.locks| && OffPath(L, p, lo, hi, n) ==> t.locks[n] == s.locks[n])
    && t.pcs == s.pcs[p := t.pcs[p]]
  }

  // One level takes three steps: the flag, the turn, and one read of the test.
  lemma SoloLevel(L: nat, s: State, p: nat, i: nat)
    requires Shape(L, s) && p < |s.pcs| && i < L && s.pcs[p] == SetFlag(i) && !LockOf(L, s, i, p).flag[1 - Role(L, i, p)]
    ensures Step(L, Step(L, Step(L, s, p), p), p)
         == State(WithLock(L, s, i, p, Taken(LockOf(L, s, i, p), Role(L, i, p))), s.pcs[p := Passed(i)])
  {
    NodeBound(L, i, p);
  }

  function Repeat(p: nat, n: nat): seq<nat> { seq(n, _ => p) }

  lemma RepeatConcat(L: nat, s: State, p: nat, n: nat, m: nat)
    requires Shape(L, s) && p < |s.pcs|
    ensures IsSchedule(L, Repeat(p, n)) && IsSchedule(L, Repeat(p, m)) && IsSchedule(L, Repeat(p, n + m))
    ensures Exec(L, s, Repeat(p, n + m)) == Exec(L, Exec(L, s, Repeat(p, n)), Repeat(p, m))
  {
    assert Repeat(p, n + m) == Repeat(p, n) + Repeat(p, m);
    ExecConcat(L, s, Repeat(p, n), Repeat(p, m));
  }

  lemma RepeatNone(L: nat, s: State, p: nat)
    requires Shape(L, s)
    ensures IsSchedule(L, Repeat(p, 0)) && Exec(L, s, Repeat(p, 0)) == s
  {
    assert Repeat(p, 0) == [];
  }

  lemma RepeatFew(L: nat, s: State, p: nat)
    requires Shape(L, s) && p < |s.pcs|
    ensures IsSchedule(L, Repeat(p, 1)) && Exec(L, s, Repeat(p, 1)) == Step(L, s, p)
    ensures IsSchedule(L, Repeat(p, 3)) && Exec(L, s, Repeat(p, 3)) == Step(L, Step(L, Step(L, s, p), p), p)
  {
    ExecTwice(L, s, p);
    assert Repeat(p, 1) == [p];
    assert Repeat(p, 3)[..2] == [p, p];
  }

  // A lock on p's path replaced: the other levels of the path are as they were.
  lemma PathUpdate(L: nat, s: State, t: State, p: nat, i: nat, lock: Lock)
    requires Shape(L, s) && Shape(L, t) && p < |s.pcs| && i < L && t.locks == WithLock(L, s, i, p, lock)
    ensures forall j: nat :: j < L ==> LockOf(L, t, j, p) == if j == i then lock else LockOf(L, s, j, p)
  {
    forall j: nat | j < L ensures LockOf(L, t, j, p) == if j == i then lock else LockOf(L, s, j, p) {
      NodeBound(L, j, p);
      if Node(L, i, p) == Node(L, j, p) {
        NodeInjective(L, i, p, j, p);
      }
    }
  }

  // One more level above, or below.
  lemma OnPathAbove(L: nat, s: State, u: State, t: State, p: nat, i: nat)
    requires Shape(L, s) && Shape(L, u) && Shape(L, t) && p < |s.pcs| && i < L
    requires u.locks == WithLock(L, s, i, p, Taken(LockOf(L, s, i, p), Role(L, i, p))) && u.pcs == s.pcs[p := u.pcs[p]]
    requires OnPath(L, u, t, p, 0, i, true)
    ensures OnPath(L, s, t, p, 0, i + 1, true)
  {
    PathUpdate(L, s, u, p, i, Taken(LockOf(L, s, i, p), Role(L, i, p)));
    PathEnd(L, u, t, p, 0, i, i, true);
    forall n: nat | n < |s.locks| && OffPath(L, p, 0, i + 1, n) ensures t.locks[n] == s.locks[n] {
      assert OffPath(L, p, 0, i, n);
    }
  }

  lemma OnPathBelow(L: nat, s: State, u: State, t: State, p: nat, i: nat)
    requires Shape(L, s) && Shape(L, u) && Shape(L, t) && p < |s.pcs| && i < L
    requires u.locks == WithLock(L, s, i, p, Lowered(LockOf(L, s, i, p), Role(L, i, p))) && u.pcs == s.pcs[p := u.pcs[p]]
    requires OnPath(L, u, t, p, i + 1, L, false)
    ensures OnPath(L, s, t, p, i, L, false)
  {
    PathUpdate(L, s, u, p, i, Lowered(LockOf(L, s, i, p), Role(L, i, p)));
    PathEnd(L, u, t, p, i + 1, L, i, false);
    forall n: nat | n < |s.locks| && OffPath(L, p, i, L, n) ensures t.locks[n] == s.locks[n] {
      assert OffPath(L, p, i + 1, L, n);
    }
  }

  // A level outside the range keeps its lock.
  lemma PathEnd(L: nat, u: State, t: State, p: nat, lo: nat, hi: nat, i: nat, taken: bool)
    requires Shape(L, u) && Shape(L, t) && p < |u.pcs| && i < L && hi <= L && !(lo <= i < hi) && OnPath(L, u, t, p, lo, hi, taken)
    ensures LockOf(L, t, i, p) == LockOf(L, u, i, p)
  {
    NodeBound(L, i, p);
    forall j: nat | lo <= j < hi ensures Node(L, i, p) != Node(L, j, p) {
      if Node(L, i, p) == Node(L, j, p) {
        NodeInjective(L, i, p, j, p);
      }
    }
    assert OffPath(L, p, lo, hi, Node(L, i, p));
  }

  lemma OnPathNone(L: nat, s: State, t: State, p: nat, i: nat, taken: bool)
    requires Shape(L, s) && Shape(L, t) && p < |s.pcs| && i <= L && t.locks == s.locks && t.pcs == s.pcs[p := t.pcs[p]]
    ensures OnPath(L, s, t, p, i, i, taken)
  {
  }

  // From level i - 1 up to the root.
  lemma {:induction false} SoloClimb(L: nat, s: State, p: nat, i: nat)
    requires Shape(L, s) && p < |s.pcs| && i <= L && s.pcs[p] == (if i == 0 then Critical else SetFlag(i - 1))
    requires forall j: nat :: j < i ==> !LockOf(L, s, j, p).flag[1 - Role(L, j, p)]
    ensures IsSchedule(L, Repeat(p, 3 * i))
    ensures Exec(L, s, Repeat(p, 3 * i)).pcs[p].Critical? && OnPath(L, s, Exec(L, s, Repeat(p, 3 * i)), p, 0, i, true)
    decreases i
  {
    hide OnPath, Step, Exec;
    if i == 0 {
      RepeatNone(L, s, p);
      OnPathNone(L, s, s, p, 0, true);
    } else {
      SoloLevel(L, s, p, i - 1);
      RepeatFew(L, s, p);
      var u := Exec(L, s, Repeat(p, 3));
      PathUpdate(L, s, u, p, i - 1, Taken(LockOf(L, s, i - 1, p), Role(L, i - 1, p)));
      RepeatConcat(L, s, p, 3, 3 * (i - 1));
      SoloClimb(L, u, p, i - 1);
      OnPathAbove(L, s, u, Exec(L, u, Repeat(p, 3 * (i - 1))), p, i - 1);
    }
  }

  // Acquire without contention: when nobody else has a flag up on its path, a process is inside after three
  // steps a level, with exactly the locks of its path taken.
  lemma SoloAcquire(L: nat, s: State, p: nat)
    requires Shape(L, s) && p < |s.pcs| && s.pcs[p].Idle?
    requires forall j: nat :: j < L ==> !LockOf(L, s, j, p).flag[1 - Role(L, j, p)]
    ensures IsSchedule(L, Repeat(p, 1 + 3 * L))
    ensures var t := Exec(L, s, Repeat(p, 1 + 3 * L)); t.pcs[p].Critical? && OnPath(L, s, t, p, 0, L, true)
  {
    hide OnPath, Exec;
    RepeatFew(L, s, p);
    RepeatConcat(L, s, p, 1, 3 * L);
    var u := Step(L, s, p);
    SameLocks(L, s, u, p);
    SoloClimb(L, u, p, L);
    OnPathSame(L, s, u, Exec(L, u, Repeat(p, 3 * L)), p, 0, L, true);
  }

  lemma SameLocks(L: nat, s: State, u: State, p: nat)
    requires Shape(L, s) && Shape(L, u) && p < |s.pcs| && u.locks == s.locks
    ensures forall j: nat :: j < L ==> LockOf(L, u, j, p) == LockOf(L, s, j, p)
  {
  }

  lemma OnPathSame(L: nat, s: State, u: State, t: State, p: nat, lo: nat, hi: nat, taken: bool)
    requires Shape(L, s) && Shape(L, u) && Shape(L, t) && p < |s.pcs| && hi <= L
    requires u.locks == s.locks && u.pcs == s.pcs[p := u.pcs[p]] && OnPath(L, u, t, p, lo, hi, taken)
    ensures OnPath(L, s, t, p, lo, hi, taken)
  {
    SameLocks(L, s, u, p);
  }

  lemma {:induction false} SoloDescend(L: nat, s: State, p: nat, i: nat)
    requires Shape(L, s) && p < |s.pcs| && i <= L && s.pcs[p] == (if i == L then Idle else Release(i))
    ensures IsSchedule(L, Repeat(p, L - i))
    ensures Exec(L, s, Repeat(p, L - i)).pcs[p].Idle? && OnPath(L, s, Exec(L, s, Repeat(p, L - i)), p, i, L, false)
    decreases L - i
  {
    hide OnPath, Step, Exec;
    if i == L {
      RepeatNone(L, s, p);
      OnPathNone(L, s, s, p, L, false);
    } else {
      RepeatFew(L, s, p);
      RepeatConcat(L, s, p, 1, L - i - 1);
      ReleaseLevel(L, s, p, i);
      var u := Step(L, s, p);
      SoloDescend(L, u, p, i + 1);
      OnPathBelow(L, s, u, Exec(L, u, Repeat(p, L - i - 1)), p, i);
    }
  }

  lemma ReleaseLevel(L: nat, s: State, p: nat, i: nat)
    requires Shape(L, s) && p < |s.pcs| && i < L && s.pcs[p] == Release(i)
    ensures Step(L, s, p) == State(WithLock(L, s, i, p, Lowered(LockOf(L, s, i, p), Role(L, i, p))),
                                   s.pcs[p := if i == L - 1 then Idle else Release(i + 1)])
  {
    NodeBound(L, i, p);
  }

  // Release takes a step a level and lowers exactly the flags of the path.
  lemma SoloRelease(L: nat, s: State, p: nat)
    requires Shape(L, s) && p < |s.pcs| && s.pcs[p].Critical?
    ensures IsSchedule(L, Repeat(p, 1 + L))
    ensures var t := Exec(L, s, Repeat(p, 1 + L)); t.pcs[p].Idle? && OnPath(L, s, t, p, 0, L, false)
  {
    hide OnPath, Exec;
    RepeatFew(L, s, p);
    RepeatConcat(L, s, p, 1, L);
    var u := Step(L, s, p);
    SoloDescend(L, u, p, 0);
    OnPathSame(L, s, u, Exec(L, u, Repeat(p, L)), p, 0, L, false);
  }
}
