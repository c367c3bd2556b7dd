/**
 The fork database (libraries/chain/fork_database.cpp): work-queue removal of a subtree, the breadth-first
 update of bft numbers, pruning, and the walk that finds where two branches meet.
 The ordered indexes of the source are choices here: any block the order allows may come first.
 */
module ForkDatabase {
  import opened ForkTree

  function Children(m: Index, p: Id): set<Id> {
    set b | b in m && m[b].prev == p
  }

  function Elements(q: seq<Id>): set<Id> {
    set i | 0 <= i < |q| :: q[i]
  }

  ghost predicate Unique(q: seq<Id>) {
    forall i, j :: 0 <= i < j < |q| ==> q[i] != q[j]
  }

  // ---- The removal queue ----

  /**
   The first i ids of the queue are gone from the index; all of them build on the removed block; and the
   blocks built on the removed ids are on the queue.
   */
  ghost predicate Removing(m: Index, id: Id, queue: seq<Id>, i: nat, index: Index) {
    && WellFormed(m) && i <= |queue| && queue != [] && queue[0] == id && Unique(queue)
    && (forall k :: 0 <= k < |queue| ==> Descends(m, queue[k], id))
    && (forall k :: 1 <= k < |queue| ==> queue[k] in m && m[queue[k]].prev in Elements(queue[..i]))
    && (forall b :: b in m && m[b].prev in Elements(queue[..i]) ==> b in Elements(queue))
    && index == map b | b in m && b !in Elements(queue[..i]) :: m[b]
  }

  lemma RemovingStart(m: Index, id: Id)
    requires WellFormed(m)
    ensures Removing(m, id, [id], 0, m)
  {
    assert [id][..0] == [] && Elements([]) == {};
  }

  lemma RemovingFacts(m: Index, id: Id, queue: seq<Id>, i: nat, index: Index)
    requires Removing(m, id, queue, i, index)
    ensures i <= |queue| && |index| <= |m|
  {
    assert index.Keys <= m.Keys;
    SubsetSize(index.Keys, m.Keys);
  }

  lemma SubsetSize(a: set<Id>, b: set<Id>)
    requires a <= b
    ensures |a| <= |b|
  {
    if a != {} {
      var x :| x in a;
      SubsetSize(a - {x}, b - {x});
    }
  }

  lemma ElementsExtend(q: seq<Id>, i: nat)
    requires i < |q|
    ensures Elements(q[..i + 1]) == Elements(q[..i]) + {q[i]}
  {
    assert q[..i + 1] == q[..i] + [q[i]];
    forall x ensures x in Elements(q[..i + 1]) <==> x in Elements(q[..i]) + {q[i]} {
      if x in Elements(q[..i]) {
        var k :| 0 <= k < i && q[..i][k] == x;
        assert q[..i + 1][k] == x;
      }
      if x == q[i] {
        assert q[..i + 1][i] == x;
      }
    }
  }

  lemma ElementsConcat(q: seq<Id>, r: seq<Id>)
    ensures Elements(q + r) == Elements(q) + Elements(r)
  {
    forall x ensures x in Elements(q + r) <==> x in Elements(q) + Elements(r) {
      if x in Elements(q) {
        var k :| 0 <= k < |q| && q[k] == x;
        assert (q + r)[k] == x;
      }
      if x in Elements(r) {
        var k :| 0 <= k < |r| && r[k] == x;
        assert (q + r)[|q| + k] == x;
      }
    }
  }

  /** When the queue is exhausted, exactly the subtree is gone. */
  lemma RemovedSubtree(m: Index, id: Id, queue: seq<Id>, index: Index)
    requires Removing(m, id, queue, |queue|, index)
    ensures index == Without(m, id)
  {
    assert queue[..|queue|] == queue;
    forall b | b in m ensures b in Elements(queue) <==> Descends(m, b, id) {
      if Descends(m, b, id) {
        OnQueue(m, id, queue, b);
      }
    }
  }

  lemma {:induction false} OnQueue(m: Index, id: Id, queue: seq<Id>, b: Id)
    requires WellFormed(m) && Descends(m, b, id)
    requires id in Elements(queue)
    requires forall x :: x in m && m[x].prev in Elements(queue) ==> x in Elements(queue)
    ensures b in Elements(queue)
    decreases b.num
  {
    if b != id {
      OnQueue(m, id, queue, m[b].prev);
    }
  }

  /** The next block of the queue has all its children in the index, and none of them on the queue. */
  lemma ChildrenUntouched(m: Index, id: Id, queue: seq<Id>, i: nat, index: Index, c: Id)
    requires Removing(m, id, queue, i, index) && i < |queue| && c in m && m[c].prev == queue[i]
    ensures c in index && c !in Elements(queue) && Descends(m, c, id) && c != queue[i]
  {
    DescendsNum(m, queue[i], id);
    forall x | x in Elements(queue[..i]) ensures x in Elements(queue) {
      var j :| 0 <= j < |queue[..i]| && queue[..i][j] == x;
      assert queue[j] == x;
    }
    if c in Elements(queue) {
      EarlierParent(m, id, queue, i, index, c);
    }
  }

  /** Whatever is on the queue but the first block was put there by a block handled before. */
  lemma EarlierParent(m: Index, id: Id, queue: seq<Id>, i: nat, index: Index, c: Id)
    requires Removing(m, id, queue, i, index) && i < |queue| && c in Elements(queue) && c in m && c != id
    ensures exists j :: 0 <= j < i && queue[j] == m[c].prev
  {
    var k :| 0 <= k < |queue| && queue[k] == c;
    assert k >= 1;
    var j :| 0 <= j < |queue[..i]| && queue[..i][j] == m[c].prev;
    assert queue[j] == m[c].prev;
  }

  lemma RemovingStep(m: Index, id: Id, queue: seq<Id>, i: nat, index: Index, cs: seq<Id>)
    requires Removing(m, id, queue, i, index) && i < |queue|
    requires Unique(cs) && Elements(cs) == Children(index - {queue[i]}, queue[i])
    ensures Removing(m, id, queue + cs, i + 1, index - {queue[i]})
  {
    var q := queue[i];
    var queue', index' := queue + cs, index - {q};
    assert queue'[..i + 1] == queue[..i + 1];
    ElementsExtend(queue, i);
    ElementsConcat(queue, cs);
    forall k | 0 <= k < |cs| ensures cs[k] in m && m[cs[k]].prev == q {
      assert cs[k] in Elements(cs);
    }
    forall k | |queue| <= k < |queue'| ensures Descends(m, queue'[k], id) && queue'[k] !in Elements(queue) {
      ChildrenUntouched(m, id, queue, i, index, cs[k - |queue|]);
    }
    forall j, k | 0 <= j < k < |queue'| ensures queue'[j] != queue'[k] {
      if j < |queue| <= k {
        assert queue'[j] in Elements(queue);
      }
    }
    forall b | b in m && m[b].prev in Elements(queue'[..i + 1]) ensures b in Elements(queue') {
      if m[b].prev == q {
        ChildrenUntouched(m, id, queue, i, index, b);
        assert b in Children(index', q);
      }
    }
  }

  // ---- The bft walk ----

  function Max(a: nat, b: nat): nat {
    if a < b then b else a
  }

  /** Every block built on id, and id itself, has its bft number raised to n; nothing else changes. */
  ghost function Raised(m: Index, id: Id, n: nat): Index
    requires WellFormed(m)
  {
    map b | b in m :: if Descends(m, b, id) then m[b].(bft := Max(m[b].bft, n)) else m[b]
  }

  /** A block that builds on id ends at n or where it was, whichever is higher; any other block stays. */
  lemma RaisedAt(m: Index, id: Id, n: nat, b: Id)
    requires WellFormed(m) && b in m
    ensures Raised(m, id, n).Keys == m.Keys
    ensures !Descends(m, b, id) ==> Raised(m, id, n)[b] == m[b]
    ensures Descends(m, b, id) ==>
      var r := Raised(m, id, n)[b];
      r == m[b].(bft := r.bft) && r.bft >= n && r.bft >= m[b].bft && (r.bft == n || r.bft == m[b].bft)
  {
    hide Descends;
  }

  /**
   Part of the walk is done: some descendants are raised, nothing else changed, and a raised block with a
   child that is not is still waiting in the queue.
   */
  ghost predicate Raising(m: Index, id: Id, n: nat, index: Index, waiting: set<Id>)
    requires WellFormed(m)
  {
    && id in m && index.Keys == m.Keys
    && (forall b :: b in m ==> index[b] == m[b] || (Descends(m, b, id) && index[b] == m[b].(bft := Max(m[b].bft, n))))
    && index[id].bft >= n
    && (forall b :: b in m && m[b].prev in m && Descends(m, m[b].prev, id) && index[m[b].prev].bft >= n ==>
          index[b].bft >= n || m[b].prev in waiting)
    && (forall p :: p in waiting ==> p in m && Descends(m, p, id))
  }

  /** The blocks whose bft number is still below n. */
  ghost function Below(index: Index, n: nat): set<Id> {
    set b | b in index && index[b].bft < n
  }

  lemma RaisingStart(m: Index, id: Id)
    requires WellFormed(m) && BftOrdered(m) && id in m && m[id].bft <= id.num
    ensures Raising(m, id, id.num, m[id := m[id].(bft := id.num)], {id})
  {
  }

  lemma RaisingEnd(m: Index, id: Id, n: nat, index: Index)
    requires WellFormed(m) && Raising(m, id, n, index, {})
    ensures index == Raised(m, id, n)
  {
    forall b | b in m ensures index[b] == Raised(m, id, n)[b] {
      if Descends(m, b, id) {
        AllRaised(m, id, n, index, b);
      }
    }
  }

  lemma {:induction false} AllRaised(m: Index, id: Id, n: nat, index: Index, b: Id)
    requires WellFormed(m) && Raising(m, id, n, index, {}) && b in m && Descends(m, b, id)
    ensures index[b].bft >= n
    decreases b.num
  {
    if b != id {
      var p := m[b].prev;
      assert Descends(m, p, id);
      AllRaised(m, id, n, index, p);
    }
  }

  /** The blocks built directly on the given ones whose bft number is below n. */
  ghost function LayerOf(index: Index, ps: set<Id>, n: nat): set<Id> {
    set b | b in index && index[b].prev in ps && index[b].bft < n
  }

  /** The given blocks raised to n. */
  ghost function RaiseSet(index: Index, up: set<Id>, n: nat): Index {
    map b | b in index :: if b in up then index[b].(bft := n) else index[b]
  }

  /** Raising the children of the waiting blocks: exactly the raised ones wait next. */
  lemma LayerStep(m: Index, id: Id, n: nat, index: Index, waiting: set<Id>)
    requires WellFormed(m) && Raising(m, id, n, index, waiting)
    ensures var up := LayerOf(index, waiting, n);
      && Raising(m, id, n, RaiseSet(index, up, n), up)
      && Below(RaiseSet(index, up, n), n) == Below(index, n) - up && up <= Below(index, n)
  {
    var up := LayerOf(index, waiting, n);
    var next := RaiseSet(index, up, n);
    forall b | b in m ensures next[b] == m[b] || (Descends(m, b, id) && next[b] == m[b].(bft := Max(m[b].bft, n))) {
    }
    forall b | b in m && m[b].prev in m && Descends(m, m[b].prev, id) && next[m[b].prev].bft >= n
      ensures next[b].bft >= n || m[b].prev in up
    {
      if m[b].prev !in up {
        assert next[m[b].prev] == index[m[b].prev];
      }
    }
  }

  lemma LayerEmpty(index: Index, n: nat)
    ensures LayerOf(index, {}, n) == {} && RaiseSet(index, {}, n) == index
  {
  }

  /** Two parts of a layer, one after the other. */
  lemma LayerParts(index: Index, ps: set<Id>, qs: set<Id>, n: nat)
    ensures var up := LayerOf(index, ps, n);
      var next := RaiseSet(index, up, n);
      && LayerOf(index, ps + qs, n) == up + LayerOf(next, qs, n)
      && RaiseSet(next, LayerOf(next, qs, n), n) == RaiseSet(index, LayerOf(index, ps + qs, n), n)
  {
  }

  ghost function LowIn(index: Index, s: set<Id>, n: nat): set<Id> {
    set b | b in s && b in index && index[b].bft < n
  }

  /** One child. */
  lemma LowStep(index: Index, s: set<Id>, c: Id, n: nat)
    requires c in index && c !in s
    ensures LowIn(index, s + {c}, n) == LowIn(index, s, n) + if index[c].bft < n then {c} else {}
    ensures c in RaiseSet(index, LowIn(index, s, n), n) && RaiseSet(index, LowIn(index, s, n), n)[c] == index[c]
    ensures index[c].bft < n ==>
      RaiseSet(index, LowIn(index, s, n), n)[c := index[c].(bft := n)] == RaiseSet(index, LowIn(index, s + {c}, n), n)
  {
  }

  lemma LowChildren(index: Index, p: Id, n: nat)
    ensures LowIn(index, Children(index, p), n) == LayerOf(index, {p}, n)
    ensures LowIn(index, {}, n) == {}
  {
  }

  // ---- Branches ----

  /** A parent-linked walk down from `tip`: each block's previous is the next one. */
  ghost predicate IsBranch(m: Index, tip: Id, branch: seq<Id>) {
    && (forall i :: 0 <= i < |branch| ==> branch[i] in m)
    && (branch != [] ==> branch[0] == tip)
    && (forall i :: 0 <= i < |branch| - 1 ==> m[branch[i]].prev == branch[i + 1])
  }

  /** x lies strictly below both blocks: their previous ids lead to it. */
  ghost predicate MeetAt(m: Index, a: Id, b: Id, x: Id)
    requires WellFormed(m)
  {
    a in m && b in m && Descends(m, m[a].prev, x) && Descends(m, m[b].prev, x)
  }

  ghost predicate Meet(m: Index, a: Id, b: Id)
    requires WellFormed(m)
  {
    exists x :: MeetAt(m, a, b, x)
  }

  /** One step down keeps every meeting point that is not the next block itself. */
  lemma MeetBelow(m: Index, a: Id, b: Id, x: Id)
    requires WellFormed(m) && MeetAt(m, a, b, x) && b.num < a.num
    ensures MeetAt(m, m[a].prev, b, x)
  {
    DescendsNum(m, m[b].prev, x);
  }

  lemma MeetBelowBoth(m: Index, a: Id, b: Id, x: Id)
    requires WellFormed(m) && MeetAt(m, a, b, x) && a.num == b.num && m[a].prev != m[b].prev
    ensures MeetAt(m, m[a].prev, m[b].prev, x)
  {
    DescendsNum(m, m[a].prev, x);
    DescendsNum(m, m[b].prev, x);
  }

  lemma {:induction false} BranchBlock(m: Index, tip: Id, branch: seq<Id>, i: nat)
    requires WellFormed(m) && IsBranch(m, tip, branch) && i < |branch|
    ensures branch[i].num == tip.num - i && Descends(m, tip, branch[i])
  {
    if i > 0 {
      BranchBlock(m, tip, branch, i - 1);
      DescendsTransitive(m, tip, branch[i - 1], branch[i]);
    }
  }

  /** Branches that share a block are the same from there on. */
  lemma {:induction false} SharedTail(m: Index, a: Id, p: seq<Id>, b: Id, q: seq<Id>, i: nat, j: nat)
    requires WellFormed(m) && IsBranch(m, a, p) && IsBranch(m, b, q) && i < |p| && j < |q| && p[i] == q[j]
    requires p[|p| - 1].num == q[|q| - 1].num
    ensures p[|p| - 1] == q[|q| - 1]
    decreases |p| - i
  {
    BranchBlock(m, a, p, |p| - 1);
    BranchBlock(m, b, q, |q| - 1);
    BranchBlock(m, a, p, i);
    BranchBlock(m, b, q, j);
    if i < |p| - 1 {
      SharedTail(m, a, p, b, q, i + 1, j + 1);
    }
  }

  datatype Branches = Found(first: seq<Id>, second: seq<Id>) | NotFound

  /** Two branches that end on a common previous id, as long as the difference of the heads' numbers asks for. */
  ghost predicate AreBranches(m: Index, a: Id, b: Id, p: seq<Id>, q: seq<Id>) {
    && p != [] && q != [] && IsBranch(m, a, p) && IsBranch(m, b, q)
    && m[p[|p| - 1]].prev == m[q[|q| - 1]].prev
    && |p| - |q| == a.num - b.num
  }

  ghost predicate Disjoint(p: seq<Id>, q: seq<Id>) {
    forall i, j :: 0 <= i < |p| && 0 <= j < |q| ==> p[i] != q[j]
  }

  /** Where the walk stands: the blocks taken so far, and the next block of each branch. */
  ghost predicate Walking(m: Index, a: Id, b: Id, p: seq<Id>, q: seq<Id>, f: Id, s: Id) {
    && WellFormed(m) && f in m && s in m
    && IsBranch(m, a, p + [f]) && IsBranch(m, b, q + [s])
    && (forall x :: MeetAt(m, a, b, x) ==> MeetAt(m, f, s, x))
  }

  lemma WalkFirst(m: Index, a: Id, b: Id, p: seq<Id>, q: seq<Id>, f: Id, s: Id)
    requires Walking(m, a, b, p, q, f, s) && s.num < f.num
    ensures Meet(m, a, b) ==> m[f].prev in m
    ensures m[f].prev in m ==> Walking(m, a, b, p + [f], q, m[f].prev, s)
  {
    forall x | MeetAt(m, a, b, x) ensures MeetAt(m, m[f].prev, s, x) {
      MeetBelow(m, f, s, x);
    }
  }

  lemma WalkSecond(m: Index, a: Id, b: Id, p: seq<Id>, q: seq<Id>, f: Id, s: Id)
    requires Walking(m, a, b, p, q, f, s) && f.num < s.num
    ensures Meet(m, a, b) ==> m[s].prev in m
    ensures m[s].prev in m ==> Walking(m, a, b, p, q + [s], f, m[s].prev)
  {
    forall x | MeetAt(m, a, b, x) ensures MeetAt(m, f, m[s].prev, x) {
      assert MeetAt(m, s, f, x);
      MeetBelow(m, s, f, x);
    }
  }

  lemma WalkBoth(m: Index, a: Id, b: Id, p: seq<Id>, q: seq<Id>, f: Id, s: Id)
    requires Walking(m, a, b, p, q, f, s) && f.num == s.num && m[f].prev != m[s].prev
    ensures Meet(m, a, b) ==> m[f].prev in m && m[s].prev in m
    ensures m[f].prev in m && m[s].prev in m ==> Walking(m, a, b, p + [f], q + [s], m[f].prev, m[s].prev)
  {
    forall x | MeetAt(m, a, b, x) ensures MeetAt(m, m[f].prev, m[s].prev, x) {
      MeetBelowBoth(m, f, s, x);
    }
  }

  lemma WalkEnds(m: Index, a: Id, b: Id, p: seq<Id>, q: seq<Id>, f: Id, s: Id)
    requires Walking(m, a, b, p, q, f, s) && f.num == s.num && m[f].prev == m[s].prev
    requires f == s ==> p == [] || q == []
    ensures AreBranches(m, a, b, p + [f], q + [s]) && Meet(m, a, b)
    ensures Disjoint(p + [f], q + [s]) || Descends(m, a, b) || Descends(m, b, a)
    ensures f == s <==> Descends(m, a, b) || Descends(m, b, a)
    ensures forall x :: MeetAt(m, a, b, x) ==> Descends(m, m[f].prev, x)
  {
    var p', q' := p + [f], q + [s];
    BranchBlock(m, a, p', |p|);
    BranchBlock(m, b, q', |q|);
    assert p'[|p|] == f && q'[|q|] == s;
    var x := m[f].prev;
    MeetAbove(m, a, f, x);
    MeetAbove(m, b, s, x);
    assert MeetAt(m, a, b, x);
    if f != s {
      forall i, j | 0 <= i < |p'| && 0 <= j < |q'| ensures p'[i] != q'[j] {
        if p'[i] == q'[j] {
          SharedTail(m, a, p', b, q', i, j);
        }
      }
      if Descends(m, a, b) {
        DescendsTransitive(m, a, b, s);
        SameHeightAncestors(m, a, f, s);
      }
      if Descends(m, b, a) {
        DescendsTransitive(m, b, a, f);
        SameHeightAncestors(m, b, f, s);
      }
    } else {
      assert p' [0] == a && q'[0] == b;
    }
  }

  /** What lies below a block of the branch lies below its tip. */
  lemma MeetAbove(m: Index, a: Id, f: Id, x: Id)
    requires WellFormed(m) && a in m && f in m && Descends(m, a, f) && x == m[f].prev
    ensures Descends(m, m[a].prev, x)
  {
    if a != f {
      DescendsTransitive(m, m[a].prev, f, x);
    }
  }

  // ---- Pruning ----

  /** The blocks that build on h, without h. */
  ghost function ProperDescendants(m: Index, h: Id): (r: Index)
    requires WellFormed(m)
    ensures WellFormed(r)
  {
    map b | b in m && b != h && Descends(m, b, h) :: m[b]
  }

  /** What is left once h and the subtrees of the blocks in `done` are gone. */
  ghost function Left(m: Index, h: Id, done: set<Id>): (r: Index)
    requires WellFormed(m)
    ensures WellFormed(r)
  {
    map b | b in m && b != h && (forall s :: s in done ==> !Descends(m, b, s)) :: m[b]
  }

  ghost predicate Siblings(m: Index, h: Id, done: set<Id>) {
    forall s :: s in done ==> s in m && s != h && s.num == h.num
  }

  lemma {:induction false} DescendsInLeft(m: Index, h: Id, done: set<Id>, b: Id, s: Id)
    requires WellFormed(m) && h in m && Siblings(m, h, done + {s}) && b in Left(m, h, done)
    ensures Descends(Left(m, h, done), b, s) == Descends(m, b, s)
    decreases b.num
  {
    if b != s {
      var p, left := m[b].prev, Left(m, h, done);
      LeftParent(m, h, done, b);
      if p in left {
        DescendsInLeft(m, h, done, p, s);
      } else if p == h {
        NotAbove(m, h, s);
      }
    }
  }

  lemma LeftParent(m: Index, h: Id, done: set<Id>, b: Id)
    requires WellFormed(m) && h in m && Siblings(m, h, done) && b in Left(m, h, done)
    ensures m[b].prev in m && m[b].prev != h ==> m[b].prev in Left(m, h, done)
  {
    var p := m[b].prev;
    if p in m {
      forall s | s in done ensures !Descends(m, p, s) {
        assert !Descends(m, b, s);
      }
    }
  }

  /** A block does not descend from another block of its height. */
  lemma NotAbove(m: Index, h: Id, s: Id)
    requires WellFormed(m) && h in m && s in m && s != h && s.num == h.num
    ensures !Descends(m, h, s)
  {
    if Descends(m, h, s) {
      DescendsNum(m, h, s);
    }
  }

  lemma LeftStep(m: Index, h: Id, done: set<Id>, s: Id)
    requires WellFormed(m) && h in m && Siblings(m, h, done + {s})
    ensures Without(Left(m, h, done), s) == Left(m, h, done + {s})
  {
    var left, next := Left(m, h, done), Left(m, h, done + {s});
    forall b ensures b in Without(left, s) <==> b in next {
      if b in left {
        DescendsInLeft(m, h, done, b, s);
      }
    }
  }

  /** With every sibling subtree gone, only what builds on h is left. */
  lemma LeftIsProperDescendants(m: Index, h: Id)
    requires WellFormed(m) && ParentsPresent(m) && IsOldest(m, h)
    ensures Left(m, h, SiblingsOf(m, h)) == ProperDescendants(m, h)
  {
    var siblings := SiblingsOf(m, h);
    forall b | b in m && b != h ensures (forall s :: s in siblings ==> !Descends(m, b, s)) <==> Descends(m, b, h) {
      var r := HasLowestAncestor(m, b, h);
      if Descends(m, b, h) {
        forall s | s in siblings ensures !Descends(m, b, s) {
          if Descends(m, b, s) {
            SameHeightAncestors(m, b, h, s);
          }
        }
      } else {
        assert r in siblings;
      }
    }
  }

  lemma ProperDescendantsKeepOrder(m: Index, h: Id)
    requires WellFormed(m) && ParentsPresent(m) && IsOldest(m, h)
    ensures ParentsPresent(ProperDescendants(m, h))
    ensures BftOrdered(m) ==> BftOrdered(ProperDescendants(m, h))
  {
    var r := ProperDescendants(m, h);
    forall b, l | b in r && l in r && l.num < b.num ensures m[b].prev in r {
      DescendsNum(m, l, h);
      assert m[b].prev in m && m[b].prev != h;
    }
  }

  lemma RaisedKeepsOrder(m: Index, id: Id, n: nat)
    requires WellFormed(m) && BftOrdered(m)
    ensures WellFormed(Raised(m, id, n)) && BftOrdered(Raised(m, id, n))
    ensures ParentsPresent(m) ==> ParentsPresent(Raised(m, id, n))
  {
  }

  datatype AddError = UnlinkableBlock | DuplicateBlock

  datatype AddResult = Added | Refused(error: AddError)

  class ForkDb {
    var index: Index
    var head: Id
    /** The blocks announced as irreversible, oldest first. */
    var announced: seq<Id>

    /** Blocks above the lowest level have their previous block, and no irreversible number reaches the block's own. */
    ghost predicate Linked()
      reads this
    {
      WellFormed(index) && ParentsPresent(index) && LibBelow(index) && head in index
    }

    ghost predicate Valid()
      reads this
    {
      Linked() && BftOrdered(index)
    }

    constructor (root: Block)
      requires root.id.num == root.prev.num + 1 && root.lib < root.id.num
      ensures Valid() && index == map[root.id := root] && head == root.id && announced == []
    {
      index, head, announced := map[root.id := root], root.id, [];
    }

    /** The block that comes first in the order of the head index. */
    method Best() returns (h: Id)
      requires index != map[]
      ensures IsBest(index, h)
      ensures h in index
      ensures forall b :: b in index ==> index[b].lib <= index[h].lib
      ensures forall b :: b in index && index[b].lib == index[h].lib ==> index[b].bft <= index[h].bft
      ensures forall b :: b in index && index[b].lib == index[h].lib && index[b].bft == index[h].bft ==>
        index[b].id.num <= index[h].id.num
    {
      h :| h in index;
      var rest := index.Keys - {h};
      while rest != {}
        invariant rest <= index.Keys && h in index
        invariant forall b :: b in index && b !in rest ==> NoBetter(index[b], index[h])
        decreases rest
      {
        var b :| b in rest;
        if !NoBetter(index[b], index[h]) {
          h := b;
        }
        rest := rest - {b};
      }
    }

    /** The block that comes first in the order of the number index. */
    method Oldest() returns (h: Id)
      requires index != map[]
      ensures IsOldest(index, h)
    {
      h :| h in index;
      var rest := index.Keys - {h};
      while rest != {}
        invariant rest <= index.Keys && h in index
        invariant forall b :: b in index && b !in rest ==>
          h.num < b.num || (h.num == b.num && (index[b].inChain ==> index[h].inChain))
        decreases rest
      {
        var b :| b in rest;
        if b.num < h.num || (b.num == h.num && index[b].inChain && !index[h].inChain) {
          h := b;
        }
        rest := rest - {b};
      }
    }

    method ChildrenOf(p: Id) returns (cs: seq<Id>)
      ensures Unique(cs) && Elements(cs) == Children(index, p)
    {
      var rest := Children(index, p);
      cs := [];
      while rest != {}
        invariant Unique(cs) && Elements(cs) + rest == Children(index, p) && Elements(cs) !! rest
        decreases rest
      {
        var c :| c in rest;
        ElementsConcat(cs, [c]);
        assert Elements([c]) == {c} by { assert [c][0] == c; }
        forall i | 0 <= i < |cs| ensures cs[i] != c {
          assert cs[i] in Elements(cs);
        }
        cs := cs + [c];
        rest := rest - {c};
      }
    }

    /**
     Removes the block and everything built on it, and picks the head again. The source takes the first block even of
     an empty index, which is none; the head is then whatever it may be.
     */
    method Remove(id: Id)
      requires WellFormed(index)
      modifies this`index, this`head
      ensures index == Without(old(index), id) && (index != map[] ==> IsBest(index, head) && Leads(index, head))
    {
      hide Removing, Without, Children, Leads, IsBest, WellFormed, NoBetter;
      ghost var m := index;
      var queue := [id];
      var i := 0;
      RemovingStart(m, id);
      while i < |queue|
        invariant i <= |queue| && Removing(m, id, queue, i, index)
        invariant |index| <= |m|
        decreases if i == 0 then |m| + 1 else |index|
      {
        ghost var before := index;
        index := index - {queue[i]};
        var cs := ChildrenOf(queue[i]);
        RemovingStep(m, id, queue, i, before, cs);
        if i > 0 {
          StillIndexed(m, id, queue, i, before);
        }
        queue := queue + cs;
        i := i + 1;
        RemovingFacts(m, id, queue, i, index);
      }
      RemovedSubtree(m, id, queue, index);
      WithoutWellFormed(m, id);
      if index != map[] {
        head := Best();
        BestIffLeads(index, head);
      }
    }

    /**
     Sets the block's bft number to its block number and raises the blocks built on it, layer by layer. The
     walk does not go below a block that already has a number as high, and need not.
     */
    method SetBftIrreversible(id: Id)
      requires WellFormed(index) && BftOrdered(index) && id in index && index[id].bft <= id.num
      modifies this`index
      ensures index == Raised(old(index), id, id.num)
    {
      hide Raising, Below, LayerOf, RaiseSet;
      ghost var m := index;
      var n := id.num;
      RaisingStart(m, id);
      index := index[id := index[id].(bft := n)];
      var queue := [id];
      ElementsOne(id);
      while queue != []
        invariant Raising(m, id, n, index, Elements(queue))
        decreases Below(index, n), |queue|
      {
        hide Elements;
        LayerStep(m, id, n, index, Elements(queue));
        ElementsNone(queue);
        queue := UpdateLayer(queue, n);
        ElementsNone(queue);
      }
      ElementsEmpty();
      RaisingEnd(m, id, n, index);
    }

    /** Raises the children of one layer that are below; returns exactly those, which form the next layer. */
    method UpdateLayer(layer: seq<Id>, n: nat) returns (updated: seq<Id>)
      modifies this`index
      ensures Elements(updated) == LayerOf(old(index), Elements(layer), n)
      ensures index == RaiseSet(old(index), LayerOf(old(index), Elements(layer), n), n)
    {
      hide Elements, LayerOf, RaiseSet;
      updated := [];
      ElementsEmpty();
      LayerEmpty(index, n);
      assert layer[..0] == [];
      for k := 0 to |layer|
        invariant Elements(updated) == LayerOf(old(index), Elements(layer[..k]), n)
        invariant index == RaiseSet(old(index), LayerOf(old(index), Elements(layer[..k]), n), n)
      {
        ElementsExtend(layer, k);
        LayerParts(old(index), Elements(layer[..k]), {layer[k]}, n);
        var more := UpdateChildren(layer[k], n);
        ElementsConcat(updated, more);
        updated := updated + more;
      }
      assert layer[..|layer|] == layer;
    }

    method UpdateChildren(p: Id, n: nat) returns (updated: seq<Id>)
      modifies this`index
      ensures Elements(updated) == LayerOf(old(index), {p}, n)
      ensures index == RaiseSet(old(index), LayerOf(old(index), {p}, n), n)
    {
      hide Elements, RaiseSet, LowIn, LayerOf;
      updated := [];
      var cs := ChildrenOf(p);
      ElementsEmpty();
      LayerEmpty(index, n);
      LowChildren(index, p, n);
      ghost var m := index;
      assert cs[..0] == [];
      for k := 0 to |cs|
        invariant Elements(updated) == LowIn(m, Elements(cs[..k]), n)
        invariant index == RaiseSet(m, LowIn(m, Elements(cs[..k]), n), n)
      {
        var c := cs[k];
        NewElement(cs, k);
        LowStep(m, Elements(cs[..k]), c, n);
        if index[c].bft < n {
          index := index[c := index[c].(bft := n)];
          ElementsConcat(updated, [c]);
          ElementsOne(c);
          updated := updated + [c];
        }
      }
      assert cs[..|cs|] == cs;
    }

    /** Walks both branches down to their last common previous id. */
    method FetchBranchFrom(first: Id, second: Id) returns (r: Branches)
      requires WellFormed(index) && first in index && second in index
      ensures r.Found? <==> Meet(index, first, second)
      ensures r.Found? ==> AreBranches(index, first, second, r.first, r.second)
      ensures r.Found? ==>
        Disjoint(r.first, r.second) || Descends(index, first, second) || Descends(index, second, first)
      ensures r.Found? ==>
        (r.first[|r.first| - 1] == r.second[|r.second| - 1] <==> Descends(index, first, second) || Descends(index, second, first))
      ensures r.Found? ==> r.first != [] && r.first[|r.first| - 1] in index
      ensures r.Found? ==>
        forall x :: MeetAt(index, first, second, x) ==> Descends(index, index[r.first[|r.first| - 1]].prev, x)
    {
      hide Walking, AreBranches, Descends, Meet, Disjoint;
      var p: seq<Id>, q: seq<Id> := [], [];
      var f, s := first, second;
      WalkStarts(index, first, second);
      while f.num > s.num
        invariant f in index && s in index && Walking(index, first, second, p, q, f, s)
        invariant q == [] && (p != [] ==> f.num >= s.num)
        decreases f.num
      {
        WalkFirst(index, first, second, p, q, f, s);
        p := p + [f];
        if index[f].prev !in index {
          return NotFound;
        }
        f := index[f].prev;
      }
      while s.num > f.num
        invariant f in index && s in index && Walking(index, first, second, p, q, f, s)
        invariant p == [] || q == []
        invariant f.num <= s.num && (p != [] ==> f.num == s.num)
        decreases s.num
      {
        WalkSecond(index, first, second, p, q, f, s);
        q := q + [s];
        if index[s].prev !in index {
          return NotFound;
        }
        s := index[s].prev;
      }
      while index[f].prev != index[s].prev
        invariant f in index && s in index && Walking(index, first, second, p, q, f, s)
        invariant f.num == s.num
        invariant f == s ==> p == [] || q == []
        decreases f.num
      {
        WalkBoth(index, first, second, p, q, f, s);
        p, q := p + [f], q + [s];
        if index[f].prev !in index || index[s].prev !in index {
          return NotFound;
        }
        f, s := index[f].prev, index[s].prev;
      }
      WalkEnds(index, first, second, p, q, f, s);
      r := Found(p + [f], q + [s]);
    }

    method MarkInCurrentChain(b: Id, inChain: bool)
      requires b in index
      modifies this`index
      ensures index == old(index)[b := old(index)[b].(inChain := inChain)]
    {
      index := index[b := index[b].(inChain := inChain)];
    }

    /**
     Announces the oldest block as irreversible and drops it, with every block of its height and what builds on
     those. Both callers pass the oldest block, so there is nothing lower to prune first. With no other block of its
     height the head stays; otherwise it is picked again, unless nothing is left.
     */
    method Prune(h: Id)
      requires WellFormed(index) && ParentsPresent(index) && IsOldest(index, h)
      modifies this`index, this`head, this`announced
      ensures index == ProperDescendants(old(index), h) && ParentsPresent(index)
      ensures announced == old(announced) + [h]
      ensures if SiblingsOf(old(index), h) == {} then head == old(head) else index != map[] ==> IsBest(index, head)
      ensures old(head) in old(index) && old(head) != h && index != map[] ==> head in index
      ensures old(BftOrdered(index)) ==> BftOrdered(index)
    {
      hide Left, ProperDescendants, Descends, ParentsPresent, BftOrdered, IsOldest, WellFormed, IsBest, SiblingsOf;
      ghost var m := index;
      announced := announced + [h];
      LeftStart(m, h);
      index := index - {h};
      PruneSiblings(h, m);
      LeftIsProperDescendants(m, h);
      ProperDescendantsKeepOrder(m, h);
      if SiblingsOf(m, h) != {} {
        if index != map[] {
          BestIsIndexed(index, head);
        }
      } else if head in m && head != h {
        HeadStays(m, h, head);
      }
    }

    method PruneSiblings(h: Id, ghost m: Index)
      requires WellFormed(m) && ParentsPresent(m) && IsOldest(m, h)
      requires index == Left(m, h, {})
      modifies this`index, this`head
      ensures index == Left(m, h, SiblingsOf(m, h))
      ensures if SiblingsOf(m, h) == {} then head == old(head) else index != map[] ==> IsBest(index, head)
    {
      hide *;
      var rest := set s | s in index && s.num == h.num;
      RestIsSiblings(m, h, rest);
      ghost var done: set<Id> := {};
      while rest != {}
        invariant done + rest == SiblingsOf(m, h)
        invariant index == Left(m, h, done)
        invariant if done == {} then head == old(head) else index != map[] ==> IsBest(index, head)
        decreases rest
      {
        var s :| s in rest;
        SiblingSets(m, h, done + {s});
        LeftStep(m, h, done, s);
        Remove(s);
        rest, done := rest - {s}, done + {s};
      }
    }

    /**
     The state after a block is linked in: the best head, and the oldest block pruned exactly when it lies below the
     head's irreversible number.
     */
    ghost predicate AddedTo(m: Index, announced0: seq<Id>)
      requires WellFormed(m)
      reads this
    {
      exists o, h :: IsOldest(m, o) && h in m && IsBest(m, h) && PrunedIfDue(m, o, h, announced0)
    }

    ghost predicate PrunedIfDue(m: Index, o: Id, h: Id, announced0: seq<Id>)
      requires WellFormed(m) && h in m
      reads this
    {
      if o.num < m[h].lib then
        && index == ProperDescendants(m, o) && announced == announced0 + [o]
        && (if SiblingsOf(m, o) == {} then head == h else index != map[] ==> IsBest(index, head))
      else index == m && head == h && announced == announced0
    }

    /**
     Links a block state in, picks the head, and prunes the oldest height once it lies below the head's irreversible
     number. The caller passes `skipValidatePrevious` when it has looked the previous block up itself. A block state
     made before its previous block was confirmed may carry a lower bft number, which then breaks the order.
     */
    method Add(n: Block, skipValidatePrevious: bool) returns (r: AddResult)
      requires Linked() && n.id.num == n.prev.num + 1 && n.lib < n.id.num
      requires skipValidatePrevious ==> n.prev in index
      modifies this
      ensures index != map[] ==> Linked()
      ensures r.Added? && PruneSafe(old(index)[n.id := n]) ==> index != map[]
      ensures r.Added? && index != map[] ==>
        && head in index
        && (forall b :: b in index ==> index[b].lib <= index[head].lib)
        && (forall b :: b in index && index[b].lib == index[head].lib ==> index[b].bft <= index[head].bft)
        && (forall b :: b in index && index[b].lib == index[head].lib && index[b].bft == index[head].bft ==> b.num <= head.num)
      ensures r == Refused(UnlinkableBlock) <==> n.prev !in old(index)
      ensures r == Refused(DuplicateBlock) <==> n.prev in old(index) && n.id in old(index)
      ensures r.Refused? ==> index == old(index) && head == old(head) && announced == old(announced)
      ensures r.Added? ==> AnnouncedIfDue(old(index)[n.id := n], old(announced), announced)
      ensures r.Added? ==> WellFormed(old(index)[n.id := n]) && AddedTo(old(index)[n.id := n], old(announced))
      ensures r.Added? && old(BftOrdered(index)) ==>
        (BftOrdered(old(index)[n.id := n]) <==> old(index)[n.prev].bft <= n.bft)
      ensures r.Refused? ==> index != map[]
      ensures old(BftOrdered(index)) && (n.prev in old(index) ==> old(index)[n.prev].bft <= n.bft) ==> BftOrdered(index)
    {
      hide WellFormed, ParentsPresent, BftOrdered, LibBelow, PruneSafe, AddedTo, AnnouncedIfDue;
      if !skipValidatePrevious && n.prev !in index {
        return Refused(UnlinkableBlock);
      }
      if n.id in index {
        return Refused(DuplicateBlock);
      }
      AddKeepsTree(index, n);
      if BftOrdered(index) {
        AddKeepsOrderIff(index, n);
      }
      index := index[n.id := n];
      assert n.id in index;
      PickHeadAndPrune();
      return Added;
    }

    /**
     Adds a received block: its state starts with the bft number of its previous block, as every header state does,
     so the order of bft numbers is kept whatever the block. `lib` is the irreversible number of its header state.
     */
    method AddSigned(id: Id, prev: Id, lib: nat) returns (r: AddResult)
      requires Valid() && id.num == prev.num + 1 && lib < id.num
      modifies this
      ensures index != map[] ==> Valid()
      ensures prev in old(index) && PruneSafe(old(index)[id := NewBlock(old(index), id, prev, lib)]) ==> index != map[]
      ensures r.Refused? ==> Valid()
      ensures r == Refused(DuplicateBlock) <==> id in old(index)
      ensures r == Refused(UnlinkableBlock) <==> id !in old(index) && prev !in old(index)
      ensures r.Refused? <==> id in old(index) || prev !in old(index)
      ensures r.Refused? ==> index == old(index) && head == old(head) && announced == old(announced)
      ensures r.Added? ==>
        var m := old(index)[id := NewBlock(old(index), id, prev, lib)];
        WellFormed(m) && ParentsPresent(m) && BftOrdered(m) && AddedTo(m, old(announced))
      ensures r.Added? && id in index ==> index[id] == Block(id, prev, lib, old(index)[prev].bft, false, false)
    {
      hide WellFormed, ParentsPresent, BftOrdered, LibBelow, PruneSafe, AddedTo;
      if id in index {
        return Refused(DuplicateBlock);
      }
      if prev !in index {
        return Refused(UnlinkableBlock);
      }
      AddKeepsTree(index, NewBlock(index, id, prev, lib));
      ghost var m := index[id := NewBlock(index, id, prev, lib)];
      r := Add(NewBlock(index, id, prev, lib), true);
      if r.Added? {
        var o := AddedShape(this, m, old(announced));
        PrunedPart(m, o);
      }
      assert r.Refused? ==> r.error == UnlinkableBlock || r.error == DuplicateBlock;
    }

    method PickHeadAndPrune()
      requires WellFormed(index) && ParentsPresent(index) && LibBelow(index) && index != map[]
      modifies this
      ensures (index != map[] ==> Linked() && IsBest(index, head) && Leads(index, head)) && AddedTo(old(index), old(announced))
      ensures PruneSafe(old(index)) ==> index != map[]
      ensures AnnouncedIfDue(old(index), old(announced), announced)
      ensures old(BftOrdered(index)) ==> BftOrdered(index)
    {
      hide WellFormed, ParentsPresent, BftOrdered, LibBelow, Descends, ProperDescendants, IsOldest, IsBest, PruneSafe, Leads, AnnouncedIfDue;
      head := Best();
      BestIsIndexed(index, head);
      var oldest := Oldest();
      ghost var m, h := index, head;
      if oldest.num < index[head].lib {
        HigherThanOldest(index, oldest, head);
        if PruneSafe(index) {
          PruneSafeHere(index, oldest, head);
        }
        Prune(oldest);
        LibBelowLeft(m, oldest);
        if index != map[] {
          HeadIsBest(m, oldest, h, index, head);
        }
      }
      if index != map[] {
        BestIffLeads(index, head);
      }
      AnnouncedDue(m, oldest, h, old(announced));
      assert PrunedIfDue(m, oldest, h, old(announced));
    }

    /** A block with enough confirmations becomes bft irreversible. */
    method Confirmed(id: Id, confirmations: nat, producers: nat)
      requires Valid() && id in index
      modifies this`index
      ensures Valid() && head == old(head)
      ensures index == if old(index)[id].bft < id.num && confirmations >= producers * 2 / 3 + 1
                       then Raised(old(index), id, id.num) else old(index)
    {
      if index[id].bft < id.num && confirmations >= producers * 2 / 3 + 1 {
        RaisedKeepsOrder(index, id, id.num);
        SetBftIrreversible(id);
      }
    }
  }

  lemma AddedShape(forks: ForkDb, m: Index, seen: seq<Id>) returns (o: Id)
    requires WellFormed(m) && forks.AddedTo(m, seen)
    ensures forks.index == m || forks.index == ProperDescendants(m, o)
  {
    var o', h :| IsOldest(m, o') && h in m && IsBest(m, h) && forks.PrunedIfDue(m, o', h, seen);
    o := o';
  }

  lemma PrunedPart(m: Index, o: Id)
    requires WellFormed(m)
    ensures var r := ProperDescendants(m, o); r.Keys <= m.Keys && forall b :: b in r ==> r[b] == m[b]
  {
  }

  function NewBlock(m: Index, id: Id, prev: Id, lib: nat): Block
    requires prev in m
  {
    Block(id, prev, lib, m[prev].bft, false, false)
  }

  /** The irreversible number of a block lies below the block. */
  ghost predicate LibBelow(m: Index) {
    forall b :: b in m ==> m[b].lib < b.num
  }

  lemma LibBelowLeft(m: Index, o: Id)
    requires WellFormed(m) && LibBelow(m)
    ensures LibBelow(ProperDescendants(m, o))
  {
  }

  /** Whenever the oldest block is due for pruning, something builds on it. */
  ghost predicate PruneSafe(m: Index) {
    forall o, h :: IsOldest(m, o) && IsBest(m, h) && o.num < m[h].lib ==> Children(m, o) != {}
  }

  lemma HeadIsBest(m: Index, o: Id, h: Id, index: Index, head: Id)
    requires WellFormed(m) && IsBest(m, h) && head in index
    requires index == m || index == ProperDescendants(m, o)
    ensures head == h ==> IsBest(index, head)
  {
  }

  lemma WithoutWellFormed(m: Index, x: Id)
    requires WellFormed(m)
    ensures WellFormed(Without(m, x))
  {
  }

  /**
   A block is announced exactly when some block's irreversible number passes some block of the index; it is one of the
   lowest, and one of the current chain if one of the lowest is.
   */
  ghost predicate AnnouncedIfDue(m: Index, before: seq<Id>, after: seq<Id>) {
    if exists a, c :: a in m && c in m && a.num < m[c].lib then
      && |after| == |before| + 1 && after[..|before|] == before
      && var o := after[|before|];
         o in m && forall b :: b in m ==> o.num <= b.num && (b.num == o.num && m[b].inChain ==> m[o].inChain)
    else after == before
  }

  lemma AnnouncedDue(m: Index, o: Id, h: Id, before: seq<Id>)
    requires IsOldest(m, o) && IsBest(m, h)
    ensures AnnouncedIfDue(m, before, if o.num < m[h].lib then before + [o] else before)
  {
    if a, c :| a in m && c in m && a.num < m[c].lib {
      assert NoBetter(m[c], m[h]);
    }
  }

  lemma HigherThanOldest(m: Index, o: Id, h: Id)
    requires LibBelow(m) && h in m && o.num < m[h].lib
    ensures o != h
  {
  }

  lemma PruneSafeHere(m: Index, o: Id, h: Id)
    requires WellFormed(m) && LibBelow(m) && PruneSafe(m) && IsOldest(m, o) && IsBest(m, h) && o.num < m[h].lib
    ensures ProperDescendants(m, o) != map[]
  {
    var c :| c in Children(m, o);
    assert Descends(m, c, o);
    assert c in ProperDescendants(m, o);
  }

  /**
   Exactly when pruning the oldest block leaves the index empty: when nothing builds on it. Another block of its
   height is then left to remove, and after that removal there is no first block to become the head.
   */
  lemma PruneEmptiesIff(m: Index, o: Id, h: Id)
    requires WellFormed(m) && ParentsPresent(m) && LibBelow(m) && IsOldest(m, o) && IsBest(m, h) && o.num < m[h].lib
    ensures ProperDescendants(m, o) == map[] <==> Children(m, o) == {}
    ensures ProperDescendants(m, o) == map[] ==> SiblingsOf(m, o) != {}
  {
    if Children(m, o) != {} {
      var c :| c in Children(m, o);
      assert Descends(m, c, o);
      assert c in ProperDescendants(m, o);
    }
    if ProperDescendants(m, o) != map[] {
      var b :| b in ProperDescendants(m, o);
      var c := ChildBelow(m, b, o);
      assert c in Children(m, o);
    }
    var r := HasLowestAncestor(m, h, o);
    if r == o {
      assert h in ProperDescendants(m, o);
    } else {
      assert r in SiblingsOf(m, o);
    }
  }

  lemma {:induction false} ChildBelow(m: Index, b: Id, o: Id) returns (c: Id)
    requires WellFormed(m) && b in m && b != o && Descends(m, b, o)
    ensures c in m && m[c].prev == o
    decreases b.num
  {
    if m[b].prev == o {
      c := b;
    } else {
      c := ChildBelow(m, m[b].prev, o);
    }
  }

  /** The best head outlives a pruning exactly when it builds on the pruned block. */
  lemma HeadSurvivesPruneIff(m: Index, o: Id, h: Id)
    requires WellFormed(m) && LibBelow(m) && IsOldest(m, o) && IsBest(m, h) && o.num < m[h].lib
    ensures h in ProperDescendants(m, o) <==> Descends(m, h, o)
  {
  }

  /**
   Two blocks of the lowest height, the one of the current chain without successor: a head on the other one whose
   irreversible number passes them empties the index.
   */
  lemma PruneCanEmpty() returns (m: Index, o: Id, h: Id)
    ensures WellFormed(m) && ParentsPresent(m) && LibBelow(m) && BftOrdered(m)
    ensures IsOldest(m, o) && IsBest(m, h) && o.num < m[h].lib
    ensures ProperDescendants(m, o) == map[] && SiblingsOf(m, o) != {}
  {
    var below, s, c := Id(4, 0), Id(5, 1), Id(6, 0);
    o, h := Id(5, 0), Id(7, 0);
    m := map[o := Block(o, below, 3, 0, true, true), s := Block(s, below, 3, 0, false, false),
             c := Block(c, s, 4, 0, false, false), h := Block(h, c, 6, 0, false, false)];
    assert s in SiblingsOf(m, o);
    forall b | b in m && b != o ensures !Descends(m, b, o) {
      assert !Descends(m, below, o);
      assert !Descends(m, s, o);
      assert !Descends(m, c, o);
    }
  }

  /** Linking a block in keeps the bft order exactly when the block starts at or above its previous block. */
  lemma AddKeepsOrderIff(m: Index, n: Block)
    requires WellFormed(m) && ParentsPresent(m) && BftOrdered(m)
    requires n.prev in m && n.id !in m && n.id.num == n.prev.num + 1
    ensures BftOrdered(m[n.id := n]) <==> m[n.prev].bft <= n.bft
  {
    var m' := m[n.id := n];
    assert forall b :: b in m && n.prev.num < b.num ==> m[b].prev in m;
    if m[n.prev].bft > n.bft {
      assert m'[n.id].prev == n.prev && m'[n.prev] == m[n.prev];
    }
  }

  lemma AddKeepsTree(m: Index, n: Block)
    requires WellFormed(m) && ParentsPresent(m) && n.prev in m && n.id !in m && n.id.num == n.prev.num + 1
    ensures WellFormed(m[n.id := n]) && ParentsPresent(m[n.id := n])
    ensures LibBelow(m) && n.lib < n.id.num ==> LibBelow(m[n.id := n])
    ensures BftOrdered(m) && m[n.prev].bft <= n.bft ==> BftOrdered(m[n.id := n])
  {
    if BftOrdered(m) {
      AddKeepsOrderIff(m, n);
    }
  }

  lemma RestIsSiblings(m: Index, h: Id, rest: set<Id>)
    requires WellFormed(m) && IsOldest(m, h) && rest == set s | s in Left(m, h, {}) && s.num == h.num
    ensures rest == SiblingsOf(m, h) && h in m
  {
  }

  lemma BestIsIndexed(m: Index, h: Id)
    requires IsBest(m, h)
    ensures h in m
  {
  }

  ghost function SiblingsOf(m: Index, h: Id): set<Id> {
    set s | s in m && s != h && s.num == h.num
  }

  lemma SiblingSets(m: Index, h: Id, done: set<Id>)
    requires done <= SiblingsOf(m, h)
    ensures Siblings(m, h, done)
  {
  }

  lemma LeftStart(m: Index, h: Id)
    requires WellFormed(m)
    ensures m - {h} == Left(m, h, {})
  {
  }

  lemma HeadStays(m: Index, h: Id, b: Id)
    requires WellFormed(m) && b in m && b != h && SiblingsOf(m, h) == {}
    ensures b in Left(m, h, {})
  {
  }

  lemma WalkStarts(m: Index, a: Id, b: Id)
    requires WellFormed(m) && a in m && b in m
    ensures Walking(m, a, b, [], [], a, b)
  {
  }

  lemma ElementsNone(q: seq<Id>)
    ensures Elements(q) == {} <==> q == []
  {
    if q != [] {
      assert q[0] in Elements(q);
    }
  }

  lemma NewElement(q: seq<Id>, k: nat)
    requires Unique(q) && k < |q|
    ensures q[k] in Elements(q) && q[k] !in Elements(q[..k]) && Elements(q[..k + 1]) == Elements(q[..k]) + {q[k]}
  {
    ElementsExtend(q, k);
    forall x | x in Elements(q[..k]) ensures x != q[k] {
      var j :| 0 <= j < |q[..k]| && q[..k][j] == x;
      assert q[j] == x;
    }
  }

  lemma ElementsEmpty()
    ensures Elements([]) == {}
  {
  }

  lemma ElementsOne(c: Id)
    ensures Elements([c]) == {c}
  {
    assert [c][0] == c;
  }

  lemma StillIndexed(m: Index, id: Id, queue: seq<Id>, i: nat, index: Index)
    requires Removing(m, id, queue, i, index) && 1 <= i < |queue|
    ensures queue[i] in index
    ensures |index - {queue[i]}| < |index|
  {
    forall x | x in Elements(queue[..i]) ensures x != queue[i] {
      var j :| 0 <= j < |queue[..i]| && queue[..i][j] == x;
      assert queue[j] == x;
    }
    assert (index - {queue[i]}).Keys == index.Keys - {queue[i]};
  }
}
