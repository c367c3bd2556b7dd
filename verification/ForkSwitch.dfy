/**
 Switching forks (libraries/chain/controller.cpp): pop the old branch, apply the new one, and put everything
 back when a block of the new branch fails. Applying a block is a deterministic partial function on an
 abstract chain state; undo sessions are a stack of earlier states.
 */
module ForkSwitch {
  import opened Wrappers
  import opened ForkTree
  import opened ForkDatabase

  // ---- The applied chain ----

  /** The block that is head after the blocks of `applied` were put on top of `root`. */
  function TopOf(root: Id, applied: seq<Id>): Id {
    if applied == [] then root else applied[|applied| - 1]
  }

  /** Each applied block builds on the one before it. */
  ghost predicate Chained(m: Index, root: Id, applied: seq<Id>) {
    && root in m
    && forall k :: 0 <= k < |applied| ==>
      applied[k] in m && m[applied[k]].prev == TopOf(root, applied[..k])
  }

  /** Each state comes from the one before it by applying the block of that position. */
  ghost predicate Replays<S>(apply: (S, Id) -> Option<S>, states: seq<S>, applied: seq<Id>) {
    && |states| == |applied| + 1
    && forall k :: 0 <= k < |applied| ==> apply(states[k], applied[k]) == Some(states[k + 1])
  }

  /**
   The lowest block of the fork database, which cannot be popped: whether it is marked as in the current chain, which
   a genesis block is not, and whether it is still kept as a reversible block.
   */
  datatype Root = Root(id: Id, marked: bool, kept: bool)

  /** Above the root, the blocks marked as in the current chain are the head and its ancestors. */
  ghost predicate MarksFollow(m: Index, root: Root, head: Id)
    requires WellFormed(m)
  {
    forall b :: b in m ==> (m[b].inChain <==> if b == root.id then root.marked else Descends(m, head, b))
  }

  /** The reversible blocks by number. */
  function Reversible(root: Root, applied: seq<Id>): map<nat, Id> {
    if applied == [] then (if root.kept then map[root.id.num := root.id] else map[])
    else Reversible(root, applied[..|applied| - 1])[applied[|applied| - 1].num := applied[|applied| - 1]]
  }

  /** They are exactly the applied blocks, each under its number, and the root while it is kept. */
  lemma {:induction false} ReversibleBlocks(m: Index, root: Root, applied: seq<Id>, n: nat)
    requires WellFormed(m) && Chained(m, root.id, applied)
    ensures n in Reversible(root, applied) <==>
      (n == root.id.num && root.kept) || root.id.num < n <= root.id.num + |applied|
    ensures n == root.id.num && root.kept ==> Reversible(root, applied)[n] == root.id
    ensures root.id.num < n <= root.id.num + |applied| ==>
      var b := applied[n - root.id.num - 1]; Reversible(root, applied)[n] == b && b.num == n
    decreases |applied|
  {
    if applied != [] {
      var k := |applied| - 1;
      ChainedInit(m, root.id, applied);
      ReversibleBlocks(m, root, applied[..k], n);
      Heights(m, root.id, applied, k + 1);
      assert applied[..k + 1] == applied;
    }
  }

  lemma ChainedInit(m: Index, root: Id, applied: seq<Id>)
    requires Chained(m, root, applied) && applied != []
    ensures Chained(m, root, applied[..|applied| - 1])
  {
    var init := applied[..|applied| - 1];
    assert forall k :: 0 <= k < |init| ==> init[k] == applied[k] && init[..k] == applied[..k];
  }

  /** No block lies below the root. */
  ghost predicate LowestRoot(m: Index, root: Id) {
    root in m && forall b :: b in m ==> root.num <= b.num
  }

  /** The same blocks with the same links; marks and validation may differ. */
  ghost predicate SameTree(m: Index, m': Index) {
    && m.Keys == m'.Keys
    && forall b :: b in m ==> m'[b] == m[b].(inChain := m'[b].inChain, validated := m'[b].validated)
  }

  /** The blocks left are validated exactly if they were or are in `more`. */
  ghost predicate Validates(m: Index, m': Index, more: set<Id>) {
    m'.Keys <= m.Keys && forall b :: b in m' ==> (m'[b].validated <==> m[b].validated || b in more)
  }

  lemma NoneValidated(m: Index)
    ensures Validates(m, m, {})
  {
  }

  lemma MarkValidates(m: Index, b: Id, inChain: bool)
    requires b in m
    ensures Validates(m, m[b := m[b].(inChain := inChain)], {})
  {
  }

  lemma ValidatesTransitive(m: Index, m1: Index, m2: Index, a: set<Id>, b: set<Id>, c: set<Id>)
    requires Validates(m, m1, a) && Validates(m1, m2, b) && c == a + b
    ensures Validates(m, m2, c)
  {
  }

  lemma WithoutValidates(m: Index, x: Id)
    requires WellFormed(m)
    ensures Validates(m, Without(m, x), {})
  {
  }

  /** The switch applied and validated the whole new branch. */
  ghost predicate BranchValidated(m: Index, newHead: Id, head: Id, m': Index)
    requires WellFormed(m)
  {
    exists p, q :: AreBranches(m, newHead, head, p, q) && Validates(m, m', Elements(p))
  }

  /** The switch failed at block `bad` of the new branch, with the blocks of the branch below it validated. */
  ghost predicate ValidatedBelow(m: Index, newHead: Id, head: Id, bad: Id, m': Index)
    requires WellFormed(m)
  {
    exists p, q, left: nat ::
      AreBranches(m, newHead, head, p, q) && 0 < left <= |p| && p[left - 1] == bad && Validates(m, m', Elements(p[left..]))
  }

  lemma ChainedSameTree(m: Index, m': Index, root: Id, applied: seq<Id>)
    requires SameTree(m, m') && Chained(m, root, applied)
    ensures Chained(m', root, applied)
  {
  }

  lemma WellFormedSameTree(m: Index, m': Index)
    requires SameTree(m, m') && WellFormed(m)
    ensures WellFormed(m') && (ParentsPresent(m) ==> ParentsPresent(m')) && (BftOrdered(m) ==> BftOrdered(m'))
    ensures LibBelow(m) ==> LibBelow(m')
    ensures forall b, a :: Descends(m, b, a) == Descends(m', b, a)
  {
    forall b, a ensures Descends(m, b, a) == Descends(m', b, a) {
      DescendsSameLinks(m, m', b, a);
    }
  }

  lemma {:induction false} ChainHeights(m: Index, root: Id, applied: seq<Id>, k: nat)
    requires WellFormed(m) && Chained(m, root, applied) && k <= |applied|
    ensures TopOf(root, applied[..k]).num == root.num + k
    ensures TopOf(root, applied[..k]) in m
    ensures Descends(m, TopOf(root, applied), TopOf(root, applied[..k]))
    decreases |applied| - k
  {
    if k == |applied| {
      assert applied[..k] == applied;
      Heights(m, root, applied, k);
    } else {
      ChainHeights(m, root, applied, k + 1);
      Heights(m, root, applied, k);
      var b := applied[k];
      assert TopOf(root, applied[..k + 1]) == b;
      DescendsTransitive(m, TopOf(root, applied), b, m[b].prev);
    }
  }

  lemma {:induction false} Heights(m: Index, root: Id, applied: seq<Id>, k: nat)
    requires WellFormed(m) && Chained(m, root, applied) && k <= |applied|
    ensures TopOf(root, applied[..k]).num == root.num + k && TopOf(root, applied[..k]) in m
  {
    if k > 0 {
      Heights(m, root, applied, k - 1);
      assert TopOf(root, applied[..k]) == applied[k - 1];
    }
  }

  /** Popping the head: its mark goes, the marks follow the previous block. */
  lemma PopMarks(m: Index, root: Root, head: Id)
    requires WellFormed(m) && head in m && head != root.id && MarksFollow(m, root, head)
    ensures var m' := m[head := m[head].(inChain := false)];
      SameTree(m, m') && WellFormed(m') && MarksFollow(m', root, m[head].prev)
  {
    var m' := m[head := m[head].(inChain := false)];
    WellFormedSameTree(m, m');
    hide Descends, SameTree;
    forall b | b in m && b != root.id ensures m'[b].inChain <==> Descends(m', m[head].prev, b) {
      OneStepDown(m, head, b);
    }
  }

  lemma OneStepDown(m: Index, head: Id, b: Id)
    requires WellFormed(m) && head in m
    ensures Descends(m, head, b) <==> b == head || Descends(m, m[head].prev, b)
    ensures !Descends(m, m[head].prev, head)
  {
    if Descends(m, m[head].prev, head) {
      DescendsNum(m, m[head].prev, head);
    }
  }

  lemma ApplyMarks(m: Index, root: Root, head: Id, b: Id)
    requires WellFormed(m) && b in m && b != root.id && m[b].prev == head && MarksFollow(m, root, head)
    ensures var m' := m[b := m[b].(inChain := true)];
      SameTree(m, m') && WellFormed(m') && MarksFollow(m', root, b)
  {
    var m' := m[b := m[b].(inChain := true)];
    WellFormedSameTree(m, m');
  }

  /** Removing a subtree that does not hold the head changes nothing about the head's ancestors. */
  lemma {:induction false} DescendsInWithout(m: Index, x: Id, h: Id, b: Id)
    requires WellFormed(m) && h in Without(m, x)
    ensures Descends(Without(m, x), h, b) == Descends(m, h, b)
    decreases h.num
  {
    var p := m[h].prev;
    if h != b && p in m {
      assert !Descends(m, h, x);
      DescendsInWithout(m, x, p, b);
    }
  }

  lemma MarksInWithout(m: Index, x: Id, root: Root, head: Id)
    requires WellFormed(m) && MarksFollow(m, root, head) && head in Without(m, x)
    ensures MarksFollow(Without(m, x), root, head)
  {
    var w := Without(m, x);
    forall b | b in w && b != root.id ensures w[b].inChain <==> Descends(w, head, b) {
      DescendsInWithout(m, x, head, b);
    }
  }

  lemma ChainedInWithout(m: Index, x: Id, root: Id, applied: seq<Id>)
    requires WellFormed(m) && Chained(m, root, applied) && TopOf(root, applied) in Without(m, x)
    ensures Chained(Without(m, x), root, applied)
  {
    var w := Without(m, x);
    forall k | 0 <= k <= |applied| ensures TopOf(root, applied[..k]) in w {
      ChainHeights(m, root, applied, k);
      var b := TopOf(root, applied[..k]);
      if Descends(m, b, x) {
        DescendsTransitive(m, TopOf(root, applied), b, x);
      }
    }
    assert applied[..0] == [];
    forall k | 0 <= k < |applied| ensures applied[k] in w {
      assert TopOf(root, applied[..k + 1]) == applied[k];
    }
  }

  lemma ReversibleFrame(m: Index, root: Root, applied: seq<Id>, n: nat)
    requires WellFormed(m) && Chained(m, root.id, applied) && n > root.id.num + |applied|
    ensures n !in Reversible(root, applied)
  {
    if applied != [] {
      var k := |applied| - 1;
      assert Chained(m, root.id, applied[..k]) by { ChainedPrefix(m, root.id, applied, k); }
      ReversibleFrame(m, root, applied[..k], n);
      Heights(m, root.id, applied, k + 1);
      assert applied[..k + 1] == applied;
    }
  }

  lemma ChainedPrefix(m: Index, root: Id, applied: seq<Id>, k: nat)
    requires Chained(m, root, applied) && k <= |applied|
    ensures Chained(m, root, applied[..k])
  {
    forall j | 0 <= j < k ensures applied[..k][j] in m && m[applied[..k][j]].prev == TopOf(root, applied[..k][..j]) {
      assert applied[..k][..j] == applied[..j];
    }
  }

  lemma ChainedAppend(m: Index, root: Id, applied: seq<Id>, b: Id)
    requires Chained(m, root, applied) && b in m && m[b].prev == TopOf(root, applied)
    ensures Chained(m, root, applied + [b])
  {
    var a := applied + [b];
    forall k | 0 <= k < |a| ensures a[k] in m && m[a[k]].prev == TopOf(root, a[..k]) {
      assert a[..k] == applied[..k];
      assert applied[..|applied|] == applied;
    }
  }

  lemma PopNumber(m: Index, root: Root, applied: seq<Id>)
    requires WellFormed(m) && Chained(m, root.id, applied) && applied != []
    ensures Reversible(root, applied) - {TopOf(root.id, applied).num} == Reversible(root, applied[..|applied| - 1])
  {
    var k := |applied| - 1;
    ChainedPrefix(m, root.id, applied, k);
    Heights(m, root.id, applied, k + 1);
    assert applied[..k + 1] == applied;
    ReversibleFrame(m, root, applied[..k], applied[k].num);
  }

  /**
   The fork database, the head, the state, the undo sessions, the marks and the reversible blocks all tell
   of the same chain.
   */
  ghost predicate InSync<S>(m: Index, root: Root, applied: seq<Id>, head: Id, apply: (S, Id) -> Option<S>,
                            undo: seq<S>, state: S, reversible: map<nat, Id>)
  {
    && WellFormed(m) && ParentsPresent(m) && BftOrdered(m) && LibBelow(m) && LowestRoot(m, root.id)
    && Chained(m, root.id, applied) && head == TopOf(root.id, applied)
    && Replays(apply, undo + [state], applied)
    && MarksFollow(m, root, head)
    && reversible == Reversible(root, applied)
  }

  lemma NotTheRoot(m: Index, root: Id, applied: seq<Id>)
    requires WellFormed(m) && Chained(m, root, applied) && applied != []
    ensures TopOf(root, applied) != root && root.num < TopOf(root, applied).num
  {
    assert applied[..|applied|] == applied;
    Heights(m, root, applied, |applied|);
  }

  lemma PopChain(m: Index, root: Id, applied: seq<Id>)
    requires WellFormed(m) && Chained(m, root, applied) && applied != []
    ensures var k := |applied| - 1;
      && Chained(m, root, applied[..k]) && TopOf(root, applied) == applied[k] && applied[k] in m
      && m[applied[k]].prev == TopOf(root, applied[..k])
      && m[applied[k]].prev in m
  {
    ChainedPrefix(m, root, applied, |applied| - 1);
    Heights(m, root, applied, |applied| - 1);
  }

  lemma PopStates<S>(apply: (S, Id) -> Option<S>, undo: seq<S>, state: S, applied: seq<Id>)
    requires Replays(apply, undo + [state], applied) && applied != []
    ensures |undo| == |applied| && Replays(apply, undo[..|undo| - 1] + [undo[|undo| - 1]], applied[..|applied| - 1])
  {
    var states, u := undo + [state], undo[..|undo| - 1] + [undo[|undo| - 1]];
    assert u == undo;
    forall k | 0 <= k < |applied| - 1 ensures apply(u[k], applied[..|applied| - 1][k]) == Some(u[k + 1]) {
      assert apply(states[k], applied[k]) == Some(states[k + 1]);
    }
  }

  lemma ApplyStates<S>(apply: (S, Id) -> Option<S>, undo: seq<S>, state: S, applied: seq<Id>, b: Id, next: S)
    requires Replays(apply, undo + [state], applied) && apply(state, b) == Some(next)
    ensures Replays(apply, undo + [state] + [next], applied + [b])
  {
    var s, t := undo + [state], undo + [state] + [next];
    forall k | 0 <= k < |applied| + 1 ensures apply(t[k], (applied + [b])[k]) == Some(t[k + 1]) {
      if k < |applied| {
        assert apply(s[k], applied[k]) == Some(s[k + 1]);
      }
    }
  }

  lemma PopInSync<S>(m: Index, root: Root, applied: seq<Id>, head: Id, apply: (S, Id) -> Option<S>,
                     undo: seq<S>, state: S, reversible: map<nat, Id>)
    requires InSync(m, root, applied, head, apply, undo, state, reversible) && applied != []
    ensures |undo| == |applied| && head in m && m[head].prev in m
    ensures InSync(m[head := m[head].(inChain := false)], root, applied[..|applied| - 1], m[head].prev, apply,
                   undo[..|undo| - 1], undo[|undo| - 1], reversible - {head.num})
  {
    hide Descends, MarksFollow, Reversible, WellFormed, ParentsPresent, BftOrdered, Chained, Replays;
    PopChain(m, root.id, applied);
    NotTheRoot(m, root.id, applied);
    PopNumber(m, root, applied);
    PopMarks(m, root, head);
    PopStates(apply, undo, state, applied);
    var m' := m[head := m[head].(inChain := false)];
    WellFormedSameTree(m, m');
    ChainedSameTree(m, m', root.id, applied[..|applied| - 1]);
  }

  /** The root cannot be popped: its previous block is not there. Only its mark goes. */
  lemma RootStays<S>(m: Index, root: Root, head: Id, apply: (S, Id) -> Option<S>, undo: seq<S>, state: S,
                     reversible: map<nat, Id>)
    requires InSync(m, root, [], head, apply, undo, state, reversible)
    ensures head == root.id && head in m && m[head].prev !in m
    ensures InSync(m[head := m[head].(inChain := false)], root.(marked := false), [], head, apply, undo, state, reversible)
  {
    hide Descends, MarksFollow, WellFormed, ParentsPresent, BftOrdered, LibBelow, Chained, Replays, LowestRoot;
    RootIsLast(m, root.id);
    UnmarkRoot(m, root);
    var m' := m[head := m[head].(inChain := false)];
    WellFormedSameTree(m, m');
    ChainedSameTree(m, m', root.id, []);
    assert Reversible(root, []) == Reversible(root.(marked := false), []);
  }

  lemma RootIsLast(m: Index, root: Id)
    requires WellFormed(m) && LowestRoot(m, root)
    ensures root in m && m[root].prev !in m
    ensures LowestRoot(m[root := m[root].(inChain := false)], root)
  {
  }

  lemma UnmarkRoot(m: Index, root: Root)
    requires WellFormed(m) && root.id in m && MarksFollow(m, root, root.id)
    ensures var m' := m[root.id := m[root.id].(inChain := false)];
      SameTree(m, m') && WellFormed(m') && MarksFollow(m', root.(marked := false), root.id)
  {
    WellFormedSameTree(m, m[root.id := m[root.id].(inChain := false)]);
  }

  lemma ReversibleStep(root: Root, applied: seq<Id>, b: Id)
    ensures Reversible(root, applied + [b]) == Reversible(root, applied)[b.num := b]
  {
    assert (applied + [b])[..|applied + [b]| - 1] == applied;
  }

  lemma ApplyNotRoot(m: Index, root: Id, head: Id, b: Id)
    requires WellFormed(m) && LowestRoot(m, root) && head in m && b in m && m[b].prev == head
    ensures b != root && LowestRoot(m[b := m[b].(inChain := true)], root)
  {
  }

  lemma ApplyInSync<S>(m: Index, root: Root, applied: seq<Id>, head: Id, apply: (S, Id) -> Option<S>,
                       undo: seq<S>, state: S, reversible: map<nat, Id>, b: Id, next: S)
    requires InSync(m, root, applied, head, apply, undo, state, reversible)
    requires b in m && m[b].prev == head && apply(state, b) == Some(next)
    ensures InSync(m[b := m[b].(inChain := true)], root, applied + [b], b, apply, undo + [state], next, reversible[b.num := b])
  {
    assert applied[..|applied|] == applied;
    Heights(m, root.id, applied, |applied|);
    ReversibleStep(root, applied, b);
    hide Descends, MarksFollow, WellFormed, ParentsPresent, BftOrdered, LibBelow, LowestRoot, Chained, Replays, Reversible;
    ApplyNotRoot(m, root.id, head, b);
    ApplyMarks(m, root, head, b);
    ChainedAppend(m, root.id, applied, b);
    ApplyStates(apply, undo, state, applied, b, next);
    var m' := m[b := m[b].(inChain := true)];
    WellFormedSameTree(m, m');
    ChainedSameTree(m, m', root.id, applied + [b]);
  }

  // ---- The branches of a switch ----

  function Rev(p: seq<Id>): seq<Id> {
    seq(|p|, k requires 0 <= k < |p| => p[|p| - 1 - k])
  }

  lemma RevStep(p: seq<Id>, i: nat)
    requires i < |p|
    ensures Rev(p[i..]) == Rev(p[i + 1..]) + [p[i]]
  {
  }

  lemma BranchMeetsChain(m: Index, root: Id, applied: seq<Id>, q: seq<Id>, k: nat)
    requires WellFormed(m) && Chained(m, root, applied) && IsBranch(m, TopOf(root, applied), q)
    requires k < |q| && k < |applied|
    ensures q[k] == applied[|applied| - 1 - k]
  {
    hide Descends, WellFormed, Chained, IsBranch;
    var n, head := |applied|, TopOf(root, applied);
    assert applied[..n] == applied;
    ChainHeights(m, root, applied, n);
    BranchBlock(m, head, q, k);
    ChainHeights(m, root, applied, n - k);
    SameHeightAncestors(m, head, q[k], TopOf(root, applied[..n - k]));
  }

  /** A branch down from the head that stays above the root is the top of the applied chain. */
  lemma BranchIsTop(m: Index, root: Id, applied: seq<Id>, q: seq<Id>)
    requires WellFormed(m) && Chained(m, root, applied) && q != [] && IsBranch(m, TopOf(root, applied), q)
    requires m[q[|q| - 1]].prev.num >= root.num
    ensures IsTop(applied, q)
    ensures m[q[|q| - 1]].prev == TopOf(root, applied[..|applied| - |q|])
  {
    hide Descends, WellFormed, Chained, IsBranch;
    var n := |applied|;
    BranchFits(m, root, applied, q);
    forall k | 0 <= k < |q| ensures q[k] == applied[n - 1 - k] {
      BranchMeetsChain(m, root, applied, q, k);
    }
    ChainedPrev(m, root, applied, n - |q|);
  }

  lemma BranchFits(m: Index, root: Id, applied: seq<Id>, q: seq<Id>)
    requires WellFormed(m) && Chained(m, root, applied) && q != [] && IsBranch(m, TopOf(root, applied), q)
    requires m[q[|q| - 1]].prev.num >= root.num
    ensures |q| <= |applied|
  {
    hide Descends;
    var n, head := |applied|, TopOf(root, applied);
    assert applied[..n] == applied;
    Heights(m, root, applied, n);
    BranchBlock(m, head, q, |q| - 1);
  }

  lemma ChainedPrev(m: Index, root: Id, applied: seq<Id>, j: nat)
    requires Chained(m, root, applied) && j < |applied|
    ensures applied[j] in m && m[applied[j]].prev == TopOf(root, applied[..j])
  {
  }

  /** Blocks built on each other, lowest last, on top of `base`. */
  ghost predicate BuildsOn(m: Index, base: Id, p: seq<Id>) {
    && (forall i :: 0 <= i < |p| ==> p[i] in m)
    && (forall i :: 0 <= i < |p| ==> m[p[i]].prev == if i == |p| - 1 then base else p[i + 1])
  }

  lemma BranchBuilds(m: Index, tip: Id, p: seq<Id>)
    requires IsBranch(m, tip, p) && p != []
    ensures BuildsOn(m, m[p[|p| - 1]].prev, p)
  {
  }

  lemma BuildsSameTree(m: Index, m': Index, base: Id, p: seq<Id>)
    requires SameTree(m, m') && BuildsOn(m, base, p)
    ensures BuildsOn(m', base, p)
  {
  }

  lemma SameTreeTransitive(a: Index, b: Index, c: Index)
    requires SameTree(a, b) && SameTree(b, c)
    ensures SameTree(a, c)
  {
  }

  /** With the same tree and the same head, the marks are the same. */
  lemma MarksDetermined(m: Index, m': Index, root: Root, head: Id)
    requires SameTree(m, m') && WellFormed(m) && WellFormed(m') && MarksFollow(m, root, head) && MarksFollow(m', root, head)
    ensures forall b :: b in m ==> m'[b].inChain == m[b].inChain
  {
    WellFormedSameTree(m, m');
  }

  lemma WithoutSameTree(m: Index, m': Index, x: Id)
    requires SameTree(m, m') && WellFormed(m) && WellFormed(m')
    ensures SameTree(Without(m, x), Without(m', x))
  {
    WellFormedSameTree(m, m');
  }

  lemma RemoveInSync<S>(m: Index, root: Root, applied: seq<Id>, head: Id, apply: (S, Id) -> Option<S>,
                        undo: seq<S>, state: S, reversible: map<nat, Id>, x: Id)
    requires InSync(m, root, applied, head, apply, undo, state, reversible) && head in m && head.num < x.num
    ensures head in Without(m, x)
    ensures InSync(Without(m, x), root, applied, head, apply, undo, state, reversible)
  {
    if Descends(m, head, x) {
      DescendsNum(m, head, x);
    }
    WithoutKeepsParents(m, x);
    MarksInWithout(m, x, root, head);
    ChainedInWithout(m, x, root.id, applied);
  }

  lemma ValidatedInSync<S>(m: Index, root: Root, applied: seq<Id>, head: Id, apply: (S, Id) -> Option<S>,
                           undo: seq<S>, state: S, reversible: map<nat, Id>, b: Id)
    requires InSync(m, root, applied, head, apply, undo, state, reversible) && b in m
    ensures InSync(m[b := m[b].(validated := true)], root, applied, head, apply, undo, state, reversible)
  {
    hide Descends, Reversible, WellFormed, ParentsPresent, BftOrdered, Chained, Replays;
    var m' := m[b := m[b].(validated := true)];
    WellFormedSameTree(m, m');
    ChainedSameTree(m, m', root.id, applied);
  }

  ghost predicate StillValidated(m: Index, m': Index) {
    forall b :: b in m && b in m' && m[b].validated ==> m'[b].validated
  }

  ghost predicate SameValidated(m: Index, m': Index) {
    forall b :: b in m && b in m' ==> (m[b].validated <==> m'[b].validated)
  }

  lemma ValidatesStays(m: Index, m': Index, more: set<Id>)
    requires Validates(m, m', more)
    ensures StillValidated(m, m') && m'.Keys <= m.Keys
  {
  }

  /** The blocks of m1 are those of m0, or the new one. */
  ghost predicate OnlyNew(m0: Index, id: Id, m1: Index) {
    id !in m0 && m1.Keys <= m0.Keys + {id} && forall b :: b in m1 && b in m0 ==> m1[b] == m0[b]
  }

  lemma LinkedIsNew(m0: Index, id: Id, n: Block, o: Id, m1: Index)
    requires id !in m0 && WellFormed(m0[id := n]) && (m1 == m0[id := n] || m1 == ProperDescendants(m0[id := n], o))
    ensures OnlyNew(m0, id, m1)
  {
  }

  lemma PushedMarks(m0: Index, id: Id, m1: Index, m2: Index)
    requires OnlyNew(m0, id, m1) && m2.Keys <= m1.Keys && StillValidated(m1, m2)
    ensures StillValidated(m0, m2)
    ensures Validates(m1, m2, {}) ==> SameValidated(m0, m2)
  {
  }

  lemma ElementsOneMore(p: seq<Id>, i: nat)
    requires i < |p|
    ensures Elements(p[i..]) == Elements(p[i + 1..]) + {p[i]}
  {
    assert p[i..] == [p[i]] + p[i + 1..];
    ElementsConcat([p[i]], p[i + 1..]);
    ElementsOne(p[i]);
  }

  lemma FirstOfBranch(m: Index, newHead: Id, head: Id, p: seq<Id>, q: seq<Id>)
    requires AreBranches(m, newHead, head, p, q)
    ensures p != [] && p[0] == newHead && IsBranch(m, newHead, p) && IsBranch(m, head, q)
  {
  }

  lemma FailedBranch(m: Index, newHead: Id, head: Id, p: seq<Id>, q: seq<Id>, left: nat, m': Index)
    requires WellFormed(m) && AreBranches(m, newHead, head, p, q) && 0 < left <= |p| && Validates(m, m', Elements(p[left..]))
    ensures ValidatedBelow(m, newHead, head, p[left - 1], m')
  {
    hide AreBranches, Validates, Elements;
  }

  lemma NewBranch(m: Index, newHead: Id, head: Id, p: seq<Id>, q: seq<Id>, m': Index)
    requires WellFormed(m) && AreBranches(m, newHead, head, p, q) && Validates(m, m', Elements(p[0..])) && newHead in m'
    ensures BranchValidated(m, newHead, head, m') && m'[newHead].validated
  {
    hide Validates;
    assert p[0..] == p;
    assert p[0] == newHead && p[0] in Elements(p);
    ValidatedNow(m, m', Elements(p), newHead);
  }

  lemma ValidatedNow(m: Index, m': Index, more: set<Id>, b: Id)
    requires Validates(m, m', more) && b in more && b in m'
    ensures m'[b].validated
  {
  }

  /** There is one chain from the root to a block. */
  lemma ChainUnique(m: Index, root: Id, a: seq<Id>, b: seq<Id>)
    requires WellFormed(m) && Chained(m, root, a) && Chained(m, root, b) && TopOf(root, a) == TopOf(root, b)
    ensures a == b
  {
    hide Descends, Chained;
    assert a[..|a|] == a && b[..|b|] == b;
    Heights(m, root, a, |a|);
    Heights(m, root, b, |b|);
    forall k | 0 <= k < |a| ensures a[k] == b[k] {
      ChainHeights(m, root, a, k + 1);
      ChainHeights(m, root, b, k + 1);
      SameHeightAncestors(m, TopOf(root, a), TopOf(root, a[..k + 1]), TopOf(root, b[..k + 1]));
    }
  }

  /** Replaying the same blocks from the same state gives the same states. */
  lemma {:induction false} ReplayUnique<S>(apply: (S, Id) -> Option<S>, s: seq<S>, t: seq<S>, a: seq<Id>, b: seq<Id>, k: nat)
    requires Replays(apply, s, a) && Replays(apply, t, b) && a <= b && s[0] == t[0] && k < |s|
    ensures s[k] == t[k]
  {
    if k > 0 {
      ReplayUnique(apply, s, t, a, b, k - 1);
      assert apply(s[k - 1], a[k - 1]) == Some(s[k]) && apply(t[k - 1], b[k - 1]) == Some(t[k]);
    }
  }

  /** A block that fails on top of the head was never part of the old chain: there it was applied to the same state. */
  lemma FailingBlockIsNew<S>(m: Index, root: Id, a: seq<Id>, states: seq<S>, now: seq<Id>, current: seq<S>,
                             apply: (S, Id) -> Option<S>, bad: Id)
    requires WellFormed(m) && Chained(m, root, a) && Chained(m, root, now)
    requires Replays(apply, states, a) && Replays(apply, current, now) && states[0] == current[0]
    requires bad in m && m[bad].prev == TopOf(root, now) && apply(current[|now|], bad) == None
    ensures !Descends(m, TopOf(root, a), bad)
  {
    if Descends(m, TopOf(root, a), bad) {
      OldBlockApplies(m, root, a, states, now, current, apply, bad);
    }
  }

  /** A block of the old chain applies on top of its previous block, wherever the head is now. */
  lemma OldBlockApplies<S>(m: Index, root: Id, a: seq<Id>, states: seq<S>, now: seq<Id>, current: seq<S>,
                           apply: (S, Id) -> Option<S>, bad: Id)
    requires WellFormed(m) && Chained(m, root, a) && Chained(m, root, now)
    requires Replays(apply, states, a) && Replays(apply, current, now) && states[0] == current[0]
    requires bad in m && m[bad].prev == TopOf(root, now) && Descends(m, TopOf(root, a), bad)
    ensures apply(current[|now|], bad).Some?
  {
    var head := TopOf(root, a);
    assert now[..|now|] == now && a[..|a|] == a;
    Heights(m, root, now, |now|);
    Heights(m, root, a, |a|);
    DescendsNum(m, head, bad);
    var k := bad.num - root.num;
    ChainHeights(m, root, a, k);
    SameHeightAncestors(m, head, bad, TopOf(root, a[..k]));
    assert a[k - 1] == bad;
    ChainedPrefix(m, root, a, k - 1);
    ChainUnique(m, root, now, a[..k - 1]);
    ReplayUnique(apply, current, states, now, a, k - 1);
    assert apply(states[k - 1], a[k - 1]) == Some(states[k]);
  }

  /** Blocks of the old chain survive the removal of a subtree the old head is not part of. */
  lemma BuildsInWithout(m: Index, base: Id, tip: Id, q: seq<Id>, bad: Id)
    requires WellFormed(m) && BuildsOn(m, base, q) && IsBranch(m, tip, q) && !Descends(m, tip, bad)
    ensures BuildsOn(Without(m, bad), base, q)
  {
    var w := Without(m, bad);
    forall i | 0 <= i < |q| ensures q[i] in w && w[q[i]].prev == if i == |q| - 1 then base else q[i + 1] {
      NextBuilds(m, base, q, i);
      BranchBlock(m, tip, q, i);
      if Descends(m, q[i], bad) {
        DescendsTransitive(m, tip, q[i], bad);
      }
    }
  }

  lemma GrownIsTop(a0: seq<Id>, p: seq<Id>, left: nat, applied: seq<Id>)
    requires Grown(a0, p, left, applied)
    ensures left <= |p| && IsTop(applied, p[left..]) && a0 == applied[..|applied| - |p[left..]|]
  {
    assert |Rev(p[left..])| == |p| - left;
  }

  datatype Outcome = Unchanged | Switched | Rejected | LossOfSync | Unlinked | PoppedTooFar

  datatype PushOutcome = PushRefused(error: AddError) | HeadPruned | Followed(outcome: Outcome)

  class Controller<S> {
    const apply: (S, Id) -> Option<S>
    const forkDb: ForkDb
    var head: Id
    var state: S
    var undo: seq<S>
    var reversible: map<nat, Id>
    /** The lowest block, below every undo session that can be reached, and the blocks applied on top of it, oldest first. */
    ghost var root: Root
    ghost var applied: seq<Id>

    ghost predicate Inv()
      reads this, forkDb
    {
      forkDb.head in forkDb.index && InSync(forkDb.index, root, applied, head, apply, undo, state, reversible)
    }

    constructor (apply: (S, Id) -> Option<S>, genesis: Block, state: S)
      requires genesis.id.num == genesis.prev.num + 1 && genesis.lib < genesis.id.num
      ensures Inv() && Anchored() && fresh(forkDb) && this.apply == apply
      ensures head == genesis.id && this.state == state && undo == []
    {
      this.apply := apply;
      forkDb := new ForkDb(genesis);
      head, this.state, undo, reversible := genesis.id, state, [], map[];
      root, applied := Root(genesis.id, genesis.inChain, false), [];
    }

    /** Another block of the height of the root leaves the root marked, so that it is the oldest block. */
    ghost predicate Anchored()
      reads this, forkDb
    {
      forall b :: b in forkDb.index ==> b == root.id || root.id.num < b.num || root.marked
    }

    /** The state below all undo sessions that can be reached. */
    ghost function Bottom(): S
      reads this
    {
      (undo + [state])[0]
    }

    /** Marks a block, which is the head, as out of the chain and undoes the head; the root itself cannot be undone. */
    method PopBlock(b: Id) returns (ok: bool)
      requires Inv() && b == head
      modifies this`head, this`state, this`undo, this`reversible, this`applied, this`root, forkDb`index
      ensures Inv() && b in old(forkDb.index) && (ok <==> old(applied) != [])
      ensures |old(undo)| == |old(applied)|
      ensures forkDb.index == old(forkDb.index)[b := old(forkDb.index)[b].(inChain := false)]
      ensures ok ==> applied == old(applied)[..|old(applied)| - 1] && root == old(root)
      ensures ok ==> undo == old(undo)[..|old(undo)| - 1] && state == old(undo)[|old(undo)| - 1]
      ensures ok ==> head == old(forkDb.index)[b].prev
      ensures !ok ==> applied == [] && undo == old(undo) && state == old(state) && head == old(head)
      ensures !ok ==> reversible == old(reversible) && root == old(root).(marked := false)
    {
      hide InSync;
      SyncParts(forkDb.index, root, applied, head, apply, undo, state, reversible);
      var prev := forkDb.index[head].prev;
      if applied != [] {
        PopInSync(forkDb.index, root, applied, head, apply, undo, state, reversible);
      } else {
        RootStays(forkDb.index, root, head, apply, undo, state, reversible);
      }
      forkDb.MarkInCurrentChain(b, false);
      if prev !in forkDb.index {
        root := root.(marked := false);
        return false;
      }
      reversible := reversible - {head.num};
      head := prev;
      state := undo[|undo| - 1];
      undo := undo[..|undo| - 1];
      applied := applied[..|applied| - 1];
      return true;
    }

    /** Applies a block on top of the head; a failing block leaves everything as it was. */
    method ApplyBlock(b: Id) returns (ok: bool)
      requires Inv() && b in forkDb.index && forkDb.index[b].prev == head
      modifies this`head, this`state, this`undo, this`reversible, this`applied, forkDb`index
      ensures Inv()
      ensures ok <==> apply(old(state), b).Some?
      ensures ok ==> head == b && applied == old(applied) + [b] && undo == old(undo) + [old(state)]
      ensures ok ==> apply(old(state), b) == Some(state)
      ensures ok ==> forkDb.index == old(forkDb.index)[b := old(forkDb.index)[b].(inChain := true)]
      ensures !ok ==> head == old(head) && state == old(state) && undo == old(undo) && applied == old(applied)
      ensures !ok ==> reversible == old(reversible) && forkDb.index == old(forkDb.index)
    {
      hide InSync;
      var r := apply(state, b);
      if r.None? {
        return false;
      }
      ApplyInSync(forkDb.index, root, applied, head, apply, undo, state, reversible, b, r.value);
      undo := undo + [state];
      state := r.value;
      reversible := reversible[b.num := b];
      head := b;
      forkDb.MarkInCurrentChain(b, true);
      applied := applied + [b];
      return true;
    }

    method SetValidated(b: Id)
      requires Inv() && b in forkDb.index
      modifies forkDb`index
      ensures Inv() && SameTree(old(forkDb.index), forkDb.index)
      ensures forkDb.index == old(forkDb.index)[b := old(forkDb.index)[b].(validated := true)]
      ensures Validates(old(forkDb.index), forkDb.index, {b})
    {
      hide InSync;
      ValidatedInSync(forkDb.index, root, applied, head, apply, undo, state, reversible, b);
      forkDb.index := forkDb.index[b := forkDb.index[b].(validated := true)];
    }

    method PopNext(b: Id, ghost m: Index, ghost a0: seq<Id>, ghost u0: seq<S>, ghost s0: S, ghost k: nat) returns (ok: bool)
      requires Inv() && SameTree(m, forkDb.index) && Rewound(a0, u0, s0, applied, undo, state, k)
      requires b == if k < |a0| then a0[|a0| - 1 - k] else root.id
      modifies this`head, this`state, this`undo, this`reversible, this`applied, this`root, forkDb`index
      ensures Inv() && SameTree(m, forkDb.index) && (ok <==> k < |a0|) && Validates(old(forkDb.index), forkDb.index, {})
      ensures ok ==> Rewound(a0, u0, s0, applied, undo, state, k + 1) && root == old(root)
      ensures !ok ==> Rewound(a0, u0, s0, applied, undo, state, k) && root == old(root).(marked := false) && head == root.id
    {
      RewoundTop(a0, u0, s0, applied, undo, state, k);
      HeadIsLast(forkDb.index, root, applied, head, apply, undo, state, reversible);
      if k < |a0| {
        RewoundStep(a0, u0, s0, applied, undo, state, k);
      }
      hide InSync, SameTree, Rewound, Validates;
      ghost var m1 := forkDb.index;
      ok := PopBlock(b);
      MarkSameTree(m1, b, false);
      MarkValidates(m1, b, false);
      SameTreeTransitive(m, m1, forkDb.index);
    }

    /** Pops the blocks of a branch, newest first; a branch that reaches the root stops there, with an error. */
    method PopBranch(branch: seq<Id>) returns (ok: bool)
      requires Inv() && Poppable(root.id, applied, branch)
      modifies this`head, this`state, this`undo, this`reversible, this`applied, this`root, forkDb`index
      ensures Inv() && SameTree(old(forkDb.index), forkDb.index) && (ok <==> |branch| <= |old(applied)|)
      ensures Validates(old(forkDb.index), forkDb.index, {})
      ensures ok ==> Rewound(old(applied), old(undo), old(state), applied, undo, state, |branch|) && root == old(root)
      ensures !ok ==> Rewound(old(applied), old(undo), old(state), applied, undo, state, |old(applied)|)
      ensures !ok ==> root == old(root).(marked := false) && head == root.id
    {
      StatesMatch(forkDb.index, root, applied, head, apply, undo, state, reversible);
      RewoundStart(applied, undo, state);
      hide InSync, SameTree, Poppable, Rewound, Validates;
      ghost var a0, u0, s0, m := applied, undo, state, forkDb.index;
      SameTreeRefl(m);
      NoneValidated(m);
      PoppableSize(root.id, a0, branch);
      for k := 0 to |branch|
        invariant Inv() && SameTree(m, forkDb.index) && root == old(root) && k <= |a0|
        invariant Rewound(a0, u0, s0, applied, undo, state, k)
        invariant Validates(m, forkDb.index, {})
      {
        PoppableAt(root.id, a0, branch, k);
        ghost var m1 := forkDb.index;
        ok := PopNext(branch[k], m, a0, u0, s0, k);
        ValidatesTransitive(m, m1, forkDb.index, {}, {}, {});
        if !ok {
          return;
        }
      }
      return true;
    }

    /** Applies one block of a branch and marks it as validated. */
    method ApplyNext(b: Id, ghost m: Index, ghost start: seq<S>) returns (ok: bool)
      requires Inv() && b in forkDb.index && forkDb.index[b].prev == head && SameTree(m, forkDb.index)
      requires StartsWith(undo + [state], start)
      modifies this`head, this`state, this`undo, this`reversible, this`applied, forkDb`index
      ensures Inv() && SameTree(m, forkDb.index) && StartsWith(undo + [state], start)
      ensures ok ==> head == b && applied == old(applied) + [b]
      ensures !ok ==> apply(state, b) == None && head == old(head) && applied == old(applied)
      ensures Validates(old(forkDb.index), forkDb.index, if ok then {b} else {})
    {
      hide InSync, SameTree, Validates;
      ghost var m1 := forkDb.index;
      ok := ApplyBlock(b);
      if ok {
        MarkSameTree(m1, b, true);
        SameTreeTransitive(m, m1, forkDb.index);
        ghost var m2 := forkDb.index;
        SetValidated(b);
        SameTreeTransitive(m, m2, forkDb.index);
        MarkValidates(m1, b, true);
        ValidatesTransitive(m1, m2, forkDb.index, {}, {b}, {b});
      } else {
        NoneValidated(m1);
      }
    }

    /**
     Applies the blocks of a branch, lowest first, and marks each as validated. Returns how many are left
     when a block fails: the failing block is the last of those.
     */
    method ApplyBranch(p: seq<Id>) returns (left: nat)
      requires Inv() && BuildsOn(forkDb.index, head, p)
      modifies this`head, this`state, this`undo, this`reversible, this`applied, forkDb`index
      ensures Inv() && SameTree(old(forkDb.index), forkDb.index)
      ensures Grown(old(applied), p, left, applied) && left <= |p|
      ensures head == if left == |p| then old(head) else p[left]
      ensures StartsWith(undo + [state], old(undo) + [old(state)])
      ensures left > 0 ==> apply(state, p[left - 1]) == None
      ensures Validates(old(forkDb.index), forkDb.index, Elements(p[left..]))
    {
      hide InSync, SameTree, BuildsOn, Rev, StartsWith, Grown, Validates, Elements;
      ghost var m, start, a0, h0 := forkDb.index, undo + [state], applied, head;
      SameTreeRefl(m);
      StartsWithItself(start);
      GrownStart(a0, p);
      left := |p|;
      NoneValidated(m);
      ElementsEmpty();
      assert p[|p|..] == [];
      while left > 0
        invariant Inv() && SameTree(m, forkDb.index) && left <= |p|
        invariant Grown(a0, p, left, applied)
        invariant head == if left == |p| then h0 else p[left]
        invariant StartsWith(undo + [state], start)
        invariant Validates(m, forkDb.index, Elements(p[left..]))
        decreases left
      {
        BuildsSameTree(m, forkDb.index, h0, p);
        NextBuilds(forkDb.index, h0, p, left - 1);
        ghost var a1, m1 := applied, forkDb.index;
        var ok := ApplyNext(p[left - 1], m, start);
        ElementsOneMore(p, left - 1);
        ValidatesTransitive(m, m1, forkDb.index, Elements(p[left..]), if ok then {p[left - 1]} else {},
          Elements(p[if ok then left - 1 else left..]));
        if !ok {
          return;
        }
        GrownStep(a0, p, left, a1);
        left := left - 1;
      }
    }

    /** Applies again blocks that were applied before: no block fails, and every state is the one it was. */
    method Reapply(q: seq<Id>, ghost chain: seq<Id>, ghost states: seq<S>) returns (ok: bool)
      requires Inv() && BuildsOn(forkDb.index, head, q) && Replays(apply, states, chain)
      requires |q| <= |chain| && IsTop(chain, q)
      requires applied == chain[..|chain| - |q|] && undo + [state] == states[..|chain| - |q| + 1]
      modifies this`head, this`state, this`undo, this`reversible, this`applied, forkDb`index
      ensures Inv() && ok && SameTree(old(forkDb.index), forkDb.index)
      ensures applied == chain && undo + [state] == states
      ensures Validates(old(forkDb.index), forkDb.index, {})
    {
      hide InSync, SameTree, BuildsOn, IsTop, Validates;
      ghost var m := forkDb.index;
      SameTreeRefl(m);
      NoneValidated(m);
      var i: nat := |q|;
      while i > 0
        invariant Inv() && SameTree(m, forkDb.index) && i <= |q| && Validates(m, forkDb.index, {})
        invariant applied == chain[..|chain| - i] && undo + [state] == states[..|chain| - i + 1]
        invariant head == if i == |q| then old(head) else q[i]
        decreases i
      {
        ghost var k := |chain| - i;
        BuildsSameTree(m, forkDb.index, old(head), q);
        NextBuilds(forkDb.index, old(head), q, i - 1);
        TopAt(chain, q, i - 1);
        assert state == (undo + [state])[k] == states[k];
        assert apply(states[k], chain[k]) == Some(states[k + 1]);
        ghost var m1 := forkDb.index;
        ok := ApplyBlock(q[i - 1]);
        if !ok {
          return;
        }
        MarkSameTree(m1, q[i - 1], true);
        SameTreeTransitive(m, m1, forkDb.index);
        MarkValidates(m1, q[i - 1], true);
        ValidatesTransitive(m, m1, forkDb.index, {}, {}, {});
        assert undo + [state] == states[..k + 1] + [states[k + 1]] == states[..k + 2];
        assert applied == chain[..k] + [chain[k]] == chain[..k + 1];
        i := i - 1;
      }
      assert chain[..|chain|] == chain && states[..|chain| + 1] == states;
      return true;
    }

    /** What a rejected switch leaves: the subtree of one bad block is gone, and the marks are as they were. */
    ghost predicate OnlyDropped(m: Index, bad: Id)
      requires WellFormed(m)
      reads this, forkDb
    {
      && bad in m && !Descends(m, head, bad)
      && SameTree(Without(m, bad), forkDb.index)
      && forall b :: b in forkDb.index ==> forkDb.index[b].inChain == m[b].inChain
    }

    /** Drops the failing block with what builds on it, and pops the blocks of the new branch that were applied. */
    method Rewind(p: seq<Id>, left: nat, ghost n: nat, ghost base: Id, ghost m: Index, ghost a0: seq<Id>, ghost u0: seq<S>,
                  ghost s0: S, ghost h0: Id)
      requires Inv() && SameTree(m, forkDb.index) && 0 < left <= |p| && n <= |a0|
      requires InSync(m, root, a0, h0, apply, u0, s0, Reversible(root, a0)) && BuildsOn(m, base, p)
      requires Grown(a0[..|a0| - n], p, left, applied) && head == if left == |p| then base else p[left]
      requires |u0| == |a0| && StartsWith(undo + [state], u0[..|a0| - n] + [(u0 + [s0])[|a0| - n]])
      requires apply(state, p[left - 1]) == None
      modifies this`head, this`state, this`undo, this`reversible, this`applied, this`root, forkDb`index, forkDb`head
      ensures Inv() && root == old(root) && WellFormed(m) && p[left - 1] in m && !Descends(m, h0, p[left - 1])
      ensures applied == a0[..|a0| - n] && undo + [state] == (u0 + [s0])[..|a0| - n + 1]
      ensures SameTree(Without(m, p[left - 1]), forkDb.index) && Validates(old(forkDb.index), forkDb.index, {})
    {
      hide Validates, InSync, SameTree, Grown, IsTop, Poppable, Rewound, StartsWith, Descends, Without, BuildsOn,
           Replays, MarksFollow, WellFormed, IsBest, TopOf, Reversible;
      var bad := p[left - 1];
      ghost var k, m1 := |a0| - n, forkDb.index;
      SyncParts(m, root, a0, h0, apply, u0, s0, Reversible(root, a0));
      SyncParts(m1, root, applied, head, apply, undo, state, reversible);
      NextBuilds(m, base, p, left - 1);
      GrownIsTop(a0[..k], p, left, applied);
      OldStatesFirst(m, root, a0, h0, apply, u0, s0, applied, undo, state, k, m1, head, reversible, bad);
      RemoveInSync(m1, root, applied, head, apply, undo, state, reversible, bad);
      WithoutSameTree(m, m1, bad);
      WithoutValidates(m1, bad);
      forkDb.Remove(bad);
      assert head in forkDb.index;
      BestIsIndexed(forkDb.index, forkDb.head);
      ghost var a1, u1, s1, m2 := applied, undo, state, forkDb.index;
      TopIsPoppable(root.id, applied, p[left..]);
      var popped := PopBranch(p[left..]);
      RewoundToStart(a0, u0, s0, k, a1, u1, s1, applied, undo, state, |p[left..]|);
      SameTreeTransitive(Without(m, bad), m2, forkDb.index);
      ValidatesTransitive(m1, m2, forkDb.index, {}, {}, {});
    }

    /** Puts the old chain back after block `bad` of the new branch failed. */
    method Restore(p: seq<Id>, left: nat, q: seq<Id>, base: Id, ghost m: Index, ghost a0: seq<Id>, ghost u0: seq<S>,
                   ghost s0: S, ghost h0: Id) returns (r: Outcome)
      requires Inv() && SameTree(m, forkDb.index) && 0 < left <= |p| && |q| <= |a0|
      requires InSync(m, root, a0, h0, apply, u0, s0, Reversible(root, a0))
      requires IsTop(a0, q) && IsBranch(m, h0, q) && BuildsOn(m, base, q) && BuildsOn(m, base, p)
      requires base == TopOf(root.id, a0[..|a0| - |q|])
      requires Grown(a0[..|a0| - |q|], p, left, applied) && head == if left == |p| then base else p[left]
      requires |u0| == |a0| && StartsWith(undo + [state], u0[..|a0| - |q|] + [(u0 + [s0])[|a0| - |q|]])
      requires apply(state, p[left - 1]) == None
      modifies this`head, this`state, this`undo, this`reversible, this`applied, this`root, forkDb`index, forkDb`head
      ensures Inv() && r == Rejected && WellFormed(m)
      ensures applied == a0 && undo == u0 && state == s0 && head == h0 && root == old(root)
      ensures OnlyDropped(m, p[left - 1]) && Validates(old(forkDb.index), forkDb.index, {})
    {
      hide Validates, InSync, SameTree, Grown, IsTop, Poppable, Rewound, StartsWith, Descends, Without, BuildsOn, IsBranch,
           Replays, MarksFollow, WellFormed, IsBest, TopOf, Reversible;
      var bad := p[left - 1];
      SyncParts(m, root, a0, h0, apply, u0, s0, Reversible(root, a0));
      Rewind(p, left, |q|, base, m, a0, u0, s0, h0);
      BuildsInWithout(m, base, h0, q, bad);
      SyncParts(forkDb.index, root, applied, head, apply, undo, state, reversible);
      if head != base {
        return LossOfSync;
      }
      BuildsSameTree(Without(m, bad), forkDb.index, base, q);
      ghost var m3 := forkDb.index;
      var ok := Reapply(q, a0, u0 + [s0]);
      ValidatesTransitive(old(forkDb.index), m3, forkDb.index, {}, {}, {});
      SameTreeTransitive(Without(m, bad), m3, forkDb.index);
      LastStates(undo, state, u0, s0);
      SyncParts(forkDb.index, root, applied, head, apply, undo, state, reversible);
      OldMarksBack(m, forkDb.index, bad, root, h0);
      return Rejected;
    }

    /** With the old branch popped, applies the new one or puts everything back. */
    method Cross(p: seq<Id>, q: seq<Id>, base: Id, ghost newHead: Id, ghost m: Index, ghost a0: seq<Id>, ghost u0: seq<S>,
                 ghost s0: S, ghost h0: Id) returns (r: Outcome)
      requires Inv() && SameTree(m, forkDb.index) && Validates(m, forkDb.index, {}) && |q| <= |a0| == |u0|
      requires InSync(m, root, a0, h0, apply, u0, s0, Reversible(root, a0)) && AreBranches(m, newHead, h0, p, q) && newHead in m
      requires IsTop(a0, q) && BuildsOn(m, base, q) && BuildsOn(m, base, p) && base == head == TopOf(root.id, a0[..|a0| - |q|])
      requires applied == a0[..|a0| - |q|] && undo == u0[..|a0| - |q|] && state == (u0 + [s0])[|a0| - |q|]
      modifies this`head, this`state, this`undo, this`reversible, this`applied, this`root, forkDb`index, forkDb`head
      ensures Inv() && WellFormed(m) && (r == Switched || r == Rejected) && root == old(root)
      ensures StillValidated(m, forkDb.index) && forkDb.index.Keys <= m.Keys
      ensures r == Switched ==> head == newHead && SameTree(m, forkDb.index) && forkDb.head == old(forkDb.head)
      ensures r == Switched ==> Bottom() == (u0 + [s0])[0]
      ensures r == Switched ==> BranchValidated(m, newHead, h0, forkDb.index) && forkDb.index[newHead].validated
      ensures r == Rejected ==> applied == a0 && undo == u0 && state == s0 && head == h0
      ensures r == Rejected ==> exists bad ::
        OnlyDropped(m, bad) && Descends(m, newHead, bad) && ValidatedBelow(m, newHead, h0, bad, forkDb.index)
    {
      hide InSync, SameTree, Grown, IsTop, StartsWith, Descends, Without, BuildsOn, IsBranch, Replays, MarksFollow, WellFormed,
           IsBest, TopOf, Chained, OnlyDropped, Reversible, Validates, BranchValidated, ValidatedBelow, Elements,
           StillValidated;
      BuildsSameTree(m, forkDb.index, base, p);
      SyncParts(m, root, a0, h0, apply, u0, s0, Reversible(root, a0));
      ghost var m1 := forkDb.index;
      var left := ApplyBranch(p);
      SameTreeTransitive(m, m1, forkDb.index);
      ValidatesTransitive(m, m1, forkDb.index, {}, Elements(p[left..]), Elements(p[left..]));
      ghost var m2 := forkDb.index;
      SyncParts(forkDb.index, root, applied, head, apply, undo, state, reversible);
      FirstOfBranch(m, newHead, h0, p, q);
      if left > 0 {
        r := Restore(p, left, q, base, m, a0, u0, s0, h0);
        OnBranch(m, newHead, p, left - 1);
        ValidatesTransitive(m, m2, forkDb.index, Elements(p[left..]), {}, Elements(p[left..]));
        FailedBranch(m, newHead, h0, p, q, left, forkDb.index);
        ValidatesStays(m, forkDb.index, Elements(p[left..]));
        assert OnlyDropped(m, p[left - 1]) && Descends(m, newHead, p[left - 1]);
        return;
      }
      SameBottom(u0, s0, |a0| - |q|, undo + [state]);
      NewBranch(m, newHead, h0, p, q, forkDb.index);
      ValidatesStays(m, forkDb.index, Elements(p[0..]));
      return Switched;
    }

    /**
     Switches to a head on another branch, or puts the old branch back. The branches have to meet at the root or above
     it; otherwise every block that can be popped is popped before the error comes.
     */
    method SwitchForks(newHead: Id) returns (r: Outcome)
      requires Inv() && newHead in forkDb.index
      modifies this`head, this`state, this`undo, this`reversible, this`applied, this`root, forkDb`index, forkDb`head
      ensures Inv() && WellFormed(old(forkDb.index)) && r != Unchanged && r != LossOfSync
      ensures r == Unlinked <==> !Meet(old(forkDb.index), newHead, old(head))
      ensures r == PoppedTooFar <==>
        Meet(old(forkDb.index), newHead, old(head)) && !MeetsAboveRoot(old(forkDb.index), old(root).id, old(applied), newHead)
      ensures r != PoppedTooFar ==> root == old(root) && Bottom() == old(Bottom())
      ensures r == Switched ==> head == newHead && SameTree(old(forkDb.index), forkDb.index) && forkDb.head == old(forkDb.head)
      ensures r == Rejected || r == Unlinked ==> head == old(head) && state == old(state) && undo == old(undo)
      ensures r == Rejected || r == Unlinked ==> applied == old(applied) && reversible == old(reversible)
      ensures r == Unlinked ==> forkDb.index == old(forkDb.index) && forkDb.head == old(forkDb.head)
      ensures r == Rejected ==>
        exists bad ::
          && OnlyDropped(old(forkDb.index), bad) && Descends(old(forkDb.index), newHead, bad)
          && ValidatedBelow(old(forkDb.index), newHead, old(head), bad, forkDb.index)
      ensures r == Switched ==>
        BranchValidated(old(forkDb.index), newHead, old(head), forkDb.index) && forkDb.index[newHead].validated
      ensures r == PoppedTooFar ==> Validates(old(forkDb.index), forkDb.index, {})
      ensures StillValidated(old(forkDb.index), forkDb.index) && forkDb.index.Keys <= old(forkDb.index).Keys
      ensures r == PoppedTooFar ==> head == old(root).id && applied == [] && undo == [] && state == old(Bottom())
      ensures r == PoppedTooFar ==>
        SameTree(old(forkDb.index), forkDb.index) && forkDb.head == old(forkDb.head) && root == old(root).(marked := false)
    {
      hide InSync, SameTree, Grown, IsTop, Poppable, Rewound, StartsWith, Descends, Without, BuildsOn, IsBranch, Replays,
           MarksFollow, WellFormed, IsBest, TopOf, MeetAt, Meet, Chained, OnlyDropped, Disjoint, MeetsAboveRoot, Reversible,
           Validates, BranchValidated, ValidatedBelow, Elements, StillValidated;
      ghost var m, a0, u0, s0, h0 := forkDb.index, applied, undo, state, head;
      SyncParts(m, root, a0, h0, apply, u0, s0, reversible);
      var b := forkDb.FetchBranchFrom(newHead, head);
      NoneValidated(m);
      if b.NotFound? {
        ValidatesStays(m, m, {});
        return Unlinked;
      }
      var p, q := b.first, b.second;
      SwitchBranches(m, root.id, a0, newHead, h0, p, q);
      var base := forkDb.index[q[|q| - 1]].prev;
      var ok := PopBranch(q);
      if !ok {
        RewoundAll(a0, u0, s0, applied, undo, state);
        ValidatesStays(m, forkDb.index, {});
        return PoppedTooFar;
      }
      UsableBranches(m, root.id, a0, newHead, h0, p, q);
      ghost var k := |a0| - |q|;
      RewoundEnd(a0, u0, s0, applied, undo, state, |q|);
      SyncParts(forkDb.index, root, applied, head, apply, undo, state, reversible);
      if head != base {
        return LossOfSync;
      }
      r := Cross(p, q, base, newHead, m, a0, u0, s0, h0);
      SyncParts(forkDb.index, root, applied, head, apply, undo, state, reversible);
    }

    /** Follows the head of the fork database: one block further, or over to another branch. */
    method MaybeSwitchForks() returns (r: Outcome)
      requires Inv()
      modifies this`head, this`state, this`undo, this`reversible, this`applied, this`root, forkDb`index, forkDb`head
      ensures Inv() && WellFormed(old(forkDb.index))
      ensures r != LossOfSync && (r == Unchanged <==> old(forkDb.head) == old(head))
      ensures r != PoppedTooFar ==> root == old(root) && Bottom() == old(Bottom())
      ensures r == Unchanged || r == Rejected || r == Unlinked ==>
        head == old(head) && state == old(state) && undo == old(undo) && applied == old(applied) && reversible == old(reversible)
      ensures r == Unchanged || r == Unlinked ==> forkDb.index == old(forkDb.index)
      ensures r == Switched || r == Unchanged ==> head == old(forkDb.head) && forkDb.head == old(forkDb.head)
      ensures r == Switched ==> SameTree(old(forkDb.index), forkDb.index)
      ensures r == Switched && old(forkDb.index[forkDb.head].prev == head) ==>
        apply(old(state), head) == Some(state) && undo == old(undo) + [old(state)] && applied == old(applied) + [head]
      ensures r == Rejected ==>
        exists bad ::
          && OnlyDropped(old(forkDb.index), bad) && Descends(old(forkDb.index), old(forkDb.head), bad)
          && (ValidatedBelow(old(forkDb.index), old(forkDb.head), old(head), bad, forkDb.index)
              || (bad == old(forkDb.head) && Validates(old(forkDb.index), forkDb.index, {})))
      ensures old(forkDb.index[forkDb.head].prev == head) ==>
        Validates(old(forkDb.index), forkDb.index, if r == Switched then {old(forkDb.head)} else {})
      ensures r == Switched ==> forkDb.index[head].validated
      ensures r == Switched && old(forkDb.index[forkDb.head].prev != head) ==>
        BranchValidated(old(forkDb.index), old(forkDb.head), old(head), forkDb.index)
      ensures r != Switched && r != Rejected ==> Validates(old(forkDb.index), forkDb.index, {})
      ensures StillValidated(old(forkDb.index), forkDb.index) && forkDb.index.Keys <= old(forkDb.index).Keys
      ensures old(forkDb.index[forkDb.head].prev == head) ==>
        r == if apply(old(state), old(forkDb.head)).Some? then Switched else Rejected
      ensures old(forkDb.index[forkDb.head].prev != head && forkDb.head != head) ==>
        (r == Switched || r == Rejected <==> MeetsAboveRoot(old(forkDb.index), old(root).id, old(applied), old(forkDb.head)))
      ensures r == PoppedTooFar ==> head == old(root).id && applied == [] && undo == [] && state == old(Bottom())
      ensures r == PoppedTooFar ==> SameTree(old(forkDb.index), forkDb.index) && root == old(root).(marked := false)
    {
      hide InSync, SameTree, Descends, Without, MarksFollow, WellFormed, IsBest, OnlyDropped, MeetsAboveRoot, Meet,
           Validates, BranchValidated, ValidatedBelow, StillValidated;
      var newHead := forkDb.head;
      ghost var m := forkDb.index;
      NoneValidated(m);
      SyncParts(m, root, applied, head, apply, undo, state, reversible);
      if forkDb.index[newHead].prev == head {
        LinkedIsHigher(m, newHead, head);
        var ok := ApplyBlock(newHead);
        if ok {
          MarkSameTree(m, newHead, true);
          ghost var m1 := forkDb.index;
          SetValidated(newHead);
          SameTreeTransitive(m, m1, forkDb.index);
          MarkValidates(m, newHead, true);
          ValidatesTransitive(m, m1, forkDb.index, {}, {newHead}, {newHead});
          ValidatesStays(m, forkDb.index, {newHead});
          return Switched;
        }
        RemoveInSync(m, root, applied, head, apply, undo, state, reversible, newHead);
        WithoutValidates(m, newHead);
        forkDb.Remove(newHead);
        assert head in forkDb.index;
        BestIsIndexed(forkDb.index, forkDb.head);
        SameTreeRefl(forkDb.index);
        SyncParts(forkDb.index, root, applied, head, apply, undo, state, reversible);
        OldMarksBack(m, forkDb.index, newHead, root, head);
        DroppedHere(m, newHead);
        assert OnlyDropped(m, newHead) && Descends(m, newHead, newHead);
        ValidatesStays(m, forkDb.index, {});
        return Rejected;
      } else if newHead != head {
        AboveRootMeet(m, root, applied, head, apply, undo, state, reversible, newHead);
        r := SwitchForks(newHead);
      } else {
        ValidatesStays(m, m, {});
        return Unchanged;
      }
    }

    /**
     The root was announced as irreversible and pruned: its undo session and its reversible entry go, and the block
     above it, which can no longer be popped, becomes the root.
     */
    method OnIrreversible(b: Id, ghost m: Index)
      requires InSync(m, root, applied, head, apply, undo, state, reversible) && applied != []
      requires b == root.id && WellFormed(m) && forkDb.index == ProperDescendants(m, b) && forkDb.head in forkDb.index
      modifies this`undo, this`reversible, this`applied, this`root
      ensures Inv() && Anchored() && root == Root(old(applied)[0], true, true) && applied == old(applied)[1..]
      ensures old(undo) != [] && undo == old(undo)[1..] && Bottom() == (old(undo) + [state])[1]
    {
      hide InSync, ProperDescendants, Reversible;
      SyncParts(m, root, applied, head, apply, undo, state, reversible);
      PruneInSync(m, root, applied, head, apply, undo, state, reversible);
      reversible := map n | n in reversible && n > b.num :: reversible[n];
      ghost var u0 := undo;
      undo := undo[1..];
      root, applied := Root(applied[0], true, true), applied[1..];
      assert undo + [state] == (u0 + [state])[1..];
    }

    /**
     Pushes a received block: links it into the fork database, lets a pruned root go, and follows the best head. The
     chain is lost only when the head is pruned: with no block above the root applied, or with an unmarked root beside
     another block of its height. With no block above the root applied, as after popping too far, the push leads to a
     longer chain exactly when the best head builds directly on the root and applies.
     */
    method PushBlock(id: Id, prev: Id, lib: nat) returns (r: PushOutcome, ghost best: Id)
      requires Inv() && id.num == prev.num + 1 && lib < id.num
      modifies this, forkDb
      ensures r.PushRefused? <==> id in old(forkDb.index) || prev !in old(forkDb.index)
      ensures r.PushRefused? ==>
        Inv() && forkDb.index == old(forkDb.index) && head == old(head) && state == old(state) && undo == old(undo)
      ensures r.HeadPruned? ==> head == old(head) && state == old(state) && head !in forkDb.index
      ensures r.HeadPruned? ==> old(applied) == [] || !old(Anchored())
      ensures forkDb.announced == old(forkDb.announced) || forkDb.announced == old(forkDb.announced) + [old(root).id]
        || (r.HeadPruned? && !old(Anchored()))
      ensures r.Followed? ==> Inv() && r.outcome != LossOfSync
      ensures r.Followed? && r.outcome != PoppedTooFar && (old(Anchored()) || forkDb.announced != old(forkDb.announced)) ==>
        Anchored()
      ensures r.Followed? && (r.outcome == Switched || r.outcome == Unchanged) ==>
        head == forkDb.head && IsBest(forkDb.index, head)
      ensures r.Followed? && r.outcome == Rejected ==> head == old(head) && state == old(state)
      ensures r.Followed? && r.outcome == Switched ==> forkDb.index[head].validated
      ensures r.Followed? ==> StillValidated(old(forkDb.index), forkDb.index)
      ensures r.Followed? && r.outcome != Switched && r.outcome != Rejected ==> SameValidated(old(forkDb.index), forkDb.index)
      ensures r.Followed? && r.outcome != PoppedTooFar && forkDb.announced == old(forkDb.announced) ==> Bottom() == old(Bottom())
      ensures r.Followed? && r.outcome != PoppedTooFar && forkDb.announced != old(forkDb.announced) ==>
        old(undo) != [] && Bottom() == old(undo + [state])[1]
      ensures r.Followed? && old(applied) == [] ==>
        && prev in old(forkDb.index) && forkDb.announced == old(forkDb.announced)
        && FromRoot(old(forkDb.index)[id := NewBlock(old(forkDb.index), id, prev, lib)], best, old(head), apply, old(state), r.outcome)
    {
      hide InSync, IsBest, SameTree, OnlyDropped, MeetsAboveRoot, Descends, ProperDescendants, WellFormed, Reversible, Meet,
           Validates, BranchValidated, ValidatedBelow, StillValidated, SameValidated, OnlyNew;
      ghost var m0 := forkDb.index;
      var seen := forkDb.announced;
      ghost var a0, h0, s0 := applied, head, state;
      var res, m := LinkBlock(id, prev, lib);
      best := forkDb.head;
      if res.Refused? {
        return PushRefused(res.error), best;
      }
      if |forkDb.announced| > |seen| {
        PrunedIsRoot(m, root, applied, head, apply, undo, state, reversible, forkDb.announced[|seen|]);
        if head !in forkDb.index {
          return HeadPruned, best;
        }
        OnIrreversible(forkDb.announced[|forkDb.announced| - 1], m);
      }
      ghost var m1, h1 := forkDb.index, forkDb.head;
      LinkedIsNew(m0, id, m[id], if |forkDb.announced| > |seen| then forkDb.announced[|seen|] else id, m1);
      var outcome := MaybeSwitchForks();
      PushedMarks(m0, id, m1, forkDb.index);
      BestSameTree(m1, forkDb.index, h1);
      if outcome != PoppedTooFar && (old(Anchored()) || |forkDb.announced| > |seen|) {
        AnchoredAfter(m1);
      }
      if a0 == [] {
        NothingToPop(m1, root.id, h1);
        NotItsOwnChild(m1, h1);
      }
      r := Followed(outcome);
    }

    lemma AnchoredAfter(m: Index)
      requires WellFormed(m) && forall b :: b in m ==> b == root.id || root.id.num < b.num || root.marked
      requires SameTree(m, forkDb.index) || forkDb.index == m || exists bad :: OnlyDropped(m, bad)
      ensures Anchored()
    {
    }

    /** Links a received block into the fork database; what is pruned is the root or, unless anchored, beside it. */
    method LinkBlock(id: Id, prev: Id, lib: nat) returns (r: AddResult, ghost m: Index)
      requires Inv() && id.num == prev.num + 1 && lib < id.num
      modifies forkDb
      ensures r.Refused? <==> id in old(forkDb.index) || prev !in old(forkDb.index)
      ensures r.Refused? ==> Inv() && forkDb.index == old(forkDb.index) && forkDb.announced == old(forkDb.announced)
      ensures r.Added? ==> m == old(forkDb.index)[id := NewBlock(old(forkDb.index), id, prev, lib)]
      ensures r.Added? ==> InSync(m, root, applied, head, apply, undo, state, reversible) && WellFormed(m)
      ensures r.Added? && forkDb.index != map[] ==> forkDb.head in forkDb.index && IsBest(forkDb.index, forkDb.head)
      ensures r.Added? && forkDb.announced == old(forkDb.announced) ==> forkDb.index == m && Inv() && (old(Anchored()) ==> Anchored())
      ensures r.Added? && forkDb.announced != old(forkDb.announced) ==>
        && |forkDb.announced| == |old(forkDb.announced)| + 1 && forkDb.announced[..|old(forkDb.announced)|] == old(forkDb.announced)
        && var o := forkDb.announced[|old(forkDb.announced)|];
           && forkDb.index == ProperDescendants(m, o) && o.num == root.id.num && (old(Anchored()) ==> o == root.id)
    {
      hide InSync, IsBest, IsOldest, Descends, ProperDescendants, PruneSafe, WellFormed, ParentsPresent, BftOrdered, LibBelow;
      m := forkDb.index;
      ghost var seen := forkDb.announced;
      SyncParts(m, root, applied, head, apply, undo, state, reversible);
      TreeParts(m, root, applied, head, apply, undo, state, reversible);
      if id !in m && prev in m {
        AddInSync(m, root, applied, head, apply, undo, state, reversible, id, prev, lib);
        m := m[id := NewBlock(m, id, prev, lib)];
      }
      r := forkDb.AddSigned(id, prev, lib);
      if r.Added? {
        ghost var o, h :| IsOldest(m, o) && h in m && IsBest(m, h) && forkDb.PrunedIfDue(m, o, h, seen);
        OldestIsLow(m, root, applied, head, apply, undo, state, reversible, o);
        if old(Anchored()) {
          OldestIsRoot(m, root, applied, head, apply, undo, state, reversible, o);
        }
        if forkDb.index != map[] {
          HeadIsBest(m, o, h, forkDb.index, forkDb.head);
        }
      }
    }

    lemma DroppedHere(m: Index, bad: Id)
      requires WellFormed(m) && bad in m && head in m && head.num < bad.num && SameTree(Without(m, bad), forkDb.index)
      requires forall b :: b in forkDb.index ==> b in m && forkDb.index[b].inChain == m[b].inChain
      ensures OnlyDropped(m, bad) && Descends(m, bad, bad)
    {
      if Descends(m, head, bad) {
        DescendsNum(m, head, bad);
      }
    }
  }

  // ---- Pushing a block ----

  lemma TreeParts<S>(m: Index, root: Root, applied: seq<Id>, head: Id, apply: (S, Id) -> Option<S>,
                     undo: seq<S>, state: S, reversible: map<nat, Id>)
    requires InSync(m, root, applied, head, apply, undo, state, reversible)
    ensures ParentsPresent(m) && BftOrdered(m) && LibBelow(m)
  {
  }

  /** A new block has no successor, so what descends from what stays. */
  lemma {:induction false} DescendsInAdd(m: Index, n: Block, b: Id, a: Id)
    requires WellFormed(m) && ParentsPresent(m) && n.prev in m && n.id !in m && n.id.num == n.prev.num + 1
    requires WellFormed(m[n.id := n]) && b in m
    ensures Descends(m[n.id := n], b, a) == Descends(m, b, a)
    decreases b.num
  {
    var p := m[b].prev;
    assert n.prev.num < b.num ==> p in m;
    if p in m {
      DescendsInAdd(m, n, p, a);
    }
  }

  lemma AddMarks(m: Index, root: Root, head: Id, n: Block)
    requires WellFormed(m) && ParentsPresent(m) && n.prev in m && n.id !in m && n.id.num == n.prev.num + 1
    requires WellFormed(m[n.id := n]) && head in m && root.id in m && MarksFollow(m, root, head) && !n.inChain
    ensures MarksFollow(m[n.id := n], root, head)
  {
    var m' := m[n.id := n];
    forall b | b in m' && b != root.id ensures m'[b].inChain <==> Descends(m', head, b) {
      DescendsInAdd(m, n, head, b);
      if b == n.id {
        UnknownIsNoAncestor(m, head, b);
      }
    }
  }

  lemma {:induction false} UnknownIsNoAncestor(m: Index, h: Id, x: Id)
    requires WellFormed(m) && ParentsPresent(m) && h in m && x !in m && (exists l :: l in m && l.num < x.num)
    ensures !Descends(m, h, x)
    decreases h.num
  {
    var l :| l in m && l.num < x.num;
    var p := m[h].prev;
    assert l.num < h.num ==> p in m;
    if p in m {
      UnknownIsNoAncestor(m, p, x);
    }
  }

  /** Linking a block in leaves the chain as it is. */
  lemma AddInSync<S>(m: Index, root: Root, applied: seq<Id>, head: Id, apply: (S, Id) -> Option<S>,
                     undo: seq<S>, state: S, reversible: map<nat, Id>, id: Id, prev: Id, lib: nat)
    requires InSync(m, root, applied, head, apply, undo, state, reversible)
    requires prev in m && id !in m && id.num == prev.num + 1 && lib < id.num
    ensures InSync(m[id := NewBlock(m, id, prev, lib)], root, applied, head, apply, undo, state, reversible)
    ensures (forall b :: b in m ==> b == root.id || root.id.num < b.num || root.marked) ==>
      forall b :: b in m[id := NewBlock(m, id, prev, lib)] ==> b == root.id || root.id.num < b.num || root.marked
  {
    hide Descends, MarksFollow, Replays, Reversible;
    SyncParts(m, root, applied, head, apply, undo, state, reversible);
    AddKeepsTree(m, NewBlock(m, id, prev, lib));
    AddMarks(m, root, head, NewBlock(m, id, prev, lib));
  }

  /** The root is the one block that comes first in the order of the number index. */
  lemma OldestIsRoot<S>(m: Index, root: Root, applied: seq<Id>, head: Id, apply: (S, Id) -> Option<S>,
                        undo: seq<S>, state: S, reversible: map<nat, Id>, o: Id)
    requires InSync(m, root, applied, head, apply, undo, state, reversible) && IsOldest(m, o)
    requires forall b :: b in m ==> b == root.id || root.id.num < b.num || root.marked
    ensures o == root.id
  {
    hide Descends, Replays, Reversible;
    HeightOfHead(m, root.id, applied);
    assert o.num == root.id.num;
    if o != root.id {
      assert m[root.id].inChain && m[o].inChain;
      SameHeightAncestors(m, head, o, root.id);
    }
  }

  lemma OldestIsLow<S>(m: Index, root: Root, applied: seq<Id>, head: Id, apply: (S, Id) -> Option<S>,
                       undo: seq<S>, state: S, reversible: map<nat, Id>, o: Id)
    requires InSync(m, root, applied, head, apply, undo, state, reversible) && IsOldest(m, o)
    ensures o.num == root.id.num
  {
    hide Descends, Replays, Reversible;
    HeightOfHead(m, root.id, applied);
  }

  /** A head that outlives the pruning of a lowest block has lost its root; and only with a block above the root. */
  lemma PrunedIsRoot<S>(m: Index, root: Root, applied: seq<Id>, head: Id, apply: (S, Id) -> Option<S>,
                        undo: seq<S>, state: S, reversible: map<nat, Id>, o: Id)
    requires InSync(m, root, applied, head, apply, undo, state, reversible) && o.num == root.id.num
    ensures head in ProperDescendants(m, o) <==> applied != [] && o == root.id
  {
    HeightOfHead(m, root.id, applied);
    if head in ProperDescendants(m, o) {
      SameHeightAncestors(m, head, o, root.id);
    }
  }

  /** How a push ends with no block above the root applied: `best` is the best head before the switch. */
  ghost predicate FromRoot<S>(m: Index, best: Id, head: Id, apply: (S, Id) -> Option<S>, state: S, outcome: Outcome) {
    && IsBest(m, best)
    && (outcome == Unchanged <==> best == head)
    && (outcome == Switched <==> m[best].prev == head && apply(state, best).Some?)
    && (outcome == Rejected <==> m[best].prev == head && apply(state, best).None?)
  }

  lemma NothingToPop(m: Index, root: Id, newHead: Id)
    requires WellFormed(m)
    ensures !MeetsAboveRoot(m, root, [], newHead)
  {
  }

  lemma NotItsOwnChild(m: Index, b: Id)
    requires WellFormed(m) && b in m
    ensures m[b].prev != b
  {
  }

  lemma BestSameTree(m: Index, m': Index, h: Id)
    requires IsBest(m, h)
    ensures SameTree(m, m') ==> IsBest(m', h)
    ensures m == m' ==> IsBest(m', h)
  {
  }

  lemma {:induction false} DescendsInPruned(m: Index, o: Id, h: Id, b: Id)
    requires WellFormed(m) && h in ProperDescendants(m, o) && b in ProperDescendants(m, o)
    ensures Descends(ProperDescendants(m, o), h, b) == Descends(m, h, b)
    decreases h.num
  {
    var r, p := ProperDescendants(m, o), m[h].prev;
    if h != b {
      if p in r {
        DescendsInPruned(m, o, p, b);
      } else {
        NotBelow(m, o, h, b);
      }
    }
  }

  lemma KeptAbove(m: Index, o: Id, p: Id)
    requires WellFormed(m) && Descends(m, p, o)
    ensures p == o || p in ProperDescendants(m, o)
  {
  }

  /** A block whose previous block was pruned builds on no block that is left. */
  lemma NotBelow(m: Index, o: Id, h: Id, b: Id)
    requires WellFormed(m) && h in ProperDescendants(m, o) && b in ProperDescendants(m, o)
    requires m[h].prev !in ProperDescendants(m, o) && h != b
    ensures !Descends(m, m[h].prev, b)
  {
    var p := m[h].prev;
    DescendsNum(m, b, o);
    assert Descends(m, p, o);
    KeptAbove(m, o, p);
    if Descends(m, p, b) {
      DescendsNum(m, p, b);
    }
  }

  lemma PrunedMarks(m: Index, root: Root, next: Id, head: Id)
    requires WellFormed(m) && MarksFollow(m, root, head)
    requires next in ProperDescendants(m, root.id) && head in ProperDescendants(m, root.id) && Descends(m, head, next)
    ensures MarksFollow(ProperDescendants(m, root.id), Root(next, true, true), head)
  {
    var r := ProperDescendants(m, root.id);
    forall b | b in r ensures r[b].inChain <==> if b == next then true else Descends(r, head, b) {
      DescendsInPruned(m, root.id, head, b);
    }
  }

  lemma ChainedTail(m: Index, root: Id, applied: seq<Id>)
    requires WellFormed(m) && Chained(m, root, applied) && applied != []
    ensures Chained(ProperDescendants(m, root), applied[0], applied[1..])
    ensures TopOf(applied[0], applied[1..]) == TopOf(root, applied)
    ensures applied[0] in ProperDescendants(m, root) && TopOf(root, applied) in ProperDescendants(m, root)
    ensures Descends(m, TopOf(root, applied), applied[0]) && applied[0].num == root.num + 1
  {
    hide Descends;
    var r, a := ProperDescendants(m, root), applied[1..];
    forall k | 0 <= k < |applied| ensures applied[k] in r {
      Heights(m, root, applied, k + 1);
      assert TopOf(root, applied[..k + 1]) == applied[k];
      ChainedPrefix(m, root, applied, k + 1);
      HeightOfHead(m, root, applied[..k + 1]);
    }
    forall k | 0 <= k < |a| ensures a[k] in r && r[a[k]].prev == TopOf(applied[0], a[..k]) {
      ChainedPrev(m, root, applied, k + 1);
      assert applied[..k + 1] == [applied[0]] + a[..k];
    }
    ChainHeights(m, root, applied, 1);
    assert TopOf(root, applied[..1]) == applied[0];
  }

  lemma ReplaysTail<S>(apply: (S, Id) -> Option<S>, undo: seq<S>, state: S, applied: seq<Id>)
    requires Replays(apply, undo + [state], applied) && applied != []
    ensures undo != [] && Replays(apply, undo[1..] + [state], applied[1..])
  {
    var s, t := undo + [state], undo[1..] + [state];
    assert t == s[1..];
    forall k | 0 <= k < |applied| - 1 ensures apply(t[k], applied[1..][k]) == Some(t[k + 1]) {
      assert apply(s[k + 1], applied[k + 1]) == Some(s[k + 2]);
    }
  }

  lemma {:induction false} ReversibleTail(m: Index, root: Root, applied: seq<Id>)
    requires WellFormed(m) && Chained(m, root.id, applied) && applied != []
    ensures (map n | n in Reversible(root, applied) && n > root.id.num :: Reversible(root, applied)[n])
         == Reversible(Root(applied[0], true, true), applied[1..])
  {
    var k := |applied| - 1;
    var init, last := applied[..k], applied[k];
    Heights(m, root.id, applied, k + 1);
    assert TopOf(root.id, applied[..k + 1]) == last;
    if k > 0 {
      ChainedPrefix(m, root.id, applied, k);
      ReversibleTail(m, root, init);
      assert applied[1..][..k - 1] == init[1..] && applied[1..][k - 1] == last;
    } else {
      assert init == [];
    }
  }

  /** With the root pruned, the block above it takes its place. */
  lemma PruneInSync<S>(m: Index, root: Root, applied: seq<Id>, head: Id, apply: (S, Id) -> Option<S>,
                       undo: seq<S>, state: S, reversible: map<nat, Id>)
    requires InSync(m, root, applied, head, apply, undo, state, reversible) && applied != []
    ensures undo != [] && applied[0] in ProperDescendants(m, root.id)
    ensures InSync(ProperDescendants(m, root.id), Root(applied[0], true, true), applied[1..], head, apply, undo[1..], state,
                   map n | n in reversible && n > root.id.num :: reversible[n])
  {
    hide Descends, MarksFollow, Chained, Replays, Reversible, TopOf;
    HeightOfHead(m, root.id, applied);
    ChainedTail(m, root.id, applied);
    ReplaysTail(apply, undo, state, applied);
    ReversibleTail(m, root, applied);
    PrunedMarks(m, root, applied[0], head);
    RootIsOldestHere(m, root.id);
    LibBelowLeft(m, root.id);
    PrunedIsHigher(m, root.id, applied[0]);
  }

  lemma RootIsOldestHere(m: Index, root: Id)
    requires WellFormed(m) && LowestRoot(m, root)
    ensures ParentsPresent(m) ==> ParentsPresent(ProperDescendants(m, root))
    ensures BftOrdered(m) ==> BftOrdered(ProperDescendants(m, root))
  {
    var r := ProperDescendants(m, root);
    if ParentsPresent(m) {
      forall b, l | b in r && l in r && l.num < b.num ensures m[b].prev in r {
        DescendsNum(m, l, root);
        assert m[b].prev in m && m[b].prev != root;
      }
    }
  }

  lemma PrunedIsHigher(m: Index, root: Id, next: Id)
    requires WellFormed(m) && LowestRoot(m, root) && next in ProperDescendants(m, root) && next.num == root.num + 1
    ensures LowestRoot(ProperDescendants(m, root), next)
  {
    forall b | b in ProperDescendants(m, root) ensures next.num <= b.num {
      DescendsNum(m, b, root);
    }
  }

  lemma LinkedIsHigher(m: Index, b: Id, head: Id)
    requires WellFormed(m) && b in m && m[b].prev == head
    ensures head.num < b.num && (head in m ==> !Descends(m, head, b))
  {
    if Descends(m, head, b) {
      DescendsNum(m, head, b);
    }
  }

  lemma OnBranch(m: Index, tip: Id, p: seq<Id>, i: nat)
    requires WellFormed(m) && IsBranch(m, tip, p) && i < |p|
    ensures Descends(m, tip, p[i])
  {
    BranchBlock(m, tip, p, i);
  }

  /** The new head builds on the root, and there is a block above the root to pop. */
  ghost predicate MeetsAboveRoot(m: Index, root: Id, applied: seq<Id>, newHead: Id)
    requires WellFormed(m)
  {
    applied != [] && newHead != root && Descends(m, newHead, root)
  }

  /** The old branch of a switch is the top of the applied chain, and reaches the root exactly when the heads meet below it. */
  lemma SwitchBranches(m: Index, root: Id, applied: seq<Id>, newHead: Id, head: Id, p: seq<Id>, q: seq<Id>)
    requires WellFormed(m) && Chained(m, root, applied) && head == TopOf(root, applied) && LowestRoot(m, root)
    requires AreBranches(m, newHead, head, p, q) && newHead in m
    requires forall x :: MeetAt(m, newHead, head, x) ==> Descends(m, m[p[|p| - 1]].prev, x)
    ensures q[|q| - 1] in m && Poppable(root, applied, q)
    ensures |q| <= |applied| <==> MeetsAboveRoot(m, root, applied, newHead)
  {
    hide Descends, Chained, LowestRoot, Poppable, IsTop, TopOf;
    BranchBlock(m, head, q, |q| - 1);
    BranchBlock(m, newHead, p, |p| - 1);
    var last := q[|q| - 1];
    var base := m[last].prev;
    HeightOfHead(m, root, applied);
    LowestIs(m, root, last);
    if base.num >= root.num {
      BranchIsTop(m, root, applied, q);
      TopIsPoppable(root, applied, q);
      BaseAboveRoot(m, root, applied, newHead, p, |applied| - |q|);
    } else {
      ReachesRoot(m, root, applied, q);
      if MeetsAboveRoot(m, root, applied, newHead) {
        RootIsMeeting(m, root, applied, newHead);
        DescendsNum(m, base, root);
      }
    }
  }

  lemma HeightOfHead(m: Index, root: Id, applied: seq<Id>)
    requires WellFormed(m) && Chained(m, root, applied)
    ensures TopOf(root, applied).num == root.num + |applied| && TopOf(root, applied) in m
    ensures Descends(m, TopOf(root, applied), root)
  {
    assert applied[..|applied|] == applied && applied[..0] == [];
    Heights(m, root, applied, |applied|);
    ChainHeights(m, root, applied, 0);
  }

  lemma LowestIs(m: Index, root: Id, b: Id)
    requires LowestRoot(m, root) && b in m
    ensures root.num <= b.num
  {
  }

  lemma BaseAboveRoot(m: Index, root: Id, applied: seq<Id>, newHead: Id, p: seq<Id>, k: nat)
    requires WellFormed(m) && Chained(m, root, applied) && k < |applied| && p != [] && IsBranch(m, newHead, p)
    requires m[p[|p| - 1]].prev == TopOf(root, applied[..k])
    ensures MeetsAboveRoot(m, root, applied, newHead)
  {
    hide Descends, Chained;
    var f := p[|p| - 1];
    var base := m[f].prev;
    BranchBlock(m, newHead, p, |p| - 1);
    ChainedPrefix(m, root, applied, k);
    HeightOfHead(m, root, applied[..k]);
    OneDown(m, f);
    DescendsTransitive(m, newHead, f, base);
    DescendsTransitive(m, newHead, base, root);
    DescendsNum(m, newHead, f);
  }

  lemma OneDown(m: Index, f: Id)
    requires WellFormed(m) && f in m
    ensures Descends(m, f, m[f].prev) && f.num == m[f].prev.num + 1
  {
    assert Descends(m, m[f].prev, m[f].prev);
  }

  /** A branch down to the height of the root: all applied blocks, and the root. */
  lemma ReachesRoot(m: Index, root: Id, applied: seq<Id>, q: seq<Id>)
    requires WellFormed(m) && Chained(m, root, applied) && q != [] && IsBranch(m, TopOf(root, applied), q)
    requires |q| == |applied| + 1
    ensures Poppable(root, applied, q)
  {
    hide Descends, Chained, IsBranch, TopOf;
    var n, head := |applied|, TopOf(root, applied);
    HeightOfHead(m, root, applied);
    forall k | 0 <= k < |q| ensures q[k] == if k < n then applied[n - 1 - k] else root {
      if k < n {
        BranchMeetsChain(m, root, applied, q, k);
      } else {
        BranchBlock(m, head, q, k);
        SameHeightAncestors(m, head, q[k], root);
      }
    }
  }

  lemma RootIsMeeting(m: Index, root: Id, applied: seq<Id>, newHead: Id)
    requires WellFormed(m) && Chained(m, root, applied) && MeetsAboveRoot(m, root, applied, newHead)
    requires newHead in m
    ensures MeetAt(m, newHead, TopOf(root, applied), root)
  {
    HeightOfHead(m, root, applied);
  }

  /** Above the root the heads always meet. */
  lemma AboveRootMeet<S>(m: Index, root: Root, applied: seq<Id>, head: Id, apply: (S, Id) -> Option<S>,
                         undo: seq<S>, state: S, reversible: map<nat, Id>, newHead: Id)
    requires InSync(m, root, applied, head, apply, undo, state, reversible) && newHead in m
    ensures MeetsAboveRoot(m, root.id, applied, newHead) ==> Meet(m, newHead, head)
  {
    if MeetsAboveRoot(m, root.id, applied, newHead) {
      RootIsMeeting(m, root.id, applied, newHead);
    }
  }

  /** The branches of a switch that is possible: both build on the same block. */
  lemma UsableBranches(m: Index, root: Id, applied: seq<Id>, newHead: Id, head: Id, p: seq<Id>, q: seq<Id>)
    requires WellFormed(m) && Chained(m, root, applied) && head == TopOf(root, applied) && LowestRoot(m, root)
    requires AreBranches(m, newHead, head, p, q) && |q| <= |applied|
    ensures IsTop(applied, q) && p != [] && p[0] == newHead
    ensures IsBranch(m, newHead, p) && IsBranch(m, head, q)
    ensures var base := m[q[|q| - 1]].prev;
      BuildsOn(m, base, p) && BuildsOn(m, base, q) && base == TopOf(root, applied[..|applied| - |q|])
  {
    hide Descends, Chained;
    HeightOfHead(m, root, applied);
    BranchBlock(m, head, q, |q| - 1);
    BranchIsTop(m, root, applied, q);
    BranchBuilds(m, newHead, p);
    BranchBuilds(m, head, q);
  }

  /** After k pops: the top k blocks and sessions are gone. */
  ghost predicate Rewound<S>(a0: seq<Id>, u0: seq<S>, s0: S, applied: seq<Id>, undo: seq<S>, state: S, k: nat) {
    && k <= |a0| == |u0|
    && applied == a0[..|a0| - k] && undo == u0[..|a0| - k] && state == (u0 + [s0])[|a0| - k]
  }

  lemma RewoundStart<S>(a0: seq<Id>, u0: seq<S>, s0: S)
    requires |a0| == |u0|
    ensures Rewound(a0, u0, s0, a0, u0, s0, 0)
  {
  }

  lemma RewoundTop<S>(a0: seq<Id>, u0: seq<S>, s0: S, applied: seq<Id>, undo: seq<S>, state: S, k: nat)
    requires Rewound(a0, u0, s0, applied, undo, state, k)
    ensures if k < |a0| then applied != [] && applied[|applied| - 1] == a0[|a0| - 1 - k] else applied == []
  {
  }

  lemma RewoundStep<S>(a0: seq<Id>, u0: seq<S>, s0: S, applied: seq<Id>, undo: seq<S>, state: S, k: nat)
    requires Rewound(a0, u0, s0, applied, undo, state, k) && k < |a0|
    ensures |applied| == |undo| > 0
    ensures Rewound(a0, u0, s0, applied[..|applied| - 1], undo[..|undo| - 1], undo[|undo| - 1], k + 1)
  {
  }

  lemma RewoundEnd<S>(a0: seq<Id>, u0: seq<S>, s0: S, applied: seq<Id>, undo: seq<S>, state: S, k: nat)
    requires Rewound(a0, u0, s0, applied, undo, state, k)
    ensures k <= |a0| == |u0|
    ensures applied == a0[..|a0| - k] && undo == u0[..|a0| - k] && state == (u0 + [s0])[|a0| - k]
  {
  }

  lemma RewoundAll<S>(a0: seq<Id>, u0: seq<S>, s0: S, applied: seq<Id>, undo: seq<S>, state: S)
    requires Rewound(a0, u0, s0, applied, undo, state, |a0|)
    ensures applied == [] && undo == [] && state == (u0 + [s0])[0]
  {
  }

  /** What is left at the bottom of the stack after popping and applying. */
  lemma SameBottom<S>(u0: seq<S>, s0: S, k: nat, states: seq<S>)
    requires k <= |u0| && StartsWith(states, u0[..k] + [(u0 + [s0])[k]])
    ensures states != [] && states[0] == (u0 + [s0])[0]
  {
    var start := u0[..k] + [(u0 + [s0])[k]];
    assert start[0] == (u0 + [s0])[0];
    assert states[0] == start[0];
  }

  /** The branch, newest block first, is the top of the applied chain, or all of it and the root. */
  ghost predicate Poppable(root: Id, applied: seq<Id>, q: seq<Id>) {
    && |q| <= |applied| + 1
    && forall k :: 0 <= k < |q| ==> q[k] == if k < |applied| then applied[|applied| - 1 - k] else root
  }

  lemma PoppableSize(root: Id, applied: seq<Id>, q: seq<Id>)
    requires Poppable(root, applied, q)
    ensures |q| <= |applied| + 1
  {
  }

  lemma PoppableAt(root: Id, applied: seq<Id>, q: seq<Id>, k: nat)
    requires Poppable(root, applied, q) && k < |q|
    ensures q[k] == if k < |applied| then applied[|applied| - 1 - k] else root
  {
  }

  lemma TopIsPoppable(root: Id, applied: seq<Id>, q: seq<Id>)
    requires IsTop(applied, q)
    ensures Poppable(root, applied, q) && |q| <= |applied|
  {
    forall k | 0 <= k < |q| ensures q[k] == applied[|applied| - 1 - k] {
      TopAt(applied, q, k);
    }
  }

  /** The blocks of p from index `left` on have been applied on top of a0. */
  ghost predicate Grown(a0: seq<Id>, p: seq<Id>, left: nat, applied: seq<Id>) {
    left <= |p| && applied == a0 + Rev(p[left..])
  }

  lemma GrownStart(a0: seq<Id>, p: seq<Id>)
    ensures Grown(a0, p, |p|, a0)
  {
  }

  lemma GrownStep(a0: seq<Id>, p: seq<Id>, left: nat, applied: seq<Id>)
    requires Grown(a0, p, left, applied) && left > 0
    ensures Grown(a0, p, left - 1, applied + [p[left - 1]])
  {
    RevStep(p, left - 1);
  }

  /** The branch, newest block first, is the top of the applied chain. */
  ghost predicate IsTop(chain: seq<Id>, q: seq<Id>) {
    |q| <= |chain| && Rev(q) == chain[|chain| - |q|..]
  }

  lemma TopAt(chain: seq<Id>, q: seq<Id>, k: nat)
    requires IsTop(chain, q) && k < |q|
    ensures |q| <= |chain| && q[k] == chain[|chain| - 1 - k]
  {
    assert Rev(q)[|q| - 1 - k] == q[k];
  }

  lemma SameTreeRefl(m: Index)
    ensures SameTree(m, m)
  {
  }

  lemma MarkSameTree(m: Index, b: Id, inChain: bool)
    requires b in m
    ensures SameTree(m, m[b := m[b].(inChain := inChain)])
  {
  }

  ghost predicate StartsWith<S>(states: seq<S>, start: seq<S>) {
    start <= states
  }

  lemma StartsWithItself<S>(states: seq<S>)
    ensures StartsWith(states, states)
  {
  }

  lemma NextBuilds(m: Index, base: Id, p: seq<Id>, i: nat)
    requires BuildsOn(m, base, p) && i < |p|
    ensures p[i] in m && m[p[i]].prev == if i == |p| - 1 then base else p[i + 1]
  {
  }

  lemma StatesMatch<S>(m: Index, root: Root, applied: seq<Id>, head: Id, apply: (S, Id) -> Option<S>,
                       undo: seq<S>, state: S, reversible: map<nat, Id>)
    requires InSync(m, root, applied, head, apply, undo, state, reversible)
    ensures |undo| == |applied|
  {
  }

  lemma HeadIsLast<S>(m: Index, root: Root, applied: seq<Id>, head: Id, apply: (S, Id) -> Option<S>,
                      undo: seq<S>, state: S, reversible: map<nat, Id>)
    requires InSync(m, root, applied, head, apply, undo, state, reversible)
    ensures head == TopOf(root.id, applied)
  {
  }

  lemma LastStates<S>(undo: seq<S>, state: S, u0: seq<S>, s0: S)
    requires undo + [state] == u0 + [s0]
    ensures undo == u0 && state == s0
  {
    var a, b := undo + [state], u0 + [s0];
    assert a[|undo|] == state && b[|u0|] == s0;
    assert undo == a[..|undo|] && u0 == b[..|u0|];
  }

  /** Popping the blocks of the new branch brings back the states the old branch started from. */
  lemma RewoundToStart<S>(a0: seq<Id>, u0: seq<S>, s0: S, k: nat, a1: seq<Id>, u1: seq<S>, s1: S,
                          applied: seq<Id>, undo: seq<S>, state: S, n: nat)
    requires k <= |a0| == |u0| && n <= |a1| == |u1| && a1[..|a1| - n] == a0[..k]
    requires StartsWith(u1 + [s1], u0[..k] + [(u0 + [s0])[k]])
    requires Rewound(a1, u1, s1, applied, undo, state, n)
    ensures applied == a0[..k] && undo + [state] == (u0 + [s0])[..k + 1]
  {
    var t, start := u1 + [s1], u0[..k] + [(u0 + [s0])[k]];
    assert |a1| - n == k;
    assert start == (u0 + [s0])[..k + 1];
    forall j | 0 <= j <= k ensures (undo + [state])[j] == start[j] {
      assert t[j] == start[j];
    }
  }

  /** The old states are still at the bottom of the stack, so the failing block is not on the old chain. */
  lemma OldStatesFirst<S>(m: Index, root: Root, a0: seq<Id>, h0: Id, apply: (S, Id) -> Option<S>, u0: seq<S>, s0: S,
                          applied: seq<Id>, undo: seq<S>, state: S, k: nat, m1: Index, head: Id, reversible: map<nat, Id>, bad: Id)
    requires InSync(m, root, a0, h0, apply, u0, s0, Reversible(root, a0)) && k <= |a0| == |u0|
    requires InSync(m1, root, applied, head, apply, undo, state, reversible) && SameTree(m, m1)
    requires StartsWith(undo + [state], u0[..k] + [(u0 + [s0])[k]])
    requires bad in m && m[bad].prev == head && apply(state, bad) == None
    ensures !Descends(m, h0, bad) && head in m && head.num < bad.num && bad in m1
    ensures |undo| == |applied|
  {
    var states, current, start := u0 + [s0], undo + [state], u0[..k] + [(u0 + [s0])[k]];
    assert start[0] == states[0];
    assert current[0] == states[0];
    assert current[|applied|] == state;
    assert applied[..|applied|] == applied;
    Heights(m1, root.id, applied, |applied|);
    assert SameTree(m1, m);
    ChainedSameTree(m1, m, root.id, applied);
    FailingBlockIsNew(m, root.id, a0, states, applied, current, apply, bad);
  }

  lemma SyncParts<S>(m: Index, root: Root, applied: seq<Id>, head: Id, apply: (S, Id) -> Option<S>,
                     undo: seq<S>, state: S, reversible: map<nat, Id>)
    requires InSync(m, root, applied, head, apply, undo, state, reversible)
    ensures WellFormed(m) && MarksFollow(m, root, head) && |undo| == |applied|
    ensures head == TopOf(root.id, applied) && head in m
    ensures Replays(apply, undo + [state], applied) && reversible == Reversible(root, applied)
    ensures Chained(m, root.id, applied) && LowestRoot(m, root.id)
  {
    assert applied[..|applied|] == applied;
    Heights(m, root.id, applied, |applied|);
  }

  lemma OldMarksBack(m: Index, index: Index, bad: Id, root: Root, head: Id)
    requires WellFormed(m) && WellFormed(index) && SameTree(Without(m, bad), index)
    requires MarksFollow(m, root, head) && MarksFollow(index, root, head) && head in m && !Descends(m, head, bad)
    ensures forall b :: b in index ==> b in m && index[b].inChain == m[b].inChain
  {
    MarksInWithout(m, bad, root, head);
    MarksDetermined(Without(m, bad), index, root, head);
  }
}
