/**
 Confirmations of blocks in the fork database (libraries/chain/fork_database.cpp): a producer's confirmation goes to the
 header state of its block, and a block with enough of them raises the bft numbers of its branch.
 */
module ForkConfirmations {
  import opened Wrappers
  import opened ForkTree
  import opened ForkDatabase
  import opened HeaderStateObject
  import BlockHeaderState

  /** Enough confirmations of one block, under the schedule of its header state. */
  datatype Quorum = Quorum(active: BlockHeaderState.Schedule, confirmations: seq<Confirmation>)

  ghost predicate IsQuorum(q: Quorum) {
    ValidConfirmations(q.confirmations, q.active) && |q.confirmations| >= BlockHeaderState.Required(|q.active.producers|)
  }

  /** A quorum is made of more than two thirds of the producers, each of them scheduled and counted once. */
  lemma QuorumIsTwoThirds(q: Quorum) returns (who: set<BlockHeaderState.Name>)
    requires IsQuorum(q)
    ensures who <= q.active.Names() && 3 * |who| > 2 * |q.active.producers|
    ensures forall p :: p in who <==> exists i :: 0 <= i < |q.confirmations| && q.confirmations[i].producer == p
  {
    who := ConfirmersAreScheduled(q.confirmations, q.active);
  }

  /** q is b or a block below it, by the previous ids that the ids commit to. */
  ghost predicate OnBranch(parent: Id -> Id, b: Id, q: Id)
    decreases b.num
  {
    b == q || (parent(b).num < b.num && OnBranch(parent, parent(b), q))
  }

  ghost predicate Follows(parent: Id -> Id, m: Index) {
    forall b :: b in m ==> m[b].prev == parent(b)
  }

  /** The bft number is the number of a block on the branch that had a quorum. */
  ghost predicate HasBacking(parent: Id -> Id, b: Id, bft: nat, quorums: map<Id, Quorum>) {
    exists q :: q in quorums && q.num == bft && OnBranch(parent, b, q)
  }

  /** So it is for every block whose number is not the one the database was started with. */
  ghost predicate Backed(parent: Id -> Id, m: Index, quorums: map<Id, Quorum>, start: nat) {
    forall b :: b in m && m[b].bft != start ==> HasBacking(parent, b, m[b].bft, quorums)
  }

  lemma {:induction false} DescendsOnBranch(parent: Id -> Id, m: Index, b: Id, a: Id)
    requires WellFormed(m) && Follows(parent, m) && Descends(m, b, a)
    ensures OnBranch(parent, b, a)
    decreases b.num
  {
    if b != a {
      DescendsOnBranch(parent, m, m[b].prev, a);
    }
  }

  /** Removing and pruning blocks, and marking them, keep the backing. */
  lemma BackedBelow(parent: Id -> Id, m: Index, m': Index, quorums: map<Id, Quorum>, start: nat)
    requires Backed(parent, m, quorums, start) && m'.Keys <= m.Keys && forall b :: b in m' ==> m'[b].bft == m[b].bft
    ensures Backed(parent, m', quorums, start)
  {
  }

  /** A new block is backed by what backs its previous block. */
  lemma BackedWithNew(parent: Id -> Id, m: Index, id: Id, lib: nat, quorums: map<Id, Quorum>, start: nat)
    requires Backed(parent, m, quorums, start) && parent(id) in m && id.num == parent(id).num + 1
    ensures Backed(parent, m[id := NewBlock(m, id, parent(id), lib)], quorums, start)
  {
    var p := parent(id);
    if m[p].bft != start {
      var q :| q in quorums && q.num == m[p].bft && OnBranch(parent, p, q);
      assert OnBranch(parent, id, q);
    }
  }

  /** Raised blocks are backed by the block that was confirmed. */
  lemma BackedWhenRaised(parent: Id -> Id, m: Index, id: Id, quorums: map<Id, Quorum>, quorum: Quorum, start: nat)
    requires WellFormed(m) && Follows(parent, m) && Backed(parent, m, quorums, start)
    ensures Backed(parent, Raised(m, id, id.num), quorums[id := quorum], start)
  {
    var r := Raised(m, id, id.num);
    forall b | b in r && r[b].bft != start ensures HasBacking(parent, b, r[b].bft, quorums[id := quorum]) {
      if r[b].bft == m[b].bft {
        var q :| q in quorums && q.num == m[b].bft && OnBranch(parent, b, q);
        assert q in quorums[id := quorum];
      } else {
        DescendsOnBranch(parent, m, b, id);
      }
    }
  }

  datatype ConfirmResult = UnknownBlock | Declined(error: BlockHeaderState.Error) | Accepted

  ghost predicate OneEach(states: map<Id, BlockHeader>) {
    forall a, b :: a in states && b in states && a != b ==> states[a] != states[b]
  }

  /** The header states of the blocks of an index. */
  function StatesIn(states: map<Id, BlockHeader>, m: Index): map<Id, BlockHeader> {
    map b | b in states && b in m :: states[b]
  }

  lemma StatesWithNew(states: map<Id, BlockHeader>, id: Id, header: BlockHeader, m: Index)
    requires OneEach(states) && header !in states.Values && m.Keys <= states.Keys + {id}
    ensures var ss := StatesIn(states[id := header], m);
      && ss.Keys == m.Keys && OneEach(ss) && forall b :: b in ss ==> ss[b] == header || (b in states && ss[b] == states[b])
  {
  }

  /** The index after a block was added and, maybe, the oldest height pruned. */
  lemma AddedIsBacked(parent: Id -> Id, m: Index, id: Id, lib: nat, o: Id, r: Index, quorums: map<Id, Quorum>, start: nat)
    requires parent(id) in m && id !in m && id.num == parent(id).num + 1
    requires Follows(parent, m) && Backed(parent, m, quorums, start)
    requires WellFormed(m[id := NewBlock(m, id, parent(id), lib)])
    requires var m' := m[id := NewBlock(m, id, parent(id), lib)]; r == m' || r == ProperDescendants(m', o)
    ensures Follows(parent, r) && Backed(parent, r, quorums, start) && r.Keys <= m.Keys + {id}
  {
    hide Backed;
    var m' := m[id := NewBlock(m, id, parent(id), lib)];
    BackedWithNew(parent, m, id, lib, quorums, start);
    PrunedPart(m', o);
    BackedBelow(parent, m', r, quorums, start);
  }

  lemma StatesLeft(states: map<Id, BlockHeader>, m: Index)
    requires OneEach(states) && m.Keys <= states.Keys
    ensures var ss := StatesIn(states, m); ss.Keys == m.Keys && OneEach(ss) && forall b :: b in ss ==> ss[b] == states[b]
  {
  }

  lemma RemovedIsBacked(parent: Id -> Id, m: Index, id: Id, quorums: map<Id, Quorum>, start: nat)
    requires WellFormed(m) && ParentsPresent(m) && BftOrdered(m) && LibBelow(m) && Follows(parent, m)
    requires Backed(parent, m, quorums, start)
    ensures var r := Without(m, id);
      && WellFormed(r) && ParentsPresent(r) && BftOrdered(r) && LibBelow(r) && Follows(parent, r)
      && r.Keys <= m.Keys && Backed(parent, r, quorums, start)
  {
    hide Backed;
    WithoutKeepsParents(m, id);
    BackedBelow(parent, m, Without(m, id), quorums, start);
  }

  class ConfirmedForks {
    /** The previous block that a block's id commits to. */
    const parent: Id -> Id
    const forks: ForkDb
    /** The header states of the blocks. */
    var states: map<Id, BlockHeader>
    ghost const start: nat
    /** The confirmations that raised bft numbers. */
    ghost var quorums: map<Id, Quorum>

    ghost predicate StatesOk()
      reads this, forks, states.Values
    {
      && forks.index.Keys == states.Keys
      && OneEach(states)
      && (forall b :: b in states ==> ValidConfirmations(states[b].confirmations, states[b].active))
    }

    ghost predicate QuorumsOk()
      reads this
    {
      forall q :: q in quorums ==> IsQuorum(quorums[q])
    }

    ghost predicate Valid()
      reads this, forks, states.Values
    {
      forks.Valid() && Follows(parent, forks.index) && StatesOk() && QuorumsOk() && Backed(parent, forks.index, quorums, start)
    }

    constructor (parent: Id -> Id, root: Block, header: BlockHeader)
      requires root.prev == parent(root.id) && root.id.num == root.prev.num + 1 && root.lib < root.id.num
      requires header.confirmations == []
      ensures Valid() && fresh(forks) && forks.index == map[root.id := root] && states == map[root.id := header]
      ensures this.parent == parent && start == root.bft && quorums == map[]
    {
      this.parent := parent;
      forks := new ForkDb(root);
      states, start, quorums := map[root.id := header], root.bft, map[];
    }

    ghost function QuorumOf(id: Id): Quorum
      requires id in states
      reads this, states.Values
    {
      Quorum(states[id].active, states[id].confirmations)
    }

    /** Adds a received block with the header state made for it. */
    method AddSigned(id: Id, header: BlockHeader) returns (r: AddResult)
      requires Valid() && id.num == parent(id).num + 1 && header.irreversible < id.num
      requires header !in states.Values && header.confirmations == []
      modifies this`states, forks
      ensures r.Refused? <==> id in old(forks.index) || parent(id) !in old(forks.index)
      ensures r.Refused? ==> states == old(states)
      ensures r.Added? ==> states == StatesIn(old(states)[id := header], forks.index)
      ensures forks.index != map[] ==> Valid()
    {
      hide WellFormed, ParentsPresent, BftOrdered, LibBelow, Backed, IsBest, IsOldest, ProperDescendants, PruneSafe, OneEach,
           Follows, StatesIn, ValidConfirmations, IsQuorum, ForkDb.AddedTo, ForkDb.PrunedIfDue;
      ghost var m := forks.index;
      r := forks.AddSigned(id, parent(id), header.irreversible);
      if r.Added? {
        var o := AddedShape(forks, m[id := NewBlock(m, id, parent(id), header.irreversible)], old(forks.announced));
        AddedIsBacked(parent, m, id, header.irreversible, o, forks.index, quorums, start);
        NoneYet(header.active);
        StatesWithNew(states, id, header, forks.index);
        states := StatesIn(states[id := header], forks.index);
      }
    }

    /** Drops a block that turned out invalid, with what builds on it. */
    method Remove(id: Id)
      requires Valid()
      modifies this`states, forks`index, forks`head
      ensures WellFormed(old(forks.index)) && forks.index == Without(old(forks.index), id)
      ensures states == StatesIn(old(states), forks.index) && (forks.index != map[] ==> Valid())
    {
      hide WellFormed, ParentsPresent, BftOrdered, LibBelow, Backed, IsBest, OneEach, Follows, StatesIn, ValidConfirmations,
           IsQuorum, Without;
      RemovedIsBacked(parent, forks.index, id, quorums, start);
      forks.Remove(id);
      if forks.index != map[] {
        BestIsIndexed(forks.index, forks.head);
      }
      StatesLeft(states, forks.index);
      states := StatesIn(states, forks.index);
    }

    /**
     Takes a confirmation: the block must be known, its header state must accept the confirmation, and with enough of
     them the block's number becomes the bft number of the block and of all that builds on it.
     */
    method AddConfirmation(id: Id, conf: Confirmation) returns (r: ConfirmResult)
      requires Valid()
      modifies this`quorums, forks`index, states.Values`confirmations
      ensures Valid()
      ensures r == UnknownBlock <==> id !in old(forks.index)
      ensures r == Accepted <==>
        && id in old(forks.index)
        && (forall i :: 0 <= i < |old(states[id].confirmations)| ==> old(states[id].confirmations)[i].producer != conf.producer)
        && ProducerKey(old(states[id].active), conf.producer) == Some(conf.signer) && conf.signer != NO_KEY
      ensures forall b :: b in states && !(b == id && r == Accepted) ==> states[b].confirmations == old(states[b].confirmations)
      ensures r == Accepted ==> states[id].confirmations == old(states[id].confirmations) + [conf]
      ensures if r == Accepted && old(forks.index)[id].bft < id.num && IsQuorum(QuorumOf(id))
        then forks.index == Raised(old(forks.index), id, id.num) && quorums == old(quorums)[id := QuorumOf(id)]
        else forks.index == old(forks.index) && quorums == old(quorums)
    {
      hide WellFormed, ParentsPresent, BftOrdered, LibBelow, Backed, ValidConfirmations, Raised, Follows, KeyFrom, ProducerKey,
           BlockHeaderState.Required, HasBacking, OnBranch;
      if id !in forks.index {
        return UnknownBlock;
      }
      var b := states[id];
      var o := b.AddConfirmation(conf);
      if o.Failed? {
        return Declined(o.error);
      }
      ghost var m := forks.index;
      forks.Confirmed(id, |b.confirmations|, |b.active.producers|);
      TwoThirds(|b.active.producers|);
      if m[id].bft < id.num && |b.confirmations| >= BlockHeaderState.Required(|b.active.producers|) {
        ghost var quorum := Quorum(b.active, b.confirmations);
        BackedWhenRaised(parent, m, id, quorums, quorum, start);
        RaisedTree(parent, m, id);
        quorums := quorums[id := quorum];
      }
      return Accepted;
    }

    /** A bft number above the first one stands for a block of the branch that two thirds of its producers confirmed. */
    lemma BftIsConfirmed(b: Id) returns (q: Id, who: set<BlockHeaderState.Name>)
      requires Valid() && b in forks.index && forks.index[b].bft != start
      ensures q.num == forks.index[b].bft && OnBranch(parent, b, q) && q in quorums
      ensures who <= quorums[q].active.Names() && 3 * |who| > 2 * |quorums[q].active.producers|
      ensures forall p :: p in who ==> exists i :: 0 <= i < |quorums[q].confirmations| && quorums[q].confirmations[i].producer == p
    {
      assert HasBacking(parent, b, forks.index[b].bft, quorums);
      q :| q in quorums && q.num == forks.index[b].bft && OnBranch(parent, b, q);
      who := QuorumIsTwoThirds(quorums[q]);
    }
  }

  lemma TwoThirds(n: nat)
    ensures BlockHeaderState.Required(n) == n * 2 / 3 + 1
  {
  }

  lemma NoneYet(active: BlockHeaderState.Schedule)
    ensures ValidConfirmations([], active)
  {
  }

  lemma RaisedTree(parent: Id -> Id, m: Index, id: Id)
    requires WellFormed(m) && Follows(parent, m)
    ensures Raised(m, id, id.num).Keys == m.Keys && Follows(parent, Raised(m, id, id.num))
  {
  }
}
