/**
 The blocks of the fork database as a value: an index from block ids to blocks, linked by previous ids.
 A block id carries the block's number, as the source's ids do.
 */
module ForkTree {

  datatype Id = Id(num: nat, digest: nat)

  datatype Block = Block(id: Id, prev: Id, lib: nat, bft: nat, inChain: bool, validated: bool)

  type Index = map<Id, Block>

  /** Every block is filed under its id and is one above its previous block. */
  ghost predicate WellFormed(m: Index) {
    forall b :: b in m ==> m[b].id == b && b.num == m[b].prev.num + 1
  }

  /** b is a, or builds on a through blocks of the index. */
  ghost predicate Descends(m: Index, b: Id, a: Id)
    requires WellFormed(m)
    decreases b.num
  {
    b == a || (b in m && Descends(m, m[b].prev, a))
  }

  /** The order of the index that picks the head: irreversible number, then bft number, then block number. */
  predicate NoBetter(x: Block, y: Block) {
    || x.lib < y.lib
    || (x.lib == y.lib && (x.bft < y.bft || (x.bft == y.bft && x.id.num <= y.id.num)))
  }

  ghost predicate IsBest(m: Index, h: Id) {
    h in m && forall b :: b in m ==> NoBetter(m[b], m[h])
  }

  /**
   Of all blocks h has the greatest irreversible number, of those that share it the greatest bft number, and of those
   that share both the greatest block number.
   */
  ghost predicate Leads(m: Index, h: Id) {
    && h in m
    && (forall b :: b in m ==> m[b].lib <= m[h].lib)
    && (forall b :: b in m && m[b].lib == m[h].lib ==> m[b].bft <= m[h].bft)
    && (forall b :: b in m && m[b].lib == m[h].lib && m[b].bft == m[h].bft ==> b.num <= h.num)
  }

  /** The first block of the order is the one that leads. */
  lemma BestIffLeads(m: Index, h: Id)
    requires WellFormed(m)
    ensures IsBest(m, h) <==> Leads(m, h)
  {
    if Leads(m, h) {
      forall b | b in m ensures NoBetter(m[b], m[h]) {
        assert m[b].lib <= m[h].lib;
      }
    }
    if IsBest(m, h) {
      forall b | b in m ensures m[b].lib <= m[h].lib {
        assert NoBetter(m[b], m[h]);
      }
    }
  }

  /** No block lies below block h; among the lowest ones, blocks of the current chain come first. */
  ghost predicate IsOldest(m: Index, h: Id) {
    h in m && forall b :: b in m ==> h.num < b.num || (h.num == b.num && (m[b].inChain ==> m[h].inChain))
  }

  /** Every block above the lowest level has its previous block in the index. */
  ghost predicate ParentsPresent(m: Index) {
    forall b, l :: b in m && l in m && l.num < b.num ==> m[b].prev in m
  }

  /** Bft numbers never decrease from a block to the blocks built on it. */
  ghost predicate BftOrdered(m: Index) {
    forall b :: b in m && m[b].prev in m ==> m[m[b].prev].bft <= m[b].bft
  }

  // ---- Descent ----

  lemma {:induction false} DescendsNum(m: Index, b: Id, a: Id)
    requires WellFormed(m) && Descends(m, b, a)
    ensures a.num <= b.num && (a.num == b.num ==> a == b)
    decreases b.num
  {
    if b != a {
      DescendsNum(m, m[b].prev, a);
    }
  }

  lemma {:induction false} DescendsTransitive(m: Index, c: Id, b: Id, a: Id)
    requires WellFormed(m) && Descends(m, c, b) && Descends(m, b, a)
    ensures Descends(m, c, a)
    decreases c.num
  {
    if c != b {
      DescendsTransitive(m, m[c].prev, b, a);
    }
  }

  /** Two ancestors of one block are on one line. */
  lemma {:induction false} AncestorsOrdered(m: Index, c: Id, a: Id, b: Id)
    requires WellFormed(m) && Descends(m, c, a) && Descends(m, c, b) && a.num <= b.num
    ensures Descends(m, b, a)
    decreases c.num
  {
    if c != b {
      if c == a {
        DescendsNum(m, c, b);
      } else {
        AncestorsOrdered(m, m[c].prev, a, b);
      }
    }
  }

  lemma SameHeightAncestors(m: Index, c: Id, a: Id, b: Id)
    requires WellFormed(m) && Descends(m, c, a) && Descends(m, c, b) && a.num == b.num
    ensures a == b
  {
    AncestorsOrdered(m, c, a, b);
    DescendsNum(m, b, a);
  }

  /** When no previous block is missing above the lowest level, every block descends from a block of that level. */
  lemma {:induction false} HasLowestAncestor(m: Index, b: Id, l: Id) returns (r: Id)
    requires WellFormed(m) && ParentsPresent(m) && b in m && l in m
    requires forall x :: x in m ==> l.num <= x.num
    ensures r in m && r.num == l.num && Descends(m, b, r)
    decreases b.num
  {
    if b.num == l.num {
      r := b;
    } else {
      r := HasLowestAncestor(m, m[b].prev, l);
    }
  }

  /** Descent only depends on the links. */
  lemma {:induction false} DescendsSameLinks(m: Index, m': Index, b: Id, a: Id)
    requires WellFormed(m) && WellFormed(m') && m.Keys == m'.Keys && forall x :: x in m ==> m'[x].prev == m[x].prev
    ensures Descends(m, b, a) == Descends(m', b, a)
    decreases b.num
  {
    if b != a && b in m {
      DescendsSameLinks(m, m', m[b].prev, a);
    }
  }

  // ---- Removal of a subtree ----

  ghost function Without(m: Index, a: Id): (r: Index)
    requires WellFormed(m)
    ensures WellFormed(r)
  {
    map b | b in m && !Descends(m, b, a) :: m[b]
  }

  /** Removing a subtree orphans nobody. */
  lemma WithoutKeepsParents(m: Index, a: Id)
    requires WellFormed(m)
    ensures ParentsPresent(m) ==> ParentsPresent(Without(m, a))
    ensures BftOrdered(m) ==> BftOrdered(Without(m, a))
  {
  }
}
