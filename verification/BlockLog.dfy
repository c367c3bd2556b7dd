/**
 The block log (libraries/chain/block_log.cpp): an append-only file of blocks, each followed by its own position,
 and an index file of those positions. Files are byte strings; the serializations are lawful codecs.
 */
module BlockLog {
  import opened Wrappers
  import opened Bytes
  import Varint

  datatype Block = Block(num: nat, id: nat, previous: nat, body: seq<byte>)

  const U32: nat := 0x1_0000_0000
  /** The position that stands for no block, written between the header and the first block. */
  const NPOS: nat := U64 - 1

  // ---- The files ----

  /** The log of a header and some blocks. */
  function Layout(c: Codec<Block>, h: seq<byte>, bs: seq<Block>): (r: seq<byte>) {
    if bs == [] then h
    else
      var l := Layout(c, h, bs[..|bs| - 1]);
      l + c.pack(bs[|bs| - 1]) + Encode64(|l|)
  }

  function Index(c: Codec<Block>, h: seq<byte>, bs: seq<Block>): (r: seq<byte>)
    ensures |r| == 8 * |bs|
  {
    if bs == [] then []
    else Index(c, h, bs[..|bs| - 1]) + Encode64(|Layout(c, h, bs[..|bs| - 1])|)
  }

  /** Where the i-th block starts. */
  function PosOf(c: Codec<Block>, h: seq<byte>, bs: seq<Block>, i: nat): nat
    requires i <= |bs|
  {
    |Layout(c, h, bs[..i])|
  }

  function Header<G>(g: Codec<G>, gs: G, first: nat): (r: seq<byte>)
    ensures |r| >= 16
  {
    Encode(2, 4) + Encode(first, 4) + g.pack(gs) + Encode64(NPOS)
  }

  ghost predicate Numbered(first: nat, bs: seq<Block>) {
    forall i :: 0 <= i < |bs| ==> bs[i].num == first + i
  }

  function LastOf(bs: seq<Block>): Option<Block> {
    if bs == [] then None else Some(bs[|bs| - 1])
  }

  // ---- Reading what was written ----

  lemma LayoutStep(c: Codec<Block>, h: seq<byte>, bs: seq<Block>, i: nat)
    requires i < |bs|
    ensures var l := Layout(c, h, bs[..i]);
      Layout(c, h, bs[..i + 1]) == l + c.pack(bs[i]) + Encode64(|l|)
  {
    assert bs[..i + 1][..i] == bs[..i];
  }

  lemma LayoutAppend(c: Codec<Block>, h: seq<byte>, bs: seq<Block>, b: Block)
    ensures var l := Layout(c, h, bs); Layout(c, h, bs + [b]) == l + c.pack(b) + Encode64(|l|)
    ensures Index(c, h, bs + [b]) == Index(c, h, bs) + Encode64(|Layout(c, h, bs)|)
  {
    assert (bs + [b])[..|bs + [b]| - 1] == bs;
  }

  lemma {:induction false} LayoutPrefix(c: Codec<Block>, h: seq<byte>, bs: seq<Block>, i: nat, j: nat)
    requires i <= j <= |bs|
    ensures Layout(c, h, bs[..i]) <= Layout(c, h, bs[..j])
    ensures |Layout(c, h, bs[..j])| >= |Layout(c, h, bs[..i])| + 8 * (j - i)
    decreases j - i
  {
    hide Layout;
    if i < j {
      LayoutPrefix(c, h, bs, i, j - 1);
      LayoutStep(c, h, bs, j - 1);
    }
  }

  lemma SliceOfPrefix(s: seq<byte>, t: seq<byte>, i: nat, j: nat)
    requires s <= t && i <= j <= |s|
    ensures t[i..j] == s[i..j]
  {
  }

  /** The i-th block is found at its position, followed by that position. */
  lemma EntryAt(c: Codec<Block>, h: seq<byte>, bs: seq<Block>, i: nat)
    requires i < |bs|
    ensures var l, p, n := Layout(c, h, bs), PosOf(c, h, bs, i), |c.pack(bs[i])|;
      && p + n + 8 == PosOf(c, h, bs, i + 1) <= |l|
      && c.pack(bs[i]) <= l[p..] && l[p + n..p + n + 8] == Encode64(p)
  {
    hide Layout;
    var l, m := Layout(c, h, bs), Layout(c, h, bs[..i + 1]);
    var p, n := PosOf(c, h, bs, i), |c.pack(bs[i])|;
    LayoutStep(c, h, bs, i);
    LayoutPrefix(c, h, bs, i + 1, |bs|);
    assert bs[..|bs|] == bs;
    SliceOfPrefix(m, l, p, p + n);
    SliceOfPrefix(m, l, p + n, p + n + 8);
    assert m[p..p + n] == c.pack(bs[i]);
    assert l[p..][..n] == l[p..p + n];
  }

  lemma {:induction false} IndexAt(c: Codec<Block>, h: seq<byte>, bs: seq<Block>, i: nat)
    requires i < |bs|
    ensures Index(c, h, bs)[8 * i..8 * i + 8] == Encode64(PosOf(c, h, bs, i))
  {
    hide Layout;
    var init := bs[..|bs| - 1];
    if i < |init| {
      IndexAt(c, h, init, i);
      assert init[..i] == bs[..i];
      SliceOfPrefix(Index(c, h, init), Index(c, h, bs), 8 * i, 8 * i + 8);
    }
  }

  lemma LastEight(c: Codec<Block>, h: seq<byte>, bs: seq<Block>)
    requires bs != []
    ensures var l := Layout(c, h, bs);
      |l| >= 8 && l[|l| - 8..] == Encode64(PosOf(c, h, bs, |bs| - 1)) && PosOf(c, h, bs, |bs| - 1) <= |l| - 8
  {
    hide Layout;
    LayoutStep(c, h, bs, |bs| - 1);
    assert bs[..|bs|] == bs;
  }

  /** The header parses: its genesis, then the separator. */
  lemma HeaderAt<G(!new)>(g: Codec<G>, gs: G, first: nat, l: seq<byte>)
    requires Decodes(g) && Header(g, gs, first) <= l
    ensures |l| >= 8 && g.unpack(l[8..]) == Some(Parsed(gs, |g.pack(gs)|))
    ensures |Header(g, gs, first)| == 8 + |g.pack(gs)| + 8
  {
    var h := Header(g, gs, first);
    assert h[8..8 + |g.pack(gs)|] == g.pack(gs);
    SliceOfPrefix(h, l, 8, 8 + |g.pack(gs)|);
    assert l[8..][..|g.pack(gs)|] == l[8..8 + |g.pack(gs)|];
    UnpackOfPack(g, gs, l[8..]);
  }

  lemma HeaderEnd<G>(g: Codec<G>, gs: G, first: nat)
    ensures var h := Header(g, gs, first); h[|h| - 8..] == Encode64(NPOS)
  {
  }

  /** Version 2, the number of the first block, the genesis, and eight bytes 255 as separator. */
  lemma HeaderBytes<G>(g: Codec<G>, gs: G, first: nat)
    ensures Header(g, gs, first) == [2, 0, 0, 0] + Encode(first, 4) + g.pack(gs) + [255, 255, 255, 255, 255, 255, 255, 255]
  {
    AllOnes();
    assert Encode(2, 4) == [2, 0, 0, 0] by {
      TwoIsRead([2, 0, 0, 0]);
      EncodeDecode([2, 0, 0, 0]);
    }
  }

  // ---- The log object ----

  datatype ReadResult = NotFound | Found(block: Block) | WrongBlock

  /** `a - b` on 32-bit unsigned integers. */
  function Sub32(a: nat, b: nat): nat {
    (a as int - b) % U32
  }

  class BlockLog<G(!new)> {
    var blocks: seq<byte>
    var index: seq<byte>
    var head: Option<Block>
    var first: nat
    var ready: bool
    const codec: Codec<Block>
    const genesis: Codec<G>
    /** What the log holds. */
    ghost var gs: G
    ghost var bs: seq<Block>

    ghost function TheHeader(): seq<byte>
      reads this
    {
      Header(genesis, gs, first)
    }

    /** The log file holds the blocks, numbered one after the other. */
    ghost predicate LogOk()
      reads this
    {
      && Decodes(codec) && Decodes(genesis) && ready && first < U32
      && blocks == Layout(codec, TheHeader(), bs) && |blocks| < NPOS
      && Numbered(first, bs) && first + |bs| <= U32
    }

    ghost predicate Valid()
      reads this
    {
      LogOk() && index == Index(codec, TheHeader(), bs) && head == LastOf(bs)
    }

    /** An empty log, with its files not set up. */
    constructor (codec: Codec<Block>, genesis: Codec<G>, gs: G)
      ensures this.codec == codec && this.genesis == genesis && !ready && blocks == [] && index == [] && head == None
    {
      this.codec, this.genesis, this.gs, bs := codec, genesis, gs, [];
      blocks, index, head, first, ready := [], [], None, 0, false;
    }

    /** Appends exactly the block whose number is next; any other is refused and changes nothing. */
    method Append(b: Block) returns (r: Option<nat>)
      requires ready ==> Valid() && first + |bs| < U32 && |blocks| + |codec.pack(b)| + 8 < NPOS
      requires b.num < U32
      modifies this
      ensures r.Some? <==> old(ready) && b.num == first + |old(bs)|
      ensures r.None? ==> blocks == old(blocks) && index == old(index) && head == old(head) && bs == old(bs)
      ensures r.Some? ==> bs == old(bs) + [b] && r.value == |old(blocks)|
      ensures r.Some? ==> blocks == old(blocks) + codec.pack(b) + Encode64(r.value) && index == old(index) + Encode64(r.value)
      ensures first == old(first) && gs == old(gs) && ready == old(ready)
      ensures ready ==> Valid()
    {
      if !ready {
        return None;
      }
      hide Sub32, Header, Layout, Index, Decodes, Numbered;
      DifferenceIs(b.num, first, |bs|);
      if |index| != 8 * Sub32(b.num, first) {
        return None;
      }
      var pos := WriteBlock(b);
      r := Some(pos);
    }

    method WriteBlock(b: Block) returns (pos: nat)
      requires Valid() && b.num == first + |bs| < U32 && |blocks| + |codec.pack(b)| + 8 < NPOS
      modifies this
      ensures pos == |old(blocks)| && bs == old(bs) + [b]
      ensures blocks == old(blocks) + codec.pack(b) + Encode64(pos) && index == old(index) + Encode64(pos)
      ensures first == old(first) && gs == old(gs) && ready && Valid()
    {
      hide Layout, Index, Decodes, Encode64, Header, Numbered;
      pos := |blocks|;
      LayoutAppend(codec, TheHeader(), bs, b);
      NumberedAppend(first, bs, b);
      var data := codec.pack(b);
      blocks := blocks + data + Encode64(pos);
      index := index + Encode64(pos);
      head := Some(b);
      bs := bs + [b];
    }

    method ReadBlock(pos: nat) returns (r: Option<Parsed<Block>>)
      ensures r == if pos > |blocks| then None
                   else match codec.unpack(blocks[pos..])
                        case None => None
                        case Some(p) => Some(Parsed(p.value, pos + p.size + 8))
    {
      if pos > |blocks| {
        return None;
      }
      var p := codec.unpack(blocks[pos..]);
      if p.None? {
        return None;
      }
      r := Some(Parsed(p.value.value, pos + p.value.size + 8));
    }

    /** The position of every block from the first to the head, and none for any other number. */
    method GetBlockPos(num: nat) returns (pos: nat)
      requires Valid()
      ensures pos == if first <= num < first + |bs| then PosOf(codec, TheHeader(), bs, num - first) else NPOS
      ensures first <= num < first + |bs| ==> pos < NPOS
    {
      hide Layout, Index, Decodes;
      if !(head.Some? && num <= head.value.num && num >= first) {
        return NPOS;
      }
      var i := num - first;
      IndexAt(codec, TheHeader(), bs, i);
      EntryAt(codec, TheHeader(), bs, i);
      pos := Decode64(index[8 * i..8 * i + 8]);
      RoundTrip64(PosOf(codec, TheHeader(), bs, i));
    }

    /** Every number from the first to the head reads back the block appended under it; the check never fails. */
    method ReadBlockByNum(num: nat) returns (r: ReadResult)
      requires Valid()
      ensures r == if first <= num < first + |bs| then Found(bs[num - first]) else NotFound
    {
      hide Layout, Index, Decodes;
      var pos := GetBlockPos(num);
      if pos == NPOS {
        return NotFound;
      }
      EntryAt(codec, TheHeader(), bs, num - first);
      UnpackOfPack(codec, bs[num - first], blocks[pos..]);
      var p := ReadBlock(pos);
      if p.value.value.num != num {
        return WrongBlock;
      }
      r := Found(p.value.value);
    }

    method ReadHead() returns (r: Option<Block>)
      requires LogOk()
      ensures r == LastOf(bs) == if bs == [] then None else Some(bs[|bs| - 1])
    {
      hide Layout, Decodes, Encode64, Decode64, Header, PosOf, Numbered;
      ghost var h := TheHeader();
      var n := |blocks|;
      LogNotShort(this);
      if bs == [] {
        HeaderEnd(genesis, gs, first);
        EmptyLayout(codec, h);
        RoundTrip64(NPOS);
      } else {
        LastEight(codec, h, bs);
        EntryAt(codec, h, bs, |bs| - 1);
        UnpackOfPack(codec, bs[|bs| - 1], blocks[PosOf(codec, h, bs, |bs| - 1)..]);
        RoundTrip64(PosOf(codec, h, bs, |bs| - 1));
      }
      if n <= 8 {
        return None;
      }
      var pos := Decode64(blocks[n - 8..]);
      if pos == NPOS {
        return None;
      }
      var p := ReadBlock(pos);
      r := Some(p.value.value);
    }

    /** Rebuilds the index from the log alone. */
    method ConstructIndex()
      requires LogOk()
      modifies this`index
      ensures index == Index(codec, TheHeader(), bs)
    {
      hide Layout, Index, Decodes, LastOf, PosOf, Encode, Decode, Encode64, Decode64, Header, Numbered;
      ghost var h := TheHeader();
      index := [];
      EmptyIndex(codec, h);
      IndexEnd(this);
      var endPos := Decode64(blocks[|blocks| - 8..]);
      if endPos == NPOS {
        return;
      }
      HeaderOfLog(this);
      var pos := 8;
      var cur := 8 + genesis.unpack(blocks[8..]).value.size + 8;
      ghost var k := 0;
      StartOfBlocks(codec, h, bs);
      while pos < endPos
        invariant k <= |bs| && cur == PosOf(codec, h, bs, k)
        invariant index == Index(codec, h, bs[..k])
        invariant pos == if k == 0 then 8 else PosOf(codec, h, bs, k - 1)
        decreases |bs| - k
      {
        BeforeEnd(codec, h, bs, k);
        BlockAtCursor(this, k);
        var p := codec.unpack(blocks[cur..]);
        cur := cur + p.value.size;
        pos := Decode64(blocks[cur..cur + 8]);
        cur := cur + 8;
        index := index + Encode64(pos);
        IndexStep(codec, h, bs, k);
        k := k + 1;
      }
      AtEnd(codec, h, bs, k);
      assert bs[..k] == bs;
    }

    /**
     Opening an existing log: the head is read from the log, and the index is rebuilt unless its last entry is the
     position of the last block. So any index that is not rebuilt ends as the right one does.
     */
    method Open()
      requires LogOk() && |index| % 8 == 0
      modifies this
      ensures LogOk() && bs == old(bs) && gs == old(gs) && blocks == old(blocks) && head == LastOf(bs)
      ensures Valid() || (index == old(index) != [] && index[|index| - 8..] == blocks[|blocks| - 8..])
      ensures old(Valid()) ==> Valid() && index == old(index)
      ensures |blocks| >= 8 && if old(index) != [] && old(index)[|old(index)| - 8..] == blocks[|blocks| - 8..]
        then index == old(index) else Valid()
    {
      hide Layout, Index, Decodes;
      LogNotShort(this);
      head := ReadHead();
      ghost var was := index;
      if |index| > 0 {
        var blockPos := Decode64(blocks[|blocks| - 8..]);
        var indexPos := Decode64(index[|index| - 8..]);
        if blockPos != indexPos {
          ConstructIndex();
        } else {
          RoundTripBytes64(blocks[|blocks| - 8..]);
          RoundTripBytes64(index[|index| - 8..]);
        }
      } else {
        ConstructIndex();
      }
    }

    /**
     Sets the log up again with a genesis and perhaps a first block, which must carry the first number. While the
     header is written its version is 0, so that a reset that stops half way is not taken for a log.
     */
    method Reset(state: G, block: Option<Block>, firstNum: nat) returns (ok: bool)
      requires Decodes(codec) && Decodes(genesis) && firstNum < U32 && (block.Some? ==> block.value.num < U32)
      requires |Header(genesis, state, firstNum)| + (if block.Some? then |codec.pack(block.value)| + 8 else 0) < NPOS
      modifies this
      ensures ok <==> (block.Some? ==> block.value.num == firstNum)
      ensures ok ==> Valid() && gs == state && first == firstNum
      ensures ok ==> bs == if block.Some? then [block.value] else []
      ensures ok && block.None? ==> blocks == [2, 0, 0, 0] + Encode(firstNum, 4) + genesis.pack(state) + [255, 255, 255, 255, 255, 255, 255, 255]
      ensures !ok ==> |blocks| >= 4 && Decode(blocks[..4]) == 0
    {
      HeaderBytes(genesis, state, firstNum);
      hide Layout, Index, Decodes, Encode, Encode64, Decode, Sub32, Numbered, Header;
      first, gs, bs, head, index := firstNum, state, [], None, [];
      var body := genesis.pack(state);
      blocks := Encode(0, 4) + Encode(firstNum, 4) + body + Encode64(NPOS);
      ready := true;
      ResetEmpty(codec, genesis, state, firstNum);
      if block.Some? {
        var b := block.value;
        var pos := |blocks|;
        DifferenceIs(b.num, first, 0);
        if |index| != 8 * Sub32(b.num, first) {
          return false;
        }
        ResetWithBlock(codec, genesis, state, b, blocks);
        var data := codec.pack(b);
        blocks := blocks + data + Encode64(pos);
        index := Encode64(pos);
        head := Some(b);
        bs := [b];
      }
      blocks := Encode(2, 4) + blocks[4..];
      ok := true;
    }
  }

  lemma NumberedAppend(first: nat, bs: seq<Block>, b: Block)
    requires Numbered(first, bs) && b.num == first + |bs|
    ensures Numbered(first, bs + [b])
  {
  }

  lemma DifferenceIs(a: nat, b: nat, n: nat)
    requires a < U32 && b + n < U32
    ensures Sub32(a, b) == n <==> a == b + n
  {
  }

  lemma DecodeZero()
    ensures Decode(Encode(0, 4)) == 0
  {
    DecodeEncode(0, 4);
  }

  lemma EmptyLayout(c: Codec<Block>, h: seq<byte>)
    ensures Layout(c, h, []) == h
  {
  }

  lemma EmptyIndex(c: Codec<Block>, h: seq<byte>)
    ensures Index(c, h, []) == []
  {
  }

  /** The version is written over the first four bytes. */
  lemma ResetEmpty<G>(c: Codec<Block>, g: Codec<G>, gs: G, first: nat)
    ensures var s, h := Encode(0, 4) + Encode(first, 4) + g.pack(gs) + Encode64(NPOS), Header(g, gs, first);
      && |s| == |h| && Decode(s[..4]) == 0 && Encode(2, 4) + s[4..] == h == Layout(c, h, []) && Index(c, h, []) == []
    ensures Numbered(first, [])
  {
    hide Encode, Encode64, Decode;
    var s := Encode(0, 4) + Encode(first, 4) + g.pack(gs) + Encode64(NPOS);
    assert s[..4] == Encode(0, 4);
    DecodeZero();
  }

  lemma ResetWithBlock<G>(c: Codec<Block>, g: Codec<G>, gs: G, b: Block, s: seq<byte>)
    requires |s| == |Header(g, gs, b.num)| && Encode(2, 4) + s[4..] == Header(g, gs, b.num)
    ensures var h := Header(g, gs, b.num);
      && Encode(2, 4) + (s + c.pack(b) + Encode64(|s|))[4..] == Layout(c, h, [b])
      && Index(c, h, [b]) == Encode64(|s|)
    ensures Numbered(b.num, [b])
  {
    hide Layout, Index, Encode, Encode64, Header;
    var h := Header(g, gs, b.num);
    LayoutAppend(c, h, [], b);
    EmptyLayout(c, h);
    EmptyIndex(c, h);
    assert [] + [b] == [b];
    assert [] + Encode64(|h|) == Encode64(|h|);
    assert Encode(2, 4) + (s + c.pack(b) + Encode64(|s|))[4..] == (Encode(2, 4) + s[4..]) + c.pack(b) + Encode64(|s|);
  }

  lemma LogNotShort<G(!new)>(log: BlockLog<G>)
    requires log.LogOk()
    ensures |log.blocks| >= 16
  {
    hide Layout, Decodes;
    LayoutPrefix(log.codec, log.TheHeader(), log.bs, 0, |log.bs|);
    assert log.bs[..|log.bs|] == log.bs && log.bs[..0] == [];
    EmptyLayout(log.codec, log.TheHeader());
  }

  lemma HeaderOfLog<G(!new)>(log: BlockLog<G>)
    requires log.LogOk()
    ensures |log.blocks| >= 16 && log.genesis.unpack(log.blocks[8..]).Some?
    ensures 8 + log.genesis.unpack(log.blocks[8..]).value.size + 8 == |log.TheHeader()|
  {
    hide Layout, Decodes;
    LogNotShort(log);
    LayoutPrefix(log.codec, log.TheHeader(), log.bs, 0, |log.bs|);
    assert log.bs[..|log.bs|] == log.bs && log.bs[..0] == [];
    EmptyLayout(log.codec, log.TheHeader());
    HeaderAt(log.genesis, log.gs, log.first, log.blocks);
  }

  /** The last eight bytes of a log give the position of its last block, or none. */
  lemma IndexEnd<G(!new)>(log: BlockLog<G>)
    requires log.LogOk()
    ensures |log.blocks| >= 8
    ensures Decode64(log.blocks[|log.blocks| - 8..]) ==
      if log.bs == [] then NPOS else PosOf(log.codec, log.TheHeader(), log.bs, |log.bs| - 1)
    ensures log.bs != [] ==> PosOf(log.codec, log.TheHeader(), log.bs, |log.bs| - 1) < NPOS
  {
    hide Layout, Decodes;
    if log.bs == [] {
      HeaderEnd(log.genesis, log.gs, log.first);
      EmptyLayout(log.codec, log.TheHeader());
      RoundTrip64(NPOS);
    } else {
      LastEight(log.codec, log.TheHeader(), log.bs);
      RoundTrip64(PosOf(log.codec, log.TheHeader(), log.bs, |log.bs| - 1));
    }
  }

  lemma StartOfBlocks(c: Codec<Block>, h: seq<byte>, bs: seq<Block>)
    ensures PosOf(c, h, bs, 0) == |h| && bs[..0] == []
  {
    EmptyLayout(c, h);
    assert bs[..0] == [];
  }

  /** While the position read last is before the end, a block is left. */
  lemma BeforeEnd(c: Codec<Block>, h: seq<byte>, bs: seq<Block>, k: nat)
    requires bs != [] && k <= |bs| && |h| >= 16
    requires (if k == 0 then 8 else PosOf(c, h, bs, k - 1)) < PosOf(c, h, bs, |bs| - 1)
    ensures k < |bs|
  {
  }

  lemma AtEnd(c: Codec<Block>, h: seq<byte>, bs: seq<Block>, k: nat)
    requires bs != [] && k <= |bs| && |h| >= 16
    requires (if k == 0 then 8 else PosOf(c, h, bs, k - 1)) >= PosOf(c, h, bs, |bs| - 1)
    ensures k == |bs|
  {
    hide Layout;
    StartOfBlocks(c, h, bs);
    if k == 0 {
      LayoutPrefix(c, h, bs, 0, |bs| - 1);
    } else if k < |bs| {
      LayoutPrefix(c, h, bs, k - 1, |bs| - 1);
    }
  }

  lemma BlockAtCursor<G(!new)>(log: BlockLog<G>, k: nat)
    requires log.LogOk() && k < |log.bs|
    ensures var cur, n := PosOf(log.codec, log.TheHeader(), log.bs, k), |log.codec.pack(log.bs[k])|;
      && cur + n + 8 == PosOf(log.codec, log.TheHeader(), log.bs, k + 1) <= |log.blocks|
      && log.codec.unpack(log.blocks[cur..]) == Some(Parsed(log.bs[k], n))
      && Decode64(log.blocks[cur + n..cur + n + 8]) == cur
  {
    hide Layout, Decodes;
    EntryAt(log.codec, log.TheHeader(), log.bs, k);
    var cur := PosOf(log.codec, log.TheHeader(), log.bs, k);
    UnpackOfPack(log.codec, log.bs[k], log.blocks[cur..]);
    RoundTrip64(cur);
  }

  lemma IndexStep(c: Codec<Block>, h: seq<byte>, bs: seq<Block>, k: nat)
    requires k < |bs|
    ensures Index(c, h, bs[..k + 1]) == Index(c, h, bs[..k]) + Encode64(PosOf(c, h, bs, k))
  {
    assert bs[..k + 1][..k] == bs[..k];
  }

  // ---- Recovery ----

  datatype RepairError = NotSetUp | UnsupportedVersion | BadHeader | NoSeparator

  /** Where the blocks of a log file start, and the header written for the recovered file. */
  datatype HeaderParse = HeaderOk(size: nat, header: seq<byte>) | HeaderBad(error: RepairError)

  /** The header of a log file: version, first block number, genesis, separator; version 1 has two of these parts. */
  function ParseHeader<G>(g: Codec<G>, file: seq<byte>): HeaderParse {
    if |file| < 4 then HeaderBad(BadHeader)
    else
      var version := Decode(file[..4]);
      if version == 0 then HeaderBad(NotSetUp)
      else if version > 2 then HeaderBad(UnsupportedVersion)
      else
        var at := if version == 1 then 4 else 8;
        if |file| < at || g.unpack(file[at..]).None? then HeaderBad(BadHeader)
        else
          var p := g.unpack(file[at..]).value;
          var n, h := at + p.size, file[..at] + g.pack(p.value);
          if version == 1 then HeaderOk(n, h)
          else if |file| < n + 8 || file[n..n + 8] != Encode64(NPOS) then HeaderBad(NoSeparator)
          else HeaderOk(n + 8, h + Encode64(NPOS))
  }

  /** The truncation number is met in no block but the last. */
  ghost predicate Cut(bs: seq<Block>, stop: nat) {
    forall i :: 0 <= i < |bs| - 1 ==> bs[i].num != stop
  }

  /** No block at the place, or none that is followed by the position it has in the recovered log. */
  predicate NoEntry(c: Codec<Block>, file: seq<byte>, at: nat, pos: nat) {
    || pos >= |file| || at > |file|
    || (var p := c.unpack(file[at..]);
        p.None? || at + p.value.size + 8 > |file| || file[at + p.value.size..at + p.value.size + 8] != Encode64(pos))
  }

  /**
   The position a kept block must have recorded: of the first one where the blocks start in the damaged file, of any
   later one where the recovered file has come to.
   */
  function NextPos(c: Codec<Block>, n: nat, h: seq<byte>, bs: seq<Block>): nat {
    if bs == [] then n else |Layout(c, h, bs)|
  }

  /** The recovered file: header h and the kept blocks, the first of which keeps the position n it was found at. */
  function Rewritten(c: Codec<Block>, n: nat, h: seq<byte>, bs: seq<Block>): (r: seq<byte>)
    ensures |r| == |Layout(c, h, bs)|
  {
    if bs == [] then h
    else
      var init := bs[..|bs| - 1];
      Rewritten(c, n, h, init) + c.pack(bs[|bs| - 1]) + Encode64(NextPos(c, n, h, init))
  }

  /** Where the blocks end that are read from place n on as well-formed entries of a log with header h. */
  function EndOf(c: Codec<Block>, file: seq<byte>, n: nat, h: seq<byte>, bs: seq<Block>): Option<nat> {
    if bs == [] then Some(n)
    else
      var at := EndOf(c, file, n, h, bs[..|bs| - 1]);
      if at.None? || NoEntry(c, file, at.value, NextPos(c, n, h, bs[..|bs| - 1])) then None
      else
        var p := c.unpack(file[at.value..]).value;
        if p.value == bs[|bs| - 1] then Some(at.value + p.size + 8) else None
  }

  /** Well-formed blocks at the front of the file, up to the truncation block. */
  ghost predicate Kept(c: Codec<Block>, file: seq<byte>, n: nat, h: seq<byte>, stop: nat, bs: seq<Block>) {
    EndOf(c, file, n, h, bs).Some? && Cut(bs, stop)
  }

  ghost predicate Longest(c: Codec<Block>, file: seq<byte>, n: nat, h: seq<byte>, stop: nat, bs: seq<Block>) {
    && Kept(c, file, n, h, stop, bs)
    && (forall bs' :: Kept(c, file, n, h, stop, bs') ==> bs' <= bs)
  }

  lemma EndStep(c: Codec<Block>, file: seq<byte>, n: nat, h: seq<byte>, bs: seq<Block>, i: nat)
    requires i < |bs| && EndOf(c, file, n, h, bs[..i + 1]).Some?
    ensures var at := EndOf(c, file, n, h, bs[..i]);
      && at.Some? && !NoEntry(c, file, at.value, NextPos(c, n, h, bs[..i]))
      && c.unpack(file[at.value..]).value.value == bs[i]
  {
    hide NoEntry, Layout;
    assert bs[..i + 1][..i] == bs[..i];
  }

  lemma {:induction false} EndOfPrefix(c: Codec<Block>, file: seq<byte>, n: nat, h: seq<byte>, bs: seq<Block>, i: nat)
    requires i <= |bs| && EndOf(c, file, n, h, bs).Some?
    ensures EndOf(c, file, n, h, bs[..i]).Some?
    decreases |bs|
  {
    hide NoEntry, Layout;
    if i == |bs| {
      assert bs[..i] == bs;
    } else {
      var init := bs[..|bs| - 1];
      EndOfPrefix(c, file, n, h, init, i);
      assert init[..i] == bs[..i];
    }
  }

  lemma OneMore(a: seq<Block>, b: seq<Block>, i: nat)
    requires 0 < i <= |a| && i <= |b| && a[..i - 1] == b[..i - 1] && a[i - 1] == b[i - 1]
    ensures a[..i] == b[..i]
  {
    assert a[..i] == a[..i - 1] + [a[i - 1]] && b[..i] == b[..i - 1] + [b[i - 1]];
  }

  /** The blocks at the front of a file are determined by the file: of two runs of them, one continues the other. */
  lemma {:induction false} KeptPrefix(c: Codec<Block>, file: seq<byte>, n: nat, h: seq<byte>, a: seq<Block>, b: seq<Block>, i: nat)
    requires EndOf(c, file, n, h, a).Some? && EndOf(c, file, n, h, b).Some? && i <= |a| && i <= |b|
    ensures a[..i] == b[..i]
  {
    if i > 0 {
      hide EndOf, NoEntry, Layout;
      KeptPrefix(c, file, n, h, a, b, i - 1);
      EndOfPrefix(c, file, n, h, a, i);
      EndOfPrefix(c, file, n, h, b, i);
      EndStep(c, file, n, h, a, i - 1);
      EndStep(c, file, n, h, b, i - 1);
      OneMore(a, b, i);
    }
  }

  /** More blocks than these mean that the file goes on behind them, and that they do not end with the truncation block. */
  lemma LongerGoesOn(c: Codec<Block>, file: seq<byte>, n: nat, h: seq<byte>, stop: nat, bs: seq<Block>, more: seq<Block>)
    requires Kept(c, file, n, h, stop, bs) && Kept(c, file, n, h, stop, more) && |bs| < |more|
    ensures !NoEntry(c, file, EndOf(c, file, n, h, bs).value, NextPos(c, n, h, bs))
    ensures bs != [] ==> bs[|bs| - 1].num != stop
  {
    hide EndOf, NoEntry, Layout;
    KeptPrefix(c, file, n, h, bs, more, |bs|);
    assert bs[..|bs|] == bs;
    EndOfPrefix(c, file, n, h, more, |bs| + 1);
    EndStep(c, file, n, h, more, |bs|);
    if bs != [] {
      assert more[|bs| - 1] == more[..|bs|][|bs| - 1];
    }
  }

  /** Stopping at the truncation block, or where the file has no further entry, keeps the longest prefix. */
  lemma StopIsLongest(c: Codec<Block>, file: seq<byte>, n: nat, h: seq<byte>, stop: nat, bs: seq<Block>)
    requires Kept(c, file, n, h, stop, bs)
    requires (bs != [] && bs[|bs| - 1].num == stop) || NoEntry(c, file, EndOf(c, file, n, h, bs).value, NextPos(c, n, h, bs))
    ensures Longest(c, file, n, h, stop, bs)
  {
    hide EndOf, Layout, NoEntry;
    forall bs' | Kept(c, file, n, h, stop, bs') ensures bs' <= bs {
      if |bs'| > |bs| {
        LongerGoesOn(c, file, n, h, stop, bs, bs');
      } else {
        KeptPrefix(c, file, n, h, bs, bs', |bs'|);
        assert bs'[..|bs'|] == bs';
      }
    }
  }

  lemma KeptStep(c: Codec<Block>, file: seq<byte>, n: nat, h: seq<byte>, stop: nat, bs: seq<Block>, at: nat, b: Block)
    requires Kept(c, file, n, h, stop, bs) && (bs == [] || bs[|bs| - 1].num != stop)
    requires EndOf(c, file, n, h, bs) == Some(at) && !NoEntry(c, file, at, NextPos(c, n, h, bs))
    requires b == c.unpack(file[at..]).value.value
    ensures Kept(c, file, n, h, stop, bs + [b])
    ensures EndOf(c, file, n, h, bs + [b]) == Some(at + c.unpack(file[at..]).value.size + 8)
  {
    hide Layout, NoEntry, Cut;
    assert (bs + [b])[..|bs + [b]| - 1] == bs;
    CutStep(bs, stop, b);
  }

  lemma CutStep(bs: seq<Block>, stop: nat, b: Block)
    requires Cut(bs, stop) && (bs == [] || bs[|bs| - 1].num != stop)
    ensures Cut(bs + [b], stop)
  {
  }

  datatype RepairResult = Recovered(log: seq<byte>) | Failed(error: RepairError)

  /** Reads the header of a log file and writes it again. */
  method CopyHeader<G(!new)>(g: Codec<G>, file: seq<byte>) returns (r: RepairResult, at: nat)
    requires Decodes(g)
    ensures match ParseHeader(g, file)
      case HeaderBad(e) => r == Failed(e)
      case HeaderOk(n, h) => r == Recovered(h) && at == n <= |file|
  {
    hide Encode, Decode, Encode64, Decodes;
    at := 0;
    if |file| < 4 {
      return Failed(BadHeader), 0;
    }
    var version := Decode(file[..4]);
    if version == 0 {
      return Failed(NotSetUp), 0;
    }
    if version > 2 {
      return Failed(UnsupportedVersion), 0;
    }
    EncodeDecode(file[..4]);
    var log := Encode(version, 4);
    at := 4;
    if version != 1 {
      if |file| < 8 {
        return Failed(BadHeader), 0;
      }
      var first := Decode(file[4..8]);
      EncodeDecode(file[4..8]);
      log, at := log + Encode(first, 4), 8;
    }
    assert log == file[..at];
    var p := g.unpack(file[at..]);
    if p.None? {
      return Failed(BadHeader), 0;
    }
    SizeFits(g, file[at..]);
    log, at := log + g.pack(p.value.value), at + p.value.size;
    if version != 1 {
      if |file| < at + 8 || file[at..at + 8] != Encode64(NPOS) {
        return Failed(NoSeparator), 0;
      }
      log, at := log + Encode64(NPOS), at + 8;
    }
    r := Recovered(log);
  }

  /**
   Recovery keeps exactly the longest prefix of the blocks of the file, up to the truncation block, that record the
   positions expected of them.
   */
  method RepairLog<G(!new)>(c: Codec<Block>, g: Codec<G>, file: seq<byte>, stop: nat)
    returns (r: RepairResult, ghost bs: seq<Block>)
    requires Decodes(c) && Decodes(g) && |file| < NPOS
    ensures match ParseHeader(g, file)
      case HeaderBad(e) => r == Failed(e)
      case HeaderOk(n, h) => r == Recovered(Rewritten(c, n, h, bs)) && Longest(c, file, n, h, stop, bs)
  {
    hide Layout, NextPos, Rewritten, Decodes, ParseHeader, Encode64, Decode64, Kept, Longest, EndOf;
    bs := [];
    var header, at := CopyHeader(g, file);
    if header.Failed? {
      return header, bs;
    }
    var log := header.log;
    ghost var n, h := at, log;
    KeptNothing(c, file, n, h, stop);
    var pos := at;
    while pos < |file|
      invariant pos == NextPos(c, n, h, bs) && at <= |file| && log == Rewritten(c, n, h, bs)
      invariant Kept(c, file, n, h, stop, bs) && EndOf(c, file, n, h, bs) == Some(at)
      invariant bs == [] || bs[|bs| - 1].num != stop
      decreases |file| - at
    {
      var p := c.unpack(file[at..]);
      if p.None? {
        StopIsLongest(c, file, n, h, stop, bs);
        return Recovered(log), bs;
      }
      SizeFits(c, file[at..]);
      var end := at + p.value.size;
      var recorded := NPOS;
      if end + 8 <= |file| {
        recorded := Decode64(file[end..end + 8]);
        PositionsAgree(file[end..end + 8], pos);
      }
      if pos != recorded {
        StopIsLongest(c, file, n, h, stop, bs);
        return Recovered(log), bs;
      }
      var b := p.value.value;
      KeptStep(c, file, n, h, stop, bs, at, b);
      RewrittenAppend(c, n, h, bs, b);
      var data := c.pack(b);
      log := log + data + Encode64(pos);
      bs := bs + [b];
      at := end + 8;
      pos := |log|;
      if b.num == stop {
        StopIsLongest(c, file, n, h, stop, bs);
        return Recovered(log), bs;
      }
    }
    StopIsLongest(c, file, n, h, stop, bs);
    r := Recovered(log);
  }

  lemma KeptNothing(c: Codec<Block>, file: seq<byte>, n: nat, h: seq<byte>, stop: nat)
    ensures Kept(c, file, n, h, stop, []) && EndOf(c, file, n, h, []) == Some(n)
    ensures NextPos(c, n, h, []) == n && Rewritten(c, n, h, []) == h
  {
  }

  lemma RewrittenAppend(c: Codec<Block>, n: nat, h: seq<byte>, bs: seq<Block>, b: Block)
    ensures Rewritten(c, n, h, bs + [b]) == Rewritten(c, n, h, bs) + c.pack(b) + Encode64(NextPos(c, n, h, bs))
    ensures NextPos(c, n, h, bs + [b]) == |Rewritten(c, n, h, bs + [b])|
  {
    assert (bs + [b])[..|bs + [b]| - 1] == bs;
  }

  lemma PositionsAgree(s: seq<byte>, pos: nat)
    requires |s| == 8 && pos < U64
    ensures Decode64(s) == pos <==> s == Encode64(pos)
  {
    hide Decode64, Encode64;
    RoundTripBytes64(s);
    RoundTrip64(pos);
  }

  // ---- Recovery of files written canonically, and of good logs ----

  /** What the log of the first blocks says of the file: with canonical encodings it is a prefix of the file. */
  lemma {:induction false} CanonicalPrefix(c: Codec<Block>, file: seq<byte>, h: seq<byte>, bs: seq<Block>)
    requires Canonical(c) && h <= file && EndOf(c, file, |h|, h, bs).Some?
    ensures Layout(c, h, bs) <= file && EndOf(c, file, |h|, h, bs) == Some(|Layout(c, h, bs)|)
  {
    hide Encode64, Canonical;
    if bs != [] {
      var init, b := bs[..|bs| - 1], bs[|bs| - 1];
      CanonicalPrefix(c, file, h, init);
      var l := Layout(c, h, init);
      PackOfUnpack(c, file[|l|..]);
      EntryFollows(file, l, c.pack(b), c.unpack(file[|l|..]).value.size);
    }
  }

  lemma EntryFollows(file: seq<byte>, l: seq<byte>, data: seq<byte>, n: nat)
    requires l <= file && |l| + n + 8 <= |file| && file[|l|..][..n] == data
    requires file[|l| + n..|l| + n + 8] == Encode64(|l|)
    ensures l + data + Encode64(|l|) <= file
  {
    hide Encode64;
    assert file[|l|..][..n] == file[|l|..|l| + n];
    ThreeParts(file, l, data, Encode64(|l|));
  }

  lemma ThreeParts(file: seq<byte>, a: seq<byte>, b: seq<byte>, c: seq<byte>)
    requires a <= file && |a| + |b| + |c| <= |file|
    requires file[|a|..|a| + |b|] == b && file[|a| + |b|..|a| + |b| + |c|] == c
    ensures a + b + c <= file
  {
    var n := |a| + |b| + |c|;
    assert file[..n] == file[..|a|] + file[|a|..|a| + |b|] + file[|a| + |b|..n];
  }

  /** And the blocks of a prefix that is a log are read, whatever follows. */
  lemma {:induction false} LogIsRead(c: Codec<Block>, file: seq<byte>, h: seq<byte>, bs: seq<Block>)
    requires Decodes(c) && Layout(c, h, bs) <= file
    ensures EndOf(c, file, |h|, h, bs) == Some(|Layout(c, h, bs)|)
  {
    hide Encode64, Decodes;
    if bs != [] {
      var init, b := bs[..|bs| - 1], bs[|bs| - 1];
      var l, n := Layout(c, h, init), |c.pack(b)|;
      var e := l + c.pack(b) + Encode64(|l|);
      assert e[..|l|] == l && e[|l|..|l| + n] == c.pack(b) && e[|l| + n..] == Encode64(|l|);
      SliceOfPrefix(e, file, 0, |l|);
      SliceOfPrefix(e, file, |l|, |l| + n);
      SliceOfPrefix(e, file, |l| + n, |l| + n + 8);
      assert file[|l|..][..n] == file[|l|..|l| + n];
      LogIsRead(c, file, h, init);
      UnpackOfPack(c, b, file[|l|..]);
    }
  }

  /** For canonical files, the well-formed blocks are those whose log is a prefix of the file. */
  lemma KeptIffPrefix(c: Codec<Block>, file: seq<byte>, h: seq<byte>, stop: nat, bs: seq<Block>)
    requires Canonical(c) && h <= file
    ensures Kept(c, file, |h|, h, stop, bs) <==> Layout(c, h, bs) <= file && Cut(bs, stop)
  {
    hide EndOf, Layout, Canonical;
    if EndOf(c, file, |h|, h, bs).Some? {
      CanonicalPrefix(c, file, h, bs);
    }
    if Layout(c, h, bs) <= file {
      CanonicalDecodes(c);
      LogIsRead(c, file, h, bs);
    }
  }

  lemma CanonicalDecodes(c: Codec<Block>)
    requires Canonical(c)
    ensures Decodes(c)
  {
  }

  lemma GoodLogIsKept(c: Codec<Block>, h: seq<byte>, all: seq<Block>, stop: nat, bs: seq<Block>)
    requires Decodes(c) && Longest(c, Layout(c, h, all), |h|, h, stop, bs)
    ensures bs <= all && (Cut(all, stop) ==> bs == all)
    ensures bs == all || (bs != [] && bs[|bs| - 1].num == stop)
  {
    hide Layout, Decodes, EndOf, NoEntry;
    var file := Layout(c, h, all);
    LogIsRead(c, file, h, all);
    if |bs| > |all| {
      NothingBehind(c, file, h, all, bs);
    } else {
      KeptPrefix(c, file, |h|, h, bs, all, |bs|);
      assert bs[..|bs|] == bs;
      if |bs| < |all| && (bs == [] || bs[|bs| - 1].num != stop) {
        OneMoreKept(c, h, all, stop, |bs|);
      }
    }
    if Cut(all, stop) {
      assert all[..|all|] == all;
      assert Kept(c, file, |h|, h, stop, all);
    }
  }

  lemma NothingBehind(c: Codec<Block>, file: seq<byte>, h: seq<byte>, all: seq<Block>, more: seq<Block>)
    requires file == Layout(c, h, all) && EndOf(c, file, |h|, h, all) == Some(|file|)
    requires EndOf(c, file, |h|, h, more).Some?
    ensures |more| <= |all|
  {
    hide Layout, EndOf, NextPos;
    if |more| > |all| {
      KeptPrefix(c, file, |h|, h, all, more, |all|);
      assert all[..|all|] == all;
      EndOfPrefix(c, file, |h|, h, more, |all| + 1);
      EndStep(c, file, |h|, h, more, |all|);
      StartAtHeader(c, h, all);
    }
  }

  lemma StartAtHeader(c: Codec<Block>, h: seq<byte>, bs: seq<Block>)
    ensures NextPos(c, |h|, h, bs) == |Layout(c, h, bs)|
  {
  }

  lemma OneMoreKept(c: Codec<Block>, h: seq<byte>, all: seq<Block>, stop: nat, k: nat)
    requires Decodes(c) && k < |all| && Cut(all[..k], stop) && (k > 0 ==> all[k - 1].num != stop)
    ensures Kept(c, Layout(c, h, all), |h|, h, stop, all[..k + 1])
  {
    hide Layout, EndOf, Decodes;
    LayoutPrefix(c, h, all, k + 1, |all|);
    assert all[..|all|] == all;
    LogIsRead(c, Layout(c, h, all), h, all[..k + 1]);
    var more, some := all[..k + 1], all[..k];
    forall i | 0 <= i < |more| - 1 ensures more[i].num != stop {
      if i < k - 1 {
        assert some[i].num != stop;
      }
    }
  }

  // ---- Recovery of files whose header is not written as it was read ----

  /** The header of the recovered file is read again as it stands, whatever follows. */
  lemma HeaderAgain<G(!new)>(g: Codec<G>, file: seq<byte>, l: seq<byte>)
    requires Decodes(g) && ParseHeader(g, file).HeaderOk? && ParseHeader(g, file).header <= l
    ensures var h := ParseHeader(g, file).header; ParseHeader(g, l) == HeaderOk(|h|, h)
  {
    hide Decodes, Decode, Encode64;
    var version := Decode(file[..4]);
    var at := if version == 1 then 4 else 8;
    var x := g.unpack(file[at..]).value.value;
    var h := ParseHeader(g, file).header;
    var k := at + |g.pack(x)|;
    assert h[..4] == file[..4] && h[..at] == file[..at] && h[at..k] == g.pack(x);
    SliceOfPrefix(h, l, 0, 4);
    SliceOfPrefix(h, l, 0, at);
    SliceOfPrefix(h, l, at, k);
    assert l[at..][..|g.pack(x)|] == l[at..k];
    UnpackOfPack(g, x, l[at..]);
    if version != 1 {
      assert h[k..] == Encode64(NPOS);
      SliceOfPrefix(h, l, k, k + 8);
    }
  }

  /** Which headers are taken: versions 1 and 2 with a genesis, the second with the separator behind it. */
  lemma HeaderTaken<G>(g: Codec<G>, file: seq<byte>)
    requires |file| >= 4
    ensures var r := ParseHeader(g, file);
      && (r == HeaderBad(NotSetUp) <==> file[..4] == [0, 0, 0, 0])
      && (r == HeaderBad(UnsupportedVersion) <==> Decode(file[..4]) > 2)
      && (file[..4] == [1, 0, 0, 0] ==>
            match g.unpack(file[4..])
            case None => r == HeaderBad(BadHeader)
            case Some(p) => r == HeaderOk(4 + p.size, file[..4] + g.pack(p.value)))
      && (file[..4] == [2, 0, 0, 0] && |file| >= 8 ==>
            match g.unpack(file[8..])
            case None => r == HeaderBad(BadHeader)
            case Some(p) =>
              if 16 + p.size <= |file| && file[8 + p.size..16 + p.size] == [255, 255, 255, 255, 255, 255, 255, 255]
              then r == HeaderOk(16 + p.size, file[..8] + g.pack(p.value) + [255, 255, 255, 255, 255, 255, 255, 255])
              else r == HeaderBad(NoSeparator))
  {
    AllOnes();
    VersionBytes(file[..4]);
    hide Encode64, Decode;
  }

  /** The header of a log is read as it was written. */
  lemma WrittenHeaderParses<G(!new)>(g: Codec<G>, gs: G, first: nat, l: seq<byte>)
    requires Decodes(g) && Header(g, gs, first) <= l
    ensures ParseHeader(g, l) == HeaderOk(|Header(g, gs, first)|, Header(g, gs, first))
  {
    hide Decodes, Encode64, Encode, Decode;
    var h := Header(g, gs, first);
    var k := 8 + |g.pack(gs)|;
    HeaderAt(g, gs, first, l);
    DecodeEncode(2, 4);
    assert h[..4] == Encode(2, 4) && h[..8] == Encode(2, 4) + Encode(first, 4) && h[k..] == Encode64(NPOS);
    SliceOfPrefix(h, l, 0, 4);
    SliceOfPrefix(h, l, 0, 8);
    SliceOfPrefix(h, l, k, k + 8);
    assert Power(4) == 0x1_0000_0000;
  }

  lemma {:induction false} LayoutSizes(c: Codec<Block>, h: seq<byte>, o: seq<byte>, bs: seq<Block>)
    ensures |Layout(c, h, bs)| + |o| == |Layout(c, o, bs)| + |h|
  {
    hide Encode64;
    if bs != [] {
      LayoutSizes(c, h, o, bs[..|bs| - 1]);
    }
  }

  lemma {:induction false} SameSizeSameEnd(c: Codec<Block>, file: seq<byte>, n: nat, h: seq<byte>, o: seq<byte>, bs: seq<Block>)
    requires |h| == |o|
    ensures EndOf(c, file, n, h, bs) == EndOf(c, file, n, o, bs)
  {
    hide Layout, NoEntry;
    if bs != [] {
      var init := bs[..|bs| - 1];
      SameSizeSameEnd(c, file, n, h, o, init);
      LayoutSizes(c, h, o, init);
    }
  }

  lemma SameSizeSameLongest(c: Codec<Block>, file: seq<byte>, n: nat, h: seq<byte>, o: seq<byte>, stop: nat, bs: seq<Block>)
    requires |h| == |o| && Longest(c, file, n, h, stop, bs)
    ensures Longest(c, file, n, o, stop, bs)
  {
    hide EndOf;
    SameSizeSameEnd(c, file, n, h, o, bs);
    forall bs' | Kept(c, file, n, o, stop, bs') ensures bs' <= bs {
      SameSizeSameEnd(c, file, n, h, o, bs');
      assert Kept(c, file, n, h, stop, bs');
    }
  }

  lemma LongestIsUnique(c: Codec<Block>, file: seq<byte>, n: nat, h: seq<byte>, stop: nat, a: seq<Block>, b: seq<Block>)
    requires Longest(c, file, n, h, stop, a) && Longest(c, file, n, h, stop, b)
    ensures a == b
  {
    hide Kept;
  }

  /** Recovering an undamaged log whose header keeps its size gives all blocks back, up to the truncation block. */
  lemma RepairOfGoodLog(c: Codec<Block>, o: seq<byte>, h: seq<byte>, all: seq<Block>, stop: nat, bs: seq<Block>)
    requires Decodes(c) && |o| == |h| && Longest(c, Layout(c, o, all), |o|, h, stop, bs)
    ensures bs <= all && (Cut(all, stop) ==> bs == all)
    ensures bs == all || (bs != [] && bs[|bs| - 1].num == stop)
  {
    hide Layout, Decodes, Longest;
    SameSizeSameLongest(c, Layout(c, o, all), |o|, h, o, stop, bs);
    GoodLogIsKept(c, o, all, stop, bs);
  }

  /** The first entry of an undamaged log records where the blocks start, whatever the header becomes. */
  lemma FirstIsKept(c: Codec<Block>, o: seq<byte>, h: seq<byte>, all: seq<Block>, stop: nat)
    requires Decodes(c) && all != []
    ensures var file := Layout(c, o, all);
      && Kept(c, file, |o|, h, stop, all[..1])
      && EndOf(c, file, |o|, h, all[..1]) == Some(|Layout(c, o, all[..1])|)
  {
    hide Layout, Decodes, NoEntry, EndOf;
    var file := Layout(c, o, all);
    StartOfBlocks(c, o, all);
    EntryHere(c, o, all, 0);
    KeptNothing(c, file, |o|, h, stop);
    KeptStep(c, file, |o|, h, stop, [], |o|, all[0]);
    assert [] + [all[0]] == all[..1];
  }

  lemma EntryHere(c: Codec<Block>, o: seq<byte>, all: seq<Block>, k: nat)
    requires Decodes(c) && k < |all|
    ensures var file, at := Layout(c, o, all), PosOf(c, o, all, k);
      && !NoEntry(c, file, at, at)
      && c.unpack(file[at..]) == Some(Parsed(all[k], |c.pack(all[k])|))
      && at + |c.pack(all[k])| + 8 == PosOf(c, o, all, k + 1) <= |file|
      && file[at + |c.pack(all[k])|..PosOf(c, o, all, k + 1)] == Encode64(at)
  {
    hide Layout, Decodes, Encode64;
    EntryAt(c, o, all, k);
    UnpackOfPack(c, all[k], Layout(c, o, all)[PosOf(c, o, all, k)..]);
  }

  lemma EncodesDiffer(a: nat, b: nat)
    requires a < U64 && b < U64 && a != b
    ensures Encode64(a) != Encode64(b)
  {
    hide Encode64, Decode64;
    RoundTrip64(a);
    RoundTrip64(b);
  }

  /** When the header changes its size, the second block stands elsewhere than it recorded. */
  lemma SecondIsLost(c: Codec<Block>, o: seq<byte>, h: seq<byte>, all: seq<Block>)
    requires Decodes(c) && |o| != |h| && all != [] && |Layout(c, o, all)| < NPOS
    ensures NoEntry(c, Layout(c, o, all), |Layout(c, o, all[..1])|, |Layout(c, h, all[..1])|)
  {
    hide Layout, Decodes, Encode64;
    var file, at, pos := Layout(c, o, all), |Layout(c, o, all[..1])|, |Layout(c, h, all[..1])|;
    LayoutSizes(c, h, o, all[..1]);
    if |all| > 1 {
      EntryHere(c, o, all, 1);
      if pos < |file| {
        EncodesDiffer(at, pos);
      }
    } else {
      assert all[..1] == all;
    }
  }

  /** Recovering an undamaged log whose header changes its size keeps the first block only. */
  lemma ResizedHeaderKeepsOne(c: Codec<Block>, o: seq<byte>, h: seq<byte>, all: seq<Block>, stop: nat)
    requires Decodes(c) && |o| != |h| && all != [] && |Layout(c, o, all)| < NPOS
    ensures Longest(c, Layout(c, o, all), |o|, h, stop, all[..1])
  {
    hide Layout, Decodes, NoEntry, EndOf, Kept, Longest;
    var file := Layout(c, o, all);
    FirstIsKept(c, o, h, all, stop);
    SecondIsLost(c, o, h, all);
    StopIsLongest(c, file, |o|, h, stop, all[..1]);
  }

  /** All blocks of an undamaged log come back exactly if the header keeps its size or there is at most one. */
  lemma GoodLogKeptIff(c: Codec<Block>, o: seq<byte>, h: seq<byte>, all: seq<Block>, stop: nat, bs: seq<Block>)
    requires Decodes(c) && |Layout(c, o, all)| < NPOS && Cut(all, stop)
    requires Longest(c, Layout(c, o, all), |o|, h, stop, bs)
    ensures bs == all <==> |o| == |h| || |all| <= 1
  {
    hide Layout, Decodes, Longest, Cut;
    if |o| == |h| {
      RepairOfGoodLog(c, o, h, all, stop, bs);
    } else if all == [] {
      NothingToKeep(c, o, h, stop, bs);
    } else {
      ResizedHeaderKeepsOne(c, o, h, all, stop);
      LongestIsUnique(c, Layout(c, o, all), |o|, h, stop, bs, all[..1]);
    }
  }

  lemma NothingToKeep(c: Codec<Block>, o: seq<byte>, h: seq<byte>, stop: nat, bs: seq<Block>)
    requires Longest(c, Layout(c, o, []), |o|, h, stop, bs)
    ensures bs == []
  {
    hide Kept, Longest, EndOf;
    KeptNothing(c, o, |o|, h, stop);
    StopIsLongest(c, o, |o|, h, stop, []);
    LongestIsUnique(c, o, |o|, h, stop, bs, []);
  }

  /** Some block is kept exactly if the first entry records where the blocks started. */
  lemma NothingKeptIff(c: Codec<Block>, file: seq<byte>, n: nat, h: seq<byte>, stop: nat, bs: seq<Block>)
    requires Longest(c, file, n, h, stop, bs)
    ensures bs == [] <==> NoEntry(c, file, n, n)
  {
    hide EndOf, NoEntry, Kept, Longest;
    KeptNothing(c, file, n, h, stop);
    if NoEntry(c, file, n, n) {
      StopIsLongest(c, file, n, h, stop, []);
      LongestIsUnique(c, file, n, h, stop, bs, []);
    } else {
      var b := c.unpack(file[n..]).value.value by {
        HasEntry(c, file, n, n);
      }
      HasEntry(c, file, n, n);
      KeptStep(c, file, n, h, stop, [], n, b);
      LongestCovers(c, file, n, h, stop, bs, [] + [b]);
    }
  }

  lemma HasEntry(c: Codec<Block>, file: seq<byte>, at: nat, pos: nat)
    requires !NoEntry(c, file, at, pos)
    ensures at <= |file| && c.unpack(file[at..]).Some?
  {
  }

  lemma LongestCovers(c: Codec<Block>, file: seq<byte>, n: nat, h: seq<byte>, stop: nat, bs: seq<Block>, more: seq<Block>)
    requires Longest(c, file, n, h, stop, bs) && Kept(c, file, n, h, stop, more)
    ensures more <= bs
  {
  }

  /** A recovered file whose blocks started behind the header is the log of its blocks. */
  lemma {:induction false} RewrittenIsLayout(c: Codec<Block>, h: seq<byte>, bs: seq<Block>)
    ensures Rewritten(c, |h|, h, bs) == Layout(c, h, bs)
  {
    if bs != [] {
      hide Encode64;
      RewrittenIsLayout(c, h, bs[..|bs| - 1]);
    }
  }

  lemma {:induction false} RewrittenStart(c: Codec<Block>, n: nat, h: seq<byte>, bs: seq<Block>)
    requires bs != []
    ensures h + c.pack(bs[0]) + Encode64(n) <= Rewritten(c, n, h, bs)
  {
    hide Encode64;
    if |bs| == 1 {
      assert bs[..0] == [];
    } else {
      RewrittenStart(c, n, h, bs[..|bs| - 1]);
    }
  }

  /** Otherwise its first entry does not record where it stands. */
  lemma FirstEntryIsOff(c: Codec<Block>, n: nat, h: seq<byte>, bs: seq<Block>)
    requires Decodes(c) && bs != [] && n != |h| && n < U64 && |h| < U64
    ensures NoEntry(c, Rewritten(c, n, h, bs), |h|, |h|)
  {
    hide Rewritten, Decodes, Encode64;
    var r, k := Rewritten(c, n, h, bs), |h| + |c.pack(bs[0])|;
    var e := h + c.pack(bs[0]) + Encode64(n);
    RewrittenStart(c, n, h, bs);
    assert e[|h|..k] == c.pack(bs[0]) && e[k..k + 8] == Encode64(n);
    SliceOfPrefix(e, r, |h|, k);
    SliceOfPrefix(e, r, k, k + 8);
    assert r[|h|..][..|c.pack(bs[0])|] == r[|h|..k];
    UnpackOfPack(c, bs[0], r[|h|..]);
    EncodesDiffer(n, |h|);
  }

  /** What recovery writes is a log of some blocks exactly if the blocks started behind the header, or none is kept. */
  lemma RepairedIsLogIff(c: Codec<Block>, n: nat, h: seq<byte>, bs: seq<Block>)
    requires Decodes(c) && n < U64 && |h| < U64
    ensures (exists bs' :: Rewritten(c, n, h, bs) == Layout(c, h, bs')) <==> n == |h| || bs == []
  {
    hide Rewritten, Layout, Decodes, NoEntry, EndOf;
    if n == |h| || bs == [] {
      RewrittenIsLayout(c, h, bs);
      KeptNothing(c, [], n, h, 0);
      KeptNothing(c, [], |h|, h, 0);
      assert Rewritten(c, n, h, bs) == Layout(c, h, bs);
    } else {
      forall bs' ensures Rewritten(c, n, h, bs) != Layout(c, h, bs') {
        if Rewritten(c, n, h, bs) == Layout(c, h, bs') {
          NotALog(c, n, h, bs, bs');
        }
      }
    }
  }

  lemma NotALog(c: Codec<Block>, n: nat, h: seq<byte>, bs: seq<Block>, bs': seq<Block>)
    requires Decodes(c) && bs != [] && n != |h| && n < U64 && |h| < U64
    ensures Rewritten(c, n, h, bs) != Layout(c, h, bs')
  {
    hide Rewritten, Layout, Decodes, NoEntry, EndOf, Encode64;
    FirstEntryIsOff(c, n, h, bs);
    RewrittenStart(c, n, h, bs);
    EmptyLayout(c, h);
    if bs' != [] {
      StartOfBlocks(c, h, bs');
      EntryHere(c, h, bs', 0);
    }
  }

  /**
   Recovering the recovered file keeps the blocks exactly if the blocks of the first file started where its rewritten
   header ends, or no block was kept; otherwise the second recovery loses them all.
   */
  lemma RepairAgain<G(!new)>(c: Codec<Block>, g: Codec<G>, file: seq<byte>, n: nat, h: seq<byte>, stop: nat, bs: seq<Block>,
                             bs2: seq<Block>)
    requires Decodes(c) && Decodes(g) && ParseHeader(g, file) == HeaderOk(n, h) && n < U64 && |h| < U64
    requires Longest(c, file, n, h, stop, bs) && Longest(c, Rewritten(c, n, h, bs), |h|, h, stop, bs2)
    ensures ParseHeader(g, Rewritten(c, n, h, bs)) == HeaderOk(|h|, h)
    ensures bs2 == bs <==> n == |h| || bs == []
    ensures bs2 == bs || bs2 == []
  {
    hide ParseHeader, Rewritten, Layout, Decodes, NoEntry, EndOf, Longest;
    HeaderStays(c, n, h, bs);
    HeaderAgain(g, file, Rewritten(c, n, h, bs));
    NothingKeptIff(c, Rewritten(c, n, h, bs), |h|, h, stop, bs2);
    if n == |h| || bs == [] {
      RewrittenIsLayout(c, h, bs);
      KeptNothing(c, [], n, h, 0);
      KeptNothing(c, [], |h|, h, 0);
      CutOfLongest(c, file, n, h, stop, bs);
      RepairOfGoodLog(c, h, h, bs, stop, bs2);
    } else {
      FirstEntryIsOff(c, n, h, bs);
    }
  }

  lemma HeaderStays(c: Codec<Block>, n: nat, h: seq<byte>, bs: seq<Block>)
    ensures h <= Rewritten(c, n, h, bs)
  {
    hide Encode64;
    if bs != [] {
      RewrittenStart(c, n, h, bs);
    }
  }

  lemma CutOfLongest(c: Codec<Block>, file: seq<byte>, n: nat, h: seq<byte>, stop: nat, bs: seq<Block>)
    requires Longest(c, file, n, h, stop, bs)
    ensures Cut(bs, stop)
  {
  }

  /** A header whose genesis is the number 0 written in two bytes. */
  const PADDED: seq<byte> := [2, 0, 0, 0, 1, 0, 0, 0, 0x80, 0] + Encode64(NPOS)
  /** The same header as it is written again. */
  const TRIMMED: seq<byte> := [2, 0, 0, 0, 1, 0, 0, 0, 0] + Encode64(NPOS)

  lemma PaddedParses(l: seq<byte>)
    requires PADDED <= l
    ensures ParseHeader(Varint.CODEC, l) == HeaderOk(18, TRIMMED)
  {
    hide Encode64;
    SliceOfPrefix(PADDED, l, 0, 4);
    SliceOfPrefix(PADDED, l, 0, 8);
    SliceOfPrefix(PADDED, l, 8, 10);
    SliceOfPrefix(PADDED, l, 10, 18);
    assert PADDED[..4] == [2, 0, 0, 0] && PADDED[..8] == [2, 0, 0, 0, 1, 0, 0, 0] && PADDED[8..10] == [0x80, 0];
    assert PADDED[10..18] == Encode64(NPOS);
    TwoIsRead(l[..4]);
    ZeroIsRead(l[8..]);
  }

  /** The versions as bytes. */
  lemma VersionBytes(s: seq<byte>)
    requires |s| == 4
    ensures Decode(s) == 0 <==> s == [0, 0, 0, 0]
    ensures Decode(s) == 1 <==> s == [1, 0, 0, 0]
    ensures Decode(s) == 2 <==> s == [2, 0, 0, 0]
  {
    assert Decode(s[3..]) == s[3] as int;
    assert Decode(s[2..]) == s[2] as int + 256 * Decode(s[3..]);
    assert s[1..][1..] == s[2..];
  }

  lemma TwoIsRead(s: seq<byte>)
    requires s == [2, 0, 0, 0]
    ensures Decode(s) == 2
  {
    assert Decode([0]) == 0;
    assert Decode([0, 0]) == 0 by {
      assert [0, 0][1..] == [0];
    }
    assert s[1..] == [0, 0, 0] && [0, 0, 0][1..] == [0, 0];
  }

  lemma ZeroIsRead(s: seq<byte>)
    requires |s| >= 2 && s[..2] == [0x80, 0]
    ensures Varint.Unpack(s) == Some(Parsed(0, 2)) && Varint.Pack(0) == [0]
  {
    assert s[0] == s[..2][0] && s[1] == s[..2][1];
    assert s[..2][1..] == [0] && s[1..][0] == 0;
    assert Varint.Taken(s[1..], 4) == Some(1);
    assert Varint.Sum([0]) == 0;
  }

  /**
   An undamaged log under such a header, of any blocks in any encoding: recovery keeps one block, the file it writes is
   no log, and recovering that file loses the block too.
   */
  lemma PaddedLogIsLost(c: Codec<Block>, all: seq<Block>, stop: nat)
    requires Decodes(c) && all != [] && |Layout(c, PADDED, all)| < NPOS
    ensures ParseHeader(Varint.CODEC, Layout(c, PADDED, all)) == HeaderOk(18, TRIMMED)
    ensures Longest(c, Layout(c, PADDED, all), 18, TRIMMED, stop, all[..1])
    ensures var r := Rewritten(c, 18, TRIMMED, all[..1]);
      && (forall bs :: r != Layout(c, TRIMMED, bs))
      && ParseHeader(Varint.CODEC, r) == HeaderOk(17, TRIMMED) && Longest(c, r, 17, TRIMMED, stop, [])
  {
    hide ParseHeader, Rewritten, Layout, Decodes, NoEntry, EndOf, Longest, Encode64, Kept;
    var file, r := Layout(c, PADDED, all), Rewritten(c, 18, TRIMMED, all[..1]);
    LayoutPrefix(c, PADDED, all, 0, |all|);
    StartOfBlocks(c, PADDED, all);
    EmptyLayout(c, PADDED);
    assert all[..|all|] == all;
    PaddedParses(file);
    ResizedHeaderKeepsOne(c, PADDED, TRIMMED, all, stop);
    RepairedIsLogIff(c, 18, TRIMMED, all[..1]);
    Varint.CodecDecodes();
    HeaderStays(c, 18, TRIMMED, all[..1]);
    HeaderAgain(Varint.CODEC, file, r);
    FirstEntryIsOff(c, 18, TRIMMED, all[..1]);
    KeptNothing(c, r, 17, TRIMMED, stop);
    StopIsLongest(c, r, 17, TRIMMED, stop, []);
  }
}
