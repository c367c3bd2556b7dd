/**
 The asset write cache of the token database (libraries/chain/token_database.cpp): a reference-counted layer of
 pending writes above the stored assets, with one list of undo records per savepoint.
 */
module WriteCache {
  import opened Wrappers
  import opened UndoLog

  datatype CacheEntry = CacheEntry(count: int, value: Value)

  /** One pending write: its key and the cached value it replaced, empty when the key was not cached. */
  datatype DataOp = DataOp(key: Key, pv: Value)

  datatype Layer = Layer(seqno: int, vec: seq<DataOp>)

  type Data = map<Key, CacheEntry>

  // ---- Operations on values ----

  function PutOp(data: Data, k: Key): DataOp {
    DataOp(k, if k in data then data[k].value else "")
  }

  function PutData(data: Data, k: Key, v: Value): Data {
    data[k := CacheEntry(if k in data then data[k].count + 1 else 1, v)]
  }

  function UndoOp(data: Data, op: DataOp): Data {
    if op.key !in data then data
    else if data[op.key].count == 1 then data - {op.key}
    else data[op.key := CacheEntry(data[op.key].count - 1, op.pv)]
  }

  /** Undoes the records of one savepoint, last first. */
  function UndoAll(data: Data, vec: seq<DataOp>): Data {
    if vec == [] then data else UndoAll(UndoOp(data, vec[|vec| - 1]), vec[..|vec| - 1])
  }

  function ReleaseOp(data: Data, k: Key): Data {
    if k !in data then data
    else if data[k].count == 1 then data - {k}
    else data[k := CacheEntry(data[k].count - 1, data[k].value)]
  }

  function FlushOp(data: Data, k: Key, batch: Column): Column {
    if k in data && data[k].count == 1 then batch[k := data[k].value] else batch
  }

  datatype Popped = Popped(data: Data, batch: Column)

  /** Releases the records of the oldest savepoint, first record first; the batch collects what is written out. */
  function Release(p: Popped, vec: seq<DataOp>): Popped {
    if vec == [] then p
    else
      var q := Release(p, vec[..|vec| - 1]);
      var k := vec[|vec| - 1].key;
      Popped(ReleaseOp(q.data, k), FlushOp(q.data, k, q.batch))
  }

  // ---- Reads, now and at a savepoint ----

  function ReadColumn(c: Column, k: Key): Option<Value> {
    if k in c then Some(c[k]) else None
  }

  function Read(data: Data, db: Column, k: Key): Option<Value> {
    if k in data then Some(data[k].value) else ReadColumn(db, k)
  }

  function Count(f: seq<DataOp>, k: Key): nat {
    if f == [] then 0 else Count(f[..|f| - 1], k) + if f[|f| - 1].key == k then 1 else 0
  }

  /** What the first record on the key replaced. */
  function First(f: seq<DataOp>, k: Key): Option<Value> {
    if f == [] then None
    else if First(f[..|f| - 1], k).Some? then First(f[..|f| - 1], k)
    else if f[|f| - 1].key == k then Some(f[|f| - 1].pv)
    else None
  }

  function Flat(ops: seq<Layer>): seq<DataOp> {
    if ops == [] then [] else Flat(ops[..|ops| - 1]) + ops[|ops| - 1].vec
  }

  /**
   What a read of the key gave before the live records `g` were made: what the first of them replaced, the stored
   value when that record found no cached value, and the present value when none of them is on the key.
   */
  function ReadBefore(data: Data, db: Column, g: seq<DataOp>, k: Key): Option<Value> {
    match First(g, k)
    case None => Read(data, db, k)
    case Some(pv) => if pv == "" then ReadColumn(db, k) else Some(pv)
  }

  /** The read of the key at the i-th savepoint. */
  function ReadAt(data: Data, db: Column, ops: seq<Layer>, i: nat, k: Key): Option<Value>
    requires i <= |ops|
  {
    ReadBefore(data, db, Flat(ops[i..]), k)
  }

  // ---- Invariant ----

  predicate EntryOk(data: Data, k: Key, n: nat) {
    (k in data <==> n > 0) && (k in data ==> data[k].count == n && data[k].value != "")
  }

  /** A key is cached exactly while records on it are live, and its use count is their number. */
  ghost predicate CountOk(data: Data, f: seq<DataOp>) {
    forall k :: EntryOk(data, k, Count(f, k))
  }

  /** A record made while an earlier one on its key was live holds a nonempty value. */
  ghost predicate PvOk(f: seq<DataOp>) {
    forall g, h, k :: f == g + h && Count(g, k) > 0 && First(h, k).Some? ==> First(h, k).value != ""
  }

  ghost predicate Inv(data: Data, f: seq<DataOp>) {
    CountOk(data, f) && PvOk(f)
  }

  // ---- Counting and first records ----

  lemma {:induction false} CountAppend(f: seq<DataOp>, g: seq<DataOp>, k: Key)
    ensures Count(f + g, k) == Count(f, k) + Count(g, k)
  {
    if g == [] {
      assert f + g == f;
    } else {
      assert (f + g)[..|f + g| - 1] == f + g[..|g| - 1];
      CountAppend(f, g[..|g| - 1], k);
    }
  }

  lemma {:induction false} FirstAppend(f: seq<DataOp>, g: seq<DataOp>, k: Key)
    ensures First(f + g, k) == if First(f, k).Some? then First(f, k) else First(g, k)
  {
    if g == [] {
      assert f + g == f;
    } else {
      assert (f + g)[..|f + g| - 1] == f + g[..|g| - 1];
      FirstAppend(f, g[..|g| - 1], k);
    }
  }

  lemma {:induction false} FirstCount(f: seq<DataOp>, k: Key)
    ensures First(f, k).Some? <==> Count(f, k) > 0
  {
    if f != [] {
      FirstCount(f[..|f| - 1], k);
    }
  }

  lemma Single(op: DataOp, k: Key)
    ensures Count([op], k) == if op.key == k then 1 else 0
    ensures First([op], k) == if op.key == k then Some(op.pv) else None
  {
    assert [op][..0] == [];
  }

  lemma {:induction false} FlatAppend(a: seq<Layer>, b: seq<Layer>)
    ensures Flat(a + b) == Flat(a) + Flat(b)
  {
    if b == [] {
      assert a + b == a;
    } else {
      assert (a + b)[..|a + b| - 1] == a + b[..|b| - 1];
      FlatAppend(a, b[..|b| - 1]);
    }
  }

  lemma FlatOne(l: Layer)
    ensures Flat([l]) == l.vec
  {
    assert [l][..0] == [];
  }

  lemma FlatNone()
    ensures Flat([]) == []
  {
  }

  lemma FlatSplit(ops: seq<Layer>, i: nat)
    requires i <= |ops|
    ensures Flat(ops) == Flat(ops[..i]) + Flat(ops[i..])
  {
    hide Flat;
    FlatAppend(ops[..i], ops[i..]);
    assert ops[..i] + ops[i..] == ops;
  }

  // ---- put ----

  /** Undoing the record of a put gives back the cache as it was. */
  lemma PutUndone(data: Data, k: Key, v: Value)
    requires k in data ==> data[k].count >= 1
    ensures UndoOp(PutData(data, k, v), PutOp(data, k)) == data
  {
  }

  lemma LastOfBoth(f: seq<DataOp>, op: DataOp, g: seq<DataOp>, h: seq<DataOp>)
    requires f + [op] == g + h && h != []
    ensures h == h[..|h| - 1] + [op] && f == g + h[..|h| - 1]
  {
    assert h[|h| - 1] == (g + h)[|g + h| - 1];
    assert f == (f + [op])[..|f|];
    assert g + h[..|h| - 1] == (g + h)[..|g + h| - 1];
  }

  lemma PutKeepsInv(data: Data, f: seq<DataOp>, k: Key, v: Value)
    requires Inv(data, f) && v != ""
    ensures Inv(PutData(data, k, v), f + [PutOp(data, k)])
  {
    hide Count;
    var op := PutOp(data, k);
    var f' := f + [op];
    forall x ensures EntryOk(PutData(data, k, v), x, Count(f', x)) {
      CountAppend(f, [op], x);
      Single(op, x);
      assert EntryOk(data, x, Count(f, x));
    }
    forall g, h, x | f' == g + h && Count(g, x) > 0 && First(h, x).Some? ensures First(h, x).value != "" {
      if h != [] {
        var h0 := h[..|h| - 1];
        LastOfBoth(f, op, g, h);
        FirstAppend(h0, [op], x);
        Single(op, x);
        CountAppend(g, h0, x);
        assert EntryOk(data, x, Count(f, x));
      }
    }
  }

  /** A put changes no earlier read. */
  lemma PutKeepsReads(data: Data, db: Column, f: seq<DataOp>, g: seq<DataOp>, k: Key, v: Value, x: Key)
    requires CountOk(data, f)
    ensures ReadBefore(PutData(data, k, v), db, g + [PutOp(data, k)], x) == ReadBefore(data, db, g, x)
  {
    hide Count, First;
    FirstAppend(g, [PutOp(data, k)], x);
    Single(PutOp(data, k), x);
    assert EntryOk(data, x, Count(f, x));
  }

  // ---- rollback ----

  lemma UndoOpCounts(data: Data, f: seq<DataOp>, op: DataOp)
    requires Inv(data, f + [op])
    ensures CountOk(UndoOp(data, op), f)
    ensures forall x :: x in UndoOp(data, op) ==>
      x in data && UndoOp(data, op)[x].value == if x == op.key then op.pv else data[x].value
  {
    hide Count, First;
    forall x ensures EntryOk(UndoOp(data, op), x, Count(f, x)) {
      CountAppend(f, [op], x);
      Single(op, x);
      assert EntryOk(data, x, Count(f + [op], x));
    }
  }

  lemma PvPrefix(f: seq<DataOp>, g: seq<DataOp>)
    requires PvOk(f + g)
    ensures PvOk(f)
  {
    forall a, b, k | f == a + b && Count(a, k) > 0 && First(b, k).Some? ensures First(b, k).value != "" {
      assert f + g == a + (b + g);
      FirstAppend(b, g, k);
    }
  }

  /** Undoing the newest records: the older ones are counted again, and each key holds what its first record replaced. */
  lemma {:induction false} UndoAllAt(data: Data, f: seq<DataOp>, vec: seq<DataOp>)
    requires Inv(data, f + vec)
    ensures Inv(UndoAll(data, vec), f)
    ensures forall x :: x in UndoAll(data, vec) ==>
      x in data && UndoAll(data, vec)[x].value == if First(vec, x).Some? then First(vec, x).value else data[x].value
  {
    if vec == [] {
      assert f + vec == f;
    } else {
      var op, init := vec[|vec| - 1], vec[..|vec| - 1];
      assert f + vec == (f + init) + [op];
      UndoOpCounts(data, f + init, op);
      PvPrefix(f + init, [op]);
      UndoAllAt(UndoOp(data, op), f, init);
    }
  }

  /**
   The one case in which a rollback loses a value: every live record on the key is being undone, the first of them
   replaced a cached value (written by a record released since), and the stored value is another one.
   */
  predicate Lost(db: Column, f: seq<DataOp>, vec: seq<DataOp>, k: Key) {
    && Count(f, k) == 0 && First(vec, k).Some? && First(vec, k).value != ""
    && ReadColumn(db, k) != First(vec, k)
  }

  /** After a rollback of `vec`, a read and every older read are as they were, exactly unless the value is lost. */
  lemma UndoRestoresReadIff(data: Data, db: Column, f: seq<DataOp>, g: seq<DataOp>, vec: seq<DataOp>, k: Key)
    requires Inv(data, (f + g) + vec)
    ensures ReadBefore(UndoAll(data, vec), db, g, k) == ReadBefore(data, db, g + vec, k) <==> !Lost(db, f + g, vec, k)
  {
    hide Count, First, UndoAll;
    UndoAllAt(data, f + g, vec);
    var data' := UndoAll(data, vec);
    FirstAppend(g, vec, k);
    CountAppend(f, g, k);
    CountAppend(f + g, vec, k);
    FirstCount(g, k);
    FirstCount(vec, k);
    assert EntryOk(data, k, Count(f + g + vec, k));
    assert EntryOk(data', k, Count(f + g, k));
  }

  // ---- Releasing the oldest savepoint ----

  ghost predicate Released(data: Data, p: Popped, vec: seq<DataOp>, rest: seq<DataOp>, k: Key) {
    && EntryOk(p.data, k, Count(rest, k))
    && (k in p.data ==> k in data && p.data[k].value == data[k].value)
    && (k in p.batch <==> Count(vec, k) > 0 && Count(rest, k) == 0)
    && (k in p.batch ==> k in data && p.batch[k] == data[k].value)
  }

  /** Releasing the oldest records writes out exactly the keys whose last live record is among them, at their value. */
  lemma {:induction false} ReleaseAt(data: Data, vec: seq<DataOp>, rest: seq<DataOp>, k: Key)
    requires CountOk(data, vec + rest)
    ensures Released(data, Release(Popped(data, map[]), vec), vec, rest, k)
  {
    if vec == [] {
      assert vec + rest == rest;
      assert EntryOk(data, k, Count(rest, k));
    } else {
      var op, init := vec[|vec| - 1], vec[..|vec| - 1];
      assert vec + rest == init + ([op] + rest);
      ReleaseAt(data, init, [op] + rest, k);
      CountAppend([op], rest, k);
      Single(op, k);
    }
  }

  lemma SuffixOk(f: seq<DataOp>, g: seq<DataOp>)
    requires PvOk(f + g)
    ensures PvOk(g)
  {
    forall a, b, k | g == a + b && Count(a, k) > 0 && First(b, k).Some? ensures First(b, k).value != "" {
      assert f + g == (f + a) + b;
      CountAppend(f, a, k);
    }
  }

  /** The release keeps the invariant, and no read now or at a remaining savepoint changes. */
  lemma ReleaseKeepsReads(data: Data, db: Column, vec: seq<DataOp>, f: seq<DataOp>, g: seq<DataOp>, k: Key)
    requires CountOk(data, vec + (f + g))
    ensures var p := Release(Popped(data, map[]), vec);
      ReadBefore(p.data, db + p.batch, g, k) == ReadBefore(data, db, g, k)
  {
    hide Count, First, Release;
    ReleaseAt(data, vec, f + g, k);
    CountAppend(f, g, k);
    CountAppend(vec, f + g, k);
    FirstCount(g, k);
    assert EntryOk(data, k, Count(vec + (f + g), k));
  }

  lemma ReleaseKeepsInv(data: Data, vec: seq<DataOp>, rest: seq<DataOp>)
    requires Inv(data, vec + rest)
    ensures Inv(Release(Popped(data, map[]), vec).data, rest)
  {
    hide Count, First, Release;
    forall k ensures EntryOk(Release(Popped(data, map[]), vec).data, k, Count(rest, k)) {
      ReleaseAt(data, vec, rest, k);
    }
    SuffixOk(vec, rest);
  }

  // ---- Saving and loading ----

  /** The records of a layer after a save and a load: every write is replayed with the present value of its key. */
  function ReloadVec(data: Data, f: seq<DataOp>, vec: seq<DataOp>): seq<DataOp> {
    if vec == [] then []
    else
      var init, k := vec[..|vec| - 1], vec[|vec| - 1].key;
      ReloadVec(data, f, init) +
      [DataOp(k, if Count(f + init, k) == 0 || k !in data then "" else data[k].value)]
  }

  function ReloadOps(data: Data, ops: seq<Layer>): (r: seq<Layer>)
    ensures |r| == |ops|
  {
    if ops == [] then []
    else
      var init, l := ops[..|ops| - 1], ops[|ops| - 1];
      ReloadOps(data, init) + [Layer(l.seqno, ReloadVec(data, Flat(init), l.vec))]
  }

  lemma {:induction false} ReloadCount(data: Data, f: seq<DataOp>, vec: seq<DataOp>, k: Key)
    ensures Count(ReloadVec(data, f, vec), k) == Count(vec, k)
    ensures First(ReloadVec(data, f, vec), k) ==
      if Count(vec, k) == 0 then None
      else if Count(f, k) == 0 || k !in data then Some("")
      else Some(data[k].value)
  {
    if vec != [] {
      var init, op := vec[..|vec| - 1], vec[|vec| - 1];
      ReloadCount(data, f, init, k);
      var r := ReloadVec(data, f, init);
      var o := DataOp(op.key, if Count(f + init, op.key) == 0 || op.key !in data then "" else data[op.key].value);
      assert ReloadVec(data, f, vec) == r + [o];
      CountAppend(r, [o], k);
      FirstAppend(r, [o], k);
      Single(o, k);
      CountAppend(f, init, k);
      FirstCount(r, k);
    }
  }

  lemma {:induction false} ReloadAppend(data: Data, f: seq<DataOp>, a: seq<DataOp>, b: seq<DataOp>)
    ensures ReloadVec(data, f, a + b) == ReloadVec(data, f, a) + ReloadVec(data, f + a, b)
  {
    if b == [] {
      assert a + b == a;
    } else {
      var init := b[..|b| - 1];
      assert (a + b)[..|a + b| - 1] == a + init;
      assert f + (a + init) == (f + a) + init;
      ReloadAppend(data, f, a, init);
    }
  }

  lemma {:induction false} ReloadSuffix(data: Data, ops: seq<Layer>, i: nat)
    requires i <= |ops|
    ensures Flat(ReloadOps(data, ops)[i..]) == ReloadVec(data, Flat(ops[..i]), Flat(ops[i..]))
  {
    hide Flat;
    if i == |ops| {
      FlatNone();
      assert ops[i..] == [] && ReloadOps(data, ops)[i..] == [];
    } else {
      var init, l := ops[..|ops| - 1], ops[|ops| - 1];
      ReloadSuffix(data, init, i);
      assert init[..i] == ops[..i];
      assert ops[i..] == init[i..] + [l];
      var m := Layer(l.seqno, ReloadVec(data, Flat(init), l.vec));
      assert ReloadOps(data, ops)[i..] == ReloadOps(data, init)[i..] + [m];
      FlatAppend(ReloadOps(data, init)[i..], [m]);
      FlatAppend(init[i..], [l]);
      FlatOne(m);
      FlatOne(l);
      FlatSplit(init, i);
      ReloadAppend(data, Flat(ops[..i]), Flat(init[i..]), l.vec);
    }
  }

  /** Exactly which reads at savepoints a save and a load keep. */
  lemma ReloadKeepsReadIff(data: Data, db: Column, ops: seq<Layer>, i: nat, k: Key)
    requires i <= |ops| && Inv(data, Flat(ops))
    ensures ReadAt(data, db, ReloadOps(data, ops), i, k) == ReadAt(data, db, ops, i, k) <==>
      match First(Flat(ops[i..]), k)
      case None => true
      case Some(pv) =>
        if Count(Flat(ops[..i]), k) == 0 then pv == "" || ReadColumn(db, k) == Some(pv) else k in data && pv == data[k].value
  {
    hide Count, First, ReloadOps, ReloadVec, Flat;
    var f, g := Flat(ops[..i]), Flat(ops[i..]);
    ReloadSuffix(data, ops, i);
    ReloadCount(data, f, g, k);
    FlatSplit(ops, i);
    CountAppend(f, g, k);
    FirstCount(g, k);
    assert EntryOk(data, k, Count(Flat(ops), k));
  }

  /** The cache a load rebuilds from the first records `f`. */
  ghost predicate Rebuilt(data: Data, f: seq<DataOp>, d: Data) {
    forall k :: (k in d <==> Count(f, k) > 0) && (k in d ==> k in data && d[k] == CacheEntry(Count(f, k), data[k].value))
  }

  lemma RebuiltStep(data: Data, f: seq<DataOp>, op: DataOp, d: Data)
    requires Rebuilt(data, f, d) && op.key in data
    ensures Rebuilt(data, f + [op], PutData(d, op.key, data[op.key].value))
    ensures PutOp(d, op.key).pv == if Count(f, op.key) == 0 then "" else data[op.key].value
  {
    hide Count;
    forall k ensures Count(f + [op], k) == Count(f, k) + if op.key == k then 1 else 0 {
      CountAppend(f, [op], k);
      Single(op, k);
    }
  }

  /** Save and load give back the very same cache. */
  lemma RebuiltAll(data: Data, f: seq<DataOp>, d: Data)
    requires CountOk(data, f) && Rebuilt(data, f, d)
    ensures d == data
  {
    forall k ensures k in d <==> k in data {
      assert EntryOk(data, k, Count(f, k));
    }
    forall k | k in d ensures d[k] == data[k] {
      assert EntryOk(data, k, Count(f, k));
    }
  }

  /** One layer as saved to disk: each of its writes with the present value of the key. */
  datatype PackedLayer = PackedLayer(seqno: int, writes: seq<Write>)

  datatype Write = Write(key: Key, value: Value)

  function PackVec(data: Data, vec: seq<DataOp>): seq<Write> {
    if vec == [] then []
    else
      var k := vec[|vec| - 1].key;
      PackVec(data, vec[..|vec| - 1]) + [Write(k, if k in data then data[k].value else "")]
  }

  function Pack(data: Data, ops: seq<Layer>): seq<PackedLayer> {
    if ops == [] then []
    else
      var l := ops[|ops| - 1];
      Pack(data, ops[..|ops| - 1]) + [PackedLayer(l.seqno, PackVec(data, l.vec))]
  }

  datatype Cache = Cache(data: Data, ops: seq<Layer>)

  function Pushed(c: Cache, seqno: int): Cache {
    c.(ops := c.ops + [Layer(seqno, [])])
  }

  /** A put into the newest layer. */
  function PutInto(c: Cache, k: Key, v: Value): Cache
    requires c.ops != []
  {
    var top := c.ops[|c.ops| - 1];
    Cache(PutData(c.data, k, v), c.ops[..|c.ops| - 1] + [top.(vec := top.vec + [PutOp(c.data, k)])])
  }

  function Replayed(c: Cache, ws: seq<Write>): (r: Cache)
    requires c.ops != []
    ensures r.ops != []
  {
    if ws == [] then c
    else PutInto(Replayed(c, ws[..|ws| - 1]), ws[|ws| - 1].key, ws[|ws| - 1].value)
  }

  function Loaded(layers: seq<PackedLayer>): Cache {
    if layers == [] then Cache(map[], [])
    else Replayed(Pushed(Loaded(layers[..|layers| - 1]), layers[|layers| - 1].seqno), layers[|layers| - 1].writes)
  }

  ghost predicate Cached(data: Data, f: seq<DataOp>) {
    forall k :: Count(f, k) > 0 ==> k in data
  }

  lemma CachedPrefix(data: Data, f: seq<DataOp>, g: seq<DataOp>)
    requires Cached(data, f + g)
    ensures Cached(data, f)
  {
    forall k | Count(f, k) > 0 ensures k in data {
      CountAppend(f, g, k);
    }
  }

  lemma {:induction false} ReplayedLayer(data: Data, f: seq<DataOp>, c: Cache, l: Layer)
    requires Rebuilt(data, f, c.data) && Cached(data, f + l.vec)
    ensures var r := Replayed(Pushed(c, l.seqno), PackVec(data, l.vec));
      && Rebuilt(data, f + l.vec, r.data)
      && r.ops == c.ops + [Layer(l.seqno, ReloadVec(data, f, l.vec))]
    decreases |l.vec|
  {
    hide Count, Rebuilt;
    if l.vec == [] {
      assert f + l.vec == f;
    } else {
      var init, op := l.vec[..|l.vec| - 1], l.vec[|l.vec| - 1];
      assert f + l.vec == (f + init) + [op];
      CachedPrefix(data, f + init, [op]);
      ReplayedLayer(data, f, c, l.(vec := init));
      CountAppend(f + init, [op], op.key);
      Single(op, op.key);
      var r := Replayed(Pushed(c, l.seqno), PackVec(data, init));
      RebuiltStep(data, f + init, op, r.data);
      var m, v := Layer(l.seqno, ReloadVec(data, f, init)), data[op.key].value;
      assert PackVec(data, l.vec) == PackVec(data, init) + [Write(op.key, v)];
      ReplayedOne(Pushed(c, l.seqno), PackVec(data, init), Write(op.key, v));
      PutIntoTop(r, c.ops, m, op.key, v);
    }
  }

  lemma ReplayedOne(c: Cache, ws: seq<Write>, w: Write)
    requires c.ops != []
    ensures Replayed(c, ws + [w]) == PutInto(Replayed(c, ws), w.key, w.value)
  {
    assert (ws + [w])[..|ws + [w]| - 1] == ws;
  }

  lemma PutIntoTop(c: Cache, init: seq<Layer>, top: Layer, k: Key, v: Value)
    requires c.ops == init + [top]
    ensures PutInto(c, k, v) ==
      Cache(PutData(c.data, k, v), init + [top.(vec := top.vec + [PutOp(c.data, k)])])
  {
    assert c.ops[..|c.ops| - 1] == init;
  }

  lemma {:induction false} LoadedLayers(data: Data, ops: seq<Layer>)
    requires Cached(data, Flat(ops))
    ensures Rebuilt(data, Flat(ops), Loaded(Pack(data, ops)).data)
    ensures Loaded(Pack(data, ops)).ops == ReloadOps(data, ops)
  {
    if ops != [] {
      hide Count, Replayed, Cached;
      var init, l := ops[..|ops| - 1], ops[|ops| - 1];
      CachedPrefix(data, Flat(init), l.vec);
      LoadedLayers(data, init);
      ReplayedLayer(data, Flat(init), Loaded(Pack(data, init)), l);
      LoadedOne(Pack(data, init), PackedLayer(l.seqno, PackVec(data, l.vec)));
    }
  }

  lemma LoadedOne(layers: seq<PackedLayer>, l: PackedLayer)
    ensures Loaded(layers + [l]) == Replayed(Pushed(Loaded(layers), l.seqno), l.writes)
  {
    assert (layers + [l])[..|layers + [l]| - 1] == layers;
  }

  /** Loading a saved cache gives the same cached values and counts; the undo records are the reloaded ones. */
  lemma LoadOfPack(data: Data, ops: seq<Layer>)
    requires CountOk(data, Flat(ops))
    ensures Loaded(Pack(data, ops)) == Cache(data, ReloadOps(data, ops))
  {
    hide Count, Flat, Loaded, Pack, ReloadOps;
    forall k | Count(Flat(ops), k) > 0 ensures k in data {
      assert EntryOk(data, k, Count(Flat(ops), k));
    }
    LoadedLayers(data, ops);
    RebuiltAll(data, Flat(ops), Loaded(Pack(data, ops)).data);
  }

  /** The reloaded records keep the invariant. */
  lemma ReloadKeepsInv(data: Data, ops: seq<Layer>)
    requires Inv(data, Flat(ops))
    ensures Inv(data, Flat(ReloadOps(data, ops)))
  {
    hide Count, First, Flat, ReloadOps, ReloadVec;
    ReloadSuffix(data, ops, 0);
    assert ops[..0] == [] && ops[0..] == ops && ReloadOps(data, ops)[0..] == ReloadOps(data, ops);
    FlatNone();
    var f := Flat(ops);
    var r := ReloadVec(data, [], f);
    forall k ensures EntryOk(data, k, Count(r, k)) {
      ReloadCount(data, [], f, k);
      assert EntryOk(data, k, Count(f, k));
    }
    forall g, h, k | r == g + h && Count(g, k) > 0 && First(h, k).Some? ensures First(h, k).value != "" {
      ReloadSplit(data, f, g, h);
      var a, b := f[..|g|], f[|g|..];
      assert f == a + b;
      ReloadCount(data, [], a, k);
      ReloadCount(data, a, b, k);
      CountAppend(a, b, k);
      assert EntryOk(data, k, Count(f, k));
    }
  }

  lemma {:induction false} ReloadLength(data: Data, f: seq<DataOp>, vec: seq<DataOp>)
    ensures |ReloadVec(data, f, vec)| == |vec|
  {
    if vec != [] {
      ReloadLength(data, f, vec[..|vec| - 1]);
    }
  }

  lemma ReloadSplit(data: Data, f: seq<DataOp>, g: seq<DataOp>, h: seq<DataOp>)
    requires ReloadVec(data, [], f) == g + h
    ensures |g| <= |f|
    ensures g == ReloadVec(data, [], f[..|g|]) && h == ReloadVec(data, f[..|g|], f[|g|..])
  {
    hide ReloadVec;
    ReloadLength(data, [], f);
    var a, b := f[..|g|], f[|g|..];
    assert f == a + b && [] + a == a;
    ReloadAppend(data, [], a, b);
    ReloadLength(data, [], a);
    assert g == (g + h)[..|g|] && h == (g + h)[|g|..];
  }
}
