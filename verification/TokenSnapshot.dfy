/**
 The token database in a snapshot (libraries/chain/token_database_snapshot.cpp): which sections are written, in
 which order, and how they are read back into an empty database.

 A stored key is the number of its bytes: the prefix times 256^width plus the rest, where the rest is 16 bytes wide
 for tokens (prefix: the domain, or a reserved name) and 33 for assets (prefix: the symbol id, rest: the address).
 */
module TokenSnapshot {
  import opened Wrappers
  import Arithmetic
  import B = Bytes
  import N = Name128
  import U = UndoLog
  import WC = WriteCache
  import TD = TokenDatabase
  import S = Snapshot
  import TS = TokenStore
  import opened SectionNames

  type Codec = B.Codec<U.Value>
  type Zip = B.Codec<seq<B.byte>>

  const U32: nat := 0x1_0000_0000

  function Prefix(width: nat, k: U.Key): int {
    k / B.Power(width)
  }

  function Rest(width: nat, k: U.Key): nat {
    k % B.Power(width)
  }

  function PrefixIs(width: nat, p: nat): U.Key -> bool {
    (k: U.Key) => Prefix(width, k) == p
  }

  function Key(width: nat, p: nat, rest: nat): U.Key {
    p * B.Power(width) + rest
  }

  /** The bytes of the rest of a key, and its prefix, give the key back. */
  lemma KeyBack(width: nat, k: U.Key)
    ensures Rest(width, k) < B.Power(width)
    ensures B.Decode(B.Encode(Rest(width, k), width)) == Rest(width, k)
    ensures Prefix(width, k) >= 0 && Key(width, Prefix(width, k), Rest(width, k)) == k
  {
    hide B.Power, B.Encode, B.Decode;
    Arithmetic.DivParts(k, B.Power(width));
    B.DecodeEncode(Rest(width, k), width);
  }

  lemma KeyParts(width: nat, p: nat, rest: nat)
    requires rest < B.Power(width)
    ensures Prefix(width, Key(width, p, rest)) == p && Rest(width, Key(width, p, rest)) == rest
  {
    hide B.Power;
    var m := B.Power(width);
    Arithmetic.DivisionUnique(p * m + rest, m, p, rest);
    Arithmetic.DivParts(p * m + rest, m);
  }

  // ---- Sections ----

  /** One table of the database: a prefix of the token or of the asset column, and its rows. */
  datatype Table = Table(name: string, width: nat, prefix: nat, rows: seq<WC.Write>)

  /** Each entry makes two rows: the rest of its key, and its value. */
  function Rows(vc: Codec, width: nat, ws: seq<WC.Write>): (r: seq<S.Row>)
    ensures |r| == 2 * |ws|
  {
    if ws == [] then []
    else
      var w := ws[|ws| - 1];
      Rows(vc, width, ws[..|ws| - 1]) + [B.Encode(Rest(width, w.key), width), vc.pack(w.value)]
  }

  function SectionOf(vc: Codec, t: Table): S.Section {
    S.Section(NameBytes(t.name), Rows(vc, t.width, t.rows))
  }

  function Sections(vc: Codec, ts: seq<Table>): (r: seq<S.Section>)
    ensures |r| == |ts|
  {
    seq(|ts|, i requires 0 <= i < |ts| => SectionOf(vc, ts[i]))
  }

  function Rests(width: nat, ws: seq<WC.Write>): (r: seq<nat>)
    ensures |r| == |ws|
  {
    seq(|ws|, i requires 0 <= i < |ws| => Rest(width, ws[i].key))
  }

  function Ids(names: seq<nat>): (r: seq<nat>)
    ensures |r| == |names|
  {
    seq(|names|, i requires 0 <= i < |names| => names[i] % U32)
  }

  /** The rows of a table are the entries of its column under its prefix. */
  ghost predicate RowsOk(t: Table, c: U.Column) {
    TS.RowsOf(t.rows, c, PrefixIs(t.width, t.prefix))
  }

  ghost predicate ReservedTables(ts: seq<Table>, prefixes: seq<nat>, tokens: U.Column)
    requires |ts| <= |prefixes| == 12
  {
    forall i :: 0 <= i < |ts| ==>
      ts[i].name == ReservedNames()[i] && ts[i].width == 16 && ts[i].prefix == prefixes[i] && RowsOk(ts[i], tokens)
  }

  ghost predicate DomainTables(ts: seq<Table>, domains: seq<nat>, tokens: U.Column)
    requires |ts| <= |domains|
  {
    forall i :: 0 <= i < |ts| ==>
      ts[i].name == N.Text(domains[i]) && ts[i].width == 16 && ts[i].prefix == domains[i] && RowsOk(ts[i], tokens)
  }

  ghost predicate AssetTables(ts: seq<Table>, ids: seq<nat>, assets: U.Column)
    requires |ts| <= |ids|
  {
    forall i :: 0 <= i < |ts| ==>
      ts[i].name == AssetName(ids[i]) && ts[i].width == 33 && ts[i].prefix == ids[i] && RowsOk(ts[i], assets)
  }

  /** The tables of a database: reserved ones, one for every domain, one for every fungible. */
  datatype Dump = Dump(reserved: seq<Table>, domains: seq<Table>, assets: seq<Table>) {
    function All(): seq<Table> {
      reserved + domains + assets
    }
  }

  ghost predicate IsDump(d: Dump, prefixes: seq<nat>, tokens: U.Column, assets: U.Column)
    requires |prefixes| == 12
  {
    && |d.reserved| == 12 && ReservedTables(d.reserved, prefixes, tokens)
    && |d.domains| == |d.reserved[0].rows| && DomainTables(d.domains, Rests(16, d.reserved[0].rows), tokens)
    && |d.assets| == |d.reserved[4].rows| && AssetTables(d.assets, Ids(Rests(16, d.reserved[4].rows)), assets)
  }

  // ---- Writing ----

  lemma RowsStep(vc: Codec, width: nat, ws: seq<WC.Write>, i: nat)
    requires i < |ws|
    ensures Rows(vc, width, ws[..i + 1]) ==
      Rows(vc, width, ws[..i]) + [B.Encode(Rest(width, ws[i].key), width)] + [vc.pack(ws[i].value)]
  {
    hide B.Encode, Rest;
    assert ws[..i + 1][..i] == ws[..i];
  }

  lemma SectionsAppend(vc: Codec, ts: seq<Table>, t: Table, done: seq<S.Section>)
    ensures done + Sections(vc, ts + [t]) == done + Sections(vc, ts) + [SectionOf(vc, t)]
  {
    hide SectionOf;
    assert Sections(vc, ts + [t]) == Sections(vc, ts) + [SectionOf(vc, t)];
  }

  lemma NoRows(vc: Codec, width: nat)
    ensures Rows(vc, width, []) == []
  {
  }

  method AddTable(writer: S.SnapshotWriter, vc: Codec, t: Table)
    requires writer.Closed()
    modifies writer
    ensures writer.Closed() && writer.done == old(writer.done) + [SectionOf(vc, t)]
    ensures |writer.done| == |old(writer.done)| + 1 && TableSection(vc, t, writer.done[|old(writer.done)|])
  {
    hide Rows, B.Encode, Rest, S.Written, S.Joined, S.Head, NameBytes, TableSection;
    TableIsSection(vc, t);
    ghost var name, done := NameBytes(t.name), writer.done;
    var ok := writer.StartSection(NameBytes(t.name));
    NoRows(vc, t.width);
    for i := 0 to |t.rows|
      invariant writer.Open() && writer.done == done
      invariant writer.current == S.Section(name, Rows(vc, t.width, t.rows[..i]))
    {
      RowsStep(vc, t.width, t.rows, i);
      writer.WriteRow(B.Encode(Rest(t.width, t.rows[i].key), t.width));
      writer.WriteRow(vc.pack(t.rows[i].value));
    }
    assert t.rows[..|t.rows|] == t.rows;
    writer.EndSection();
  }

  /** A section under the name of its table, with two rows for each entry: the low bytes of its key, then its value. */
  ghost predicate TableSection(vc: Codec, t: Table, s: S.Section) {
    && |s.name| == |t.name| && (forall i :: 0 <= i < |t.name| ==> s.name[i] as int == t.name[i] as int % 256)
    && |s.rows| == 2 * |t.rows|
    && (forall i :: 0 <= i < |t.rows| ==>
          && s.rows[2 * i] == B.Encode(t.rows[i].key % B.Power(t.width), t.width)
          && s.rows[2 * i + 1] == vc.pack(t.rows[i].value))
  }

  lemma TableIsSection(vc: Codec, t: Table)
    ensures TableSection(vc, t, SectionOf(vc, t))
  {
    hide Rows, B.Encode, B.Power, Rest;
    forall i | 0 <= i < |t.rows|
      ensures Rows(vc, t.width, t.rows)[2 * i] == B.Encode(Rest(t.width, t.rows[i].key), t.width)
      ensures Rows(vc, t.width, t.rows)[2 * i + 1] == vc.pack(t.rows[i].value)
      ensures Rest(t.width, t.rows[i].key) == t.rows[i].key % B.Power(t.width)
    {
      RowsAt(vc, t.width, t.rows, i);
      RestIs(t.width, t.rows[i].key);
    }
  }

  lemma RestIs(width: nat, k: U.Key)
    ensures Rest(width, k) == k % B.Power(width)
  {
  }

  lemma {:induction false} RowsAt(vc: Codec, width: nat, ws: seq<WC.Write>, i: nat)
    requires i < |ws|
    ensures Rows(vc, width, ws)[2 * i] == B.Encode(Rest(width, ws[i].key), width)
    ensures Rows(vc, width, ws)[2 * i + 1] == vc.pack(ws[i].value)
  {
    hide B.Encode, Rest;
    if i < |ws| - 1 {
      RowsAt(vc, width, ws[..|ws| - 1], i);
    }
  }

  lemma NothingSkipped(all: seq<WC.Write>)
    ensures TS.AfterFirst(all, 0) == all
  {
  }

  lemma ReservedStep(ts: seq<Table>, prefixes: seq<nat>, tokens: U.Column, t: Table)
    requires |ts| < |prefixes| == 12 && ReservedTables(ts, prefixes, tokens) && RowsOk(t, tokens)
    requires t.name == ReservedNames()[|ts|] && t.width == 16 && t.prefix == prefixes[|ts|]
    ensures ReservedTables(ts + [t], prefixes, tokens)
  {
    hide RowsOk;
  }

  lemma DomainStep(ts: seq<Table>, domains: seq<nat>, tokens: U.Column, t: Table)
    requires |ts| < |domains| && DomainTables(ts, domains, tokens) && RowsOk(t, tokens)
    requires t.name == N.Text(domains[|ts|]) && t.width == 16 && t.prefix == domains[|ts|]
    ensures DomainTables(ts + [t], domains, tokens)
  {
    hide RowsOk, N.Text;
  }

  lemma AssetStep(ts: seq<Table>, ids: seq<nat>, assets: U.Column, t: Table)
    requires |ts| < |ids| && AssetTables(ts, ids, assets) && RowsOk(t, assets)
    requires t.name == AssetName(ids[|ts|]) && t.width == 33 && t.prefix == ids[|ts|]
    ensures AssetTables(ts + [t], ids, assets)
  {
    hide RowsOk, AssetName;
  }

  lemma NoTables(prefixes: seq<nat>, domains: seq<nat>, c: U.Column)
    requires |prefixes| == 12
    ensures ReservedTables([], prefixes, c) && DomainTables([], domains, c) && AssetTables([], domains, c)
  {
  }

  method AddReservedTokens(writer: S.SnapshotWriter, db: TS.TokenDb, vc: Codec, prefixes: seq<nat>)
    returns (domains: seq<nat>, ids: seq<nat>, ghost ts: seq<Table>)
    requires writer.Closed() && |prefixes| == 12
    modifies writer
    ensures writer.Closed() && writer.done == old(writer.done) + Sections(vc, ts)
    ensures |ts| == 12 && ReservedTables(ts, prefixes, db.tokens)
    ensures domains == Rests(16, ts[0].rows) && ids == Ids(Rests(16, ts[4].rows))
    ensures ts[0].name == ".domain" && |domains| == |ts[0].rows|
    ensures ts[4].name == ".fungible" && |ids| == |ts[4].rows|
    ensures forall j :: 0 <= j < |domains| ==> domains[j] == ts[0].rows[j].key % B.Power(16)
    ensures forall j :: 0 <= j < |ids| ==> ids[j] == ts[4].rows[j].key % B.Power(16) % 0x1_0000_0000
  {
    hide TS.RowsOf, Sections, S.Written, S.Joined, S.Head, Rests, Ids, ReservedTables, ReservedNames;
    NoTables(prefixes, [], db.tokens);
    domains, ids, ts := [], [], [];
    ghost var done := writer.done;
    NoSections(vc, done);
    for i := 0 to 12
      invariant writer.Closed() && writer.done == done + Sections(vc, ts)
      invariant |ts| == i && ReservedTables(ts, prefixes, db.tokens)
      invariant i > 0 ==> domains == Rests(16, ts[0].rows)
      invariant i > 4 ==> ids == Ids(Rests(16, ts[4].rows))
    {
      var rows, all := db.ReadTokensRange(PrefixIs(16, prefixes[i]), 0);
      NothingSkipped(all);
      var t := Table(ReservedNames()[i], 16, prefixes[i], rows);
      ReservedStep(ts, prefixes, db.tokens, t);
      AddTable(writer, vc, t);
      SectionsAppend(vc, ts, t, done);
      ts := ts + [t];
      if i == 0 {
        domains := Rests(16, rows);
      } else if i == 4 {
        ids := Ids(Rests(16, rows));
      }
    }
    ListsAre(ts, prefixes, db.tokens);
  }

  lemma ListsAre(ts: seq<Table>, prefixes: seq<nat>, tokens: U.Column)
    requires |ts| == 12 == |prefixes| && ReservedTables(ts, prefixes, tokens)
    ensures ts[0].name == ".domain" && ts[4].name == ".fungible"
    ensures forall j :: 0 <= j < |ts[0].rows| ==> Rests(16, ts[0].rows)[j] == ts[0].rows[j].key % B.Power(16)
    ensures forall j :: 0 <= j < |ts[4].rows| ==>
      Ids(Rests(16, ts[4].rows))[j] == ts[4].rows[j].key % B.Power(16) % 0x1_0000_0000
  {
    hide RowsOk, B.Power;
  }

  lemma NoSections(vc: Codec, done: seq<S.Section>)
    ensures done + Sections(vc, []) == done
  {
  }

  method AddTokens(writer: S.SnapshotWriter, db: TS.TokenDb, vc: Codec, domains: seq<nat>) returns (ghost ts: seq<Table>)
    requires writer.Closed()
    modifies writer
    ensures writer.Closed() && writer.done == old(writer.done) + Sections(vc, ts)
    ensures |ts| == |domains| && DomainTables(ts, domains, db.tokens)
  {
    hide TS.RowsOf, Sections, S.Written, S.Joined, S.Head, N.Text, DomainTables;
    NoTables(seq(12, _ => 0), domains, db.tokens);
    ts := [];
    ghost var done := writer.done;
    NoSections(vc, done);
    for i := 0 to |domains|
      invariant writer.Closed() && writer.done == done + Sections(vc, ts)
      invariant |ts| == i && DomainTables(ts, domains, db.tokens)
    {
      var rows, all := db.ReadTokensRange(PrefixIs(16, domains[i]), 0);
      NothingSkipped(all);
      var t := Table(N.Text(domains[i]), 16, domains[i], rows);
      DomainStep(ts, domains, db.tokens, t);
      AddTable(writer, vc, t);
      SectionsAppend(vc, ts, t, done);
      ts := ts + [t];
    }
  }

  method AddAssets(writer: S.SnapshotWriter, db: TS.TokenDb, vc: Codec, ids: seq<nat>) returns (ghost ts: seq<Table>)
    requires writer.Closed() && db.Ok()
    modifies writer, db
    ensures writer.Closed() && writer.done == old(writer.done) + Sections(vc, ts)
    ensures |ts| == |ids| && AssetTables(ts, ids, db.plain.assets)
    ensures db.Ok() && db.Now() == old(db.Now()) && db.plain == old(db.plain)
  {
    hide TS.RowsOf, Sections, S.Written, S.Joined, S.Head, AssetName, TD.Valid, TD.Matches, AssetTables;
    NoTables(seq(12, _ => 0), ids, db.plain.assets);
    ts := [];
    ghost var done := writer.done;
    NoSections(vc, done);
    for i := 0 to |ids|
      invariant writer.Closed() && writer.done == done + Sections(vc, ts)
      invariant |ts| == i && AssetTables(ts, ids, db.plain.assets)
      invariant db.Ok() && db.Now() == old(db.Now()) && db.plain == old(db.plain)
    {
      var rows, all := db.ReadAssetsRange(PrefixIs(33, ids[i]), 0);
      NothingSkipped(all);
      var t := Table(AssetName(ids[i]), 33, ids[i], rows);
      AssetStep(ts, ids, db.plain.assets, t);
      AddTable(writer, vc, t);
      SectionsAppend(vc, ts, t, done);
      ts := ts + [t];
    }
  }

  /** Writes every table of the database, assets as reads see them, and leaves the database as it was. */
  method AddToSnapshot(writer: S.SnapshotWriter, db: TS.TokenDb, vc: Codec, prefixes: seq<nat>) returns (ghost d: Dump)
    requires writer.Closed() && db.Ok() && |prefixes| == 12
    modifies writer, db
    ensures writer.Closed() && writer.done == old(writer.done) + Sections(vc, d.All())
    ensures IsDump(d, prefixes, db.plain.tokens, db.plain.assets)
    ensures db.Ok() && db.Now() == old(db.Now()) && db.plain == old(db.plain)
  {
    hide TS.RowsOf, Sections, S.Written, TD.Valid, ReservedTables, DomainTables, AssetTables, Rests, Ids;
    assert db.tokens == db.plain.tokens by {
      SameTokens(db);
    }
    hide TD.Matches;
    var domains, ids, reserved := AddReservedTokens(writer, db, vc, prefixes);
    var tokens := AddTokens(writer, db, vc, domains);
    var assets := AddAssets(writer, db, vc, ids);
    d := Dump(reserved, tokens, assets);
    SectionsJoin(vc, old(writer.done), reserved, tokens, assets);
  }

  lemma SameTokens(db: TS.TokenDb)
    requires db.Ok()
    ensures db.tokens == db.plain.tokens
  {
    hide TD.Valid, TD.FramesMatch, TD.ViewsMatch;
  }

  lemma SectionsJoin(vc: Codec, done: seq<S.Section>, a: seq<Table>, b: seq<Table>, c: seq<Table>)
    ensures done + Sections(vc, a) + Sections(vc, b) + Sections(vc, c) == done + Sections(vc, a + b + c)
  {
    hide SectionOf;
    assert Sections(vc, a) + Sections(vc, b) + Sections(vc, c) == Sections(vc, a + b + c);
  }

  // ---- Reading ----

  lemma {:induction false} RowAt(vc: Codec, width: nat, ws: seq<WC.Write>, j: nat)
    requires j < |ws|
    ensures Rows(vc, width, ws)[2 * j] == B.Encode(Rest(width, ws[j].key), width)
    ensures Rows(vc, width, ws)[2 * j + 1] == vc.pack(ws[j].value)
  {
    hide B.Encode, Rest;
    if j < |ws| - 1 {
      RowAt(vc, width, ws[..|ws| - 1], j);
    }
  }

  ghost predicate DistinctNames(ss: seq<S.Section>) {
    forall i, j :: 0 <= i < j < |ss| ==> ss[i].name != ss[j].name
  }

  /** The section of the table is among those of the file, and no other has its name. */
  ghost predicate Holds(ss: seq<S.Section>, vc: Codec, t: Table) {
    DistinctNames(ss) && SectionOf(vc, t) in ss
  }

  /** Goes to the section of the table. */
  method FindTable(reader: S.SnapshotReader, vc: Codec, name: string, ghost t: Table)
    requires reader.Valid() && Holds(reader.ss, vc, t) && t.name == name
    modifies reader
    ensures reader.Valid() && reader.AtRow(Rows(vc, t.width, t.rows), 0)
  {
    hide S.IsSnapshot, B.ReadsBack, S.Indexes, S.Joined, Rows, NameBytes;
    ghost var n :| 0 <= n < |reader.ss| && reader.ss[n] == SectionOf(vc, t);
    var ok, i := reader.SetSection(NameBytes(name));
    assert ok;
    assert i == n;
  }

  ghost predicate AllPrefixed(t: Table) {
    forall i :: 0 <= i < |t.rows| ==> Prefix(t.width, t.rows[i].key) == t.prefix
  }

  ghost predicate Fresh(db: TS.TokenDb)
    reads db, db.cache
  {
    db.Ok() && db.plain.stack == []
  }

  /** Reads the rest of a key and a value. */
  method ReadEntry(reader: S.SnapshotReader, vc: Codec, width: nat, prefix: nat, ghost ws: seq<WC.Write>, ghost j: nat)
    returns (rest: nat, w: WC.Write)
    requires reader.Valid() && reader.AtRow(Rows(vc, width, ws), 2 * j) && j < |ws|
    requires B.ReadsBack(vc) && Prefix(width, ws[j].key) == prefix
    modifies reader
    ensures reader.Valid() && reader.AtRow(Rows(vc, width, ws), 2 * j + 2)
    ensures w == ws[j] && rest == Rest(width, w.key)
  {
    hide S.IsSnapshot, B.ReadsBack, S.Indexes, S.Joined, Rows, B.Encode, B.Decode, B.Power, Rest, Prefix, Key;
    RowAt(vc, width, ws, j);
    KeyBack(width, ws[j].key);
    var k := reader.ReadRaw(width, Rows(vc, width, ws), 2 * j);
    var v := reader.ReadPacked(vc, Rows(vc, width, ws), 2 * j + 1, ws[j].value);
    rest := B.Decode(k);
    w := WC.Write(Key(width, prefix, rest), v);
  }

  lemma WrittenStep(c: U.Column, ws: seq<WC.Write>, j: nat)
    requires j < |ws|
    ensures TD.Written(c, ws[..j + 1]) == TD.Written(c, ws[..j])[ws[j].key := ws[j].value]
    ensures TD.Written(c, ws[..0]) == c
  {
    assert ws[..j + 1][..j] == ws[..j];
    assert ws[..0] == [];
  }

  lemma RestsStep(width: nat, ws: seq<WC.Write>, j: nat)
    requires j < |ws|
    ensures Rests(width, ws[..j + 1]) == Rests(width, ws[..j]) + [Rest(width, ws[j].key)]
  {
    hide Rest;
  }

  lemma AllOf(c: U.Column, width: nat, ws: seq<WC.Write>)
    ensures ws[..|ws|] == ws && TD.Written(c, ws[..0]) == c && Rests(width, ws[..0]) == []
  {
    assert ws[..0] == [];
  }

  /** Puts one token into a database without savepoints. */
  method PutToken(db: TS.TokenDb, w: WC.Write)
    requires Fresh(db)
    modifies db
    ensures Fresh(db)
    ensures db.plain == old(db.plain).(tokens := old(db.plain).tokens[w.key := w.value])
  {
    hide TD.Valid;
    TD.FrameCount(db.Now(), db.plain);
    hide TD.Matches;
    OneWrite(db.plain.tokens, w);
    db.PutTokens(U.Put, [w]);
  }

  lemma OneWrite(c: U.Column, w: WC.Write)
    ensures TD.Written(c, [w]) == c[w.key := w.value]
  {
    assert [w][..0] == [];
  }

  method PutAsset(db: TS.TokenDb, w: WC.Write)
    requires Fresh(db)
    modifies db, db.cache
    ensures Fresh(db)
    ensures db.plain == old(db.plain).(assets := old(db.plain).assets[w.key := w.value])
  {
    hide TD.Valid;
    TD.FrameCount(db.Now(), db.plain);
    hide TD.Matches;
    db.PutAsset(w.key, w.value);
  }

  /** Reads a table of tokens and puts its entries; returns the rests of the keys, in order. */
  method ReadTokenTable(reader: S.SnapshotReader, db: TS.TokenDb, vc: Codec, name: string, prefix: nat, ghost t: Table)
    returns (rests: seq<nat>)
    requires reader.Valid() && Holds(reader.ss, vc, t) && t.name == name && t.prefix == prefix && t.width == 16 && AllPrefixed(t)
    requires Fresh(db) && B.ReadsBack(vc)
    modifies reader, db
    ensures reader.Valid() && Fresh(db)
    ensures db.plain == old(db.plain).(tokens := TD.Written(old(db.plain).tokens, t.rows))
    ensures rests == Rests(16, t.rows)
  {
    hide S.IsSnapshot, B.ReadsBack, S.Indexes, S.Joined, Rows, Rest, Prefix, Rests, TD.Written, TD.Valid, TD.Matches;
    ghost var start, ws, j := db.plain, t.rows, 0;
    FindTable(reader, vc, name, t);
    rests := [];
    AllOf(start.tokens, 16, ws);
    var end := reader.Eof();
    while !end
      invariant reader.Valid() && Fresh(db) && j <= |ws| && reader.AtRow(Rows(vc, 16, ws), 2 * j)
      invariant end == (j == |ws|)
      invariant db.plain == start.(tokens := TD.Written(start.tokens, ws[..j])) && rests == Rests(16, ws[..j])
      decreases |ws| - j
    {
      var k, w := ReadEntry(reader, vc, 16, prefix, ws, j);
      WrittenStep(start.tokens, ws, j);
      RestsStep(16, ws, j);
      PutToken(db, w);
      rests := rests + [k];
      j := j + 1;
      end := reader.Eof();
    }
  }

  method ReadAssetTable(reader: S.SnapshotReader, db: TS.TokenDb, vc: Codec, name: string, prefix: nat, ghost t: Table)
    requires reader.Valid() && Holds(reader.ss, vc, t) && t.name == name && t.prefix == prefix && t.width == 33 && AllPrefixed(t)
    requires Fresh(db) && B.ReadsBack(vc)
    modifies reader, db, db.cache
    ensures reader.Valid() && Fresh(db)
    ensures db.plain == old(db.plain).(assets := TD.Written(old(db.plain).assets, t.rows))
  {
    hide S.IsSnapshot, B.ReadsBack, S.Indexes, S.Joined, Rows, Rest, Prefix, Rests, TD.Written, TD.Valid, TD.Matches;
    ghost var start, ws, j := db.plain, t.rows, 0;
    FindTable(reader, vc, name, t);
    AllOf(start.assets, 33, ws);
    var end := reader.Eof();
    while !end
      invariant reader.Valid() && Fresh(db) && j <= |ws| && reader.AtRow(Rows(vc, 33, ws), 2 * j)
      invariant end == (j == |ws|)
      invariant db.plain == start.(assets := TD.Written(start.assets, ws[..j]))
      decreases |ws| - j
    {
      var _, w := ReadEntry(reader, vc, 33, prefix, ws, j);
      WrittenStep(start.assets, ws, j);
      PutAsset(db, w);
      j := j + 1;
      end := reader.Eof();
    }
  }

  // ---- The copy is the original ----

  /** The copy holds exactly the entries of the original under the prefixes read so far. */
  ghost predicate Copied(width: nat, copy: U.Column, c: U.Column, done: set<nat>) {
    forall k :: WC.ReadColumn(copy, k) == if Prefix(width, k) in done then WC.ReadColumn(c, k) else None
  }

  lemma {:induction false} WrittenAt(copy: U.Column, c: U.Column, ws: seq<WC.Write>, k: U.Key)
    requires forall i :: 0 <= i < |ws| ==> WC.ReadColumn(c, ws[i].key) == Some(ws[i].value)
    ensures WC.ReadColumn(TD.Written(copy, ws), k) ==
      if exists i :: 0 <= i < |ws| && ws[i].key == k then WC.ReadColumn(c, k) else WC.ReadColumn(copy, k)
  {
    if ws != [] {
      var init := ws[..|ws| - 1];
      WrittenAt(copy, c, init, k);
      assert forall i :: 0 <= i < |init| ==> init[i] == ws[i];
      if ws[|ws| - 1].key != k && exists i :: 0 <= i < |ws| && ws[i].key == k {
        var i :| 0 <= i < |ws| && ws[i].key == k;
        assert init[i].key == k;
      }
    }
  }

  lemma CopiedStep(t: Table, copy: U.Column, c: U.Column, done: set<nat>)
    requires RowsOk(t, c) && Copied(t.width, copy, c, done)
    ensures Copied(t.width, TD.Written(copy, t.rows), c, done + {t.prefix}) && AllPrefixed(t)
  {
    hide TD.Written, Prefix;
    var ws := t.rows;
    forall k ensures WC.ReadColumn(TD.Written(copy, ws), k) ==
      if Prefix(t.width, k) in done + {t.prefix} then WC.ReadColumn(c, k) else None
    {
      WrittenAt(copy, c, ws, k);
      assert WC.ReadColumn(copy, k) == if Prefix(t.width, k) in done then WC.ReadColumn(c, k) else None;
      if k in c && Prefix(t.width, k) == t.prefix {
        assert PrefixIs(t.width, t.prefix)(k);
      }
    }
    forall i | 0 <= i < |t.rows| ensures Prefix(t.width, t.rows[i].key) == t.prefix {
      assert PrefixIs(t.width, t.prefix)(t.rows[i].key);
    }
  }

  ghost predicate HoldsAll(ss: seq<S.Section>, vc: Codec, ts: seq<Table>) {
    DistinctNames(ss) && forall i :: 0 <= i < |ts| ==> SectionOf(vc, ts[i]) in ss
  }

  lemma HoldsEach(ss: seq<S.Section>, vc: Codec, ts: seq<Table>, i: nat)
    requires HoldsAll(ss, vc, ts) && i < |ts|
    ensures Holds(ss, vc, ts[i])
  {
  }

  lemma HoldsParts(ss: seq<S.Section>, vc: Codec, a: seq<Table>, b: seq<Table>, c: seq<Table>)
    requires DistinctNames(ss) && ss == Sections(vc, a + b + c)
    ensures HoldsAll(ss, vc, a) && HoldsAll(ss, vc, b) && HoldsAll(ss, vc, c)
  {
    hide SectionOf, DistinctNames;
    var all := a + b + c;
    forall i | 0 <= i < |a| ensures SectionOf(vc, a[i]) in ss {
      assert ss[i] == SectionOf(vc, all[i]);
    }
    forall i | 0 <= i < |b| ensures SectionOf(vc, b[i]) in ss {
      assert ss[|a| + i] == SectionOf(vc, all[|a| + i]);
    }
    forall i | 0 <= i < |c| ensures SectionOf(vc, c[i]) in ss {
      assert ss[|a| + |b| + i] == SectionOf(vc, all[|a| + |b| + i]);
    }
  }

  ghost function SetOf(xs: seq<nat>): set<nat> {
    set x | x in xs
  }

  method ReadReservedTokens(reader: S.SnapshotReader, db: TS.TokenDb, vc: Codec, prefixes: seq<nat>,
                            ghost ts: seq<Table>, ghost c: U.Column)
    returns (domains: seq<nat>, ids: seq<nat>)
    requires reader.Valid() && HoldsAll(reader.ss, vc, ts) && Fresh(db) && B.ReadsBack(vc)
    requires |prefixes| == 12 && |ts| == 12 && ReservedTables(ts, prefixes, c) && Copied(16, db.plain.tokens, c, {})
    modifies reader, db
    ensures reader.Valid() && Fresh(db) && Copied(16, db.plain.tokens, c, SetOf(prefixes))
    ensures db.plain.assets == old(db.plain.assets)
    ensures domains == Rests(16, ts[0].rows) && ids == Ids(Rests(16, ts[4].rows))
  {
    hide S.IsSnapshot, B.ReadsBack, S.Indexes, RowsOk, Copied, TD.Valid, TD.Matches, Rests, Ids, HoldsAll, Holds, AllPrefixed, Fresh,
      ReservedTables, ReservedNames, SetOf;
    NoneDone(prefixes);
    domains, ids := [], [];
    ghost var done: set<nat> := {};
    for i := 0 to 12
      invariant reader.Valid() && Fresh(db)
      invariant Copied(16, db.plain.tokens, c, done) && done == SetOf(prefixes[..i])
      invariant db.plain.assets == old(db.plain.assets)
      invariant i > 0 ==> domains == Rests(16, ts[0].rows)
      invariant i > 4 ==> ids == Ids(Rests(16, ts[4].rows))
    {
      HoldsEach(reader.ss, vc, ts, i);
      ReservedAt(ts, prefixes, c, i);
      CopiedStep(ts[i], db.plain.tokens, c, done);
      var rests := ReadTokenTable(reader, db, vc, ReservedNames()[i], prefixes[i], ts[i]);
      SetOfStep(prefixes, i);
      done := done + {prefixes[i]};
      if i == 0 {
        domains := rests;
      } else if i == 4 {
        ids := Ids(rests);
      }
    }
    assert prefixes[..12] == prefixes;
  }

  lemma NoneDone(xs: seq<nat>)
    ensures SetOf(xs[..0]) == {}
  {
  }

  lemma ReservedAt(ts: seq<Table>, prefixes: seq<nat>, c: U.Column, i: nat)
    requires i < |ts| <= |prefixes| == 12 && ReservedTables(ts, prefixes, c)
    ensures ts[i].name == ReservedNames()[i] && ts[i].width == 16 && ts[i].prefix == prefixes[i] && RowsOk(ts[i], c)
  {
    hide RowsOk, ReservedNames;
  }

  lemma SetOfStep(xs: seq<nat>, i: nat)
    requires i < |xs|
    ensures SetOf(xs[..i + 1]) == SetOf(xs[..i]) + {xs[i]}
  {
    assert xs[..i + 1] == xs[..i] + [xs[i]];
  }

  method ReadTokens(reader: S.SnapshotReader, db: TS.TokenDb, vc: Codec, domains: seq<nat>,
                    ghost ts: seq<Table>, ghost c: U.Column, ghost before: set<nat>)
    requires reader.Valid() && HoldsAll(reader.ss, vc, ts) && Fresh(db) && B.ReadsBack(vc)
    requires |ts| == |domains| && DomainTables(ts, domains, c) && Copied(16, db.plain.tokens, c, before)
    modifies reader, db
    ensures reader.Valid() && Fresh(db) && Copied(16, db.plain.tokens, c, before + SetOf(domains))
    ensures db.plain.assets == old(db.plain.assets)
  {
    hide S.IsSnapshot, B.ReadsBack, S.Indexes, RowsOk, Copied, TD.Valid, TD.Matches, HoldsAll, Holds, AllPrefixed, Fresh, N.Text;
    ghost var done := before;
    assert done == before + SetOf(domains[..0]);
    for i := 0 to |domains|
      invariant reader.Valid() && Fresh(db)
      invariant Copied(16, db.plain.tokens, c, done) && done == before + SetOf(domains[..i])
      invariant db.plain.assets == old(db.plain.assets)
    {
      HoldsEach(reader.ss, vc, ts, i);
      CopiedStep(ts[i], db.plain.tokens, c, done);
      var _ := ReadTokenTable(reader, db, vc, N.Text(domains[i]), domains[i], ts[i]);
      SetOfStep(domains, i);
      done := done + {domains[i]};
    }
    assert domains[..|domains|] == domains;
  }

  method ReadAssets(reader: S.SnapshotReader, db: TS.TokenDb, vc: Codec, ids: seq<nat>,
                    ghost ts: seq<Table>, ghost c: U.Column)
    requires reader.Valid() && HoldsAll(reader.ss, vc, ts) && Fresh(db) && B.ReadsBack(vc)
    requires |ts| == |ids| && AssetTables(ts, ids, c) && Copied(33, db.plain.assets, c, {})
    modifies reader, db, db.cache
    ensures reader.Valid() && Fresh(db) && Copied(33, db.plain.assets, c, SetOf(ids))
    ensures db.plain.tokens == old(db.plain.tokens)
  {
    hide S.IsSnapshot, B.ReadsBack, S.Indexes, RowsOk, Copied, TD.Valid, TD.Matches, HoldsAll, Holds, AllPrefixed, Fresh, AssetName;
    ghost var done: set<nat> := {};
    assert done == SetOf(ids[..0]);
    for i := 0 to |ids|
      invariant reader.Valid() && Fresh(db)
      invariant Copied(33, db.plain.assets, c, done) && done == SetOf(ids[..i])
      invariant db.plain.tokens == old(db.plain.tokens)
    {
      HoldsEach(reader.ss, vc, ts, i);
      CopiedStep(ts[i], db.plain.assets, c, done);
      ReadAssetTable(reader, db, vc, AssetName(ids[i]), ids[i], ts[i]);
      SetOfStep(ids, i);
      done := done + {ids[i]};
    }
    assert ids[..|ids|] == ids;
  }

  /** Every token is under a reserved prefix or a registered domain. */
  ghost predicate TokensRegistered(prefixes: seq<nat>, tokens: U.Column)
    requires |prefixes| == 12
  {
    forall k :: k in tokens ==>
      Prefix(16, k) in prefixes || (0 <= Prefix(16, k) < B.Power(16) && Key(16, prefixes[0], Prefix(16, k)) in tokens)
  }

  /** Every asset is of a symbol id that is the low half word of a registered fungible. */
  ghost predicate AssetsRegistered(prefixes: seq<nat>, tokens: U.Column, assets: U.Column)
    requires |prefixes| == 12
  {
    forall a :: a in assets ==> exists n: nat :: n < B.Power(16) && SymbolOf(n, a) && Key(16, prefixes[4], n) in tokens
  }

  predicate SymbolOf(n: nat, a: U.Key) {
    n % U32 == Prefix(33, a)
  }

  /** A registered name is among the rests of the rows of its table. */
  lemma RestListed(t: Table, c: U.Column, n: nat)
    requires RowsOk(t, c) && n < B.Power(t.width) && Key(t.width, t.prefix, n) in c
    ensures n in Rests(t.width, t.rows)
  {
    hide B.Power, Prefix, Rest, Key;
    var k := Key(t.width, t.prefix, n);
    KeyParts(t.width, t.prefix, n);
    assert PrefixIs(t.width, t.prefix)(k);
    var i :| 0 <= i < |t.rows| && t.rows[i].key == k;
    assert Rests(t.width, t.rows)[i] == n;
  }

  lemma CopiedAll(width: nat, copy: U.Column, c: U.Column, done: set<nat>)
    requires Copied(width, copy, c, done) && forall k :: k in c ==> Prefix(width, k) in done
    ensures copy == c
  {
    hide Prefix;
    forall k ensures WC.ReadColumn(copy, k) == WC.ReadColumn(c, k) {
      assert WC.ReadColumn(copy, k) == if Prefix(width, k) in done then WC.ReadColumn(c, k) else None;
    }
    TD.SameReads(copy, c);
  }

  lemma AllTokensCopied(copy: U.Column, tokens: U.Column, prefixes: seq<nat>, t: Table)
    requires |prefixes| == 12 && TokensRegistered(prefixes, tokens)
    requires t.width == 16 && t.prefix == prefixes[0] && RowsOk(t, tokens)
    requires Copied(16, copy, tokens, SetOf(prefixes) + SetOf(Rests(16, t.rows)))
    ensures copy == tokens
  {
    hide Prefix, RowsOk, Copied, Key, Rests, B.Power;
    var done := SetOf(prefixes) + SetOf(Rests(16, t.rows));
    forall k | k in tokens ensures Prefix(16, k) in done {
      if Prefix(16, k) !in prefixes {
        RestListed(t, tokens, Prefix(16, k));
      }
    }
    CopiedAll(16, copy, tokens, done);
  }

  lemma AllAssetsCopied(copy: U.Column, tokens: U.Column, assets: U.Column, prefixes: seq<nat>, t: Table)
    requires |prefixes| == 12 && AssetsRegistered(prefixes, tokens, assets)
    requires t.width == 16 && t.prefix == prefixes[4] && RowsOk(t, tokens)
    requires Copied(33, copy, assets, SetOf(Ids(Rests(16, t.rows))))
    ensures copy == assets
  {
    hide Prefix, RowsOk, Copied, Key, Rests, B.Power;
    var names := Rests(16, t.rows);
    var done := SetOf(Ids(names));
    forall a | a in assets ensures Prefix(33, a) in done {
      var n: nat :| n < B.Power(16) && SymbolOf(n, a) && Key(16, prefixes[4], n) in tokens;
      RestListed(t, tokens, n);
      var i :| 0 <= i < |names| && names[i] == n;
      assert Ids(names)[i] == n % U32;
    }
    CopiedAll(33, copy, assets, done);
  }

  /**
   Reading a dump of a database into an empty one reproduces every token and every asset, when tokens and assets are
   registered and no two sections have the same name.
   */
  method ReadFromSnapshot(reader: S.SnapshotReader, db: TS.TokenDb, vc: Codec, prefixes: seq<nat>,
                          ghost d: Dump, ghost tokens: U.Column, ghost assets: U.Column)
    requires reader.Valid() && DistinctNames(reader.ss) && reader.ss == Sections(vc, d.All()) && B.ReadsBack(vc)
    requires |prefixes| == 12 && IsDump(d, prefixes, tokens, assets)
    requires TokensRegistered(prefixes, tokens) && AssetsRegistered(prefixes, tokens, assets)
    requires Fresh(db) && db.plain.tokens == map[] && db.plain.assets == map[]
    modifies reader, db, db.cache
    ensures Fresh(db) && db.plain == TD.Plain(tokens, assets, [])
  {
    hide S.IsSnapshot, B.ReadsBack, S.Indexes, RowsOk, Copied, TD.Valid, TD.Matches, HoldsAll, Sections, Rests, Ids,
      TokensRegistered, AssetsRegistered, DomainTables, AssetTables, SetOf;
    HoldsParts(reader.ss, vc, d.reserved, d.domains, d.assets);
    assert Copied(16, db.plain.tokens, tokens, {}) && Copied(33, db.plain.assets, assets, {}) by {
      NothingCopied(16, tokens);
      NothingCopied(33, assets);
    }
    var domains, ids := ReadReservedTokens(reader, db, vc, prefixes, d.reserved, tokens);
    ReadTokens(reader, db, vc, domains, d.domains, tokens, SetOf(prefixes));
    AllTokensCopied(db.plain.tokens, tokens, prefixes, d.reserved[0]);
    ReadAssets(reader, db, vc, ids, d.assets, assets);
    AllAssetsCopied(db.plain.assets, tokens, assets, prefixes, d.reserved[4]);
  }

  lemma NothingCopied(width: nat, c: U.Column)
    ensures Copied(width, map[], c, {})
  {
  }

  // ---- Section names ----

  /** Domains carry proper names, and the names of fungibles are numbers of 32 bits. */
  ghost predicate ProperNames(prefixes: seq<nat>, tokens: U.Column)
    requires |prefixes| == 12
  {
    forall k :: k in tokens ==>
      && (Prefix(16, k) == prefixes[0] ==> DomainName(Rest(16, k)))
      && (Prefix(16, k) == prefixes[4] ==> Rest(16, k) < U32)
  }

  /** The rests of the rows of one prefix are different. */
  lemma RestsDiffer(t: Table, c: U.Column, i: nat, j: nat)
    requires RowsOk(t, c) && i < j < |t.rows|
    ensures Rests(t.width, t.rows)[i] != Rests(t.width, t.rows)[j]
    ensures Prefix(t.width, t.rows[i].key) == t.prefix == Prefix(t.width, t.rows[j].key)
    ensures t.rows[i].key in c && t.rows[j].key in c
  {
    hide B.Power, Rest, Prefix;
    var k, l := t.rows[i].key, t.rows[j].key;
    assert PrefixIs(t.width, t.prefix)(k) && PrefixIs(t.width, t.prefix)(l);
    hide Key;
    KeyBack(t.width, k);
    KeyBack(t.width, l);
  }

  lemma RestIsProper(t: Table, c: U.Column, prefixes: seq<nat>, i: nat)
    requires |prefixes| == 12 && ProperNames(prefixes, c) && RowsOk(t, c) && t.width == 16 && i < |t.rows|
    ensures t.prefix == prefixes[0] ==> DomainName(Rests(16, t.rows)[i])
    ensures t.prefix == prefixes[4] ==> Rests(16, t.rows)[i] < U32
  {
    hide B.Power, Rest, Prefix, DomainName;
    assert PrefixIs(16, t.prefix)(t.rows[i].key);
    assert t.rows[i].key in c;
  }

  /** The i-th name of a dump, and what kind it is. */
  lemma NameShape(d: Dump, prefixes: seq<nat>, tokens: U.Column, assets: U.Column, i: nat)
    requires |prefixes| == 12 && IsDump(d, prefixes, tokens, assets) && ProperNames(prefixes, tokens) && i < |d.All()|
    ensures Plain(d.All()[i].name)
    ensures i < 12 ==> d.All()[i].name == ReservedNames()[i]
    ensures 12 <= i < 12 + |d.domains| ==>
      d.All()[i].name == N.Text(Rests(16, d.reserved[0].rows)[i - 12]) && DomainName(Rests(16, d.reserved[0].rows)[i - 12])
    ensures 12 + |d.domains| <= i ==>
      d.All()[i].name == AssetName(Ids(Rests(16, d.reserved[4].rows))[i - 12 - |d.domains|])
  {
    hide RowsOk, ReservedNames, DomainName, Plain, Rests, Ids, N.Text, AssetName, ProperNames;
    var n := 12 + |d.domains|;
    if i < 12 {
      assert d.All()[i] == d.reserved[i];
      ReservedMarks(i);
    } else if i < n {
      assert d.All()[i] == d.domains[i - 12];
      RestIsProper(d.reserved[0], tokens, prefixes, i - 12);
      DomainShape(Rests(16, d.reserved[0].rows)[i - 12]);
    } else {
      assert d.All()[i] == d.assets[i - n];
      AssetShape(Ids(Rests(16, d.reserved[4].rows))[i - n]);
    }
  }

  lemma IdsDiffer(d: Dump, prefixes: seq<nat>, tokens: U.Column, assets: U.Column, i: nat, j: nat)
    requires |prefixes| == 12 && IsDump(d, prefixes, tokens, assets) && ProperNames(prefixes, tokens) && i < j < |d.assets|
    ensures Ids(Rests(16, d.reserved[4].rows))[i] != Ids(Rests(16, d.reserved[4].rows))[j]
  {
    hide RowsOk, ReservedNames, Rests, ProperNames, DomainName, Ids;
    var t := d.reserved[4];
    RestsDiffer(t, tokens, i, j);
    RestIsProper(t, tokens, prefixes, i);
    RestIsProper(t, tokens, prefixes, j);
    SmallId(Rests(16, t.rows), i);
    SmallId(Rests(16, t.rows), j);
  }

  lemma SmallId(names: seq<nat>, i: nat)
    requires i < |names| && names[i] < U32
    ensures Ids(names)[i] == names[i]
  {
  }

  /** No two sections of a dump have the same name. */
  lemma NamesDiffer(d: Dump, prefixes: seq<nat>, tokens: U.Column, assets: U.Column, i: nat, j: nat)
    requires |prefixes| == 12 && IsDump(d, prefixes, tokens, assets) && ProperNames(prefixes, tokens) && i < j < |d.All()|
    ensures d.All()[i].name != d.All()[j].name
  {
    hide RowsOk, ReservedNames, DomainName, Plain, Rests, Ids, N.Text, AssetName, ProperNames, ReservedTables, DomainTables, AssetTables;
    NameShape(d, prefixes, tokens, assets, i);
    NameShape(d, prefixes, tokens, assets, j);
    var n := 12 + |d.domains|;
    var domains, ids := Rests(16, d.reserved[0].rows), Ids(Rests(16, d.reserved[4].rows));
    if i < 12 {
      ReservedMarks(i);
    }
    if j >= n {
      AssetShape(ids[j - n]);
    }
    if j < 12 {
      ReservedDiffer(i, j);
    } else if 12 <= j < n {
      DomainShape(domains[j - 12]);
      if i >= 12 {
        TwoDomains(d, prefixes, tokens, assets, i - 12, j - 12);
      }
    } else if 12 <= i < n {
      DomainShape(domains[i - 12]);
    } else if i >= n {
      IdsDiffer(d, prefixes, tokens, assets, i - n, j - n);
      AssetsDiffer(ids[i - n], ids[j - n]);
    }
  }

  lemma TwoDomains(d: Dump, prefixes: seq<nat>, tokens: U.Column, assets: U.Column, i: nat, j: nat)
    requires |prefixes| == 12 && IsDump(d, prefixes, tokens, assets) && ProperNames(prefixes, tokens) && i < j < |d.domains|
    ensures N.Text(Rests(16, d.reserved[0].rows)[i]) != N.Text(Rests(16, d.reserved[0].rows)[j])
  {
    hide RowsOk, ReservedNames, DomainName, Rests, N.Text, ProperNames;
    var t := d.reserved[0];
    RestsDiffer(t, tokens, i, j);
    RestIsProper(t, tokens, prefixes, i);
    RestIsProper(t, tokens, prefixes, j);
    DomainsDiffer(Rests(16, t.rows)[i], Rests(16, t.rows)[j]);
  }

  /** The sections of every dump stay within the 64-bit sizes of the file format. */
  ghost predicate SizesFit(zip: Zip, vc: Codec, prefixes: seq<nat>, tokens: U.Column, assets: U.Column)
    requires |prefixes| == 12
  {
    forall d :: IsDump(d, prefixes, tokens, assets) ==> AllSizesFit(zip, Sections(vc, d.All()))
  }

  ghost predicate AllSizesFit(zip: Zip, ss: seq<S.Section>) {
    forall i :: 0 <= i < |ss| ==> |ss[i].rows| < B.U64 && S.SectionSize(zip, ss[i]) < B.U64 / 2
  }

  ghost predicate SectionsFit(zip: Zip, ss: seq<S.Section>) {
    DistinctNames(ss) && forall i :: 0 <= i < |ss| ==> S.Fits(zip, ss[i])
  }

  /** Proper names make every dump one that the file format can hold. */
  lemma DumpFits(d: Dump, zip: Zip, vc: Codec, prefixes: seq<nat>, tokens: U.Column, assets: U.Column)
    requires |prefixes| == 12 && IsDump(d, prefixes, tokens, assets) && ProperNames(prefixes, tokens)
    requires AllSizesFit(zip, Sections(vc, d.All()))
    ensures SectionsFit(zip, Sections(vc, d.All()))
  {
    hide IsDump, ProperNames, Plain, Rows, NameBytes, ReservedNames, N.Text, AssetName, DomainName, Rests, Ids, S.SectionSize, S.NameOk;
    var ss := Sections(vc, d.All());
    forall i, j | 0 <= i < j < |ss| ensures ss[i].name != ss[j].name {
      NamesDiffer(d, prefixes, tokens, assets, i, j);
      NameShape(d, prefixes, tokens, assets, i);
      NameShape(d, prefixes, tokens, assets, j);
      BytesDiffer(d.All()[i].name, d.All()[j].name);
    }
    forall i | 0 <= i < |ss| ensures S.Fits(zip, ss[i]) {
      NameShape(d, prefixes, tokens, assets, i);
      PlainIsOk(d.All()[i].name);
    }
  }

  lemma FileIsSnapshot(zip: Zip, ss: seq<S.Section>, file: seq<B.byte>)
    requires SectionsFit(zip, ss) && file == S.Written(zip, ss) + B.Encode64(S.END)
    ensures S.IsSnapshot(zip, ss, file) && DistinctNames(ss)
  {
    hide S.Written, B.Encode64, S.Fits;
  }

  /** Through a snapshot file and back: the copy holds every token and every asset, and nothing else. */
  method CopyThroughSnapshot(db: TS.TokenDb, zip: Zip, vc: Codec, prefixes: seq<nat>) returns (copy: TS.TokenDb)
    requires db.Ok() && |prefixes| == 12 && B.ReadsBack(zip) && B.ReadsBack(vc)
    requires TokensRegistered(prefixes, db.plain.tokens)
    requires AssetsRegistered(prefixes, db.plain.tokens, db.plain.assets)
    requires ProperNames(prefixes, db.plain.tokens) && SizesFit(zip, vc, prefixes, db.plain.tokens, db.plain.assets)
    modifies db
    ensures db.Ok() && db.Now() == old(db.Now()) && db.plain == old(db.plain)
    ensures fresh(copy) && copy.Ok() && copy.plain == TD.Plain(db.plain.tokens, db.plain.assets, [])
  {
    hide S.IsSnapshot, B.ReadsBack, S.Indexes, S.Written, B.Encode64, TD.Valid, TD.Matches, Sections, SectionsFit, IsDump,
      TokensRegistered, AssetsRegistered, DistinctNames, AllSizesFit, ProperNames;
    var writer := new S.SnapshotWriter(zip);
    var d := AddToSnapshot(writer, db, vc, prefixes);
    ghost var ss := Sections(vc, d.All());
    assert [] + ss == ss;
    writer.Finalize();
    var file := writer.out;
    DumpFits(d, zip, vc, prefixes, db.plain.tokens, db.plain.assets);
    FileIsSnapshot(zip, ss, file);
    var reader := new S.SnapshotReader(file, zip, ss);
    copy := new TS.TokenDb(map[], map[]);
    ReadFromSnapshot(reader, copy, vc, prefixes, d, db.plain.tokens, db.plain.assets);
  }
}
