/**
 The binary snapshot container (libraries/chain/snapshot.cpp): named sections of rows, each section a size and a
 row count patched in after its rows are written, a name ended by a zero byte, and the compressed rows.
 */
module Snapshot {
  import opened Wrappers
  import opened Bytes

  const MAGIC: nat := 0x30510550
  const VERSION: nat := 4
  const END: nat := U64 - 1

  type Row = seq<byte>

  datatype Section = Section(name: seq<byte>, rows: seq<Row>)

  // ---- The file ----

  function Joined(rows: seq<Row>): seq<byte> {
    if rows == [] then [] else Joined(rows[..|rows| - 1]) + rows[|rows| - 1]
  }

  function Payload(zip: Codec<seq<byte>>, s: Section): seq<byte> {
    zip.pack(Joined(s.rows))
  }

  function Head(size: nat, count: nat, name: seq<byte>): (r: seq<byte>)
    ensures |r| == 17 + |name|
  {
    Encode64(size) + Encode64(count) + name + [0]
  }

  /** The size of a section counts everything behind the size itself. */
  function SectionSize(zip: Codec<seq<byte>>, s: Section): nat {
    9 + |s.name| + |Payload(zip, s)|
  }

  function SectionBytes(zip: Codec<seq<byte>>, s: Section): (r: seq<byte>)
    ensures |r| == 8 + SectionSize(zip, s)
  {
    Head(SectionSize(zip, s), |s.rows|, s.name) + Payload(zip, s)
  }

  function Opening(): (r: seq<byte>)
    ensures |r| == 8
  {
    Encode(MAGIC, 4) + Encode(VERSION, 4)
  }

  function Written(zip: Codec<seq<byte>>, ss: seq<Section>): (r: seq<byte>)
    ensures |r| >= 8
  {
    if ss == [] then Opening() else Written(zip, ss[..|ss| - 1]) + SectionBytes(zip, ss[|ss| - 1])
  }

  /** A file begins with the magic number and the version, and ends with eight bytes 255. */
  lemma OpeningBytes()
    ensures Opening() == [0x50, 0x05, 0x51, 0x30, 4, 0, 0, 0]
  {
    FourBytes(MAGIC, [0x50, 0x05, 0x51, 0x30]);
    FourBytes(VERSION, [4, 0, 0, 0]);
  }

  lemma FourBytes(n: nat, s: seq<byte>)
    requires |s| == 4 && n == s[0] as int + 256 * (s[1] as int + 256 * (s[2] as int + 256 * s[3] as int))
    ensures Encode(n, 4) == s
  {
    assert Decode(s[3..]) == s[3] as int && Decode(s[2..]) == s[2] as int + 256 * s[3] as int;
    assert s[1..][1..] == s[2..];
    EncodeDecode(s);
  }

  // ---- The writer ----

  lemma WrittenAppend(zip: Codec<seq<byte>>, ss: seq<Section>, s: Section)
    ensures Written(zip, ss + [s]) == Written(zip, ss) + SectionBytes(zip, s)
  {
    assert (ss + [s])[..|ss + [s]| - 1] == ss;
  }

  lemma JoinedAppend(rows: seq<Row>, r: Row)
    ensures Joined(rows + [r]) == Joined(rows) + r
  {
    assert (rows + [r])[..|rows + [r]| - 1] == rows;
  }

  /** Writing size and count over the placeholders. */
  lemma Patched(w: seq<byte>, size: nat, count: nat, name: seq<byte>, payload: seq<byte>)
    ensures var out := w + Head(END, END, name) + payload;
      |w| + 16 <= |out| &&
      out[..|w|] + Encode64(size) + Encode64(count) + out[|w| + 16..] == w + (Head(size, count, name) + payload)
  {
    hide Encode64;
    var out := w + Head(END, END, name) + payload;
    assert out[..|w|] == w;
    assert out[|w| + 16..] == name + [0] + payload;
  }

  class SnapshotWriter {
    var out: seq<byte>
    var sectionPos: Option<nat>
    var rowCount: nat
    var rowStream: Option<seq<byte>>
    const zip: Codec<seq<byte>>
    /** The sections written, and the one being written. */
    ghost var done: seq<Section>
    ghost var current: Section

    ghost predicate Closed()
      reads this
    {
      sectionPos.None? && rowStream.None? && out == Written(zip, done)
    }

    ghost predicate Open()
      reads this
    {
      && sectionPos == Some(|Written(zip, done)|) && rowStream == Some(Joined(current.rows))
      && rowCount == |current.rows| && out == Written(zip, done) + Head(END, END, current.name)
    }

    constructor (zip: Codec<seq<byte>>)
      ensures Closed() && done == [] && this.zip == zip
      ensures out == [0x50, 0x05, 0x51, 0x30, 4, 0, 0, 0]
    {
      OpeningBytes();
      this.zip := zip;
      sectionPos, rowCount, rowStream := None, 0, None;
      done, current := [], Section([], []);
      out := Encode(MAGIC, 4) + Encode(VERSION, 4);
    }

    /** Refused while another section is open. */
    method StartSection(name: seq<byte>) returns (ok: bool)
      requires Closed() || Open()
      modifies this
      ensures ok == old(sectionPos.None?)
      ensures ok ==> Open() && current == Section(name, []) && done == old(done)
      ensures !ok ==> out == old(out) && done == old(done) && current == old(current) && Open()
    {
      hide Written, Encode64;
      if sectionPos.Some? {
        return false;
      }
      sectionPos, rowCount := Some(|out|), 0;
      out := out + Encode64(END) + Encode64(END) + name + [0];
      rowStream := Some([]);
      current := Section(name, []);
      assert out == Written(zip, done) + Head(END, END, name);
      ok := true;
    }

    method WriteRow(row: Row)
      requires Open()
      modifies this
      ensures Open() && done == old(done) && current == old(current).(rows := old(current).rows + [row])
    {
      hide Written, Encode64, Joined, Head;
      JoinedAppend(current.rows, row);
      rowStream := Some(rowStream.value + row);
      rowCount := rowCount + 1;
      current := current.(rows := current.rows + [row]);
    }

    method EndSection()
      requires Open()
      modifies this
      ensures Closed() && done == old(done) + [old(current)]
    {
      hide Written, Encode64, Joined, Head;
      var payload := zip.pack(rowStream.value);
      WrittenAppend(zip, done, current);
      var pos := sectionPos.value;
      HeadLength(current.name);
      var size := |out + payload| - pos - 8;
      Patched(Written(zip, done), size, rowCount, current.name, payload);
      out := out + payload;
      out := out[..pos] + Encode64(size) + Encode64(rowCount) + out[pos + 16..];
      sectionPos, rowCount, rowStream := None, 0, None;
      done := done + [current];
    }

    method Finalize()
      requires Closed()
      modifies this
      ensures out == Written(zip, done) + Encode64(END) && done == old(done)
      ensures out == old(out) + [255, 255, 255, 255, 255, 255, 255, 255]
    {
      hide Written, Encode64;
      AllOnes();
      out := out + Encode64(END);
    }
  }

  lemma HeadLength(name: seq<byte>)
    ensures |Head(END, END, name)| == 17 + |name|
  {
  }

  // ---- The reader's index ----

  datatype SectionIndex = SectionIndex(name: seq<byte>, pos: nat, rowCount: nat, size: nat)

  /** Neither zero nor 255, which the reader takes for the end of the file. */
  predicate NameOk(name: seq<byte>) {
    forall i :: 0 <= i < |name| ==> 0 < name[i] < 255
  }

  predicate Fits(zip: Codec<seq<byte>>, s: Section) {
    NameOk(s.name) && |s.rows| < U64 && SectionSize(zip, s) < U64 / 2
  }

  ghost predicate IsSnapshot(zip: Codec<seq<byte>>, ss: seq<Section>, file: seq<byte>) {
    && Written(zip, ss) + Encode64(END) <= file
    && (forall i :: 0 <= i < |ss| ==> Fits(zip, ss[i]))
  }

  function IndexEntry(zip: Codec<seq<byte>>, at: nat, s: Section): SectionIndex {
    SectionIndex(s.name, at + 17 + |s.name|, |s.rows|, |Payload(zip, s)|)
  }

  function Indexes(zip: Codec<seq<byte>>, ss: seq<Section>): (r: seq<SectionIndex>)
    ensures |r| == |ss|
  {
    if ss == [] then []
    else
      var init := ss[..|ss| - 1];
      Indexes(zip, init) + [IndexEntry(zip, |Written(zip, init)|, ss[|ss| - 1])]
  }

  lemma {:induction false} WrittenPrefix(zip: Codec<seq<byte>>, ss: seq<Section>, i: nat, j: nat)
    requires i <= j <= |ss|
    ensures Written(zip, ss[..i]) <= Written(zip, ss[..j])
    decreases j - i
  {
    hide Written, SectionBytes;
    if i < j {
      WrittenPrefix(zip, ss, i, j - 1);
      WrittenStep(zip, ss, j - 1);
    }
  }

  lemma WrittenStep(zip: Codec<seq<byte>>, ss: seq<Section>, i: nat)
    requires i < |ss|
    ensures Written(zip, ss[..i + 1]) == Written(zip, ss[..i]) + SectionBytes(zip, ss[i])
  {
    hide SectionBytes;
    assert ss[..i + 1][..i] == ss[..i];
  }

  lemma IndexStep(zip: Codec<seq<byte>>, ss: seq<Section>, i: nat)
    requires i < |ss|
    ensures Indexes(zip, ss[..i + 1]) == Indexes(zip, ss[..i]) + [IndexEntry(zip, |Written(zip, ss[..i])|, ss[i])]
  {
    assert ss[..i + 1][..i] == ss[..i];
  }

  lemma SliceOf(a: seq<byte>, b: seq<byte>, file: seq<byte>, i: nat, j: nat)
    requires a + b <= file && i <= j <= |b|
    ensures file[|a| + i..|a| + j] == b[i..j]
  {
  }

  lemma HeadParts(size: nat, count: nat, name: seq<byte>, payload: seq<byte>)
    ensures var b := Head(size, count, name) + payload;
      && |b| == 17 + |name| + |payload|
      && b[..8] == Encode64(size) && b[8..16] == Encode64(count) && b[16..16 + |name|] == name
      && b[16 + |name|] == 0 && b[17 + |name|..] == payload
  {
    hide Encode64;
  }

  /** What stands at the place of the i-th section. */
  lemma SectionAt(zip: Codec<seq<byte>>, ss: seq<Section>, file: seq<byte>, i: nat)
    requires Written(zip, ss) <= file && i < |ss|
    ensures var at, s := |Written(zip, ss[..i])|, ss[i]; var n := |s.name|;
      && at + 8 + SectionSize(zip, s) == |Written(zip, ss[..i + 1])| <= |file|
      && file[at..at + 8] == Encode64(SectionSize(zip, s)) && file[at + 8..at + 16] == Encode64(|s.rows|)
      && file[at + 16..at + 16 + n] == s.name && file[at + 16 + n] == 0
      && Payload(zip, s) <= file[at + 17 + n..]
  {
    hide Written, Encode64, Payload, Head;
    var w, s := Written(zip, ss[..i]), ss[i];
    var at, b, n := |w|, SectionBytes(zip, ss[i]), |ss[i].name|;
    WrittenStep(zip, ss, i);
    WrittenPrefix(zip, ss, i + 1, |ss|);
    assert ss[..|ss|] == ss;
    HeadParts(SectionSize(zip, s), |s.rows|, s.name, Payload(zip, s));
    SliceOf(w, b, file, 0, 8);
    SliceOf(w, b, file, 8, 16);
    SliceOf(w, b, file, 16, 16 + n);
    SliceOf(w, b, file, 17 + n, |b|);
    assert file[at + 16 + n] == (w + b)[at + 16 + n];
    assert file[at + 17 + n..][..|b| - 17 - n] == file[at + 17 + n..at + |b|];
  }

  lemma EndAt(zip: Codec<seq<byte>>, ss: seq<Section>, file: seq<byte>)
    requires Written(zip, ss) + Encode64(END) <= file
    ensures var at := |Written(zip, ss)|; at + 8 <= |file| && Decode64(file[at..at + 8]) == END
  {
    hide Written, Encode64, Decode64;
    SliceOf(Written(zip, ss), Encode64(END), file, 0, 8);
    assert Encode64(END)[0..8] == Encode64(END);
    RoundTrip64(END);
  }

  datatype IndexError = BadName | BackwardJump

  datatype IndexResult = Indexed(sections: seq<SectionIndex>) | IndexFailed(error: IndexError)

  /** The name at a position, up to its zero byte; a name that meets byte 255 or the end of the file is refused. */
  method ReadName(file: seq<byte>, at: nat) returns (r: Option<seq<byte>>)
    ensures r.Some? ==> NameOk(r.value) && at + |r.value| < |file| && file[at..at + |r.value|] == r.value
    ensures r.Some? ==> file[at + |r.value|] == 0 && forall i :: at <= i < at + |r.value| ==> file[i] != 0 && file[i] != 255
    ensures r.None? ==>
      || at > |file|
      || (exists i :: at <= i < |file| && file[i] == 255 && forall j :: at <= j < i ==> file[j] != 0)
      || (forall j :: at <= j < |file| ==> file[j] != 0)
    ensures r.None? ==> forall n :: at <= n < |file| && file[n] == 0 ==> !NameOk(file[at..n])
  {
    if at > |file| {
      return None;
    }
    hide NameOk;
    var i := at;
    var name: seq<byte> := [];
    EmptyName();
    while i < |file| && file[i] != 0
      invariant at <= i <= |file| && name == file[at..i] && NameOk(name)
      invariant forall n :: at <= n < i ==> file[n] != 0
      decreases |file| - i
    {
      if file[i] == 255 {
        forall n | i < n < |file| ensures !NameOk(file[at..n]) {
          BadName255(file, at, i, n);
        }
        return None;
      }
      LongerName(name, file[i]);
      assert file[at..i + 1] == file[at..i] + [file[i]];
      name := name + [file[i]];
      i := i + 1;
    }
    if i >= |file| {
      return None;
    }
    r := Some(name);
  }

  lemma EmptyName()
    ensures NameOk([])
  {
  }

  lemma LongerName(name: seq<byte>, b: byte)
    requires NameOk(name) && 0 < b < 255
    ensures NameOk(name + [b])
  {
  }

  lemma BadName255(file: seq<byte>, at: nat, i: nat, n: nat)
    requires at <= i < n <= |file| && file[i] == 255
    ensures !NameOk(file[at..n])
  {
    assert file[at..n][i - at] == 255;
  }

  lemma NameIsUnique(file: seq<byte>, at: nat, a: seq<byte>, b: seq<byte>)
    requires at + |a| < |file| && at + |b| < |file| && file[at + |a|] == 0 && file[at + |b|] == 0
    requires file[at..at + |a|] == a && file[at..at + |b|] == b && NameOk(a) && NameOk(b)
    ensures a == b
  {
    assert forall i :: 0 <= i < |a| ==> a[i] == file[at + i];
    assert forall i :: 0 <= i < |b| ==> b[i] == file[at + i];
  }

  /** The reader recovers name, place, row count and payload size of every section, in order. */
  method BuildSectionIndexes(file: seq<byte>, ghost zip: Codec<seq<byte>>, ghost ss: seq<Section>)
    returns (r: IndexResult)
    ensures IsSnapshot(zip, ss, file) ==> r == Indexed(Indexes(zip, ss))
  {
    hide Written, Encode64, Decode64, Indexes, SectionSize, Payload, IsSnapshot, Wrapped;
    var next := 8;
    var found: seq<SectionIndex> := [];
    ghost var k := 0;
    IndexStart(zip, ss, file);
    while true
      invariant next >= 8
      invariant IsSnapshot(zip, ss, file) ==>
        k <= |ss| && next == |Written(zip, ss[..k])| && found == Indexes(zip, ss[..k])
      decreases |file| + 8 - next
    {
      if IsSnapshot(zip, ss, file) {
        StepInfo(zip, ss, file, k);
      }
      if next + 8 > |file| {
        return Indexed(found);
      }
      var size := Decode64(file[next..next + 8]);
      if size == END {
        return Indexed(found);
      }
      if size >= U64 / 2 {
        return IndexFailed(BackwardJump);
      }
      if next + 16 > |file| {
        return IndexFailed(BadName);
      }
      var count := Decode64(file[next + 8..next + 16]);
      var name := ReadName(file, next + 16);
      if name.None? {
        return IndexFailed(BadName);
      }
      var pos := next + 16 + |name.value| + 1;
      if IsSnapshot(zip, ss, file) {
        NameIsUnique(file, next + 16, name.value, ss[k].name);
        IndexStep(zip, ss, k);
        EntryIs(zip, next, ss[k]);
        NoWrap(SectionSize(zip, ss[k]) - 9 - |ss[k].name|);
      }
      found := found + [SectionIndex(name.value, pos, count, Wrapped(next + 8 + size - pos))];
      next := next + 8 + size;
      k := k + 1;
    }
  }

  /** A size on 64-bit unsigned integers. */
  function Wrapped(n: int): nat {
    n % U64
  }

  lemma NoWrap(n: nat)
    requires n < U64
    ensures Wrapped(n) == n
  {
  }

  lemma EntryIs(zip: Codec<seq<byte>>, at: nat, s: Section)
    ensures IndexEntry(zip, at, s) ==
      SectionIndex(s.name, at + 17 + |s.name|, |s.rows|, SectionSize(zip, s) - 9 - |s.name|)
    ensures SectionSize(zip, s) >= 9 + |s.name|
  {
    hide Payload;
  }

  lemma IndexStart(zip: Codec<seq<byte>>, ss: seq<Section>, file: seq<byte>)
    ensures |Written(zip, ss[..0])| == 8 && Indexes(zip, ss[..0]) == []
  {
    assert ss[..0] == [];
  }

  /** What the reader meets after k sections of a snapshot. */
  lemma StepInfo(zip: Codec<seq<byte>>, ss: seq<Section>, file: seq<byte>, k: nat)
    requires IsSnapshot(zip, ss, file) && k <= |ss|
    ensures var at := |Written(zip, ss[..k])|;
      && at + 8 <= |file|
      && (k == |ss| ==> Decode64(file[at..at + 8]) == END && ss[..k] == ss)
      && (k < |ss| ==>
           var s := ss[k]; var n := |s.name|;
           && at + 8 + SectionSize(zip, s) == |Written(zip, ss[..k + 1])| <= |file|
           && SectionSize(zip, s) < U64 / 2 && SectionSize(zip, s) >= 9 + n
           && Decode64(file[at..at + 8]) == SectionSize(zip, s) && Decode64(file[at + 8..at + 16]) == |s.rows|
           && file[at + 16..at + 16 + n] == s.name && file[at + 16 + n] == 0 && NameOk(s.name))
  {
    hide Written, Encode64, Decode64, Payload;
    assert ss[..|ss|] == ss;
    if k == |ss| {
      EndAt(zip, ss, file);
    } else {
      assert Fits(zip, ss[k]);
      PrefixOfFile(zip, ss, file);
      SectionAt(zip, ss, file, k);
      RoundTrip64(SectionSize(zip, ss[k]));
      RoundTrip64(|ss[k].rows|);
    }
  }

  lemma PrefixOfFile(zip: Codec<seq<byte>>, ss: seq<Section>, file: seq<byte>)
    requires Written(zip, ss) + Encode64(END) <= file
    ensures Written(zip, ss) <= file
  {
    hide Written, Encode64;
  }

  // ---- The reader ----

  lemma {:induction false} JoinedSplit(a: seq<Row>, b: seq<Row>)
    ensures Joined(a + b) == Joined(a) + Joined(b)
  {
    if b == [] {
      assert a + b == a;
    } else {
      var init, r := b[..|b| - 1], b[|b| - 1];
      JoinedSplit(a, init);
      assert a + b == (a + init) + [r];
      JoinedAppend(a + init, r);
      assert (Joined(a) + Joined(init)) + r == Joined(a) + (Joined(init) + r);
    }
  }

  lemma JoinedHead(rows: seq<Row>, j: nat)
    requires j < |rows|
    ensures Joined(rows[j..]) == rows[j] + Joined(rows[j + 1..])
  {
    hide Joined;
    assert rows[j..] == [rows[j]] + rows[j + 1..];
    JoinedSplit([rows[j]], rows[j + 1..]);
    JoinedOne(rows[j]);
  }

  lemma JoinedOne(r: Row)
    ensures Joined([r]) == r
  {
    assert [r][..0] == [];
  }

  lemma {:induction false} IndexesAt(zip: Codec<seq<byte>>, ss: seq<Section>, i: nat)
    requires i < |ss|
    ensures Indexes(zip, ss)[i] == IndexEntry(zip, |Written(zip, ss[..i])|, ss[i])
  {
    hide Written, IndexEntry;
    if i < |ss| - 1 {
      IndexesAt(zip, ss[..|ss| - 1], i);
      assert ss[..|ss| - 1][..i] == ss[..i];
    }
  }

  /** Decompressing at the place of a section gives its rows. */
  lemma PayloadAt(zip: Codec<seq<byte>>, ss: seq<Section>, file: seq<byte>, i: nat)
    requires ReadsBack(zip) && IsSnapshot(zip, ss, file) && i < |ss|
    ensures var e := Indexes(zip, ss)[i];
      && e.name == ss[i].name && e.rowCount == |ss[i].rows| && e.pos <= |file|
      && zip.unpack(file[e.pos..]).Some? && zip.unpack(file[e.pos..]).value.value == Joined(ss[i].rows)
  {
    hide Written, Encode64, Joined, ReadsBack, Indexes;
    IndexesAt(zip, ss, i);
    PrefixOfFile(zip, ss, file);
    SectionAt(zip, ss, file, i);
    var pos := |Written(zip, ss[..i])| + 17 + |ss[i].name|;
    ReadBack(zip, Joined(ss[i].rows), file[pos..]);
  }

  class SnapshotReader {
    const file: seq<byte>
    const zip: Codec<seq<byte>>
    var sections: seq<SectionIndex>
    var numRows: nat
    var curRow: nat
    var rowStream: Option<seq<byte>>
    /** What the file holds. */
    ghost const ss: seq<Section>

    ghost predicate Valid()
      reads this
    {
      ReadsBack(zip) && IsSnapshot(zip, ss, file) && sections == Indexes(zip, ss)
    }

    /** In a section, before its j-th row. */
    ghost predicate AtRow(rows: seq<Row>, j: nat)
      reads this
    {
      j <= |rows| && curRow == j && numRows == |rows| && rowStream == Some(Joined(rows[j..]))
    }

    constructor (file: seq<byte>, zip: Codec<seq<byte>>, ghost ss: seq<Section>)
      requires ReadsBack(zip) && IsSnapshot(zip, ss, file)
      ensures Valid() && this.ss == ss && this.file == file && this.zip == zip
    {
      hide IsSnapshot, ReadsBack, Indexes;
      this.file, this.zip, this.ss := file, zip, ss;
      numRows, curRow, rowStream := 0, 0, None;
      var r := BuildSectionIndexes(file, zip, ss);
      sections := r.sections;
    }

    /** Goes to the first section of the name. */
    method SetSection(name: seq<byte>) returns (ok: bool, ghost i: nat)
      requires Valid()
      modifies this
      ensures Valid() && sections == old(sections)
      ensures ok ==> i < |ss| && ss[i].name == name && AtRow(ss[i].rows, 0) && forall j :: 0 <= j < i ==> ss[j].name != name
      ensures !ok ==> forall j :: 0 <= j < |ss| ==> ss[j].name != name
    {
      hide IsSnapshot, ReadsBack, Indexes, Joined;
      rowStream := None;
      i := 0;
      for k := 0 to |sections|
        invariant Valid() && sections == old(sections)
        invariant forall j :: 0 <= j < k ==> ss[j].name != name
      {
        PayloadAt(zip, ss, file, k);
        var e := sections[k];
        if e.name == name {
          curRow, numRows := 0, e.rowCount;
          var p := zip.unpack(file[e.pos..]);
          rowStream := Some(p.value.value);
          assert ss[k].rows[0..] == ss[k].rows;
          return true, k;
        }
      }
      ok := false;
    }

    method Eof() returns (r: bool)
      ensures r == (curRow >= numRows)
    {
      r := curRow >= numRows;
    }

    /** Reads a row of a fixed number of bytes. */
    method ReadRaw(n: nat, ghost rows: seq<Row>, ghost j: nat) returns (r: seq<byte>)
      requires Valid() && AtRow(rows, j) && j < |rows| && |rows[j]| == n
      modifies this
      ensures Valid() && AtRow(rows, j + 1) && r == rows[j] && sections == old(sections)
    {
      hide IsSnapshot, ReadsBack, Indexes, Joined;
      JoinedHead(rows, j);
      var s := rowStream.value;
      r := s[..n];
      rowStream := Some(s[n..]);
      curRow := curRow + 1;
    }

    /** Reads a packed row. */
    method ReadPacked<T(!new)>(c: Codec<T>, ghost rows: seq<Row>, ghost j: nat, ghost x: T) returns (r: T)
      requires Valid() && AtRow(rows, j) && j < |rows| && ReadsBack(c) && rows[j] == c.pack(x)
      modifies this
      ensures Valid() && AtRow(rows, j + 1) && r == x && sections == old(sections)
    {
      hide IsSnapshot, ReadsBack, Indexes, Joined;
      JoinedHead(rows, j);
      var s := rowStream.value;
      ReadBack(c, x, s);
      var p := c.unpack(s).value;
      r := p.value;
      rowStream := Some(s[p.size..]);
      curRow := curRow + 1;
    }
  }
}
