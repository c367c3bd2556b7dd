/**
 The variable-length integers of the serializations (libraries/fc/include/fc/io/raw.hpp): seven bits in a byte, least
 significant first, the high bit set in every byte but the last. The reader stops after five bytes and cuts to 32 bits.
 */
module Varint {
  import opened Wrappers
  import opened Bytes

  const U32: nat := 0x1_0000_0000

  type u32 = x: int | 0 <= x < U32

  function Pack(v: nat): (r: seq<byte>)
    ensures r != []
  {
    if v < 128 then [v as byte] else [(v % 128 + 128) as byte] + Pack(v / 128)
  }

  /** What the low seven bits of some bytes add up to. */
  function Sum(s: seq<byte>): nat {
    if s == [] then 0 else s[0] as int % 128 + 128 * Sum(s[1..])
  }

  /** How many bytes the reader takes, of at most k. */
  function Taken(s: seq<byte>, k: nat): (r: Option<nat>)
    ensures r.Some? ==> r.value <= |s| && r.value <= k && (k > 0 ==> r.value > 0)
  {
    if k == 0 then Some(0)
    else if s == [] then None
    else if s[0] < 128 then Some(1)
    else
      var r := Taken(s[1..], k - 1);
      if r.None? then None else Some(1 + r.value)
  }

  function Unpack(s: seq<byte>): Option<Parsed<u32>> {
    var n := Taken(s, 5);
    if n.None? then None else Some(Parsed(Sum(s[..n.value]) % U32, n.value))
  }

  // ---- The loops ----

  /** The writing loop. */
  method Write(v: u32) returns (r: seq<byte>)
    ensures r == Pack(v)
  {
    var val: nat := v;
    r := [];
    while val >= 128
      invariant r + Pack(val) == Pack(v)
    {
      r, val := r + [(val % 128 + 128) as byte], val / 128;
    }
    r := r + [val as byte];
  }

  /** 2 to the power of 7k. */
  function Shift(k: nat): (r: nat)
    ensures r > 0
  {
    if k == 0 then 1 else 128 * Shift(k - 1)
  }

  lemma {:induction false} SumAppend(s: seq<byte>, b: byte)
    ensures Sum(s + [b]) == Sum(s) + (b as int % 128) * Shift(|s|)
  {
    if s != [] {
      var x, w := b as int % 128, Shift(|s| - 1);
      SumAppend(s[1..], b);
      assert (s + [b])[1..] == s[1..] + [b];
      Regroup(x, w);
    }
  }

  lemma Regroup(x: int, w: int)
    ensures x * (128 * w) == 128 * (x * w)
  {
  }

  lemma {:induction false} TakenStep(s: seq<byte>, i: nat, k: nat)
    requires i < |s| && i < k && (forall j :: 0 <= j < i ==> s[j] >= 128)
    ensures s[i] < 128 || i + 1 == k ==> Taken(s, k) == Some(i + 1)
  {
    if i > 0 {
      TakenStep(s[1..], i - 1, k - 1);
    }
  }

  lemma {:induction false} TakenNone(s: seq<byte>, k: nat)
    requires |s| < k && (forall j :: 0 <= j < |s| ==> s[j] >= 128)
    ensures Taken(s, k) == None
  {
    if s != [] {
      TakenNone(s[1..], k - 1);
    }
  }

  /** The reading loop. The bits a byte sets are not set yet, so that the source's or is a sum. */
  method Read(s: seq<byte>) returns (r: Option<Parsed<u32>>)
    ensures r == Unpack(s)
  {
    var v, i: nat, weight, more := 0, 0, 1, true;
    while more && i < 5
      invariant i <= |s| && i <= 5 && weight == Shift(i) && v == Sum(s[..i])
      invariant more ==> forall j :: 0 <= j < i ==> s[j] >= 128
      invariant !more || i == 5 ==> Taken(s, 5) == Some(i)
      decreases 5 - i
    {
      if i == |s| {
        TakenNone(s, 5);
        return None;
      }
      assert s[..i + 1] == s[..i] + [s[i]];
      SumAppend(s[..i], s[i]);
      TakenStep(s, i, 5);
      v, weight := v + (s[i] as int % 128) * weight, 128 * weight;
      more := s[i] >= 128;
      i := i + 1;
    }
    r := Some(Parsed(v % U32, i));
  }

  // ---- Reading undoes writing; what else is read ----

  /** The form of what is written: the high bit in all bytes but the last, and no zero byte at the end of several. */
  ghost predicate Proper(s: seq<byte>) {
    && s != []
    && (forall i :: 0 <= i < |s| - 1 ==> s[i] >= 128)
    && s[|s| - 1] < 128
    && (|s| > 1 ==> s[|s| - 1] != 0)
  }

  lemma {:induction false} PackIsProper(v: nat)
    ensures Proper(Pack(v)) && Sum(Pack(v)) == v && (v > 0 ==> Pack(v) != [0])
  {
    if v >= 128 {
      PackIsProper(v / 128);
      var t, p := Pack(v / 128), Pack(v);
      assert p[1..] == t && p[0] == (v % 128 + 128) as byte;
      assert forall i :: 0 < i < |p| ==> p[i] == t[i - 1];
    }
  }

  lemma PackStep(b: byte, n: nat)
    requires b >= 128 && n > 0
    ensures Pack(b as int % 128 + 128 * n) == [b] + Pack(n)
  {
    var v := b as int % 128 + 128 * n;
    assert v / 128 == n && v % 128 == b as int % 128;
  }

  lemma {:induction false} ProperIsPacked(s: seq<byte>)
    requires Proper(s)
    ensures Pack(Sum(s)) == s && (s != [0] ==> Sum(s) > 0)
  {
    if |s| == 1 {
      assert s[1..] == [] && Sum(s[1..]) == 0;
    } else {
      var t := s[1..];
      assert forall i :: 0 <= i < |t| ==> t[i] == s[i + 1];
      ProperIsPacked(t);
      assert s == [s[0]] + t;
      PackStep(s[0], Sum(t));
    }
  }

  lemma {:induction false} PackSize(v: nat, k: nat)
    requires v < Shift(k) && k > 0
    ensures |Pack(v)| <= k
  {
    if v >= 128 {
      PackSize(v / 128, k - 1);
    }
  }

  lemma FiveGroups()
    ensures Shift(4) == 0x1000_0000 && Shift(5) == 128 * 0x1000_0000
  {
    assert Shift(2) == 128 * 128;
  }

  /** The serialization of a 32-bit number. */
  const CODEC: Codec<u32> := Codec((v: u32) => Pack(v), (s: seq<byte>) => Unpack(s))

  /** Every number reads back, whatever follows, in at most five bytes. */
  lemma RoundTrip(v: u32, rest: seq<byte>)
    ensures Unpack(Pack(v) + rest) == Some(Parsed(v, |Pack(v)|)) && |Pack(v)| <= 5
  {
    hide Pack, Sum, Taken, Shift;
    var p := Pack(v);
    FiveGroups();
    PackSize(v, 5);
    PackIsProper(v);
    var s := p + rest;
    TakenStep(s, |p| - 1, 5);
    assert s[..|p|] == p;
  }

  lemma CodecDecodes()
    ensures Decodes(CODEC)
  {
    hide Pack, Unpack;
    forall v: u32, rest ensures CODEC.unpack(CODEC.pack(v) + rest) == Some(Parsed(v, |CODEC.pack(v)|)) {
      RoundTrip(v, rest);
    }
    forall s | CODEC.unpack(s).Some? ensures CODEC.unpack(s).value.size <= |s| {
      TakesNoMore(s);
    }
  }

  lemma TakesNoMore(s: seq<byte>)
    requires Unpack(s).Some?
    ensures Unpack(s).value.size <= |s| && Unpack(s).value.size <= 5
  {
  }

  lemma {:induction false} TakenShape(s: seq<byte>, k: nat)
    requires Taken(s, k).Some?
    ensures var n := Taken(s, k).value; (forall i :: 0 <= i < n - 1 ==> s[i] >= 128) && (0 < n < k ==> s[n - 1] < 128)
  {
    if k > 0 && s[0] >= 128 {
      TakenShape(s[1..], k - 1);
    }
  }

  lemma {:induction false} SumBound(s: seq<byte>)
    ensures Sum(s) < Shift(|s|)
  {
    if s != [] {
      SumBound(s[1..]);
    }
  }

  /** A fifth byte of 16 or more does not fit into 32 bits, or asks for a sixth. */
  lemma FifthByte(s: seq<byte>)
    requires |s| == 5 && s[4] < 128
    ensures Sum(s) < U32 <==> s[4] < 16
  {
    hide Sum, Shift;
    assert s == s[..4] + [s[4]];
    SumAppend(s[..4], s[4]);
    SumBound(s[..4]);
    FiveGroups();
  }

  lemma FewBytesFit(s: seq<byte>)
    requires |s| < 5
    ensures Sum(s) < U32
  {
    assert Shift(2) == 128 * 128;
    SumBound(s);
  }

  /** The bytes read are those that writing makes exactly if no zero byte is appended and the fifth fits. */
  lemma CanonicalIff(s: seq<byte>)
    requires Unpack(s).Some?
    ensures var p := Unpack(s).value;
      && 0 < p.size <= |s| && p.size <= 5
      && (s[..p.size] == Pack(p.value) <==> (p.size == 1 || s[p.size - 1] != 0) && (p.size == 5 ==> s[4] < 16))
  {
    hide Pack, Sum, Taken, Shift;
    var p := Unpack(s).value;
    var t := s[..p.size];
    TakenShape(s, 5);
    if (p.size == 1 || s[p.size - 1] != 0) && (p.size == 5 ==> s[4] < 16) {
      ProperIsPacked(t);
      if p.size == 5 {
        FifthByte(t);
      } else {
        FewBytesFit(t);
      }
    }
    if t == Pack(p.value) {
      PackIsProper(p.value);
      assert t[p.size - 1] == s[p.size - 1];
      if p.size == 5 {
        FifthByte(t);
      }
    }
  }

  /** The number 300 takes the bytes ac 02. */
  lemma ThreeHundred()
    ensures Pack(300) == [0xac, 0x02] && Unpack([0xac, 0x02]) == Some(Parsed(300, 2))
  {
    assert Pack(2) == [2];
    var s: seq<byte> := [0xac, 0x02];
    assert s[1..] == [2] && Taken(s[1..], 4) == Some(1);
    assert s[..2] == s && Sum([2]) == 2;
  }
}
