/** Byte strings, little-endian integers, and the codecs the files of the node are written with. */
module Bytes {
  import opened Arithmetic
  import opened Wrappers

  newtype byte = x: int | 0 <= x < 256

  function Power(k: nat): (r: nat)
    ensures r > 0
  {
    if k == 0 then 1 else 256 * Power(k - 1)
  }

  /** The k low bytes of n, least significant first. */
  function Encode(n: nat, k: nat): (r: seq<byte>)
    ensures |r| == k
  {
    if k == 0 then [] else [(n % 256) as byte] + Encode(n / 256, k - 1)
  }

  function Decode(s: seq<byte>): nat {
    if s == [] then 0 else s[0] as int + 256 * Decode(s[1..])
  }

  /** Decoding gives back every number that fits. */
  lemma {:induction false} DecodeEncode(n: nat, k: nat)
    requires n < Power(k)
    ensures Decode(Encode(n, k)) == n
  {
    if k > 0 {
      DecodeEncode(n / 256, k - 1);
      assert Encode(n, k)[1..] == Encode(n / 256, k - 1);
    }
  }

  /** Encoding gives back every byte string, so that different strings stand for different numbers. */
  lemma {:induction false} EncodeDecode(s: seq<byte>)
    ensures Decode(s) < Power(|s|) && Encode(Decode(s), |s|) == s
  {
    if s != [] {
      EncodeDecode(s[1..]);
      var n := Decode(s);
      assert n % 256 == s[0] as int && n / 256 == Decode(s[1..]);
      assert [s[0]] + s[1..] == s;
    }
  }

  /** Byte i is the digit of 256^i. */
  lemma {:induction false} EncodeAt(n: nat, k: nat, i: nat)
    requires i < k
    ensures Encode(n, k)[i] as int == n / Power(i) % 256
  {
    if i > 0 {
      EncodeAt(n / 256, k - 1, i - 1);
      DivDiv(n, 256, Power(i - 1));
    }
  }

  const U64: nat := 0x1_0000_0000_0000_0000

  /** The greatest 64-bit number, which stands for no position and for no more sections, is eight bytes 255. */
  lemma AllOnes()
    ensures Encode64(0xFFFF_FFFF_FFFF_FFFF) == [255, 255, 255, 255, 255, 255, 255, 255]
  {
    var s: seq<byte> := [255, 255, 255, 255, 255, 255, 255, 255];
    assert Decode(s[4..]) == 0xFFFF_FFFF by {
      FourOnes(s[4..]);
    }
    assert Decode(s[3..]) == 0xFF_FFFF_FFFF && Decode(s[2..]) == 0xFFFF_FFFF_FFFF;
    assert s[1..][1..] == s[2..];
    EncodeDecode(s);
  }

  lemma FourOnes(s: seq<byte>)
    requires s == [255, 255, 255, 255]
    ensures Decode(s) == 0xFFFF_FFFF
  {
    assert Decode([255]) == 255 && Decode([255, 255]) == 0xFFFF by {
      assert [255, 255][1..] == [255];
    }
    assert s[1..] == [255, 255, 255] && [255, 255, 255][1..] == [255, 255];
  }

  lemma Eight()
    ensures Power(8) == U64
  {
    assert Power(4) == 0x1_0000_0000;
  }

  function Encode64(n: nat): (r: seq<byte>)
    ensures |r| == 8
  {
    Encode(n, 8)
  }

  function Decode64(s: seq<byte>): nat
    requires |s| == 8
  {
    Decode(s)
  }

  lemma RoundTrip64(n: nat)
    requires n < U64
    ensures Decode64(Encode64(n)) == n
  {
    hide Encode, Decode;
    Eight();
    DecodeEncode(n, 8);
  }

  lemma RoundTripBytes64(s: seq<byte>)
    requires |s| == 8
    ensures Decode64(s) < U64 && Encode64(Decode64(s)) == s
  {
    hide Encode, Decode;
    Eight();
    EncodeDecode(s);
  }

  /** A value read from a byte string, with the number of bytes taken. */
  datatype Parsed<+T> = Parsed(value: T, size: nat)

  /** A serialization: how a value is written, and how one is read from the front of a byte string. */
  datatype Codec<!T> = Codec(pack: T -> seq<byte>, unpack: seq<byte> -> Option<Parsed<T>>)

  /** Reading undoes writing, whatever follows. */
  ghost predicate ReadsBack<T(!new)>(c: Codec<T>) {
    forall x, rest :: c.unpack(c.pack(x) + rest) == Some(Parsed(x, |c.pack(x)|))
  }

  lemma ReadBack<T(!new)>(c: Codec<T>, x: T, s: seq<byte>)
    requires ReadsBack(c) && c.pack(x) <= s
    ensures c.unpack(s) == Some(Parsed(x, |c.pack(x)|))
  {
    assert s == c.pack(x) + s[|c.pack(x)|..];
  }

  /** And takes no more bytes than there are. */
  ghost predicate Decodes<T(!new)>(c: Codec<T>) {
    ReadsBack(c) && forall s :: c.unpack(s).Some? ==> c.unpack(s).value.size <= |s|
  }

  lemma UnpackOfPack<T(!new)>(c: Codec<T>, x: T, s: seq<byte>)
    requires Decodes(c) && c.pack(x) <= s
    ensures c.unpack(s) == Some(Parsed(x, |c.pack(x)|))
  {
    ReadBack(c, x, s);
  }

  lemma SizeFits<T(!new)>(c: Codec<T>, s: seq<byte>)
    requires Decodes(c) && c.unpack(s).Some?
    ensures c.unpack(s).value.size <= |s|
  {
  }

  /** Only what writing makes is read. */
  ghost predicate Canonical<T(!new)>(c: Codec<T>) {
    Decodes(c) && forall s :: c.unpack(s).Some? ==> s[..c.unpack(s).value.size] == c.pack(c.unpack(s).value.value)
  }

  lemma PackOfUnpack<T(!new)>(c: Codec<T>, s: seq<byte>)
    requires Canonical(c) && c.unpack(s).Some?
    ensures var p := c.unpack(s).value; p.size <= |s| && s[..p.size] == c.pack(p.value)
  {
  }
}
