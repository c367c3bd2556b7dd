/**
 Parsing of 128-bit names (libraries/chain/name128.cpp) and their bytes on the wire
 (libraries/chain/include/evt/chain/name128.hpp). A text is taken if the name made of it prints as that text.
 */
module NameParsing {
  import opened Wrappers
  import opened Name128
  import B = Bytes

  // ---- Characters ----

  /** The code of a character; any other character has the code of the dot. */
  function CodeOf(c: char): (r: nat)
    ensures r < 64
  {
    if 'a' <= c <= 'z' then c as int - 'a' as int + 12
    else if 'A' <= c <= 'Z' then c as int - 'A' as int + 38
    else if '0' <= c <= '9' then c as int - '0' as int + 2
    else if c == '-' then 1
    else 0
  }

  predicate InAlphabet(c: char) {
    'a' <= c <= 'z' || 'A' <= c <= 'Z' || '0' <= c <= '9' || c == '-' || c == '.'
  }

  lemma CodeOfChar(k: nat)
    requires k < 64
    ensures CodeOf(CharAt(k)) == k && InAlphabet(CharAt(k))
  {
    hide CharAt;
    CharCode(k);
  }

  lemma CharOfCode(c: char)
    requires InAlphabet(c)
    ensures CharAt(CodeOf(c)) == c
  {
    hide CharAt;
    CharCode(CodeOf(c));
  }

  function CodesOf(s: string): (cs: seq<nat>)
    ensures |cs| == |s| && AllCodes(cs)
  {
    seq(|s|, i requires 0 <= i < |s| => CodeOf(s[i]))
  }

  function NameValue(s: string): nat {
    4 * Packed(CodesOf(s)) + Tag(|s|)
  }

  /** At most 21 characters of the alphabet, the last of them no dot. */
  ghost predicate Proper(s: string) {
    |s| <= 21 && (forall i :: 0 <= i < |s| ==> InAlphabet(s[i])) && (s != "" ==> s[|s| - 1] != '.')
  }

  // ---- Which texts are prints ----

  /** A proper text is the print of the name made of it. */
  lemma ProperPrints(s: string)
    requires Proper(s)
    ensures NameOf(NameValue(s), CodesOf(s)) && Text(NameValue(s)) == s
  {
    hide Packed, Text, CharAt, CodeOf;
    var cs := CodesOf(s);
    forall i | 0 <= i < |s| ensures CharAt(cs[i]) == s[i] {
      CharOfCode(s[i]);
    }
    if s != "" {
      OnlyZeroIsDot(cs[|cs| - 1]);
    }
    NamePrints(NameValue(s), cs);
    assert TextOf(cs) == s;
  }

  lemma {:induction false} FieldsInAlphabet(tmp: nat, stop: nat)
    ensures forall i :: 0 <= i < stop ==> InAlphabet(Fields(tmp, stop)[i])
  {
    hide CharAt, InAlphabet;
    if stop > 0 {
      FieldsInAlphabet(tmp / 64, stop - 1);
      CodeOfChar(tmp % 64);
    }
  }

  lemma {:induction false} DroppedIsPrefix(s: string)
    ensures DropDots(s) <= s && (DropDots(s) != "" ==> DropDots(s)[|DropDots(s)| - 1] != '.')
  {
    if s != "" && s[|s| - 1] == '.' {
      DroppedIsPrefix(s[..|s| - 1]);
    }
  }

  /** Whatever value is printed, the text is proper. */
  lemma TextIsProper(v: nat)
    ensures Proper(Text(v))
  {
    hide Fields, DropDots, InAlphabet;
    var f := Fields(v / 4, Stop(v % 4));
    FieldsInAlphabet(v / 4, Stop(v % 4));
    DroppedIsPrefix(f);
    assert forall i :: 0 <= i < |Text(v)| ==> Text(v)[i] == f[i];
  }

  /** The proper texts are exactly the prints of values. */
  lemma ProperIffPrint(s: string)
    ensures Proper(s) <==> exists v: nat :: Text(v) == s
  {
    hide Proper, Text;
    if Proper(s) {
      ProperPrints(s);
    }
    if v: nat :| Text(v) == s {
      TextIsProper(v);
    }
  }

  // ---- What the bits are ----

  lemma {:induction false} FieldAt(tmp: nat, stop: nat, i: nat)
    requires i < stop
    ensures Fields(tmp, stop)[i] == CharAt(tmp / Pow2(6 * i) % 64)
    decreases stop
  {
    hide CharAt, Pow2;
    if i == stop - 1 {
      FieldsSplit(tmp, i);
    } else {
      FieldsSplit(tmp, stop - 1);
      FieldAt(tmp, stop - 1, i);
    }
  }

  lemma {:induction false} DroppedAreDots(s: string, i: nat)
    requires |DropDots(s)| <= i < |s|
    ensures s[i] == '.'
  {
    if s != "" && s[|s| - 1] == '.' && i < |s| - 1 {
      DroppedAreDots(s[..|s| - 1], i);
    }
  }

  /**
   How a value prints: the two low bits say whether 5, 10, 15 or 21 fields of six bits follow, the first lowest; each
   prints as its character, and the fields that are not printed are zero.
   */
  lemma PrintedFields(v: nat, i: nat)
    ensures var stop := if v % 4 == 0 then 5 else if v % 4 == 1 then 10 else if v % 4 == 2 then 15 else 21;
      && |Text(v)| <= stop
      && (i < |Text(v)| ==> Text(v)[i] == CharAt(v / 4 / Pow2(6 * i) % 64))
      && (|Text(v)| <= i < stop ==> v / 4 / Pow2(6 * i) % 64 == 0)
  {
    hide CharAt, Pow2, Fields, DropDots;
    var f := Fields(v / 4, Stop(v % 4));
    DroppedIsPrefix(f);
    if i < |f| {
      FieldAt(v / 4, |f|, i);
      if i >= |Text(v)| {
        DroppedAreDots(f, i);
        OnlyZeroIsDot(v / 4 / Pow2(6 * i) % 64);
      }
    }
  }

  lemma {:induction false} PackedDigit(cs: seq<nat>, i: nat)
    requires AllCodes(cs) && i < |cs|
    ensures Packed(cs) / Pow2(6 * i) % 64 == cs[i]
  {
    hide Packed;
    PackedUnfold(cs);
    PackedSplit(cs[0], Packed(cs[1..]));
    if i > 0 {
      PackedDigit(cs[1..], i - 1);
      DivTwice(Packed(cs), i);
    }
  }

  /** How a text is packed: the tag by its length, and six bits for every character. */
  lemma PackedFields(s: string, i: nat)
    requires i < |s|
    ensures var v := NameValue(s);
      && v % 4 == (if |s| <= 5 then 0 else if |s| <= 10 then 1 else if |s| <= 15 then 2 else 3)
      && v / 4 / Pow2(6 * i) % 64 == CodeOf(s[i])
  {
    hide Packed, Pow2, CodeOf;
    var p := Packed(CodesOf(s));
    assert NameValue(s) / 4 == p;
    PackedDigit(CodesOf(s), i);
  }

  // ---- string_to_name128 ----

  lemma {:induction false} BitOrSwap(a: nat, b: nat)
    ensures BitOr(a, b) == BitOr(b, a)
  {
    if a > 0 && b > 0 {
      BitOrSwap(a / 2, b / 2);
    }
  }

  lemma {:induction false} PackedAppend(cs: seq<nat>, c: nat)
    requires AllCodes(cs)
    ensures Packed(cs + [c]) == Packed(cs) + c * Pow2(6 * |cs|)
    ensures Packed(cs) < Pow2(6 * |cs|)
  {
    hide Pow2;
    SixtyFour();
    if cs == [] {
      assert Pow2(0) == 1 by { FirstPower(); }
      assert cs + [c] == [c] && [c][1..] == [];
    } else {
      var rest, p := cs[1..], Pow2(6 * (|cs| - 1));
      PackedAppend(rest, c);
      assert (cs + [c])[1..] == rest + [c];
      Pow2Add(6, 6 * (|cs| - 1));
      ThirdOut(c, p);
    }
  }

  lemma FirstPower()
    ensures Pow2(0) == 1
  {
  }

  lemma ThirdOut(c: nat, p: nat)
    ensures 64 * (c * p) == c * (64 * p)
  {
  }

  /** One more character above the packed ones. */
  lemma PackNext(cs: seq<nat>, c: nat)
    requires AllCodes(cs)
    ensures BitOr(4 * Packed(cs), c * Pow2(2 + 6 * |cs|)) == 4 * Packed(cs + [c])
  {
    hide BitOr, Packed, Pow2;
    var p, q := Packed(cs), Pow2(6 * |cs|);
    PackedAppend(cs, c);
    SixtyFour();
    Pow2Add(2, 6 * |cs|);
    BitOrDisjoint(c, 2 + 6 * |cs|, 4 * p);
    BitOrSwap(4 * p, c * Pow2(2 + 6 * |cs|));
    FourOut(c, q);
  }

  lemma FourOut(c: nat, q: nat)
    ensures c * (4 * q) == 4 * (c * q)
  {
  }

  lemma CodesExtend(s: string, i: nat)
    requires i < |s|
    ensures CodesOf(s[..i + 1]) == CodesOf(s[..i]) + [CodeOf(s[i])]
  {
  }

  lemma NothingAdded(a: nat, p: nat)
    ensures BitOr(a, 0 * p) == a
  {
  }

  /** Packs a text of at most 21 characters; the loop also takes the zero that ends a shorter one. */
  method StringToName(s: string) returns (value: nat)
    requires |s| <= 21
    ensures value == NameValue(s)
  {
    hide BitOr, Packed, Pow2, CodeOf, CodesOf;
    if |s| == 0 {
      NothingPacked();
      return 0;
    }
    value := 0;
    NothingPacked();
    assert s[..0] == "";
    var last := if |s| < 20 then |s| else 20;
    for i := 0 to last + 1
      invariant value == 4 * Packed(CodesOf(s[..if i < |s| then i else |s|]))
    {
      var c := if i < |s| then s[i] else '\0';
      if i < |s| {
        CodesExtend(s, i);
        PackNext(CodesOf(s[..i]), CodeOf(c));
        assert |CodesOf(s[..i])| == i;
      } else {
        ZeroCode();
        NothingAdded(value, Pow2(2 + 6 * i));
      }
      value := BitOr(value, CodeOf(c) * Pow2(2 + 6 * i));
    }
    assert s[..|s|] == s;
    var tag := if |s| <= 5 then 0 else if |s| <= 10 then 1 else if |s| <= 15 then 2 else 3;
    TagIsLow(Packed(CodesOf(s)), tag);
    value := BitOr(value, tag);
  }

  lemma NothingPacked()
    ensures Packed(CodesOf("")) == 0
  {
  }

  lemma ZeroCode()
    ensures CodeOf('\0') == 0
  {
  }

  // ---- set ----

  /** What C takes of a string: the part before the first zero. */
  method CString(s: string) returns (r: string)
    ensures r <= s && (r == s || (|r| < |s| && s[|r|] == '\0'))
  {
    var n := 0;
    while n < |s| && s[n] != '\0'
      invariant 0 <= n <= |s|
    {
      n := n + 1;
    }
    r := s[..n];
  }

  lemma NoZeroInside(s: string, c: string)
    requires Proper(s) && c <= s && (c == s || (|c| < |s| && s[|c|] == '\0'))
    ensures c == s
  {
  }

  /** Takes exactly the proper texts, as the name that prints so. */
  method Set(s: string) returns (r: Option<nat>)
    ensures r == if Proper(s) then Some(NameValue(s)) else None
    ensures r.Some? ==> Text(r.value) == s
  {
    hide Text, NameValue;
    if |s| > 21 {
      return None;
    }
    var c := CString(s);
    var value := StringToName(c);
    var text := ToText(value);
    TextIsProper(value);
    if Proper(s) {
      NoZeroInside(s, c);
      ProperPrints(s);
    }
    if text != s {
      return None;
    }
    return Some(value);
  }

  /** The form for C strings refuses the empty one as well. */
  method SetChars(s: string) returns (r: Option<nat>)
    requires forall i :: 0 <= i < |s| ==> s[i] != '\0'
    ensures r == if Proper(s) && s != "" then Some(NameValue(s)) else None
  {
    hide Proper, NameValue;
    if |s| == 0 {
      return None;
    }
    r := Set(s);
  }

  // ---- Parsing inverts printing ----

  /** The tag is the least one whose fields hold the characters. */
  predicate Tight(v: nat) {
    && v / 4 < Pow2(6 * Stop(v % 4))
    && (v % 4 > 0 ==> v / 4 >= Pow2(6 * Stop(v % 4 - 1)))
  }

  function CodesFrom(n: nat): seq<nat> {
    if n == 0 then [] else [n % 64] + CodesFrom(n / 64)
  }

  lemma {:induction false} CodesFromPacks(n: nat)
    ensures AllCodes(CodesFrom(n)) && Packed(CodesFrom(n)) == n
    ensures n > 0 ==> CodesFrom(n) != [] && CodesFrom(n)[|CodesFrom(n)| - 1] != 0
  {
    if n > 0 {
      CodesFromPacks(n / 64);
      assert CodesFrom(n)[1..] == CodesFrom(n / 64);
    }
  }

  lemma {:induction false} Pow2Order(a: nat, b: nat)
    requires a <= b
    ensures Pow2(a) <= Pow2(b)
    decreases b
  {
    if a < b {
      Pow2Order(a, b - 1);
    }
  }

  /** A number of k characters lies between the powers of 64. */
  lemma PackedRange(cs: seq<nat>)
    requires AllCodes(cs) && cs != [] && cs[|cs| - 1] != 0
    ensures Pow2(6 * (|cs| - 1)) <= Packed(cs) < Pow2(6 * |cs|)
  {
    hide Packed, Pow2;
    var init, c := cs[..|cs| - 1], cs[|cs| - 1];
    assert cs == init + [c];
    PackedAppend(init, c);
    PackedAppend(cs, 0);
    AtLeastOnce(c, Pow2(6 * |init|));
  }

  lemma AtLeastOnce(c: nat, p: nat)
    requires c > 0
    ensures c * p >= p
  {
  }

  /** The values of names are the tight ones. */
  lemma NameIffTight(v: nat)
    ensures (exists cs :: NameOf(v, cs)) <==> Tight(v)
  {
    hide Packed, Pow2;
    if cs :| NameOf(v, cs) {
      NameIsTight(v, cs);
    }
    if Tight(v) {
      CodesFromPacks(v / 4);
      TightIsName(v, CodesFrom(v / 4));
    }
  }

  lemma NameIsTight(v: nat, cs: seq<nat>)
    requires NameOf(v, cs)
    ensures Tight(v)
  {
    hide Packed, Pow2;
    assert v / 4 == Packed(cs) && v % 4 == Tag(|cs|);
    if cs == [] {
      PackedNothing();
      assert Pow2(30) > 0;
    } else {
      PackedRange(cs);
      Pow2Order(6 * |cs|, 6 * Stop(Tag(|cs|)));
      if Tag(|cs|) > 0 {
        Pow2Order(6 * Stop(Tag(|cs|) - 1), 6 * (|cs| - 1));
      }
    }
  }

  lemma TightIsName(v: nat, cs: seq<nat>)
    requires Tight(v) && AllCodes(cs) && Packed(cs) == v / 4 && (cs != [] ==> cs[|cs| - 1] != 0)
    ensures NameOf(v, cs)
  {
    hide Packed, Pow2;
    if cs == [] {
      PackedNothing();
    } else {
      PackedRange(cs);
      var t := v % 4;
      if |cs| > Stop(t) {
        Pow2Order(6 * Stop(t), 6 * (|cs| - 1));
      }
      if t > 0 && |cs| <= Stop(t - 1) {
        Pow2Order(6 * |cs|, 6 * Stop(t - 1));
      }
    }
  }

  /** A printed value parses back to itself exactly if it is tight; any other becomes the name of the same text. */
  lemma ParseOfPrintIff(v: nat)
    ensures Proper(Text(v)) && Text(NameValue(Text(v))) == Text(v)
    ensures NameValue(Text(v)) == v <==> Tight(v)
  {
    hide Text, NameValue, Packed, Pow2, Tight;
    TextIsProper(v);
    ProperPrints(Text(v));
    NameIffTight(v);
    if Tight(v) {
      var cs :| NameOf(v, cs);
      TextInjective(v, cs, NameValue(Text(v)), CodesOf(Text(v)));
    }
  }

  // ---- On the wire ----

  /** As many 32-bit words as the tag says. */
  function Wire(v: nat): (r: seq<B.byte>)
    ensures |r| == 4 * (v % 4 + 1)
  {
    B.Encode(v, 4 * (v % 4 + 1))
  }

  function FromWire(s: seq<B.byte>): Option<B.Parsed<nat>> {
    if |s| < 4 then None
    else
      var size := 4 * (B.Decode(s[..4]) % 4 + 1);
      if |s| < size then None else Some(B.Parsed(B.Decode(s[..size]), size))
  }

  lemma {:induction false} LowBytes(n: nat, j: nat, k: nat)
    requires 0 < j <= k
    ensures B.Decode(B.Encode(n, k)[..j]) % 4 == n % 4
  {
    var e := B.Encode(n, k);
    assert e[..j][0] == (n % 256) as B.byte;
    assert e[..j] != [];
    LowBits(n, B.Decode(e[..j][1..]));
  }

  lemma LowBits(n: nat, rest: nat)
    ensures (n % 256 + 256 * rest) % 4 == n % 4
  {
  }

  /** A value is read back, whatever follows, exactly if it fits into the words of its tag. */
  lemma WireRoundTripIff(v: nat, rest: seq<B.byte>)
    ensures FromWire(Wire(v) + rest) == Some(B.Parsed(v, |Wire(v)|)) <==> v < B.Power(4 * (v % 4 + 1))
  {
    hide B.Encode, B.Decode, B.Power;
    var w := Wire(v);
    var s := w + rest;
    assert s[..4] == w[..4] && s[..|w|] == w;
    LowBytes(v, 4, |w|);
    if v < B.Power(|w|) {
      B.DecodeEncode(v, |w|);
    }
    B.EncodeDecode(w);
  }

  /** The value of a name always fits. */
  lemma TightFits(v: nat)
    requires Tight(v)
    ensures v < B.Power(4 * (v % 4 + 1))
  {
    hide B.Power, Pow2;
    var k := 6 * Stop(v % 4);
    Bytewise(4 * (v % 4 + 1));
    SixtyFour();
    Pow2Add(2, k);
    Pow2Order(k + 2, 8 * (4 * (v % 4 + 1)));
  }

  lemma {:induction false} Bytewise(k: nat)
    ensures B.Power(k) == Pow2(8 * k)
  {
    if k > 0 {
      Bytewise(k - 1);
      hide Pow2;
      Pow2Add(8, 8 * (k - 1));
      Eight();
    }
  }

  lemma Eight()
    ensures Pow2(8) == 256
  {
    assert Pow2(4) == 16;
  }
}
