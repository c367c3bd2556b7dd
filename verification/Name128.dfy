/**
 128-bit names (libraries/chain/name128.cpp): a two-bit length tag and up to 21 characters of six bits, the first
 character lowest. The value is a natural number below 2^128; shifts and bitwise or are written out on it.
 */
module Name128 {
  import opened Arithmetic
  import opened Decimal

  // ---- Bit operations on naturals ----

  function Pow2(k: nat): (r: nat)
    ensures r > 0
  {
    if k == 0 then 1 else 2 * Pow2(k - 1)
  }

  /** Bitwise or. */
  function BitOr(a: nat, b: nat): nat {
    if a == 0 then b
    else if b == 0 then a
    else 2 * BitOr(a / 2, b / 2) + if a % 2 == 1 || b % 2 == 1 then 1 else 0
  }

  /** Where the bits do not overlap, bitwise or is addition. */
  lemma {:induction false} BitOrDisjoint(q: nat, k: nat, b: nat)
    requires b < Pow2(k)
    ensures BitOr(q * Pow2(k), b) == q * Pow2(k) + b
  {
    if k == 0 {
      assert b == 0;
    } else if q > 0 && b > 0 {
      var a, p := q * Pow2(k), q * Pow2(k - 1);
      assert a == 2 * p by {
        assert Pow2(k) == 2 * Pow2(k - 1);
        Double(q, Pow2(k - 1));
      }
      assert b / 2 < Pow2(k - 1);
      BitOrDisjoint(q, k - 1, b / 2);
      assert a > 0 by { Positive(q, Pow2(k)); }
      assert a / 2 == p && a % 2 == 0;
    }
  }

  lemma Double(q: nat, p: nat)
    ensures q * (2 * p) == 2 * (q * p)
  {
  }

  lemma {:induction false} Pow2Add(a: nat, b: nat)
    ensures Pow2(a + b) == Pow2(a) * Pow2(b)
  {
    if a > 0 {
      Pow2Add(a - 1, b);
      assert Pow2(a + b) == 2 * (Pow2(a - 1) * Pow2(b));
      Assoc(2, Pow2(a - 1), Pow2(b));
    }
  }

  lemma Quotient(x: nat, p: nat)
    requires p > 0
    ensures (x * p) / p == x
  {
    DivisionUnique(x * p, p, x, 0);
  }

  // ---- Characters ----

  /** The character of a six-bit code. */
  function CharAt(c: nat): char
    requires c < 64
  {
    if c == 0 then '.'
    else if c == 1 then '-'
    else if c < 12 then "0123456789"[c - 2]
    else if c < 38 then "abcdefghijklmnopqrstuvwxyz"[c - 12]
    else "ABCDEFGHIJKLMNOPQRSTUVWXYZ"[c - 38]
  }

  /** Six bits each, the first character lowest. */
  function Packed(cs: seq<nat>): nat {
    if cs == [] then 0 else cs[0] + 64 * Packed(cs[1..])
  }

  function Codes(s: string): (cs: seq<nat>)
    requires AllDigits(s)
    ensures |cs| == |s|
  {
    seq(|s|, i requires 0 <= i < |s| => DigitOf(s[i]) + 2)
  }

  function Tag(length: nat): (t: nat)
    ensures t < 4
  {
    if length <= 5 then 0 else if length <= 10 then 1 else if length <= 15 then 2 else 3
  }

  function Stop(tag: nat): nat {
    if tag == 0 then 5 else if tag == 1 then 10 else if tag == 2 then 15 else 21
  }

  /** The decimal text as a name. */
  function NumberName(s: string): nat
    requires AllDigits(s)
  {
    4 * Packed(Codes(s)) + Tag(|s|)
  }

  // ---- from_number ----

  /** The value while the last digits `s` are packed at the top of the 128 bits. */
  ghost predicate AtTop(value: nat, s: string) {
    AllDigits(s) && |s| <= 21 && value == Packed(Codes(s)) * Pow2(128 - 6 * |s|)
  }

  lemma PackedCons(d: nat, s: string)
    requires AllDigits(s) && d < 10
    ensures AllDigits([CharOf(d)] + s) && Packed(Codes([CharOf(d)] + s)) == d + 2 + 64 * Packed(Codes(s))
  {
    var t := [CharOf(d)] + s;
    assert Codes(t)[1..] == Codes(s);
  }

  /** One more digit below the packed ones. */
  lemma TopStep(value: nat, s: string, d: nat)
    requires AtTop(value, s) && |s| < 21 && d < 10
    ensures AtTop(BitOr(value, (d + 2) * Pow2(128 - 6 * (|s| + 1))), [CharOf(d)] + s)
  {
    hide Packed, Codes, BitOr, Pow2;
    var k, n := 128 - 6 * |s|, Packed(Codes(s));
    var p := Pow2(k - 6);
    PackedCons(d, s);
    Pow2Add(6, k - 6);
    SixtyFour();
    Below(d + 2, p);
    BitOrDisjoint(n, k, (d + 2) * p);
    Distribute(n, d + 2, p);
  }

  lemma SixtyFour()
    ensures Pow2(6) == 64 && Pow2(2) == 4
  {
    assert Pow2(3) == 8;
  }

  lemma Below(x: nat, p: nat)
    requires x < 64 && p > 0
    ensures x * p < 64 * p
  {
  }

  lemma Distribute(n: nat, x: nat, p: nat)
    ensures n * (64 * p) + x * p == (x + 64 * n) * p
  {
  }

  lemma TopStart()
    ensures AtTop(0, "")
  {
  }

  /** Shifted down over the unused characters, the packed digits are four times their number. */
  lemma ShiftDown(value: nat, s: string)
    requires AtTop(value, s)
    ensures value / Pow2(6 * (21 - |s|)) == 4 * Packed(Codes(s))
  {
    hide Packed, Codes, Pow2;
    var n, p := Packed(Codes(s)), Pow2(6 * (21 - |s|));
    Pow2Add(2, 6 * (21 - |s|));
    SixtyFour();
    Assoc(n, 4, p);
    Quotient(n * 4, p);
  }

  lemma {:induction false} PrintStep(v: nat)
    ensures Print(v) == (if v < 10 then "" else Print(v / 10)) + [CharOf(v % 10)]
  {
    assert v < 10 ==> "" + [CharOf(v % 10)] == [CharOf(v % 10)];
  }

  lemma TagIsLow(n: nat, tag: nat)
    requires tag < 4
    ensures BitOr(4 * n, tag) == 4 * n + tag
  {
    hide BitOr;
    SixtyFour();
    BitOrDisjoint(n, 2, tag);
  }

  function Left(v: nat): string {
    if v == 0 then "" else Print(v)
  }

  /** The text read so far, after the text still to come, is the whole number. */
  lemma LeftStep(v: nat, s: string)
    ensures Print(v) + s == Left(v / 10) + ([CharOf(v % 10)] + s)
  {
    hide Print, CharOf;
    PrintStep(v);
    Concat(Left(v / 10), [CharOf(v % 10)], s);
  }

  lemma Concat(a: string, b: string, c: string)
    ensures (a + b) + c == a + (b + c)
  {
  }

  lemma TwentyDigits(n: nat)
    requires n < U64
    ensures |Print(n)| <= 20
  {
    assert Power(10) == 1_00000_00000;
    assert Power(20) == 1_00000_00000_00000_00000;
    PrintLength(n, 20);
  }

  method FromNumber(n: nat) returns (value: nat)
    requires n < U64
    ensures value == NumberName(Print(n))
  {
    hide Print, Packed, Codes, BitOr, Pow2, AtTop;
    TwentyDigits(n);
    ghost var whole := Print(n);
    ghost var s := "";
    TopStart();
    value := 0;
    var v, i := n, 0;
    assert Print(v) + s == whole;
    while true
      invariant i == |s| && AtTop(value, s)
      invariant Print(v) + s == whole
      decreases v
    {
      var d := v % 10;
      TopRoom(v, s, whole);
      TopStep(value, s, d);
      LeftStep(v, s);
      value := BitOr(value, (d + 2) * Pow2(128 - 6 * (i + 1)));
      i := i + 1;
      s := [CharOf(d)] + s;
      v := v / 10;
      if v == 0 {
        break;
      }
    }
    assert s == whole by { assert Left(0) + s == s; }
    TopSize(value, s);
    ShiftDown(value, s);
    value := value / Pow2(6 * (21 - i));
    var tag := if i <= 5 then 0 else if i <= 10 then 1 else if i <= 15 then 2 else 3;
    TagIsLow(Packed(Codes(s)), tag);
    value := BitOr(value, tag);
  }

  lemma TopSize(value: nat, s: string)
    requires AtTop(value, s)
    ensures |s| <= 21 && AllDigits(s)
  {
  }

  lemma TopRoom(v: nat, s: string, whole: string)
    requires Print(v) + s == whole && |whole| <= 20
    ensures |s| < 20
  {
  }

  // ---- operator std::string ----

  /** The characters of the low `stop` fields. */
  function Fields(tmp: nat, stop: nat): (s: string)
    ensures |s| == stop
  {
    if stop == 0 then "" else [CharAt(tmp % 64)] + Fields(tmp / 64, stop - 1)
  }

  function DropDots(s: string): string {
    if s != "" && s[|s| - 1] == '.' then DropDots(s[..|s| - 1]) else s
  }

  /** A name as text: its characters, without the dots at the end. */
  function Text(value: nat): string {
    DropDots(Fields(value / 4, Stop(value % 4)))
  }

  lemma {:induction false} FieldsSplit(tmp: nat, k: nat)
    ensures Fields(tmp, k + 1) == Fields(tmp, k) + [CharAt(tmp / Pow2(6 * k) % 64)]
  {
    if k == 0 {
      assert Fields(tmp, 1) == [CharAt(tmp % 64)] + Fields(tmp / 64, 0);
    } else {
      FieldsSplit(tmp / 64, k - 1);
      DivTwice(tmp, k);
    }
  }

  lemma DivTwice(tmp: nat, k: nat)
    requires k > 0
    ensures tmp / 64 / Pow2(6 * (k - 1)) == tmp / Pow2(6 * k)
  {
    hide Pow2;
    SixtyFour();
    Pow2Add(6, 6 * (k - 1));
    DivDiv(tmp, 64, Pow2(6 * (k - 1)));
  }

  /** The characters written so far, with dots behind them up to 21. */
  ghost predicate Written(str: string, tmp: nat, k: nat) {
    && |str| == 21 && k <= 21 && str[..k] == Fields(tmp, k)
    && forall j :: k <= j < 21 ==> str[j] == '.'
  }

  lemma WrittenStep(str: string, tmp: nat, k: nat, c: char)
    requires Written(str, tmp, k) && k < 21 && c == CharAt(tmp / Pow2(6 * k) % 64)
    ensures Written(str[k := c], tmp, k + 1)
  {
    hide Fields, CharAt, Pow2;
    FieldsSplit(tmp, k);
    assert str[k := c][..k + 1] == str[..k] + [c];
  }

  lemma WrittenStart(tmp: nat)
    ensures Written(seq(21, _ => '.'), tmp, 0)
  {
    assert seq(21, _ => '.')[..0] == "";
  }

  lemma {:induction false} DropDotsAll(s: string, n: nat)
    requires n <= |s| && forall j :: n <= j < |s| ==> s[j] == '.'
    ensures DropDots(s) == DropDots(s[..n])
    decreases |s|
  {
    if n == |s| {
      assert s[..n] == s;
    } else {
      var t := s[..|s| - 1];
      DropDotsAll(t, n);
      assert t[..n] == s[..n];
    }
  }

  /** The text of a name: up to 21 characters are read off and the dots at the end erased. */
  method ToText(value: nat) returns (str: string)
    ensures str == Text(value)
  {
    hide Fields, CharAt, Pow2, DropDots, Written;
    var tag := value % 4;
    var stop := if tag == 0 then 5 else if tag == 1 then 10 else if tag == 2 then 15 else 21;
    ghost var whole := value / 4;
    var tmp := value / 4;
    str := seq(21, _ => '.');
    WrittenStart(whole);
    DivByOne(whole);
    for i := 0 to stop
      invariant Written(str, whole, i) && tmp == whole / Pow2(6 * i)
    {
      WrittenLength(str, whole, i);
      WrittenStep(str, whole, i, CharAt(tmp % 64));
      DivNext(whole, i);
      str := str[i := CharAt(tmp % 64)];
      tmp := tmp / 64;
    }
    WrittenEnd(str, whole, stop);
    str := EraseDots(str);
  }

  /** Erases what is behind the last character that is not a dot. */
  method EraseDots(s: string) returns (r: string)
    ensures r == DropDots(s)
  {
    hide DropDots;
    var n := |s|;
    assert s[..n] == s;
    while n > 0 && s[n - 1] == '.'
      invariant 0 <= n <= |s| && DropDots(s) == DropDots(s[..n])
    {
      DropOne(s, n);
      n := n - 1;
    }
    DropNone(s, n);
    r := s[..n];
  }

  lemma DropOne(s: string, n: nat)
    requires 0 < n <= |s| && s[n - 1] == '.'
    ensures DropDots(s[..n]) == DropDots(s[..n - 1])
  {
    assert s[..n][..n - 1] == s[..n - 1];
  }

  lemma DropNone(s: string, n: nat)
    requires n <= |s| && (n == 0 || s[n - 1] != '.')
    ensures DropDots(s[..n]) == s[..n]
  {
  }

  lemma WrittenLength(str: string, tmp: nat, k: nat)
    requires Written(str, tmp, k)
    ensures |str| == 21
  {
  }

  lemma WrittenEnd(str: string, tmp: nat, k: nat)
    requires Written(str, tmp, k)
    ensures DropDots(str) == DropDots(Fields(tmp, k))
  {
    hide Fields, DropDots;
    DropDotsAll(str, k);
  }

  lemma DivByOne(x: nat)
    ensures x / Pow2(6 * 0) == x
  {
  }

  lemma DivNext(x: nat, i: nat)
    ensures x / Pow2(6 * i) / 64 == x / Pow2(6 * (i + 1))
  {
    hide Pow2;
    SixtyFour();
    Pow2Add(6 * i, 6);
    DivDiv(x, Pow2(6 * i), 64);
  }

  // ---- Names of characters ----

  ghost predicate AllCodes(cs: seq<nat>) {
    forall i :: 0 <= i < |cs| ==> cs[i] < 64
  }

  function TextOf(cs: seq<nat>): (s: string)
    requires AllCodes(cs)
    ensures |s| == |cs|
  {
    seq(|cs|, i requires 0 <= i < |cs| => CharAt(cs[i]))
  }

  lemma {:induction false} FieldsOfPacked(cs: seq<nat>, stop: nat)
    requires AllCodes(cs) && |cs| <= stop
    ensures Fields(Packed(cs), stop)[..|cs|] == TextOf(cs)
    ensures forall j :: |cs| <= j < stop ==> Fields(Packed(cs), stop)[j] == '.'
    decreases stop
  {
    hide CharAt, Packed;
    if stop > 0 {
      if cs == [] {
        FieldsOfPacked(cs, stop - 1);
        PackedNothing();
        DotIsZero();
      } else {
        var rest := cs[1..];
        FieldsOfPacked(rest, stop - 1);
        PackedUnfold(cs);
        PackedSplit(cs[0], Packed(rest));
        assert TextOf(cs) == [CharAt(cs[0])] + TextOf(rest);
      }
    }
  }

  lemma PackedNothing()
    ensures Packed([]) == 0
  {
  }

  lemma PackedUnfold(cs: seq<nat>)
    requires cs != []
    ensures Packed(cs) == cs[0] + 64 * Packed(cs[1..])
  {
  }

  lemma PackedSplit(c: nat, n: nat)
    requires c < 64
    ensures (c + 64 * n) % 64 == c && (c + 64 * n) / 64 == n
  {
  }

  lemma DotIsZero()
    ensures CharAt(0) == '.'
  {
  }

  /** The value of a name that ends with a character: its codes and the tag of their number. */
  ghost predicate NameOf(v: nat, cs: seq<nat>) {
    AllCodes(cs) && |cs| <= 21 && (cs != [] ==> cs[|cs| - 1] != 0) && v == 4 * Packed(cs) + Tag(|cs|)
  }

  /** Such a name prints as its characters. */
  lemma NamePrints(v: nat, cs: seq<nat>)
    requires NameOf(v, cs)
    ensures Text(v) == TextOf(cs)
  {
    hide Fields, Packed, DropDots, CharAt;
    var p, t := Packed(cs), Tag(|cs|);
    assert v / 4 == p && v % 4 == t;
    FieldsOfPacked(cs, Stop(t));
    var f, s := Fields(p, Stop(t)), TextOf(cs);
    DropDotsAll(f, |cs|);
    assert s == f[..|cs|] && s[..|s|] == s;
    if cs != [] {
      OnlyZeroIsDot(cs[|cs| - 1]);
    }
    DropNone(s, |s|);
  }

  lemma OnlyZeroIsDot(c: nat)
    requires c < 64
    ensures CharAt(c) == '.' <==> c == 0
  {
    CharCode(c);
  }

  /** The number of a character in its alphabet. */
  lemma CharCode(c: nat)
    requires c < 64
    ensures CharAt(c) as int == if c == 0 then 46 else if c == 1 then 45 else if c < 12 then c + 46 else if c < 38 then c + 85 else c + 27
  {
    if 2 <= c < 12 {
      DigitCode(c - 2);
    } else if 12 <= c < 38 {
      LowerCode(c - 12);
    } else if c >= 38 {
      UpperCode(c - 38);
    }
  }

  lemma DigitCode(d: nat)
    requires d < 10
    ensures "0123456789"[d] as int == d + 48
  {
  }

  lemma LowerCode(d: nat)
    requires d < 26
    ensures "abcdefghijklmnopqrstuvwxyz"[d] as int == d + 97
  {
  }

  lemma UpperCode(d: nat)
    requires d < 26
    ensures "ABCDEFGHIJKLMNOPQRSTUVWXYZ"[d] as int == d + 65
  {
  }

  /** Different names print differently. */
  lemma TextInjective(v: nat, cs: seq<nat>, w: nat, ds: seq<nat>)
    requires NameOf(v, cs) && NameOf(w, ds) && Text(v) == Text(w)
    ensures v == w
  {
    hide Text, CharAt, Packed;
    NamePrints(v, cs);
    NamePrints(w, ds);
    assert |cs| == |ds|;
    forall i | 0 <= i < |cs| ensures cs[i] == ds[i] {
      assert TextOf(cs)[i] == TextOf(ds)[i];
      CharCode(cs[i]);
      CharCode(ds[i]);
    }
    assert cs == ds;
  }

  /** The characters of a name lie between the hyphen and z. */
  lemma TextAlphabet(v: nat, cs: seq<nat>, i: nat)
    requires NameOf(v, cs) && i < |Text(v)|
    ensures 45 <= Text(v)[i] as int <= 122
  {
    hide Text, CharAt, Packed;
    NamePrints(v, cs);
    CharCode(cs[i]);
  }

  /** Reserved names are those that begin with a dot. */
  predicate Reserved(v: nat) {
    v / 4 % 64 == 0
  }

  lemma UnreservedText(v: nat, cs: seq<nat>)
    requires NameOf(v, cs) && !Reserved(v)
    ensures Text(v) != "" && Text(v)[0] != '.'
  {
    hide Text, CharAt, Packed;
    NamePrints(v, cs);
    assert v / 4 == Packed(cs);
    PackedNothing();
    if cs != [] {
      PackedUnfold(cs);
      PackedSplit(cs[0], Packed(cs[1..]));
      OnlyZeroIsDot(cs[0]);
    }
  }

  // ---- A number prints as its digits ----

  lemma DigitChar(c: char)
    requires IsDigit(c)
    ensures CharAt(DigitOf(c) + 2) == c
  {
    CharCode(DigitOf(c) + 2);
  }

  /** For every 64-bit number, the name made of it prints as its decimal digits. */
  lemma NumberPrintsAsDigits(n: nat)
    requires n < U64
    ensures Text(NumberName(Print(n))) == Print(n)
  {
    hide Print, Text, Packed, CharAt;
    var s := Print(n);
    TwentyDigits(n);
    assert AllCodes(Codes(s));
    assert IsDigit(s[|s| - 1]);
    NamePrints(NumberName(s), Codes(s));
    forall i | 0 <= i < |s| ensures TextOf(Codes(s))[i] == s[i] {
      assert IsDigit(s[i]);
      DigitChar(s[i]);
    }
  }
}
