/** Assets and symbols as text (libraries/chain/asset.cpp, with the checks of the constructors in asset.hpp). */
module AssetText {
  import opened Wrappers
  import opened Decimal

  const MAX_PRECISION: int := 18
  const MAX_AMOUNT: int := 0x4000_0000_0000_0000 - 1

  /** The precision is an 8-bit and the id a 32-bit unsigned integer. */
  datatype Symbol = Symbol(precision: nat, id: nat)

  /** The amount is a 64-bit signed integer. */
  datatype Asset = Asset(amount: int, sym: Symbol)

  datatype TextError =
    NoComma | NoSpace | NoMark | NoFraction | NotANumber | TooPrecise | IdTooLarge | AmountOutOfRange

  datatype Result<+T> = Ok(value: T) | Err(error: TextError)

  // ---- Symbols ----

  function SymbolToString(s: Symbol): string {
    Print(s.precision) + ",S#" + Print(s.id)
  }

  function SymbolFromString(from: string): Result<Symbol> {
    var s := Trim(from);
    var c := Find(s, ',');
    if c.None? then Err(NoComma)
    else if |s| < c.value + 3 || s[c.value + 1..c.value + 3] != "S#" then Err(NoMark)
    else
      var p, id := FrontNumber(s[..c.value]), FrontNumber(s[c.value + 3..]);
      if p.None? || id.None? then Err(NotANumber)
      else if p.value > MAX_PRECISION then Err(TooPrecise)
      else if id.value >= U32 then Err(IdTooLarge)
      else Ok(Symbol(p.value, id.value))
  }

  lemma DigitsAreNotSpace(s: string)
    requires s != [] && AllDigits(s)
    ensures !IsSpace(s[0]) && !IsSpace(s[|s| - 1])
  {
    assert IsDigit(s[0]) && IsDigit(s[|s| - 1]);
  }

  /** Parsing a printed symbol gives it back, for every legal precision and every id. */
  lemma SymbolRoundTrip(s: Symbol)
    requires s.precision <= MAX_PRECISION && s.id < U32
    ensures SymbolFromString(SymbolToString(s)) == Ok(s)
  {
    hide Print, Find, FrontNumber, Trim;
    var p, id := Print(s.precision), Print(s.id);
    var text := SymbolToString(s);
    assert text == p + [','] + ("S#" + id);
    DigitsAreNotSpace(p);
    DigitsAreNotSpace(id);
    TrimKeeps(text);
    NoChar(p, ',');
    FindAt(p, ',', "S#" + id);
    assert text[..|p|] == p && text[|p| + 1..|p| + 3] == "S#" && text[|p| + 3..] == id;
    FrontNumberOfPrint(s.precision);
    FrontNumberOfPrint(s.id);
  }

  // ---- Assets ----

  function Zeros(n: nat): (z: string)
    ensures |z| == n && forall i :: 0 <= i < n ==> z[i] == '0'
  {
    seq(n, _ => '0')
  }

  /** The digits of the magnitude with the decimal point, padded with zeros when there are too few. */
  function WithPoint(digits: string, precision: nat): string {
    if precision >= |digits| then "0." + Zeros(precision - |digits|) + digits
    else if precision > 0 then digits[..|digits| - precision] + "." + digits[|digits| - precision..]
    else digits
  }

  function Magnitude(x: int): nat {
    if x < 0 then -x else x
  }

  function AmountText(a: Asset): string {
    (if a.amount < 0 then "-" else "") + WithPoint(Print(Magnitude(a.amount)), a.sym.precision)
  }

  /** An asset as text; the empty symbol leaves no trace. */
  function AssetToString(a: Asset): string {
    AmountText(a) + if a.sym.id > 0 then " S#" + Print(a.sym.id) else ""
  }

  /** The checks every asset passes when it is made; the precision and the id arrive cut to 8 and 32 bits. */
  function MakeAsset(amount: int, precision: nat, id: nat): Result<Asset> {
    if precision % 256 > MAX_PRECISION then Err(TooPrecise)
    else if !(-MAX_AMOUNT <= amount <= MAX_AMOUNT) then Err(AmountOutOfRange)
    else Ok(Asset(amount, Symbol(precision % 256, id % U32)))
  }

  function AssetFromString(from: string): Result<Asset> {
    var s := Trim(from);
    var space := Find(s, ' ');
    if space.None? then Err(NoSpace)
    else if |s| < space.value + 3 || s[space.value + 1..space.value + 3] != "S#" then Err(NoMark)
    else FromParts(s[..space.value], s[space.value + 3..])
  }

  /** From the texts of the amount and of the symbol's id. */
  function FromParts(amountText: string, symbolText: string): Result<Asset> {
    var dot := Find(amountText, '.');
    if dot.Some? && dot.value == |amountText| - 1 then Err(NoFraction)
    else
      var id := ToUint64(symbolText);
      var precision := if dot.Some? then |amountText| - dot.value - 1 else 0;
      var digits := if dot.Some? then amountText[..dot.value] + amountText[dot.value + 1..] else amountText;
      var amount := ToInt64(digits);
      if id.None? || amount.None? then Err(NotANumber) else MakeAsset(amount.value, precision, id.value)
  }

  /** How a text of an amount is read: the place of the point, and the text without it. */
  ghost predicate ReadsAs(text: string, precision: nat, digits: string) {
    var dot := Find(text, '.');
    if precision == 0 then dot.None? && digits == text
    else
      && dot == Some(|text| - precision - 1)
      && digits == text[..dot.value] + text[dot.value + 1..]
  }

  lemma PointAt(a: string, b: string)
    requires '.' !in a && b != []
    ensures ReadsAs(a + "." + b, |b|, a + b)
  {
    FindAt(a, '.', b);
    var text := a + "." + b;
    assert text[..|a|] == a && text[|a| + 1..] == b;
  }

  lemma SmallReads(sign: string, digits: string, precision: nat) returns (y: string)
    requires (sign == "" || sign == "-") && digits != [] && AllDigits(digits) && precision >= |digits|
    ensures AllZeros(y) && ReadsAs(sign + WithPoint(digits, precision), precision, sign + (y + digits))
  {
    hide Find, ReadsAs;
    NoChar(digits, '.');
    var z := Zeros(precision - |digits|);
    var a, b := sign + "0", z + digits;
    PointAt(a, b);
    y := "0" + z;
    assert sign + ("0." + z + digits) == a + "." + b;
    assert a + b == sign + (y + digits);
  }

  lemma SplitReads(sign: string, digits: string, k: nat)
    requires (sign == "" || sign == "-") && AllDigits(digits) && k < |digits|
    ensures ReadsAs(sign + (digits[..k] + "." + digits[k..]), |digits| - k, sign + digits)
  {
    hide Find, ReadsAs;
    NoChar(digits, '.');
    var a, b := sign + digits[..k], digits[k..];
    PointAt(a, b);
    assert sign + (digits[..k] + "." + b) == a + "." + b;
    assert a + b == sign + digits by {
      assert digits[..k] + digits[k..] == digits;
    }
  }

  lemma WholeReads(sign: string, digits: string)
    requires (sign == "" || sign == "-") && AllDigits(digits)
    ensures ReadsAs(sign + digits, 0, sign + digits)
  {
    hide Find;
    NoChar(digits, '.');
    FindNone(sign + digits, '.');
  }

  lemma PointCases(digits: string, precision: nat)
    ensures precision == 0 && digits != "" ==> WithPoint(digits, precision) == digits
    ensures 0 < precision < |digits| ==>
      WithPoint(digits, precision) == digits[..|digits| - precision] + "." + digits[|digits| - precision..]
  {
  }

  /** With or without a sign, the printed amount reads back as its digits, perhaps after zeros. */
  lemma AmountReads(sign: string, digits: string, precision: nat) returns (z: string)
    requires (sign == "" || sign == "-") && digits != [] && AllDigits(digits)
    ensures AllZeros(z) && ReadsAs(sign + WithPoint(digits, precision), precision, sign + (z + digits))
  {
    hide ReadsAs, WithPoint;
    PointCases(digits, precision);
    if precision >= |digits| {
      z := SmallReads(sign, digits, precision);
    } else {
      z := "";
      assert z + digits == digits;
      if precision > 0 {
        SplitReads(sign, digits, |digits| - precision);
      } else {
        WholeReads(sign, digits);
      }
    }
  }

  ghost predicate AllZeros(z: string) {
    forall i :: 0 <= i < |z| ==> z[i] == '0'
  }

  lemma AmountValue(a: Asset, z: string)
    requires AllZeros(z) && -I64 < a.amount < I64
    ensures var digits := Print(Magnitude(a.amount));
      ToInt64((if a.amount < 0 then "-" else "") + (z + digits)) == Some(a.amount)
  {
    hide Print, Value, Signed;
    var digits := Print(Magnitude(a.amount));
    ValueOfPrint(Magnitude(a.amount));
    LeadingZeros(z, digits);
    SignedDigits(z + digits);
    assert "" + (z + digits) == z + digits;
  }

  lemma AmountTextShape(a: Asset)
    ensures var t := AmountText(a); t != [] && ' ' !in t && !IsSpace(t[0])
  {
    var digits := Print(Magnitude(a.amount));
    NoChar(digits, ' ');
    DigitsAreNotSpace(digits);
  }

  /** A printed amount followed by any 64-bit symbol id: the asset made of it, with the id cut to 32 bits. */
  lemma ParseWithId(a: Asset, id: nat)
    requires -I64 < a.amount < I64 && a.sym.precision < 256 && id < U64
    ensures AssetFromString(AmountText(a) + " S#" + Print(id)) == MakeAsset(a.amount, a.sym.precision, id)
  {
    hide Print, Find, Trim, ToInt64, WithPoint, Value, IsSpace, MakeAsset, Signed;
    var sign, digits, p := if a.amount < 0 then "-" else "", Print(Magnitude(a.amount)), a.sym.precision;
    var t, n := AmountText(a), Print(id);
    AmountTextShape(a);
    DigitsAreNotSpace(n);
    TextParts(t, n);
    ParsedId(id);
    var z := AmountReads(sign, digits, p);
    AmountValue(a, z);
  }

  /** An amount and a symbol id are told apart by the space between them. */
  lemma TextParts(t: string, n: string)
    requires t != "" && ' ' !in t && !IsSpace(t[0]) && n != "" && !IsSpace(n[|n| - 1])
    ensures var text := t + " S#" + n;
      && Trim(text) == text && Find(text, ' ') == Some(|t|)
      && text[..|t|] == t && text[|t| + 1..|t| + 3] == "S#" && text[|t| + 3..] == n
  {
    hide Find, Trim, IsSpace;
    var text := t + " S#" + n;
    assert text == t + [' '] + ("S#" + n);
    TrimKeeps(text);
    FindAt(t, ' ', "S#" + n);
  }

  lemma ParsedId(id: nat)
    requires id < U64
    ensures ToUint64(Print(id)) == Some(id)
  {
    hide Print, Value;
    ValueOfPrint(id);
    SignedDigits(Print(id));
  }

  /**
   Parsing a printed asset gives it back exactly when it has a symbol and its amount is below 2^62 in magnitude; a
   larger amount is refused, and the empty symbol cannot be parsed.
   */
  lemma AssetRoundTrip(a: Asset)
    requires -I64 < a.amount < I64 && a.sym.precision <= MAX_PRECISION && a.sym.id < U32
    ensures AssetFromString(AssetToString(a)) ==
      if a.sym.id == 0 then Err(NoSpace)
      else if -MAX_AMOUNT <= a.amount <= MAX_AMOUNT then Ok(a)
      else Err(AmountOutOfRange)
  {
    hide Print, AmountText, AssetFromString;
    var t := AmountText(a);
    if a.sym.id == 0 {
      assert t + "" == t;
      NoSymbol(a);
    } else {
      hide MakeAsset;
      ParseWithId(a, a.sym.id);
      MadeAgain(a);
      assert t + (" S#" + Print(a.sym.id)) == t + " S#" + Print(a.sym.id);
    }
  }

  lemma NoSymbol(a: Asset)
    ensures AssetFromString(AmountText(a)) == Err(NoSpace)
  {
    hide Print, Find, Trim, AmountText;
    var t := AmountText(a);
    AmountTextEnds(a);
    TrimKeeps(t);
    FindNone(t, ' ');
  }

  lemma MadeAgain(a: Asset)
    requires a.sym.precision <= MAX_PRECISION && a.sym.id < U32
    ensures MakeAsset(a.amount, a.sym.precision, a.sym.id) ==
      if -MAX_AMOUNT <= a.amount <= MAX_AMOUNT then Ok(a) else Err(AmountOutOfRange)
  {
  }

  lemma AmountTextEnds(a: Asset)
    ensures var t := AmountText(a); t != [] && ' ' !in t && !IsSpace(t[0]) && !IsSpace(t[|t| - 1])
  {
    AmountTextShape(a);
    DigitsAreNotSpace(Print(Magnitude(a.amount)));
  }

  /** Two ids that differ by 2^32 read as the same asset: a text can name a symbol that does not exist. */
  lemma IdWraps(a: Asset)
    requires -MAX_AMOUNT <= a.amount <= MAX_AMOUNT && a.sym.precision <= MAX_PRECISION && a.sym.id < U32
    ensures AssetFromString(AmountText(a) + " S#" + Print(a.sym.id + U32)) == Ok(a)
  {
    hide Print, AmountText, AssetFromString;
    ParseWithId(a, a.sym.id + U32);
    Cut32(a.sym.id);
  }

  lemma Cut32(id: nat)
    requires id < U32
    ensures (id + U32) % U32 == id
  {
  }

  // ---- Every text of the expected form, and what is refused ----

  /** A symbol text, with blanks around it: precision at most 18, id on 32 bits. */
  lemma SymbolParses(before: string, p: nat, id: nat, after: string)
    requires Blank(before) && Blank(after) && p < U64 && id < U64
    ensures SymbolFromString(before + (Print(p) + ",S#" + Print(id)) + after) ==
      if p > 18 then Err(TooPrecise) else if id > 0xFFFF_FFFF then Err(IdTooLarge) else Ok(Symbol(p, id))
  {
    hide Print, Find, FrontNumber, Trim;
    var a, b := Print(p), Print(id);
    var text := a + ",S#" + b;
    assert text == a + [','] + ("S#" + b);
    DigitsAreNotSpace(a);
    DigitsAreNotSpace(b);
    TrimStrips(before, text, after);
    NoChar(a, ',');
    FindAt(a, ',', "S#" + b);
    assert text[..|a|] == a && text[|a| + 1..|a| + 3] == "S#" && text[|a| + 3..] == b;
    FrontNumberOfPrint(p);
    FrontNumberOfPrint(id);
  }

  /** A symbol text needs a comma, and the mark behind the first one. */
  lemma SymbolRefused(from: string, a: string, b: string)
    ensures SymbolFromString(from) == Err(NoComma) <==> ',' !in Trim(from)
    ensures Trim(from) == a + [','] + b && ',' !in a ==> (SymbolFromString(from) == Err(NoMark) <==> !("S#" <= b))
  {
    hide Find, FrontNumber, Trim;
    var s := Trim(from);
    if ',' !in s {
      FindNone(s, ',');
    }
    if s == a + [','] + b && ',' !in a {
      FindAt(a, ',', b);
      MarkFollows(a, ',', b);
    }
  }

  lemma MarkFollows(a: string, c: char, b: string)
    ensures var s := a + [c] + b;
      "S#" <= b <==> |s| >= |a| + 3 && s[|a| + 1..|a| + 3] == "S#"
  {
    var s := a + [c] + b;
    assert s[|a| + 1..] == b;
    if |b| >= 2 {
      assert s[|a| + 1..|a| + 3] == b[..2];
    }
  }

  /** The texts of amounts: a sign, digits, and behind a point more digits. */
  function Point(f: string): string {
    if f == "" then "" else "." + f
  }

  /**
   An asset text, with blanks around it: the digits without the point are the amount, the digits behind the point the
   precision. Amounts that do not fit 64 bits are no numbers; those of 2^62 and more are out of range.
   */
  lemma AssetParses(before: string, sign: string, i: string, f: string, id: nat, after: string)
    requires Blank(before) && Blank(after) && (sign == "" || sign == "+" || sign == "-")
    requires AllDigits(i) && AllDigits(f) && i != "" && id < U64
    ensures var v := if sign == "-" then -(Value(i + f) as int) else Value(i + f);
      AssetFromString(before + (sign + i + Point(f) + " S#" + Print(id)) + after) ==
        if !(-0x8000_0000_0000_0000 <= v < 0x8000_0000_0000_0000) then Err(NotANumber)
        else if |f| % 256 > 18 then Err(TooPrecise)
        else if !(-0x4000_0000_0000_0000 < v < 0x4000_0000_0000_0000) then Err(AmountOutOfRange)
        else Ok(Asset(v, Symbol(|f| % 256, id % 0x1_0000_0000)))
  {
    hide Print, Find, Trim, Value, IsSpace, FromParts;
    var t, n := sign + i + Point(f), Print(id);
    var text := t + " S#" + n;
    AmountShape(sign, i, f);
    DigitsAreNotSpace(n);
    TextParts(t, n);
    TextEnds(t, n);
    TrimStrips(before, text, after);
    PartsParse(sign, i, f, id);
  }

  lemma PartsParse(sign: string, i: string, f: string, id: nat)
    requires (sign == "" || sign == "+" || sign == "-") && AllDigits(i) && AllDigits(f) && i != "" && id < U64
    ensures var v := if sign == "-" then -(Value(i + f) as int) else Value(i + f);
      FromParts(sign + i + Point(f), Print(id)) ==
        if !(-0x8000_0000_0000_0000 <= v < 0x8000_0000_0000_0000) then Err(NotANumber)
        else if |f| % 256 > 18 then Err(TooPrecise)
        else if !(-0x4000_0000_0000_0000 < v < 0x4000_0000_0000_0000) then Err(AmountOutOfRange)
        else Ok(Asset(v, Symbol(|f| % 256, id % 0x1_0000_0000)))
  {
    hide Print, Find, ToUint64, Value, Signed, Point, FromParts, ReadsAs;
    AmountShape(sign, i, f);
    AmountPoint(sign, i, f);
    FromReading(sign + i + Point(f), id, |f|, sign + i + f);
    SignedReads(sign, i + f);
    assert sign + i + f == sign + (i + f);
  }

  lemma FromReading(t: string, id: nat, precision: nat, digits: string)
    requires ReadsAs(t, precision, digits) && id < U64
    ensures FromParts(t, Print(id)) ==
      if ToInt64(digits).None? then Err(NotANumber) else MakeAsset(ToInt64(digits).value, precision, id)
  {
    hide Print, Find, ToUint64, ToInt64, MakeAsset;
    ParsedId(id);
  }

  lemma TextEnds(t: string, n: string)
    requires t != "" && !IsSpace(t[0]) && n != "" && !IsSpace(n[|n| - 1])
    ensures var text := t + " S#" + n; text != [] && !IsSpace(text[0]) && !IsSpace(text[|text| - 1])
  {
    hide IsSpace;
  }

  lemma AmountShape(sign: string, i: string, f: string)
    requires (sign == "" || sign == "+" || sign == "-") && AllDigits(i) && AllDigits(f) && i != ""
    ensures var t := sign + i + Point(f); t != "" && ' ' !in t && !IsSpace(t[0])
    ensures AllDigits(i + f) && i + f != "" && (i + f)[0] != '-' && (i + f)[0] != '+'
  {
    NoChar(i, ' ');
    NoChar(f, ' ');
    assert IsDigit(i[0]);
    var t := sign + i + Point(f);
    assert t[0] == if sign == "" then i[0] else sign[0];
    assert (i + f)[0] == i[0];
  }

  lemma AmountPoint(sign: string, i: string, f: string)
    requires (sign == "" || sign == "+" || sign == "-") && AllDigits(i) && AllDigits(f) && i != ""
    ensures ReadsAs(sign + i + Point(f), |f|, sign + i + f)
  {
    hide Find;
    NoChar(i, '.');
    var a := sign + i;
    assert '.' !in a;
    if f == "" {
      assert a + "" == a && a + f == a;
      FindNone(a, '.');
    } else {
      PointAt(a, f);
      assert a + Point(f) == a + "." + f;
    }
  }

  /** An asset text needs a space, the mark behind the first one, and a digit behind a point. */
  lemma AssetRefused(from: string, a: string, b: string)
    ensures AssetFromString(from) == Err(NoSpace) <==> ' ' !in Trim(from)
    ensures Trim(from) == a + [' '] + b && ' ' !in a ==>
      && (AssetFromString(from) == Err(NoMark) <==> !("S#" <= b))
      && ("S#" <= b && a != "" && a[|a| - 1] == '.' && '.' !in a[..|a| - 1] ==> AssetFromString(from) == Err(NoFraction))
  {
    hide Find, Trim, ToUint64, ToInt64;
    var s := Trim(from);
    if ' ' !in s {
      FindNone(s, ' ');
    }
    if s == a + [' '] + b && ' ' !in a {
      FindAt(a, ' ', b);
      MarkFollows(a, ' ', b);
      assert s[..|a|] == a;
      if a != "" && a[|a| - 1] == '.' && '.' !in a[..|a| - 1] {
        var init := a[..|a| - 1];
        assert a == init + ['.'] + "";
        FindAt(init, '.', "");
      }
    }
  }

  /** Texts as a user sees them. */
  lemma TextExamples()
    ensures SymbolToString(Symbol(5, 1)) == "5,S#1"
    ensures AssetToString(Asset(-123456, Symbol(5, 2))) == "-1.23456 S#2"
    ensures AssetToString(Asset(12, Symbol(5, 1))) == "0.00012 S#1"
    ensures AssetToString(Asset(7, Symbol(0, 3))) == "7 S#3"
    ensures AssetToString(Asset(50, Symbol(1, 0))) == "5.0"
  {
    hide Print;
    PrintExamples();
    assert Zeros(3) == "000";
  }

  lemma PrintExamples()
    ensures Print(0) == "0" && Print(1) == "1" && Print(2) == "2" && Print(3) == "3" && Print(5) == "5" && Print(7) == "7"
    ensures Print(12) == "12" && Print(50) == "50" && Print(123456) == "123456"
  {
    assert Print(123) == "123" by {
      assert Print(12) == "12";
    }
    assert Print(12345) == "12345" by {
      assert Print(1234) == "1234";
    }
  }
}
