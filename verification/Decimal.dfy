/** Decimal text, as the number printing and parsing of the node's library writes and reads it. */
module Decimal {
  import opened Wrappers

  predicate IsDigit(c: char) {
    '0' <= c <= '9'
  }

  function DigitOf(c: char): nat
    requires IsDigit(c)
  {
    (c as int) - ('0' as int)
  }

  function CharOf(d: nat): (c: char)
    requires d < 10
    ensures IsDigit(c) && DigitOf(c) == d
  {
    (d + ('0' as int)) as char
  }

  predicate AllDigits(s: string) {
    forall i :: 0 <= i < |s| ==> IsDigit(s[i])
  }

  function Print(n: nat): (s: string)
    ensures s != [] && AllDigits(s)
  {
    if n < 10 then [CharOf(n)] else Print(n / 10) + [CharOf(n % 10)]
  }

  function Value(s: string): nat
    requires AllDigits(s)
  {
    if s == [] then 0 else 10 * Value(s[..|s| - 1]) + DigitOf(s[|s| - 1])
  }

  /** Reading gives back every printed number. */
  lemma {:induction false} ValueOfPrint(n: nat)
    ensures Value(Print(n)) == n
  {
    var s := Print(n);
    if n >= 10 {
      ValueOfPrint(n / 10);
      assert s[..|s| - 1] == Print(n / 10);
    } else {
      assert s[..0] == [];
    }
  }

  /** Leading zeros do not count. */
  lemma {:induction false} LeadingZeros(z: string, s: string)
    requires AllDigits(s) && forall i :: 0 <= i < |z| ==> z[i] == '0'
    ensures AllDigits(z + s) && Value(z + s) == Value(s)
    decreases |z| + |s|
  {
    if s == [] {
      assert z + s == z;
      if z != [] {
        LeadingZeros(z[..|z| - 1], s);
        assert z[..|z| - 1] + s == z[..|z| - 1];
      }
    } else {
      var init := s[..|s| - 1];
      assert AllDigits(init);
      LeadingZeros(z, init);
      assert (z + s)[..|z + s| - 1] == z + init;
    }
  }

  function Power(k: nat): nat {
    if k == 0 then 1 else 10 * Power(k - 1)
  }

  lemma {:induction false} PrintLength(n: nat, k: nat)
    requires k > 0 && n < Power(k)
    ensures |Print(n)| <= k
  {
    if n >= 10 {
      assert Power(1) == 10 * Power(0);
      PrintLength(n / 10, k - 1);
    }
  }

  lemma NoChar(s: string, c: char)
    requires AllDigits(s) && !IsDigit(c)
    ensures c !in s
  {
  }

  // ---- Searching and parsing ----

  /** The first place of a character. */
  function Find(s: string, c: char): (r: Option<nat>)
    ensures r.Some? ==> r.value < |s| && s[r.value] == c && c !in s[..r.value]
    ensures r.None? ==> c !in s
  {
    if s == [] then None
    else if s[0] == c then Some(0)
    else
      var r := Find(s[1..], c);
      if r.None? then None
      else
        assert s[..r.value + 1] == [s[0]] + s[1..][..r.value];
        Some(r.value + 1)
  }

  lemma FindAt(a: string, c: char, b: string)
    requires c !in a
    ensures Find(a + [c] + b, c) == Some(|a|)
  {
    var s := a + [c] + b;
    var r := Find(s, c);
    assert s[|a|] == c;
    assert forall j :: 0 <= j < |a| ==> s[j] == a[j];
    assert forall j :: 0 <= j < r.value ==> s[..r.value][j] == s[j];
  }

  lemma FindNone(s: string, c: char)
    requires c !in s
    ensures Find(s, c) == None
  {
  }

  /** A sign and digits, all of the text: the value, or nothing when the text is not of that form. */
  function Signed(s: string): Option<int> {
    var body := if s != [] && (s[0] == '-' || s[0] == '+') then s[1..] else s;
    if body == [] || !AllDigits(body) then None
    else if s[0] == '-' then Some(-(Value(body) as int))
    else Some(Value(body))
  }

  const U64: int := 0x1_0000_0000_0000_0000
  const I64: int := 0x8000_0000_0000_0000
  const U32: int := 0x1_0000_0000

  /** A 64-bit signed integer from all of a text. */
  function ToInt64(s: string): Option<int> {
    var r := Signed(s);
    if r.Some? && -I64 <= r.value < I64 then r else None
  }

  /** A 64-bit unsigned integer from all of a text; a negative one wraps around. */
  function ToUint64(s: string): Option<nat> {
    var r := Signed(s);
    if r.Some? && -U64 < r.value < U64 then Some(if r.value < 0 then r.value + U64 else r.value) else None
  }

  lemma SignedDigits(s: string)
    requires s != [] && AllDigits(s)
    ensures Signed(s) == Some(Value(s)) && Signed("-" + s) == Some(-(Value(s) as int))
  {
    assert ("-" + s)[1..] == s;
    assert IsDigit(s[0]);
  }

  /** A plus sign changes nothing; nothing but digits may follow a sign. */
  lemma SignedReads(sign: string, s: string)
    requires sign == "" || sign == "+" || sign == "-"
    requires s != [] && s[0] != '-' && s[0] != '+'
    ensures Signed(sign + s) == if !AllDigits(s) then None else if sign == "-" then Some(-(Value(s) as int)) else Some(Value(s))
  {
    hide Value;
    if sign == "" {
      assert sign + s == s;
    } else {
      assert (sign + s)[1..] == s;
    }
  }

  // ---- Trimming ----

  predicate IsSpace(c: char) {
    c == ' ' || c == '\t' || c == '\n' || c == '\r' || c as int == 11 || c as int == 12
  }

  function TrimLeft(s: string): string {
    if s != [] && IsSpace(s[0]) then TrimLeft(s[1..]) else s
  }

  function TrimRight(s: string): string {
    if s != [] && IsSpace(s[|s| - 1]) then TrimRight(s[..|s| - 1]) else s
  }

  function Trim(s: string): string {
    TrimRight(TrimLeft(s))
  }

  lemma TrimKeeps(s: string)
    requires s != [] && !IsSpace(s[0]) && !IsSpace(s[|s| - 1])
    ensures Trim(s) == s
  {
  }

  /** Blanks, tabs and the like: the characters trimmed off. */
  ghost predicate Blank(s: string) {
    forall i :: 0 <= i < |s| ==> s[i] == ' ' || 9 <= s[i] as int <= 13
  }

  lemma {:induction false} TrimLeftStrips(a: string, s: string)
    requires Blank(a) && s != [] && !IsSpace(s[0])
    ensures TrimLeft(a + s) == s
  {
    if a == [] {
      assert a + s == s;
    } else {
      assert IsSpace(a[0]);
      TrimLeftStrips(a[1..], s);
      assert (a + s)[1..] == a[1..] + s;
    }
  }

  lemma {:induction false} TrimRightStrips(s: string, b: string)
    requires Blank(b) && s != [] && !IsSpace(s[|s| - 1])
    ensures TrimRight(s + b) == s
  {
    if b == [] {
      assert s + b == s;
    } else {
      var init := b[..|b| - 1];
      assert IsSpace(b[|b| - 1]);
      TrimRightStrips(s, init);
      assert (s + b)[..|s + b| - 1] == s + init;
    }
  }

  /** Trimming takes the blanks off both ends. */
  lemma TrimStrips(a: string, s: string, b: string)
    requires Blank(a) && Blank(b) && s != [] && !IsSpace(s[0]) && !IsSpace(s[|s| - 1])
    ensures Trim(a + s + b) == s
  {
    hide IsSpace, TrimLeft, TrimRight;
    assert a + s + b == a + (s + b);
    TrimLeftStrips(a, s + b);
    TrimRightStrips(s, b);
  }

  // ---- The number at the front of a text ----

  function DigitRun(s: string): (n: nat)
    ensures n <= |s| && AllDigits(s[..n])
  {
    if s == [] || !IsDigit(s[0]) then 0
    else
      var n := DigitRun(s[1..]);
      assert s[..n + 1] == [s[0]] + s[1..][..n];
      n + 1
  }

  lemma {:induction false} DigitRunAll(s: string)
    requires AllDigits(s)
    ensures DigitRun(s) == |s|
  {
    if s != [] {
      DigitRunAll(s[1..]);
    }
  }

  /** An unsigned number at the front of a text, after white space and a sign; what follows it is ignored. */
  function FrontNumber(s: string): Option<nat> {
    var t := TrimLeft(s);
    var body := if t != [] && (t[0] == '-' || t[0] == '+') then t[1..] else t;
    var n := DigitRun(body);
    if n == 0 || Value(body[..n]) >= U64 then None
    else if t[0] == '-' && Value(body[..n]) > 0 then Some(U64 - Value(body[..n]))
    else Some(Value(body[..n]))
  }

  lemma FrontNumberOfPrint(n: nat)
    requires n < U64
    ensures FrontNumber(Print(n)) == Some(n)
  {
    hide Print, Value;
    var s := Print(n);
    ValueOfPrint(n);
    DigitRunAll(s);
    assert IsDigit(s[0]);
    assert s[..|s|] == s;
  }

  lemma {:induction false} DigitRunStops(s: string, rest: string)
    requires AllDigits(s) && (rest != [] ==> !IsDigit(rest[0]))
    ensures DigitRun(s + rest) == |s|
  {
    if s == [] {
      assert s + rest == rest;
    } else {
      DigitRunStops(s[1..], rest);
      assert (s + rest)[1..] == s[1..] + rest;
    }
  }

  /** Blanks and a sign may come before the number and anything but a digit behind it; a negative number wraps around. */
  lemma FrontNumberReads(blanks: string, sign: string, n: nat, rest: string)
    requires Blank(blanks) && (sign == "" || sign == "+" || sign == "-") && (rest != [] ==> !IsDigit(rest[0]))
    ensures FrontNumber(blanks + (sign + (Print(n) + rest))) ==
      if n >= 0x1_0000_0000_0000_0000 then None
      else if sign == "-" && n > 0 then Some(0x1_0000_0000_0000_0000 - n)
      else Some(n)
  {
    hide Print, Value, TrimLeft, DigitRun;
    var d := Print(n);
    var body := d + rest;
    var t := sign + body;
    assert IsDigit(d[0]) && body[0] == d[0];
    if sign == "" {
      assert t == body;
    } else {
      assert t[1..] == body;
    }
    TrimLeftStrips(blanks, t);
    DigitRunStops(d, rest);
    assert body[..|d|] == d;
    ValueOfPrint(n);
  }
}
