/** The names of the sections a token database is written under, and why no two are the same. */
module SectionNames {
  import B = Bytes
  import D = Decimal
  import N = Name128
  import S = Snapshot

  /** The names of the sections of the reserved prefixes, domains first and fungibles fifth. */
  function ReservedNames(): (r: seq<string>)
    ensures |r| == 12
  {
    [".domain", ".group", ".suspend", ".lock", ".fungible", ".prodvote", ".jmzklink", ".psvbonus", ".psvbonus-dist",
     ".validator", ".stakepool", ".script"]
  }

  function AssetName(id: nat): string {
    ".asset-" + D.Print(id)
  }

  lemma AssetNameExample()
    ensures AssetName(42) == ".asset-42"
  {
    assert D.Print(4) == "4";
  }

  function NameBytes(s: string): (r: seq<B.byte>)
    ensures |r| == |s|
  {
    seq(|s|, i requires 0 <= i < |s| => (s[i] as int % 256) as B.byte)
  }

  /** Characters that are one byte, and neither zero nor 255. */
  ghost predicate Plain(s: string) {
    forall i :: 0 <= i < |s| ==> 0 < s[i] as int < 255
  }

  lemma PlainIsOk(s: string)
    requires Plain(s)
    ensures S.NameOk(NameBytes(s))
  {
  }

  lemma BytesDiffer(s: string, t: string)
    requires Plain(s) && Plain(t) && s != t
    ensures NameBytes(s) != NameBytes(t)
  {
    if NameBytes(s) == NameBytes(t) {
      SameBytes(s, t);
    }
  }

  lemma SameBytes(s: string, t: string)
    requires Plain(s) && Plain(t) && NameBytes(s) == NameBytes(t)
    ensures s == t
  {
    forall i | 0 <= i < |s| ensures s[i] == t[i] {
      assert NameBytes(s)[i] == NameBytes(t)[i];
    }
  }

  // ---- Reserved names ----

  /** A number that tells the reserved names apart: their length and third character. */
  function Mark(s: string): int
    requires |s| > 2
  {
    1000 * |s| + s[2] as int
  }

  const MARKS: seq<int> := [7111, 6114, 8117, 5111, 9117, 9114, 9109, 9115, 14115, 10097, 10116, 7099]

  lemma ReservedMarks(i: nat)
    requires i < 12
    ensures var s := ReservedNames()[i]; |s| > 2 && s[0] == '.' && s[1] != 'a' && Mark(s) == MARKS[i] && Plain(s)
  {
    if i < 4 {
      FirstMarks(i);
    } else if i < 8 {
      MiddleMarks(i);
    } else {
      LastMarks(i);
    }
  }

  lemma FirstMarks(i: nat)
    requires i < 4
    ensures var s := ReservedNames()[i]; |s| > 2 && s[0] == '.' && s[1] != 'a' && Mark(s) == MARKS[i] && Plain(s)
  {
    var n := ReservedNames();
    assert n[0] == ".domain" && n[1] == ".group" && n[2] == ".suspend" && n[3] == ".lock";
  }

  lemma MiddleMarks(i: nat)
    requires 4 <= i < 8
    ensures var s := ReservedNames()[i]; |s| > 2 && s[0] == '.' && s[1] != 'a' && Mark(s) == MARKS[i] && Plain(s)
  {
    var n := ReservedNames();
    assert n[4] == ".fungible" && n[5] == ".prodvote" && n[6] == ".jmzklink" && n[7] == ".psvbonus";
  }

  lemma LastMarks(i: nat)
    requires 8 <= i < 12
    ensures var s := ReservedNames()[i]; |s| > 2 && s[0] == '.' && s[1] != 'a' && Mark(s) == MARKS[i] && Plain(s)
  {
    var n := ReservedNames();
    assert n[8] == ".psvbonus-dist" && n[9] == ".validator" && n[10] == ".stakepool" && n[11] == ".script";
  }

  lemma MarksDiffer(i: nat, j: nat)
    requires i < j < 12
    ensures MARKS[i] != MARKS[j]
  {
  }

  lemma ReservedDiffer(i: nat, j: nat)
    requires i < j < 12
    ensures ReservedNames()[i] != ReservedNames()[j]
  {
    hide ReservedNames, Plain;
    ReservedMarks(i);
    ReservedMarks(j);
    MarksDiffer(i, j);
  }

  // ---- Assets ----

  lemma AssetShape(id: nat)
    ensures var s := AssetName(id); |s| > 2 && s[0] == '.' && s[1] == 'a' && Plain(s)
  {
    hide D.Print;
    var p := D.Print(id);
    forall i | 0 <= i < |p| ensures 0 < p[i] as int < 255 {
      assert D.IsDigit(p[i]);
    }
  }

  lemma AssetsDiffer(a: nat, b: nat)
    requires a != b
    ensures AssetName(a) != AssetName(b)
  {
    hide D.Print, D.Value;
    D.ValueOfPrint(a);
    D.ValueOfPrint(b);
    assert D.Print(a) == AssetName(a)[7..] && D.Print(b) == AssetName(b)[7..];
  }

  // ---- Domains ----

  /** A name as the node makes them from text, and not reserved. */
  ghost predicate DomainName(v: nat) {
    !N.Reserved(v) && exists cs :: N.NameOf(v, cs)
  }

  lemma DomainShape(v: nat)
    requires DomainName(v)
    ensures N.Text(v) != "" && N.Text(v)[0] != '.' && Plain(N.Text(v))
  {
    hide N.Text, N.NameOf, N.Reserved;
    var cs :| N.NameOf(v, cs);
    N.UnreservedText(v, cs);
    forall i | 0 <= i < |N.Text(v)| ensures 0 < N.Text(v)[i] as int < 255 {
      N.TextAlphabet(v, cs, i);
    }
  }

  lemma DomainsDiffer(v: nat, w: nat)
    requires DomainName(v) && DomainName(w) && v != w
    ensures N.Text(v) != N.Text(w)
  {
    hide N.Text, N.NameOf, N.Reserved;
    var cs :| N.NameOf(v, cs);
    var ds :| N.NameOf(w, ds);
    if N.Text(v) == N.Text(w) {
      N.TextInjective(v, cs, w, ds);
    }
  }
}
