/**
 The undo groups of the token database (libraries/chain/token_database.cpp): what a savepoint records, and
 what rolling it back writes, for groups kept in memory and for groups saved to disk and loaded again.
 */
module UndoLog {
  import opened Wrappers

  type Key = nat
  type Value = string
  type Column = map<Key, Value>

  datatype Op = Add | Update | Put

  /** One recorded write: the kind of write and the key. */
  datatype Entry = Entry(op: Op, key: Key)

  /** One write of a group as saved to disk, with the value to put back; empty when there is none. */
  datatype SavedEntry = SavedEntry(op: Op, key: Key, value: Value)

  ghost predicate Touches(es: seq<Entry>, k: Key) {
    exists i :: 0 <= i < |es| && es[i].key == k
  }

  /** The two columns agree on the key: both lack it, or both hold the same value. */
  predicate Agree(a: Column, b: Column, k: Key) {
    (k in a <==> k in b) && (k in a ==> a[k] == b[k])
  }

  /** Sets the key of `c` to what it is in `s`. */
  function Restored(c: Column, s: Column, k: Key): Column {
    if k in s then c[k := s[k]] else c - {k}
  }

  // ---- Groups in memory ----

  /**
   The writes of a rollback, in order: an added key is deleted; any other key is put back to its value in the
   snapshot the first time it is met. None stands for the failure of an update whose key the snapshot lacks.
   */
  function Rollback(s: Column, es: seq<Entry>, seen: set<Key>, c: Column): Option<Column> {
    if es == [] then Some(c)
    else
      var k := es[0].key;
      match es[0].op
      case Add => Rollback(s, es[1..], seen + {k}, c - {k})
      case Update =>
        if k in seen then Rollback(s, es[1..], seen, c)
        else if k in s then Rollback(s, es[1..], seen + {k}, c[k := s[k]])
        else None
      case Put =>
        if k in seen then Rollback(s, es[1..], seen, c)
        else Rollback(s, es[1..], seen + {k}, Restored(c, s, k))
  }

  /** Every key the group added was absent at the snapshot. */
  ghost predicate AddsAbsent(s: Column, es: seq<Entry>) {
    forall i :: 0 <= i < |es| && es[i].op == Add ==> es[i].key !in s
  }

  /** Entry i is the first on its key. */
  predicate FirstOnKey(es: seq<Entry>, i: nat)
    requires i < |es|
  {
    forall j :: 0 <= j < i ==> es[j].key != es[i].key
  }

  /** Every key the group first met in an update was present at the snapshot. */
  ghost predicate UpdatesPresent(s: Column, es: seq<Entry>) {
    forall i :: 0 <= i < |es| && es[i].op == Update && FirstOnKey(es, i) ==> es[i].key in s
  }

  /** The same for a rest of the group, with the keys met before in `seen`. */
  ghost predicate UpdatesPresentAfter(s: Column, es: seq<Entry>, seen: set<Key>) {
    forall i :: 0 <= i < |es| && es[i].op == Update && FirstOnKey(es, i) && es[i].key !in seen ==> es[i].key in s
  }

  lemma FirstOnKeyTail(es: seq<Entry>, i: nat)
    requires 0 < i < |es|
    ensures FirstOnKey(es, i) <==> FirstOnKey(es[1..], i - 1) && es[i].key != es[0].key
  {
    forall j | 0 <= j < i - 1 ensures es[1..][j] == es[j + 1] {
    }
    if FirstOnKey(es[1..], i - 1) && es[i].key != es[0].key {
      forall j | 0 <= j < i ensures es[j].key != es[i].key {
        if j > 0 {
          assert es[1..][j - 1].key != es[1..][i - 1].key;
        }
      }
    }
  }

  /** The rollback fails exactly when some key was first met in an update and the snapshot lacks it. */
  lemma {:induction false} RollbackFailsIff(s: Column, es: seq<Entry>, seen: set<Key>, c: Column)
    ensures Rollback(s, es, seen, c).Some? <==> UpdatesPresentAfter(s, es, seen)
  {
    if es != [] {
      var k, rest := es[0].key, es[1..];
      var seen' := seen + {k};
      RestOfUpdates(s, es, seen, seen');
      assert k in seen ==> seen' == seen;
      RollbackFailsIff(s, rest, seen', c - {k});
      RollbackFailsIff(s, rest, seen', c);
      RollbackFailsIff(s, rest, seen', Restored(c, s, k));
    }
  }

  lemma RestOfUpdates(s: Column, es: seq<Entry>, seen: set<Key>, seen': set<Key>)
    requires es != [] && seen' == seen + {es[0].key}
    ensures UpdatesPresentAfter(s, es, seen) <==>
      UpdatesPresentAfter(s, es[1..], seen') && (es[0].op == Update && es[0].key !in seen ==> es[0].key in s)
  {
    var rest := es[1..];
    assert FirstOnKey(es, 0);
    forall i | 0 < i < |es| ensures FirstOnKey(es, i) <==> FirstOnKey(rest, i - 1) && es[i].key != es[0].key {
      FirstOnKeyTail(es, i);
    }
    if UpdatesPresentAfter(s, es, seen) {
      forall i | 0 <= i < |rest| && rest[i].op == Update && FirstOnKey(rest, i) && rest[i].key !in seen'
        ensures rest[i].key in s
      {
        assert es[i + 1] == rest[i] && FirstOnKey(es, i + 1);
      }
    } 
    if UpdatesPresentAfter(s, rest, seen') && (es[0].op == Update && es[0].key !in seen ==> es[0].key in s) {
      forall i | 0 <= i < |es| && es[i].op == Update && FirstOnKey(es, i) && es[i].key !in seen ensures es[i].key in s {
        if i > 0 {
          assert rest[i - 1] == es[i];
        }
      }
    }
  }

  ghost predicate Adds(es: seq<Entry>, k: Key) {
    exists i :: 0 <= i < |es| && es[i] == Entry(Add, k)
  }

  lemma TailOf(es: seq<Entry>, k: Key)
    requires es != []
    ensures Touches(es, k) <==> es[0].key == k || Touches(es[1..], k)
    ensures Adds(es, k) <==> es[0] == Entry(Add, k) || Adds(es[1..], k)
  {
    var rest := es[1..];
    if i :| 0 <= i < |rest| && rest[i].key == k {
      assert es[i + 1].key == k;
    }
    if i :| 0 <= i < |rest| && rest[i] == Entry(Add, k) {
      assert es[i + 1] == Entry(Add, k);
    }
    if i :| 0 <= i < |es| && es[i].key == k && i > 0 {
      assert rest[i - 1].key == k;
    }
    if i :| 0 <= i < |es| && es[i] == Entry(Add, k) && i > 0 {
      assert rest[i - 1] == Entry(Add, k);
    }
  }

  /** What a rollback leaves under one key. */
  lemma {:induction false} RollbackAt(s: Column, es: seq<Entry>, seen: set<Key>, c: Column, k: Key)
    requires Rollback(s, es, seen, c).Some?
    ensures var r := Rollback(s, es, seen, c).value;
      if Adds(es, k) then k !in r
      else if Touches(es, k) && k !in seen then Agree(r, s, k)
      else Agree(r, c, k)
  {
    if es != [] {
      TailOf(es, k);
      var x, rest := es[0].key, es[1..];
      if es[0].op == Add {
        RollbackAt(s, rest, seen + {x}, c - {x}, k);
      } else if x in seen {
        RollbackAt(s, rest, seen, c, k);
      } else {
        RollbackAt(s, rest, seen + {x}, Restored(c, s, x), k);
      }
    }
  }

  lemma ColumnsEqual(a: Column, b: Column)
    requires forall k :: Agree(a, b, k)
    ensures a == b
  {
    forall k ensures k in a <==> k in b {
      assert Agree(a, b, k);
    }
    forall k | k in a ensures a[k] == b[k] {
      assert Agree(a, b, k);
    }
  }

  /** Outside the keys the group touched, the column is what it was at the snapshot. */
  ghost predicate Framed(s: Column, es: seq<Entry>, c: Column) {
    forall k :: !Touches(es, k) ==> Agree(c, s, k)
  }

  /**
   Exactly when rolling a group back gives the snapshot: every added key was absent there, and every key first
   met in an update was present.
   */
  lemma RollbackRestoresIff(s: Column, es: seq<Entry>, c: Column)
    requires Framed(s, es, c)
    ensures Rollback(s, es, {}, c) == Some(s) <==> AddsAbsent(s, es) && UpdatesPresent(s, es)
  {
    hide Rollback;
    RollbackFailsIff(s, es, {}, c);
    assert UpdatesPresentAfter(s, es, {}) == UpdatesPresent(s, es);
    if UpdatesPresent(s, es) {
      var r := Rollback(s, es, {}, c).value;
      if AddsAbsent(s, es) {
        forall k ensures Agree(r, s, k) {
          RollbackAt(s, es, {}, c, k);
        }
        ColumnsEqual(r, s);
      } else {
        var i :| 0 <= i < |es| && es[i].op == Add && es[i].key in s;
        assert es[i] == Entry(Add, es[i].key);
        RollbackAt(s, es, {}, c, es[i].key);
      }
    }
  }

  // ---- What a disciplined group keeps ----

  /**
   A group whose adds met absent keys and whose updates met present ones: between the snapshot and the column
   nothing was deleted, only recorded keys changed, and every recorded key is present.
   */
  ghost predicate GroupOk(s: Column, es: seq<Entry>, c: Column) {
    && Framed(s, es, c)
    && s.Keys <= c.Keys
    && (forall i :: 0 <= i < |es| ==> es[i].key in c)
    && AddsAbsent(s, es) && UpdatesPresent(s, es)
  }

  /** The caller's side: an added key is absent, an updated one present. */
  predicate Allowed(c: Column, op: Op, k: Key) {
    (op == Add ==> k !in c) && (op == Update ==> k in c)
  }

  lemma GroupStart(c: Column)
    ensures GroupOk(c, [], c)
  {
  }

  lemma TouchesGrow(es: seq<Entry>, fs: seq<Entry>)
    ensures forall x :: Touches(es, x) ==> Touches(es + fs, x)
  {
    forall x | Touches(es, x) ensures Touches(es + fs, x) {
      var i :| 0 <= i < |es| && es[i].key == x;
      assert (es + fs)[i].key == x;
    }
  }

  /** A key met first in the second part is not met in the first. */
  lemma FirstIsUntouched(es: seq<Entry>, fs: seq<Entry>, i: nat)
    requires i < |fs| && FirstOnKey(es + fs, |es| + i)
    ensures !Touches(es, fs[i].key)
  {
    assert forall j :: 0 <= j < |es| ==> (es + fs)[j] == es[j];
    assert (es + fs)[|es| + i] == fs[i];
  }

  lemma GroupAppend(s: Column, es: seq<Entry>, c: Column, op: Op, k: Key, v: Value)
    requires GroupOk(s, es, c) && Allowed(c, op, k)
    ensures GroupOk(s, es + [Entry(op, k)], c[k := v])
  {
    var es' := es + [Entry(op, k)];
    assert es'[|es|].key == k;
    TouchesGrow(es, [Entry(op, k)]);
    assert !Touches(es, k) ==> Agree(c, s, k);
    forall i | 0 <= i < |es'| && es'[i].op == Update && FirstOnKey(es', i) ensures es'[i].key in s {
      if i < |es| {
        assert FirstOnKey(es, i) by {
          forall j | 0 <= j < i ensures es[j].key != es[i].key {
            assert es'[j].key != es'[i].key;
          }
        }
      } else {
        FirstIsUntouched(es, [Entry(op, k)], 0);
      }
    }
    forall i | 0 <= i < |es'| && es'[i].op == Add ensures es'[i].key !in s {
      if i == |es| {
        assert k !in c;
      }
    }
  }

  /** Two groups on top of each other are one group on the older snapshot. */
  lemma GroupSquash(s: Column, es: seq<Entry>, t: Column, fs: seq<Entry>, c: Column)
    requires GroupOk(s, es, t) && GroupOk(t, fs, c)
    ensures GroupOk(s, es + fs, c)
  {
    var gs := es + fs;
    forall k ensures Touches(gs, k) <==> Touches(es, k) || Touches(fs, k) {
      if i :| 0 <= i < |es| && es[i].key == k {
        assert gs[i].key == k;
      }
      if i :| 0 <= i < |fs| && fs[i].key == k {
        assert gs[|es| + i].key == k;
      }
      if i :| 0 <= i < |gs| && gs[i].key == k && !Touches(es, k) {
        assert i >= |es|;
        assert fs[i - |es|].key == k;
      }
    }
    forall k | !Touches(gs, k) ensures Agree(c, s, k) {
      assert Agree(t, s, k) && Agree(c, t, k);
    }
    forall i | 0 <= i < |gs| && gs[i].op == Update && FirstOnKey(gs, i) ensures gs[i].key in s {
      var k := gs[i].key;
      if i < |es| {
        assert FirstOnKey(es, i) by {
          forall j | 0 <= j < i ensures es[j].key != es[i].key {
            assert gs[j].key != gs[i].key;
          }
        }
      } else {
        assert FirstOnKey(fs, i - |es|) by {
          forall j | 0 <= j < i - |es| ensures fs[j].key != k {
            assert gs[|es| + j].key != gs[i].key;
          }
        }
        FirstIsUntouched(es, fs, i - |es|);
        assert k in t && Agree(t, s, k);
      }
    }
    forall i | 0 <= i < |gs| && gs[i].op == Add ensures gs[i].key !in s {
      if i >= |es| {
        assert gs[i] == fs[i - |es|];
      }
    }
  }

  lemma GroupRollsBack(s: Column, es: seq<Entry>, c: Column)
    requires GroupOk(s, es, c)
    ensures Rollback(s, es, {}, c) == Some(s)
  {
    RollbackRestoresIff(s, es, c);
  }

  // ---- Groups saved to disk ----

  function SavedValue(s: Column, es: seq<Entry>, i: nat): Value
    requires i < |es|
  {
    if es[i].op == Add || !FirstOnKey(es, i) || es[i].key !in s then "" else s[es[i].key]
  }

  /** The saved form of the first n entries: only the first entry on a key carries the old value. */
  function SavedPrefix(s: Column, es: seq<Entry>, n: nat): (r: seq<SavedEntry>)
    requires n <= |es|
    ensures |r| == n
  {
    seq(n, i requires 0 <= i < n => SavedEntry(es[i].op, es[i].key, SavedValue(s, es, i)))
  }

  function Saved(s: Column, es: seq<Entry>): seq<SavedEntry> {
    SavedPrefix(s, es, |es|)
  }

  /** One write of the rollback of a saved group. */
  function SavedWrite(c: Column, e: SavedEntry): Column {
    if e.op == Add || (e.op == Put && e.value == "") then c - {e.key} else c[e.key := e.value]
  }

  function SavedRollback(saved: seq<SavedEntry>, c: Column): Column {
    if saved == [] then c else SavedWrite(SavedRollback(saved[..|saved| - 1], c), saved[|saved| - 1])
  }

  predicate LastOnKey(es: seq<Entry>, i: nat)
    requires i < |es|
  {
    forall j :: i < j < |es| ==> es[j].key != es[i].key
  }

  /** Undoing a saved group leaves an untouched key alone and decides every other key by its last entry. */
  lemma {:induction false} SavedRollbackAt(saved: seq<SavedEntry>, c: Column, k: Key, last: int)
    requires -1 <= last < |saved|
    requires last >= 0 ==> saved[last].key == k
    requires forall j :: last < j < |saved| ==> saved[j].key != k
    ensures Agree(SavedRollback(saved, c), if last >= 0 then SavedWrite(c, saved[last]) else c, k)
  {
    if saved != [] && last < |saved| - 1 {
      SavedRollbackAt(saved[..|saved| - 1], c, k, last);
    }
  }

  /**
   The last entry on a key leaves the snapshot's value there: an added key was absent; a repeated update needs the
   old value to be the empty string; a repeated put needs the key absent; a single put needs a nonempty old value.
   */
  predicate SavedEntryRestores(s: Column, es: seq<Entry>, i: nat)
    requires i < |es|
  {
    var k := es[i].key;
    match es[i].op
    case Add => k !in s
    case Update => FirstOnKey(es, i) || (k in s && s[k] == "")
    case Put => if FirstOnKey(es, i) then k in s ==> s[k] != "" else k !in s
  }

  ghost predicate SavedRestores(s: Column, es: seq<Entry>) {
    forall i :: 0 <= i < |es| && LastOnKey(es, i) ==> SavedEntryRestores(s, es, i)
  }

  lemma SavedEntryAt(s: Column, es: seq<Entry>, c: Column, i: nat)
    requires i < |es| && LastOnKey(es, i) && UpdatesPresent(s, es)
    ensures Agree(SavedRollback(Saved(s, es), c), s, es[i].key) <==> SavedEntryRestores(s, es, i)
  {
    var saved, k := Saved(s, es), es[i].key;
    hide SavedRollback;
    SavedRollbackAt(saved, c, k, i);
  }

  lemma {:induction false} LastEntry(es: seq<Entry>, k: Key, n: nat) returns (i: nat)
    requires n <= |es| && (exists i :: 0 <= i < n && es[i].key == k)
    requires forall j :: n <= j < |es| ==> es[j].key != k
    ensures i < |es| && es[i].key == k && LastOnKey(es, i)
  {
    if es[n - 1].key == k {
      i := n - 1;
    } else {
      i := LastEntry(es, k, n - 1);
    }
  }

  /** Exactly when rolling back a group that was saved and loaded gives the snapshot of the group in memory. */
  lemma SavedRollbackRestoresIff(s: Column, es: seq<Entry>, c: Column)
    requires Framed(s, es, c) && UpdatesPresent(s, es)
    ensures SavedRollback(Saved(s, es), c) == s <==> SavedRestores(s, es)
  {
    hide SavedRollback, SavedEntryRestores, UpdatesPresent, Saved;
    var r := SavedRollback(Saved(s, es), c);
    forall i | 0 <= i < |es| && LastOnKey(es, i)
      ensures Agree(r, s, es[i].key) <==> SavedEntryRestores(s, es, i)
    {
      SavedEntryAt(s, es, c, i);
    }
    if SavedRestores(s, es) {
      forall k ensures Agree(r, s, k) {
        if Touches(es, k) {
          var i := LastEntry(es, k, |es|);
        } else {
          UntouchedStays(s, es, c, k);
        }
      }
      ColumnsEqual(r, s);
    }
  }

  lemma UntouchedStays(s: Column, es: seq<Entry>, c: Column, k: Key)
    requires !Touches(es, k)
    ensures Agree(SavedRollback(Saved(s, es), c), c, k)
  {
    SavedRollbackAt(Saved(s, es), c, k, -1);
  }

  ghost predicate NoRepeats(es: seq<Entry>) {
    forall i, j :: 0 <= i < j < |es| ==> es[i].key != es[j].key
  }

  ghost predicate OldValuesNonempty(s: Column, es: seq<Entry>) {
    forall i :: 0 <= i < |es| && es[i].key in s ==> s[es[i].key] != ""
  }

  /** Without repeats and empty old values, a group does the same rolled back from memory or from disk. */
  lemma SavedMatchesRuntime(s: Column, es: seq<Entry>, c: Column)
    requires GroupOk(s, es, c) && NoRepeats(es) && OldValuesNonempty(s, es)
    ensures Rollback(s, es, {}, c) == Some(SavedRollback(Saved(s, es), c))
  {
    GroupRollsBack(s, es, c);
    forall i | 0 <= i < |es| && LastOnKey(es, i) ensures SavedEntryRestores(s, es, i) {
      assert FirstOnKey(es, i);
    }
    SavedRollbackRestoresIff(s, es, c);
  }

  /** A key written twice in one group comes back as the empty string after a save and a load. */
  lemma RepeatedUpdateIsLost()
    ensures var s: Column, es := map[7 := "old"], [Entry(Update, 7), Entry(Update, 7)];
      GroupOk(s, es, map[7 := "new"]) && SavedRollback(Saved(s, es), map[7 := "new"]) == map[7 := ""]
  {
    var s: Column, es, c := map[7 := "old"], [Entry(Update, 7), Entry(Update, 7)], map[7 := "new"];
    GroupStart(s);
    GroupAppend(s, [], s, Update, 7, "mid");
    GroupAppend(s, [] + [Entry(Update, 7)], s[7 := "mid"], Update, 7, "new");
    assert [] + [Entry(Update, 7)] + [Entry(Update, 7)] == es;
    assert s[7 := "mid"][7 := "new"] == c;
    var saved := Saved(s, es);
    assert !FirstOnKey(es, 1) by {
      assert es[0].key == es[1].key;
    }
    assert saved[1] == SavedEntry(Update, 7, "");
    var r := SavedRollback(saved, c);
    forall k ensures Agree(r, map[7 := ""], k) {
      SavedRollbackAt(saved, c, k, if k == 7 then 1 else -1);
    }
    ColumnsEqual(r, map[7 := ""]);
  }
}
