/**
 The token database and its asset write cache as objects (libraries/chain/token_database.cpp). The methods follow
 the loops of the source; their contracts tie each to the plain stack of maps the database stands for.
 */
module TokenStore {
  import opened Wrappers
  import opened UndoLog
  import opened WriteCache
  import opened TokenDatabase

  // ---- The write cache ----

  lemma UndoStep(data: Data, vec: seq<DataOp>, i: nat)
    requires i < |vec|
    ensures UndoAll(UndoOp(data, vec[i]), vec[..i]) == UndoAll(data, vec[..i + 1])
  {
    assert vec[..i + 1][..i] == vec[..i];
  }

  lemma ReleaseStep(p: Popped, vec: seq<DataOp>, i: nat)
    requires i < |vec|
    ensures var q := Release(p, vec[..i]);
      Release(p, vec[..i + 1]) == Popped(ReleaseOp(q.data, vec[i].key), FlushOp(q.data, vec[i].key, q.batch))
  {
    assert vec[..i + 1][..i] == vec[..i];
  }

  lemma PrefixStep<T>(xs: seq<T>, i: nat)
    requires i < |xs|
    ensures xs[..i + 1] == xs[..i] + [xs[i]]
  {
  }

  /** While the newest i + 1 records are still to undo, the next one finds its key cached, with a nonempty value. */
  lemma UndoFindsKey(data: Data, f: seq<DataOp>, vec: seq<DataOp>, i: nat)
    requires i < |vec| && Inv(data, f + vec[..i + 1])
    ensures vec[i].key in data && data[vec[i].key].value != ""
    ensures Inv(UndoOp(data, vec[i]), f + vec[..i])
  {
    hide Count, First;
    var op := vec[i];
    assert f + vec[..i + 1] == (f + vec[..i]) + [op];
    CountAppend(f + vec[..i], [op], op.key);
    Single(op, op.key);
    assert EntryOk(data, op.key, Count(f + vec[..i + 1], op.key));
    UndoOpCounts(data, f + vec[..i], op);
    PvPrefix(f + vec[..i], [op]);
  }

  class WriteCacheLayer {
    var data: Data
    var ops: seq<Layer>

    function Now(): Cache
      reads this
    {
      Cache(data, ops)
    }

    constructor ()
      ensures Now() == Cache(map[], [])
    {
      data, ops := map[], [];
    }

    method Put(k: Key, v: Value)
      requires ops != []
      modifies this
      ensures Now() == PutInto(old(Now()), k, v)
    {
      var top := ops[|ops| - 1];
      var pv := "";
      if k in data {
        pv := data[k].value;
        data := data[k := CacheEntry(data[k].count + 1, v)];
      } else {
        data := data[k := CacheEntry(1, v)];
      }
      ops := ops[..|ops| - 1] + [top.(vec := top.vec + [DataOp(k, pv)])];
    }

    method Lookup(k: Key) returns (r: Option<Value>)
      ensures r == if k in data then Some(data[k].value) else None
    {
      if k in data {
        r := Some(data[k].value);
      } else {
        r := None;
      }
    }

    method AddSavepoint(seqno: int)
      modifies this
      ensures Now() == Pushed(old(Now()), seqno)
    {
      ops := ops + [Layer(seqno, [])];
    }

    /** Undoes the newest layer; every record finds its key cached with a nonempty value. */
    method RollbackToLatest()
      requires ops != [] && Inv(data, Flat(ops))
      modifies this
      ensures data == UndoAll(old(data), old(ops)[|old(ops)| - 1].vec)
      ensures ops == old(ops)[..|old(ops)| - 1]
    {
      hide Inv, UndoAll;
      var vec := ops[|ops| - 1].vec;
      ghost var f := Flat(ops[..|ops| - 1]);
      assert vec[..|vec|] == vec;
      for i := |vec| downto 0
        invariant ops == old(ops)
        invariant Inv(data, f + vec[..i])
        invariant UndoAll(data, vec[..i]) == UndoAll(old(data), vec)
      {
        var op := vec[i];
        UndoFindsKey(data, f, vec, i);
        UndoStep(data, vec, i);
        var e := data[op.key];
        if e.count == 1 {
          data := data - {op.key};
        } else {
          assert e.value != "";
          data := data[op.key := CacheEntry(e.count - 1, op.pv)];
        }
      }
      assert UndoAll(data, vec[..0]) == data by {
        UndoNothing(data);
      }
      ops := ops[..|ops| - 1];
    }

    method Squash()
      requires |ops| >= 2
      modifies this
      ensures data == old(data)
      ensures var n := |old(ops)|;
        ops == old(ops)[..n - 2] + [old(ops)[n - 2].(vec := old(ops)[n - 2].vec + old(ops)[n - 1].vec)]
    {
      var n := |ops|;
      ops := ops[..n - 2] + [ops[n - 2].(vec := ops[n - 2].vec + ops[n - 1].vec)];
    }

    /** Releases the oldest layer; the batch holds what the caller has to write to the store. */
    method PopFront() returns (batch: Column)
      requires ops != []
      modifies this
      ensures Popped(data, batch) == Release(Popped(old(data), map[]), old(ops)[0].vec)
      ensures ops == old(ops)[1..]
    {
      hide Release;
      var vec := ops[0].vec;
      batch := map[];
      ReleaseNothing(Popped(data, map[]));
      for i := 0 to |vec|
        invariant ops == old(ops)
        invariant Popped(data, batch) == Release(Popped(old(data), map[]), vec[..i])
      {
        ReleaseStep(Popped(old(data), map[]), vec, i);
        var k := vec[i].key;
        if k in data {
          var e := data[k];
          if e.count == 1 {
            batch := batch[k := e.value];
            data := data - {k};
          } else {
            data := data[k := CacheEntry(e.count - 1, e.value)];
          }
        }
      }
      assert vec[..|vec|] == vec;
      ops := ops[1..];
    }

    method PersistLayer(l: Layer) returns (p: PackedLayer)
      ensures p == PackedLayer(l.seqno, PackVec(data, l.vec))
    {
      hide PackVec;
      var writes := [];
      PackNothing(data);
      for i := 0 to |l.vec|
        invariant writes == PackVec(data, l.vec[..i])
      {
        PackVecStep(data, l.vec, i);
        var k := l.vec[i].key;
        writes := writes + [Write(k, if k in data then data[k].value else "")];
      }
      assert l.vec[..|l.vec|] == l.vec;
      p := PackedLayer(l.seqno, writes);
    }

    method PersistSavepoints() returns (pack: seq<PackedLayer>)
      ensures pack == Pack(data, ops)
    {
      hide Pack, PackVec;
      pack := [];
      PackNothing(data);
      for i := 0 to |ops|
        invariant pack == Pack(data, ops[..i])
      {
        PackStep(data, ops, i);
        var p := PersistLayer(ops[i]);
        pack := pack + [p];
      }
      assert ops[..|ops|] == ops;
    }

    method Replay(writes: seq<Write>)
      requires ops != []
      modifies this
      ensures Now() == Replayed(old(Now()), writes)
    {
      hide Replayed;
      ghost var c := Now();
      ReplayNothing(c);
      for i := 0 to |writes|
        invariant ops != []
        invariant Now() == Replayed(c, writes[..i])
      {
        PrefixStep(writes, i);
        ReplayedOne(c, writes[..i], writes[i]);
        Put(writes[i].key, writes[i].value);
      }
      assert writes[..|writes|] == writes;
    }

    /** Clears the cache and replays the saved writes. */
    method LoadSavepoints(pack: seq<PackedLayer>)
      modifies this
      ensures Now() == Loaded(pack)
    {
      hide Loaded, Replayed;
      data, ops := map[], [];
      LoadNothing();
      for i := 0 to |pack|
        invariant Now() == Loaded(pack[..i])
      {
        PrefixStep(pack, i);
        LoadedOne(pack[..i], pack[i]);
        AddSavepoint(pack[i].seqno);
        Replay(pack[i].writes);
      }
      assert pack[..|pack|] == pack;
    }
  }

  lemma UndoNothing(data: Data)
    ensures UndoAll(data, []) == data
  {
  }

  lemma ReleaseNothing(p: Popped)
    ensures Release(p, []) == p
  {
  }

  lemma PackNothing(data: Data)
    ensures PackVec(data, []) == [] && Pack(data, []) == []
  {
  }

  lemma ReplayNothing(c: Cache)
    requires c.ops != []
    ensures Replayed(c, []) == c
  {
  }

  lemma LoadNothing()
    ensures Loaded([]) == Cache(map[], [])
  {
  }

  lemma PackVecStep(data: Data, vec: seq<DataOp>, i: nat)
    requires i < |vec|
    ensures PackVec(data, vec[..i + 1]) ==
      PackVec(data, vec[..i]) + [Write(vec[i].key, if vec[i].key in data then data[vec[i].key].value else "")]
  {
    assert vec[..i + 1][..i] == vec[..i];
  }

  lemma PackStep(data: Data, ops: seq<Layer>, i: nat)
    requires i < |ops|
    ensures Pack(data, ops[..i + 1]) == Pack(data, ops[..i]) + [PackedLayer(ops[i].seqno, PackVec(data, ops[i].vec))]
  {
    hide PackVec;
    assert ops[..i + 1][..i] == ops[..i];
  }

  // ---- Rolling back and saving a group ----

  /** The rollback of a group in memory: one pass, with the set of keys already handled. */
  method RollbackRuntimeGroup(snapshot: Column, entries: seq<Entry>, tokens: Column) returns (r: Option<Column>)
    ensures r == Rollback(snapshot, entries, {}, tokens)
    ensures Framed(snapshot, entries, tokens) ==>
      (r == Some(snapshot) <==> AddsAbsent(snapshot, entries) && UpdatesPresent(snapshot, entries))
  {
    hide Rollback, Framed, AddsAbsent, UpdatesPresent;
    if Framed(snapshot, entries, tokens) {
      RollbackRestoresIff(snapshot, entries, tokens);
    }
    var seen: set<Key>, c: Column := {}, tokens;
    assert entries[0..] == entries;
    for i := 0 to |entries|
      invariant Rollback(snapshot, entries[i..], seen, c) == Rollback(snapshot, entries, {}, tokens)
    {
      RollbackUnfold(snapshot, entries, i, seen, c);
      var k := entries[i].key;
      match entries[i].op
      case Add =>
        c := c - {k};
        seen := seen + {k};
      case Update =>
        if k !in seen {
          if k !in snapshot {
            return None;
          }
          c := c[k := snapshot[k]];
          seen := seen + {k};
        }
      case Put =>
        if k !in seen {
          if k in snapshot {
            c := c[k := snapshot[k]];
          } else {
            c := c - {k};
          }
          seen := seen + {k};
        }
    }
    RollbackNothing(snapshot, seen, c);
    assert entries[|entries|..] == [];
    r := Some(c);
  }

  lemma RollbackNothing(s: Column, seen: set<Key>, c: Column)
    ensures Rollback(s, [], seen, c) == Some(c)
  {
  }

  lemma RollbackUnfold(s: Column, es: seq<Entry>, i: nat, seen: set<Key>, c: Column)
    requires i < |es|
    ensures var k, rest := es[i].key, es[i + 1..];
      Rollback(s, es[i..], seen, c) ==
      match es[i].op
      case Add => Rollback(s, rest, seen + {k}, c - {k})
      case Update =>
        if k in seen then Rollback(s, rest, seen, c)
        else if k in s then Rollback(s, rest, seen + {k}, c[k := s[k]])
        else None
      case Put =>
        if k in seen then Rollback(s, rest, seen, c) else Rollback(s, rest, seen + {k}, Restored(c, s, k))
  {
    assert es[i..][1..] == es[i + 1..];
  }

  method RollbackSavedGroup(saved: seq<SavedEntry>, tokens: Column) returns (c: Column)
    ensures c == SavedRollback(saved, tokens)
  {
    hide SavedRollback;
    c := tokens;
    SavedNothing(tokens);
    for i := 0 to |saved|
      invariant c == SavedRollback(saved[..i], tokens)
    {
      SavedUnfold(saved, tokens, i);
      match saved[i].op
      case Add => c := c - {saved[i].key};
      case Update => c := c[saved[i].key := saved[i].value];
      case Put =>
        if saved[i].value == "" {
          c := c - {saved[i].key};
        } else {
          c := c[saved[i].key := saved[i].value];
        }
    }
    assert saved[..|saved|] == saved;
  }

  lemma SavedNothing(c: Column)
    ensures SavedRollback([], c) == c
  {
  }

  lemma SavedUnfold(saved: seq<SavedEntry>, c: Column, i: nat)
    requires i < |saved|
    ensures SavedRollback(saved[..i + 1], c) == SavedWrite(SavedRollback(saved[..i], c), saved[i])
  {
    assert saved[..i + 1][..i] == saved[..i];
  }

  ghost predicate SeenBefore(es: seq<Entry>, i: nat, seen: set<Key>)
    requires i <= |es|
  {
    forall k :: k in seen <==> exists j :: 0 <= j < i && es[j].key == k
  }

  lemma SeenStep(es: seq<Entry>, i: nat, seen: set<Key>)
    requires i < |es| && SeenBefore(es, i, seen)
    ensures es[i].key in seen <==> !FirstOnKey(es, i)
    ensures SeenBefore(es, i + 1, seen + {es[i].key})
  {
    var seen' := seen + {es[i].key};
    forall k ensures k in seen' <==> exists j :: 0 <= j < i + 1 && es[j].key == k {
      if j :| 0 <= j < i + 1 && es[j].key == k {
        assert j < i ==> k in seen;
      }
      if k in seen {
        var j :| 0 <= j < i && es[j].key == k;
        assert 0 <= j < i + 1;
      }
      assert k == es[i].key ==> 0 <= i < i + 1 && es[i].key == k;
    }
  }

  /** The saved form of a group in memory; the save fails exactly when some first update misses its key. */
  method PersistGroup(snapshot: Column, entries: seq<Entry>) returns (r: Option<seq<SavedEntry>>)
    ensures r.Some? <==> UpdatesPresent(snapshot, entries)
    ensures r.Some? ==> r.value == Saved(snapshot, entries)
  {
    var seen: set<Key>, saved := {}, [];
    for i := 0 to |entries|
      invariant SeenBefore(entries, i, seen)
      invariant saved == SavedPrefix(snapshot, entries, i)
      invariant forall j :: 0 <= j < i && entries[j].op == Update && FirstOnKey(entries, j) ==> entries[j].key in snapshot
    {
      hide SeenBefore;
      SeenStep(entries, i, seen);
      var k, value := entries[i].key, "";
      match entries[i].op {
        case Add =>
        case Update =>
          if k !in seen {
            if k !in snapshot {
              return None;
            }
            value := snapshot[k];
          }
        case Put =>
          if k !in seen && k in snapshot {
            value := snapshot[k];
          }
      }
      saved := saved + [SavedEntry(entries[i].op, k, value)];
      seen := seen + {k};
    }
    r := Some(saved);
  }

  /** A rollback that fails leaves the tokens alone. */
  method RollbackGroup(g: Group, tokens: Column) returns (c: Column)
    ensures c == Undone(g, tokens)
  {
    hide Rollback, SavedRollback, Framed, AddsAbsent, UpdatesPresent;
    c := tokens;
    match g
    case Runtime(snapshot, entries) =>
      var r := RollbackRuntimeGroup(snapshot, entries, tokens);
      if r.Some? {
        c := r.value;
      }
    case OnDisk(saved) =>
      c := RollbackSavedGroup(saved, tokens);
  }

  // ---- The database ----

  datatype Outcome = Done | SeqNotValid | NoSavepoint | SquashNeedsTwo | SquashNeedsRuntime

  class TokenDb {
    var tokens: Column
    var assets: Column
    var savepoints: seq<Savepoint>
    const cache: WriteCacheLayer
    /** The plain stack of maps the database stands for. */
    ghost var plain: Plain

    function Now(): State
      reads this, cache
    {
      State(tokens, assets, savepoints, cache.data, cache.ops)
    }

    ghost predicate Ok()
      reads this, cache
    {
      Valid(Now()) && Matches(Now(), plain)
    }

    constructor (tokens: Column, assets: Column)
      ensures Ok() && plain == Plain(tokens, assets, []) && fresh(cache)
      ensures this.tokens == tokens && this.assets == assets && savepoints == []
    {
      this.tokens, this.assets, savepoints := tokens, assets, [];
      cache := new WriteCacheLayer();
      plain := Plain(tokens, assets, []);
      new;
      EmptyOk(tokens, assets);
    }

    method PutTokens(op: Op, writes: seq<Write>)
      requires Ok() && Enabled(Now(), Cmd.PutTokens(op, writes))
      modifies this
      ensures Ok() && plain == PlainStep(old(plain), Cmd.PutTokens(op, writes))
      ensures Now() == Step(old(Now()), Cmd.PutTokens(op, writes))
      ensures plain == old(plain).(tokens := tokens) && WritesDone(old(tokens), writes, tokens)
      ensures |savepoints| == |old(savepoints)|
      ensures savepoints != [] ==>
        var was, now := old(savepoints)[|savepoints| - 1].group, savepoints[|savepoints| - 1].group;
        && was.Runtime? && now.Runtime? && now.snapshot == was.snapshot
        && now.entries == was.entries + seq(|writes|, i requires 0 <= i < |writes| => Entry(op, writes[i].key))
    {
      hide Valid, Matches;
      ghost var s, a := Now(), plain;
      StepMatches(s, a, Cmd.PutTokens(op, writes));
      TokensNow(s, a);
      WriteAll(writes);
      if savepoints != [] {
        var top := savepoints[|savepoints| - 1];
        var es := seq(|writes|, i requires 0 <= i < |writes| => Entry(op, writes[i].key));
        assert es == Recorded(op, writes);
        var group := Runtime(top.group.snapshot, top.group.entries + es);
        savepoints := savepoints[..|savepoints| - 1] + [top.(group := group)];
      }
      plain := PlainStep(a, Cmd.PutTokens(op, writes));
    }

    method WriteAll(writes: seq<Write>)
      modifies this
      ensures tokens == Written(old(tokens), writes) && WritesDone(old(tokens), writes, tokens)
      ensures assets == old(assets) && savepoints == old(savepoints) && plain == old(plain)
    {
      hide Written;
      WriteNothing(tokens);
      for i := 0 to |writes|
        invariant tokens == Written(old(tokens), writes[..i])
        invariant assets == old(assets) && savepoints == old(savepoints) && plain == old(plain)
      {
        WriteStep(old(tokens), writes, i);
        tokens := tokens[writes[i].key := writes[i].value];
      }
      assert writes[..|writes|] == writes;
      WrittenIsDone(old(tokens), writes);
    }

    method PutAsset(k: Key, v: Value)
      requires Ok() && (savepoints == [] || v != "")
      modifies this, cache
      ensures Ok() && plain == PlainStep(old(plain), Cmd.PutAsset(k, v))
      ensures Now() == Step(old(Now()), Cmd.PutAsset(k, v))
      ensures plain == old(plain).(assets := old(plain).assets[k := v])
    {
      hide Valid, Matches;
      ghost var s, a := Now(), plain;
      StepMatches(s, a, Cmd.PutAsset(k, v));
      LockstepCount(s);
      if savepoints != [] {
        cache.Put(k, v);
      } else {
        assets := assets[k := v];
      }
      plain := PlainStep(a, Cmd.PutAsset(k, v));
    }

    method ReadAsset(k: Key) returns (r: Option<Value>)
      requires Ok()
      ensures r == ReadColumn(plain.assets, k)
    {
      ReadsNow(Now(), plain, k);
      r := cache.Lookup(k);
      if r.None? && k in assets {
        r := Some(assets[k]);
      }
    }

    method AddSavepoint(seqno: int) returns (r: Outcome)
      requires Ok()
      modifies this, cache
      ensures Ok() && plain == PlainStep(old(plain), Cmd.AddSavepoint(seqno))
      ensures Now() == Step(old(Now()), Cmd.AddSavepoint(seqno))
      ensures r == if old(savepoints) != [] && old(Now()).Top().seqno >= seqno then SeqNotValid else Done
      ensures r == Done ==>
        plain == old(plain).(stack := old(plain).stack + [Frame(seqno, false, old(plain).tokens, old(plain).assets)])
      ensures r != Done ==> plain == old(plain)
    {
      hide Valid, Matches;
      ghost var s, a := Now(), plain;
      TopSeqno(s, a);
      StepMatches(s, a, Cmd.AddSavepoint(seqno));
      plain := PlainStep(a, Cmd.AddSavepoint(seqno));
      if savepoints != [] && savepoints[|savepoints| - 1].seqno >= seqno {
        return SeqNotValid;
      }
      savepoints := savepoints + [Savepoint(seqno, Runtime(tokens, []))];
      cache.AddSavepoint(seqno);
      r := Done;
    }

    /** On a group in memory above a loaded one the savepoint is gone when the error comes. */
    method Squash() returns (r: Outcome)
      requires Ok()
      modifies this, cache
      ensures Now() == Step(old(Now()), Cmd.Squash)
      ensures !Torn(old(Now())) ==> Ok() && plain == PlainStep(old(plain), Cmd.Squash)
      ensures r == Done <==> CanSquash(old(Now()))
      ensures r == Done <==>
        var sps := old(savepoints);
        |sps| >= 2 && sps[|sps| - 1].group.Runtime? && sps[|sps| - 2].group.Runtime?
      ensures r == SquashNeedsTwo <==> |old(savepoints)| < 2
      ensures r == Done ==>
        |old(plain).stack| >= 2 && plain == old(plain).(stack := old(plain).stack[..|old(plain).stack| - 1])
      ensures r != Done && !Torn(old(Now())) ==> plain == old(plain) && savepoints == old(savepoints)
    {
      hide Valid, Matches;
      LockstepCount(Now());
      ghost var s, a := Now(), plain;
      TopTwo(s, a);
      if !Torn(s) {
        StepMatches(s, a, Cmd.Squash);
      }
      plain := PlainStep(a, Cmd.Squash);
      var n := |savepoints|;
      if n < 2 {
        return SquashNeedsTwo;
      }
      var top := savepoints[n - 1];
      if top.group.OnDisk? {
        return SquashNeedsRuntime;
      }
      savepoints := savepoints[..n - 1];
      var below := savepoints[n - 2];
      if below.group.OnDisk? {
        return SquashNeedsRuntime;
      }
      var group := Runtime(below.group.snapshot, below.group.entries + top.group.entries);
      savepoints := savepoints[..n - 2] + [below.(group := group)];
      cache.Squash();
      r := Done;
    }

    method RollbackToLatest() returns (r: Outcome)
      requires Ok()
      modifies this, cache
      ensures Now() == Step(old(Now()), Cmd.RollbackLatest)
      ensures savepoints == old(savepoints)[..|savepoints|]
      ensures r == if old(savepoints) == [] then NoSavepoint else Done
      ensures r == Done ==> tokens == old(plain).stack[|old(plain).stack| - 1].tokens
      ensures Ok() && plain == ExactStep(old(Now()), old(plain), Cmd.RollbackLatest)
      ensures NothingLost(old(Now())) ==> plain == PlainStep(old(plain), Cmd.RollbackLatest)
      ensures r == Done ==> savepoints == old(savepoints)[..|old(savepoints)| - 1] && |old(plain).stack| == |old(savepoints)|
      ensures r == Done && NothingLost(old(Now())) ==>
        var st := old(plain).stack; plain == Plain(st[|st| - 1].tokens, st[|st| - 1].assets, st[..|st| - 1])
    {
      hide Matches, Inv, GroupsOk, Undone, Base, UndoAll, ExactStep, NothingLost;
      ghost var s, a := Now(), plain;
      TopSeqno(s, a);
      StepMatches(s, a, Cmd.RollbackLatest);
      if NothingLost(s) {
        LosslessStep(s, a, Cmd.RollbackLatest);
      }
      plain := ExactStep(s, a, Cmd.RollbackLatest);
      if savepoints == [] {
        return NoSavepoint;
      }
      RollbackTokens(s);
      TopTokens(s, a);
      var top := savepoints[|savepoints| - 1];
      tokens := RollbackGroup(top.group, tokens);
      savepoints := savepoints[..|savepoints| - 1];
      assert top.seqno == cache.ops[|cache.ops| - 1].seqno;
      cache.RollbackToLatest();
      r := Done;
    }

    method PopOne()
      requires Ok() && savepoints != []
      modifies this, cache
      ensures Ok() && Now() == PoppedOne(old(Now())) && savepoints == old(savepoints)[1..]
      ensures plain == old(plain).(stack := old(plain).stack[1..]) && old(plain).stack != []
      ensures old(plain).stack[0].seqno == old(savepoints)[0].seqno
    {
      ghost var s, a := Now(), plain;
      PopOneMatches(s, a);
      OldestSeqno(s, a);
      assert cache.ops[0].seqno == savepoints[0].seqno;
      savepoints := savepoints[1..];
      var batch := cache.PopFront();
      assets := assets + batch;
      plain := a.(stack := a.stack[1..]);
    }

    /** Pops savepoints from the front while their number is below the bound. */
    method PopWhileBelow(until: int)
      requires Ok()
      modifies this, cache
      ensures Ok() && Now() == PoppedUntil(old(Now()), until)
      ensures plain == old(plain).(stack := PlainPop(old(plain).stack, until))
    {
      hide Valid, Matches, PoppedUntil, PlainPop, PoppedOne;
      ghost var s, a := Now(), plain;
      OldestSeqno(s, a);
      while savepoints != [] && savepoints[0].seqno < until
        invariant Ok()
        invariant PoppedUntil(Now(), until) == PoppedUntil(s, until)
        invariant plain.tokens == a.tokens && plain.assets == a.assets
        invariant PlainPop(plain.stack, until) == PlainPop(a.stack, until)
        decreases |savepoints|
      {
        OldestSeqno(Now(), plain);
        PopUnfolds(Now(), plain.stack, until);
        PopOne();
      }
      OldestSeqno(Now(), plain);
      PopUnfolds(Now(), plain.stack, until);
    }

    /** Drops exactly the savepoints below the bound and writes out what no other record keeps in the cache. */
    method PopSavepoints(until: int)
      requires Ok()
      modifies this, cache
      ensures Ok() && plain == PlainStep(old(plain), Cmd.PopSavepoints(until))
      ensures Now() == Step(old(Now()), Cmd.PopSavepoints(until))
      ensures DroppedBelow(old(savepoints), savepoints, until)
      ensures |plain.stack| == |savepoints| <= |old(plain).stack| == |old(savepoints)|
      ensures plain == old(plain).(stack := old(plain).stack[|old(savepoints)| - |savepoints|..])
    {
      hide Valid, Matches, PoppedUntil, PlainPop, DroppedBelow, Lockstep, Step, PlainStep;
      StepIsPop(Now(), plain, until);
      LockstepOf(Now());
      OldestSeqno(Now(), plain);
      PopLeaves(Now(), until);
      PlainPopLeaves(plain.stack, until);
      PopWhileBelow(until);
      OldestSeqno(Now(), plain);
    }

    /** Writes every cached value into the stored assets. */
    method WriteCacheOut()
      modifies this
      ensures Overlaid(old(assets), cache.data, assets)
      ensures tokens == old(tokens) && savepoints == old(savepoints) && plain == old(plain)
    {
      hide Overlaid, OverlaidOn;
      var todo := cache.data.Keys;
      OverlayStart(assets, cache.data);
      while todo != {}
        invariant todo <= cache.data.Keys && OverlaidOn(old(assets), cache.data, cache.data.Keys - todo, assets)
        invariant tokens == old(tokens) && savepoints == old(savepoints) && plain == old(plain)
        decreases todo
      {
        var k :| k in todo;
        OverlayStep(old(assets), cache.data, cache.data.Keys - todo, assets, k);
        assets := assets[k := cache.data[k].value];
        assert cache.data.Keys - (todo - {k}) == cache.data.Keys - todo + {k};
        todo := todo - {k};
      }
      assert cache.data.Keys - todo == cache.data.Keys;
      OverlayEnd(old(assets), cache.data, assets);
    }

    /** Puts every cached key back to its value in the snapshot, or removes it. */
    method Restore(snapshot: Column)
      requires Overlaid(snapshot, cache.data, assets)
      modifies this
      ensures assets == snapshot
      ensures tokens == old(tokens) && savepoints == old(savepoints) && plain == old(plain)
    {
      hide RestoredOff;
      var todo := cache.data.Keys;
      RestoreStart(snapshot, cache.data, assets);
      while todo != {}
        invariant todo <= cache.data.Keys && RestoredOff(snapshot, todo, assets)
        invariant tokens == old(tokens) && savepoints == old(savepoints) && plain == old(plain)
        decreases todo
      {
        var k :| k in todo;
        RestoreStep(snapshot, todo, assets, k);
        if k in snapshot {
          assets := assets[k := snapshot[k]];
        } else {
          assets := assets - {k};
        }
        todo := todo - {k};
      }
      RestoreEnd(snapshot, assets);
    }

    /** The tokens under a prefix, in key order, after the first `skip`. */
    method ReadTokensRange(prefix: Key -> bool, skip: int) returns (rows: seq<Write>, ghost all: seq<Write>)
      ensures RowsOf(all, tokens, prefix)
      ensures rows == AfterFirst(all, skip)
    {
      hide RowsOf;
      rows, all := ScanColumn(tokens, prefix, skip);
    }

    /**
     A scan that runs to its end: it meets every asset under the prefix as reads see it, cached writes included,
     and leaves the store as it was.
     */
    method ReadAssetsRange(prefix: Key -> bool, skip: int) returns (rows: seq<Write>, ghost all: seq<Write>)
      requires Ok()
      modifies this
      ensures Now() == old(Now()) && plain == old(plain) && Ok()
      ensures RowsOf(all, plain.assets, prefix)
      ensures rows == AfterFirst(all, skip)
    {
      hide Valid, Matches, Overlaid, RowsOf;
      var snapshot := assets;
      WriteCacheOut();
      OverlayIsView(old(Now()), plain, assets);
      rows, all := ScanColumn(assets, prefix, skip);
      Restore(snapshot);
    }

    /** Saves the savepoints; the token groups in memory are read at their snapshots. */
    method PersistSavepoints() returns (sps: seq<Savepoint>, pack: seq<PackedLayer>)
      requires Ok()
      ensures sps == SavedStack(savepoints) && pack == Pack(cache.data, cache.ops)
    {
      hide Valid, Matches, SavedStack;
      sps := [];
      assert SavedStack([]) == [] by { SaveNothing(); }
      ghost var s := Now();
      for i := 0 to |savepoints|
        invariant sps == SavedStack(savepoints[..i])
      {
        SaveStep(savepoints, i);
        var sp := savepoints[i];
        match sp.group {
          case Runtime(snapshot, entries) =>
            var saved := PersistGroup(snapshot, entries);
            GroupAt(s, i);
            sps := sps + [sp.(group := OnDisk(saved.value))];
          case OnDisk(_) =>
            sps := sps + [sp];
        }
      }
      assert savepoints[..|savepoints|] == savepoints;
      pack := cache.PersistSavepoints();
    }

    method LoadSavepoints(sps: seq<Savepoint>, pack: seq<PackedLayer>)
      modifies this, cache
      ensures savepoints == sps && cache.Now() == Loaded(pack)
      ensures tokens == old(tokens) && assets == old(assets)
    {
      savepoints := sps;
      cache.LoadSavepoints(pack);
    }

    /**
     A save and a load of the savepoints: present columns and savepoint numbers stay; the token columns of the savepoints
     stay exactly when every group in memory restores its snapshot from disk.
     */
    method SaveAndLoad()
      requires Ok()
      modifies this, cache
      ensures Ok() && Now() == Reloaded(old(Now()))
      ensures plain.tokens == old(plain).tokens && plain.assets == old(plain).assets
      ensures |plain.stack| == |old(plain).stack|
      ensures forall i :: 0 <= i < |plain.stack| ==> plain.stack[i].seqno == old(plain).stack[i].seqno && plain.stack[i].onDisk
      ensures (forall i :: 0 <= i < |plain.stack| ==> plain.stack[i].tokens == old(plain).stack[i].tokens) <==>
        AllSavedRestore(old(savepoints))
    {
      hide Valid, Matches, Reloaded, AllSavedRestore, PlainOf;
      ghost var s, a := Now(), plain;
      ReloadedKeeps(s);
      var sps, pack := PersistSavepoints();
      LoadSavepoints(sps, pack);
      ReloadIs(s);
      LockstepCount(Now());
      plain := PlainOf(Now());
      PlainOfMatches(Now());
      ReloadedPlain(s, a, plain);
    }
  }

  lemma StepIsPop(s: State, a: Plain, until: int)
    ensures Step(s, Cmd.PopSavepoints(until)) == PoppedUntil(s, until)
    ensures PlainStep(a, Cmd.PopSavepoints(until)) == a.(stack := PlainPop(a.stack, until))
  {
    hide PoppedUntil, PlainPop;
  }

  lemma PopUnfolds(s: State, stack: seq<Frame>, until: int)
    requires |s.savepoints| == |s.ops| == |stack| && (stack != [] ==> stack[0].seqno == s.savepoints[0].seqno)
    ensures if s.savepoints == [] || s.savepoints[0].seqno >= until
      then PoppedUntil(s, until) == s && PlainPop(stack, until) == stack
      else PoppedUntil(s, until) == PoppedUntil(PoppedOne(s), until) && PlainPop(stack, until) == PlainPop(stack[1..], until)
  {
    hide PoppedOne;
  }

  lemma LockstepOf(s: State)
    requires Valid(s)
    ensures Lockstep(s.savepoints, s.ops)
  {
  }

  lemma TokensNow(s: State, a: Plain)
    requires Matches(s, a)
    ensures s.tokens == a.tokens
  {
    hide FramesMatch, ViewsMatch;
  }

  lemma TopTwo(s: State, a: Plain)
    requires Matches(s, a)
    ensures |a.stack| == |s.savepoints|
    ensures forall i :: 0 <= i < |a.stack| ==> a.stack[i].onDisk == s.savepoints[i].group.OnDisk?
  {
    hide ViewsMatch, Bases;
  }

  lemma ReloadIs(s: State)
    requires Valid(s)
    ensures Reloaded(s).savepoints == SavedStack(s.savepoints) && Reloaded(s).tokens == s.tokens && Reloaded(s).assets == s.assets
    ensures Loaded(Pack(s.data, s.ops)) == Cache(Reloaded(s).data, Reloaded(s).ops)
  {
    hide GroupsOk, PvOk, Loaded, Pack, ReloadOps, SavedStack;
    LoadOfPack(s.data, s.ops);
  }

  /** What a reload leaves of the plain stack. */
  lemma ReloadedPlain(s: State, a: Plain, b: Plain)
    requires Valid(s) && Matches(s, a) && Valid(Reloaded(s)) && Matches(Reloaded(s), b)
    ensures b.tokens == a.tokens && b.assets == a.assets && |b.stack| == |a.stack|
    ensures forall i :: 0 <= i < |b.stack| ==> b.stack[i].seqno == a.stack[i].seqno && b.stack[i].onDisk
    ensures (forall i :: 0 <= i < |b.stack| ==> b.stack[i].tokens == a.stack[i].tokens) <==> AllSavedRestore(s.savepoints)
  {
    hide Inv, GroupsOk, ViewsMatch, Bases, SavedStack, ReloadOps, Flat, AllSavedRestore;
    var t := Reloaded(s);
    ReloadedKeeps(s);
    forall k ensures ReadColumn(a.assets, k) == ReadColumn(b.assets, k) {
      ReadsNow(s, a, k);
      ReadsNow(t, b, k);
    }
    SameReads(a.assets, b.assets);
    forall i | 0 <= i < |b.stack| ensures b.stack[i].seqno == a.stack[i].seqno && b.stack[i].onDisk {
      SavedSeqnos(s.savepoints, i);
    }
  }

  // ---- The scan ----

  ghost predicate Overlaid(c: Column, data: Data, r: Column) {
    forall k :: ReadColumn(r, k) == Read(data, c, k)
  }

  ghost predicate OverlaidOn(c: Column, data: Data, done: set<Key>, r: Column) {
    forall k :: ReadColumn(r, k) == if k in done then Read(data, c, k) else ReadColumn(c, k)
  }

  lemma OverlayStart(c: Column, data: Data)
    ensures OverlaidOn(c, data, data.Keys - data.Keys, c)
  {
  }

  lemma OverlayStep(c: Column, data: Data, done: set<Key>, r: Column, k: Key)
    requires OverlaidOn(c, data, done, r) && k in data
    ensures OverlaidOn(c, data, done + {k}, r[k := data[k].value])
  {
    forall x ensures ReadColumn(r[k := data[k].value], x) ==
      if x in done + {k} then Read(data, c, x) else ReadColumn(c, x)
    {
      assert ReadColumn(r, x) == if x in done then Read(data, c, x) else ReadColumn(c, x);
    }
  }

  lemma OverlayEnd(c: Column, data: Data, r: Column)
    requires OverlaidOn(c, data, data.Keys, r)
    ensures Overlaid(c, data, r)
  {
    forall k ensures ReadColumn(r, k) == Read(data, c, k) {
      assert ReadColumn(r, k) == if k in data.Keys then Read(data, c, k) else ReadColumn(c, k);
    }
  }

  lemma OverlayIsView(s: State, a: Plain, r: Column)
    requires Valid(s) && Matches(s, a) && Overlaid(s.assets, s.data, r)
    ensures r == a.assets
  {
    hide Valid, Matches;
    forall k ensures ReadColumn(r, k) == ReadColumn(a.assets, k) {
      ReadsNow(s, a, k);
    }
    SameReads(r, a.assets);
  }

  /** Outside the keys still to do, the column is the snapshot. */
  ghost predicate RestoredOff(snapshot: Column, todo: set<Key>, r: Column) {
    forall k :: k !in todo ==> Agree(r, snapshot, k)
  }

  lemma RestoreStart(snapshot: Column, data: Data, r: Column)
    requires Overlaid(snapshot, data, r)
    ensures RestoredOff(snapshot, data.Keys, r)
  {
    forall k | k !in data.Keys ensures Agree(r, snapshot, k) {
      assert ReadColumn(r, k) == Read(data, snapshot, k);
    }
  }

  lemma RestoreStep(snapshot: Column, todo: set<Key>, r: Column, k: Key)
    requires RestoredOff(snapshot, todo, r)
    ensures RestoredOff(snapshot, todo - {k}, Restored(r, snapshot, k))
  {
  }

  lemma RestoreEnd(snapshot: Column, r: Column)
    requires RestoredOff(snapshot, {}, r)
    ensures r == snapshot
  {
    ColumnsEqual(r, snapshot);
  }

  /** What is left behind the first `skip` rows. */
  ghost function AfterFirst(all: seq<Write>, skip: int): seq<Write> {
    if skip <= 0 then all else if skip <= |all| then all[skip..] else []
  }

  lemma SkipStep(all: seq<Write>, w: Write, skip: int)
    ensures AfterFirst(all + [w], skip) == AfterFirst(all, skip) + if |all| >= skip then [w] else []
  {
  }

  ghost predicate Ascending(rows: seq<Write>) {
    forall i, j :: 0 <= i < j < |rows| ==> rows[i].key < rows[j].key
  }

  /** The rows are the entries of the column under the prefix, each once, in key order. */
  ghost predicate RowsOf(rows: seq<Write>, c: Column, prefix: Key -> bool) {
    && Ascending(rows)
    && (forall i :: 0 <= i < |rows| ==> prefix(rows[i].key) && ReadColumn(c, rows[i].key) == Some(rows[i].value))
    && (forall k :: k in c && prefix(k) ==> exists i :: 0 <= i < |rows| && rows[i].key == k)
  }

  ghost predicate ScannedTo(rows: seq<Write>, c: Column, prefix: Key -> bool, todo: set<Key>) {
    && Ascending(rows)
    && (forall i :: 0 <= i < |rows| ==> prefix(rows[i].key) && ReadColumn(c, rows[i].key) == Some(rows[i].value))
    && (forall k :: k in todo ==> k in c && prefix(k))
    && (forall i, k :: 0 <= i < |rows| && k in todo ==> rows[i].key < k)
    && (forall k :: k in c && prefix(k) && k !in todo ==> exists i :: 0 <= i < |rows| && rows[i].key == k)
  }

  lemma ScanStart(c: Column, prefix: Key -> bool, todo: set<Key>)
    requires todo == set k | k in c && prefix(k)
    ensures ScannedTo([], c, prefix, todo)
  {
  }

  lemma ScanStep(rows: seq<Write>, c: Column, prefix: Key -> bool, todo: set<Key>, k: Key)
    requires ScannedTo(rows, c, prefix, todo) && k in todo && forall x :: x in todo ==> k <= x
    ensures k in c && ScannedTo(rows + [Write(k, c[k])], c, prefix, todo - {k})
  {
    var rows' := rows + [Write(k, c[k])];
    forall x | x in c && prefix(x) && x !in todo - {k} ensures exists i :: 0 <= i < |rows'| && rows'[i].key == x {
      if x == k {
        assert rows'[|rows|].key == x;
      } else {
        var i :| 0 <= i < |rows| && rows[i].key == x;
        assert rows'[i].key == x;
      }
    }
  }

  lemma ScanEnd(rows: seq<Write>, c: Column, prefix: Key -> bool)
    requires ScannedTo(rows, c, prefix, {})
    ensures RowsOf(rows, c, prefix)
  {
  }

  /** The scan itself: the rows of a column under a prefix, in key order, after the first `skip`. */
  method ScanColumn(c: Column, prefix: Key -> bool, skip: int) returns (rows: seq<Write>, ghost all: seq<Write>)
    ensures RowsOf(all, c, prefix)
    ensures rows == AfterFirst(all, skip)
  {
    hide RowsOf, ScannedTo;
    var todo := set k | k in c && prefix(k);
    rows, all := [], [];
    var i := 0;
    ScanStart(c, prefix, todo);
    while todo != {}
      invariant i == |all| && ScannedTo(all, c, prefix, todo)
      invariant rows == AfterFirst(all, skip)
      decreases todo
    {
      var k := Least(todo);
      ScanStep(all, c, prefix, todo, k);
      ghost var was := all;
      if i >= skip {
        rows := rows + [Write(k, c[k])];
      }
      all := all + [Write(k, c[k])];
      SkipStep(was, Write(k, c[k]), skip);
      i := i + 1;
      todo := todo - {k};
    }
    ScanEnd(all, c, prefix);
  }

  method Least(s: set<Key>) returns (k: Key)
    requires s != {}
    ensures k in s && forall x :: x in s ==> k <= x
  {
    k :| k in s;
    var todo := s - {k};
    while todo != {}
      invariant k in s && todo <= s && forall x :: x in s && x !in todo ==> k <= x
      decreases todo
    {
      var x :| x in todo;
      if x < k {
        k := x;
      }
      todo := todo - {x};
    }
  }

  lemma EmptyOk(tokens: Column, assets: Column)
    ensures Valid(State(tokens, assets, [], map[], []))
    ensures Matches(State(tokens, assets, [], map[], []), Plain(tokens, assets, []))
  {
    hide Inv, ReadAt, Flat;
    var none: seq<Layer> := [];
    FlatNone();
    EmptyInv();
    forall i, k | 0 <= i <= |none| ensures ReadAt(map[], assets, none, i, k) == ReadColumn(assets, k) {
      NowIsLast(map[], assets, none, k);
    }
  }

  lemma EmptyInv()
    ensures Inv(map[], [])
  {
    forall g: seq<DataOp>, h: seq<DataOp>, k | [] == g + h ensures Count(g, k) == 0 {
      assert g == [];
    }
  }

  lemma WriteNothing(c: Column)
    ensures Written(c, []) == c
  {
  }

  lemma WriteStep(c: Column, ws: seq<Write>, i: nat)
    requires i < |ws|
    ensures Written(c, ws[..i + 1]) == Written(c, ws[..i])[ws[i].key := ws[i].value]
  {
    assert ws[..i + 1][..i] == ws[..i];
  }

  lemma TopTokens(s: State, a: Plain)
    requires Valid(s) && Matches(s, a) && s.savepoints != []
    ensures |a.stack| == |s.savepoints| && a.stack[|a.stack| - 1].tokens == Base(s.Top().group, s.tokens)
  {
    hide FramesMatch, GroupsOk, ReadAt, Inv, Base;
    FramesPop(s.savepoints, s.tokens, a.stack);
  }

  lemma LockstepCount(s: State)
    requires Valid(s)
    ensures |s.savepoints| == |s.ops|
  {
    hide Inv, GroupsOk;
  }

  lemma SaveNothing()
    ensures SavedStack([]) == []
  {
  }

  lemma SaveStep(sps: seq<Savepoint>, i: nat)
    requires i < |sps|
    ensures SavedStack(sps[..i + 1]) == SavedStack(sps[..i]) + [sps[i].(group := SavedGroup(sps[i].group))]
  {
    hide SavedGroup;
    assert sps[..i + 1][..i] == sps[..i];
  }

  lemma {:induction false} GroupsAt(sps: seq<Savepoint>, c: Column, i: nat)
    requires i < |sps| && GroupsOk(sps, c) && sps[i].group.Runtime?
    ensures UpdatesPresent(sps[i].group.snapshot, sps[i].group.entries)
  {
    hide SavedRollback, UpdatesPresent, Framed;
    if i < |sps| - 1 {
      GroupsAt(sps[..|sps| - 1], Base(sps[|sps| - 1].group, c), i);
    }
  }

  lemma GroupAt(s: State, i: nat)
    requires i < |s.savepoints| && Valid(s) && s.savepoints[i].group.Runtime?
    ensures UpdatesPresent(s.savepoints[i].group.snapshot, s.savepoints[i].group.entries)
  {
    hide GroupsOk, Inv, UpdatesPresent;
    GroupsAt(s.savepoints, s.tokens, i);
  }
}
