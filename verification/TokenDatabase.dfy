/**
 The savepoint stack of the token database (libraries/chain/token_database.cpp), over the token column with its
 undo groups and the asset column with its write cache, and the plain stack of maps it stands for.
 */
module TokenDatabase {
  import opened Wrappers
  import opened UndoLog
  import opened WriteCache

  /** The undo group of a savepoint: kept in memory with a snapshot of the tokens, or loaded from disk. */
  datatype Group = Runtime(snapshot: Column, entries: seq<Entry>) | OnDisk(saved: seq<SavedEntry>)

  datatype Savepoint = Savepoint(seqno: int, group: Group)

  datatype State = State(tokens: Column, assets: Column, savepoints: seq<Savepoint>, data: Data, ops: seq<Layer>) {
    function Top(): Savepoint
      requires savepoints != []
    {
      savepoints[|savepoints| - 1]
    }
  }

  datatype Cmd =
    | AddSavepoint(seqno: int)
    | PutTokens(op: Op, writes: seq<Write>)
    | PutAsset(key: Key, value: Value)
    | Squash
    | RollbackLatest
    | PopSavepoints(until: int)

  // ---- The database ----

  function Written(c: Column, ws: seq<Write>): Column {
    if ws == [] then c else Written(c, ws[..|ws| - 1])[ws[|ws| - 1].key := ws[|ws| - 1].value]
  }

  /** The last write of a key decides its value; other keys keep theirs. */
  ghost predicate WritesDone(c: Column, ws: seq<Write>, r: Column) {
    && (forall i :: 0 <= i < |ws| && (forall j :: i < j < |ws| ==> ws[j].key != ws[i].key) ==>
          ws[i].key in r && r[ws[i].key] == ws[i].value)
    && (forall k :: (forall i :: 0 <= i < |ws| ==> ws[i].key != k) ==> ReadColumn(r, k) == ReadColumn(c, k))
  }

  lemma {:induction false} WrittenIsDone(c: Column, ws: seq<Write>)
    ensures WritesDone(c, ws, Written(c, ws))
  {
    if ws != [] {
      var n := |ws| - 1;
      var init, r := ws[..n], Written(c, ws);
      WrittenIsDone(c, init);
      forall i | 0 <= i < |ws| && (forall j :: i < j < |ws| ==> ws[j].key != ws[i].key)
        ensures ws[i].key in r && r[ws[i].key] == ws[i].value
      {
        if i < n {
          assert init[i] == ws[i] && ws[n].key != ws[i].key;
          assert forall j :: i < j < |init| ==> init[j].key != init[i].key;
        }
      }
      forall k | forall i :: 0 <= i < |ws| ==> ws[i].key != k ensures ReadColumn(r, k) == ReadColumn(c, k) {
        assert ws[n].key != k;
        assert forall i :: 0 <= i < |init| ==> init[i] == ws[i];
      }
    }
  }

  function Recorded(op: Op, ws: seq<Write>): (es: seq<Entry>)
    ensures |es| == |ws|
  {
    seq(|ws|, i requires 0 <= i < |ws| => Entry(op, ws[i].key))
  }

  function Record(g: Group, es: seq<Entry>): Group {
    match g
    case Runtime(snapshot, entries) => Runtime(snapshot, entries + es)
    case OnDisk(_) => g
  }

  /** The token column after undoing a group; unchanged when reading the snapshot fails. */
  function Undone(g: Group, c: Column): Column {
    match g
    case Runtime(snapshot, entries) => (var r := Rollback(snapshot, entries, {}, c); if r.Some? then r.value else c)
    case OnDisk(saved) => SavedRollback(saved, c)
  }

  function Added(s: State, n: int): State {
    if s.savepoints != [] && s.Top().seqno >= n then s
    else s.(savepoints := s.savepoints + [Savepoint(n, Runtime(s.tokens, []))], ops := s.ops + [Layer(n, [])])
  }

  function WithTokens(s: State, op: Op, ws: seq<Write>): State {
    var t := s.(tokens := Written(s.tokens, ws));
    if s.savepoints == [] then t
    else
      var top := s.Top();
      t.(savepoints := s.savepoints[..|s.savepoints| - 1] + [top.(group := Record(top.group, Recorded(op, ws)))])
  }

  function WithAsset(s: State, k: Key, v: Value): State {
    if s.savepoints == [] || s.ops == [] then s.(assets := s.assets[k := v])
    else
      var top := s.ops[|s.ops| - 1];
      s.(data := PutData(s.data, k, v),
         ops := s.ops[..|s.ops| - 1] + [top.(vec := top.vec + [PutOp(s.data, k)])])
  }

  /** The squash pops the newest savepoint before it looks at the one below. */
  predicate Torn(s: State) {
    && |s.savepoints| >= 2 && s.Top().group.Runtime? && s.savepoints[|s.savepoints| - 2].group.OnDisk?
  }

  predicate CanSquash(s: State) {
    && |s.savepoints| >= 2 && s.Top().group.Runtime? && s.savepoints[|s.savepoints| - 2].group.Runtime?
  }

  function Squashed(s: State): State {
    if Torn(s) then s.(savepoints := s.savepoints[..|s.savepoints| - 1])
    else if CanSquash(s) && |s.ops| >= 2 then
      var below := s.savepoints[|s.savepoints| - 2];
      var lower, upper := s.ops[|s.ops| - 2], s.ops[|s.ops| - 1];
      s.(savepoints := s.savepoints[..|s.savepoints| - 2] +
                       [below.(group := Record(below.group, s.Top().group.entries))],
         ops := s.ops[..|s.ops| - 2] + [lower.(vec := lower.vec + upper.vec)])
    else s
  }

  function RolledBack(s: State): State {
    if s.savepoints == [] || s.ops == [] then s
    else
      s.(tokens := Undone(s.Top().group, s.tokens), savepoints := s.savepoints[..|s.savepoints| - 1],
         data := UndoAll(s.data, s.ops[|s.ops| - 1].vec), ops := s.ops[..|s.ops| - 1])
  }

  function PoppedOne(s: State): State
    requires s.savepoints != [] && s.ops != []
  {
    var p := Release(Popped(s.data, map[]), s.ops[0].vec);
    s.(savepoints := s.savepoints[1..], data := p.data, ops := s.ops[1..], assets := s.assets + p.batch)
  }

  function PoppedUntil(s: State, until: int): State
    decreases |s.savepoints|
  {
    if s.savepoints == [] || s.ops == [] || s.savepoints[0].seqno >= until then s
    else PoppedUntil(PoppedOne(s), until)
  }

  function Step(s: State, cmd: Cmd): State {
    match cmd
    case AddSavepoint(n) => Added(s, n)
    case PutTokens(op, ws) => WithTokens(s, op, ws)
    case PutAsset(k, v) => WithAsset(s, k, v)
    case Squash => Squashed(s)
    case RollbackLatest => RolledBack(s)
    case PopSavepoints(until) => PoppedUntil(s, until)
  }

  // ---- The plain stack of maps ----

  datatype Frame = Frame(seqno: int, onDisk: bool, tokens: Column, assets: Column)

  datatype Plain = Plain(tokens: Column, assets: Column, stack: seq<Frame>)

  function PlainPop(stack: seq<Frame>, until: int): seq<Frame> {
    if stack == [] || stack[0].seqno >= until then stack else PlainPop(stack[1..], until)
  }

  function PlainStep(a: Plain, cmd: Cmd): Plain {
    var n := |a.stack|;
    match cmd
    case AddSavepoint(q) =>
      if n > 0 && a.stack[n - 1].seqno >= q then a else a.(stack := a.stack + [Frame(q, false, a.tokens, a.assets)])
    case PutTokens(_, ws) => a.(tokens := Written(a.tokens, ws))
    case PutAsset(k, v) => a.(assets := a.assets[k := v])
    case Squash =>
      if n >= 2 && !a.stack[n - 1].onDisk && !a.stack[n - 2].onDisk then a.(stack := a.stack[..n - 1]) else a
    case RollbackLatest =>
      if n == 0 then a else Plain(a.stack[n - 1].tokens, a.stack[n - 1].assets, a.stack[..n - 1])
    case PopSavepoints(until) => a.(stack := PlainPop(a.stack, until))
  }

  // ---- Invariant and correspondence ----

  /** The token column at the time of the savepoint, from the column at the end of its group. */
  function Base(g: Group, c: Column): Column {
    match g
    case Runtime(snapshot, _) => snapshot
    case OnDisk(saved) => SavedRollback(saved, c)
  }

  function Bases(sps: seq<Savepoint>, c: Column): (r: seq<Column>)
    ensures |r| == |sps|
  {
    if sps == [] then []
    else
      var b := Base(sps[|sps| - 1].group, c);
      Bases(sps[..|sps| - 1], b) + [b]
  }

  ghost predicate GroupsOk(sps: seq<Savepoint>, c: Column) {
    sps == [] ||
    (var g := sps[|sps| - 1].group;
     && (g.Runtime? ==> GroupOk(g.snapshot, g.entries, c))
     && GroupsOk(sps[..|sps| - 1], Base(g, c)))
  }

  /** The two stacks carry the same sequence numbers, strictly increasing. */
  ghost predicate Lockstep(sps: seq<Savepoint>, ops: seq<Layer>) {
    && |sps| == |ops|
    && (forall i :: 0 <= i < |sps| ==> sps[i].seqno == ops[i].seqno)
    && (forall i, j :: 0 <= i < j < |sps| ==> sps[i].seqno < sps[j].seqno)
  }

  ghost predicate Valid(s: State) {
    && Lockstep(s.savepoints, s.ops)
    && GroupsOk(s.savepoints, s.tokens)
    && Inv(s.data, Flat(s.ops))
  }

  function ViewOf(a: Plain, i: nat): Column {
    if i < |a.stack| then a.stack[i].assets else a.assets
  }

  ghost predicate FramesMatch(sps: seq<Savepoint>, c: Column, stack: seq<Frame>) {
    && |stack| == |sps|
    && (forall i :: 0 <= i < |sps| ==>
         && stack[i].seqno == sps[i].seqno && stack[i].onDisk == sps[i].group.OnDisk?
         && stack[i].tokens == Bases(sps, c)[i])
  }

  ghost predicate ViewsMatch(data: Data, db: Column, ops: seq<Layer>, a: Plain) {
    forall i, k :: 0 <= i <= |ops| ==> ReadColumn(ViewOf(a, i), k) == ReadAt(data, db, ops, i, k)
  }

  /** The tokens are those of the plain stack, now and at every savepoint. */
  ghost predicate TokensMatch(s: State, a: Plain) {
    s.tokens == a.tokens && FramesMatch(s.savepoints, s.tokens, a.stack)
  }

  /** The database stands for the plain stack: same columns now and at every savepoint, as reads see them. */
  ghost predicate Matches(s: State, a: Plain) {
    TokensMatch(s, a) && ViewsMatch(s.data, s.assets, s.ops, a)
  }

  ghost predicate AllowedAll(c: Column, op: Op, ws: seq<Write>) {
    forall i :: 0 <= i < |ws| ==> Allowed(Written(c, ws[..i]), op, ws[i].key)
  }

  predicate LosesKey(s: State, k: Key)
    requires s.ops != []
  {
    Lost(s.assets, Flat(s.ops[..|s.ops| - 1]), s.ops[|s.ops| - 1].vec, k)
  }

  ghost predicate NothingLost(s: State) {
    s.ops != [] ==> forall k :: !LosesKey(s, k)
  }

  /** The keys whose value a rollback loses. */
  ghost function LostKeys(s: State): set<Key> {
    if s.ops == [] then {}
    else
      var vec := s.ops[|s.ops| - 1].vec;
      set j | 0 <= j < |vec| && LosesKey(s, vec[j].key) :: vec[j].key
  }

  /** A column in which the lost keys read as the store has them. */
  function Forgetting(c: Column, lost: set<Key>, db: Column): Column {
    map k | k in c.Keys + db.Keys && (if k in lost then k in db else k in c) :: if k in lost then db[k] else c[k]
  }

  function FrameForgetting(f: Frame, lost: set<Key>, db: Column): Frame {
    f.(assets := Forgetting(f.assets, lost, db))
  }

  function PlainForgetting(a: Plain, lost: set<Key>, db: Column): Plain {
    Plain(a.tokens, Forgetting(a.assets, lost, db),
          seq(|a.stack|, i requires 0 <= i < |a.stack| => FrameForgetting(a.stack[i], lost, db)))
  }

  /** What a command does to the plain stack: as its name says, and a rollback forgets the values it loses. */
  ghost function ExactStep(s: State, a: Plain, cmd: Cmd): Plain {
    if cmd.RollbackLatest? then PlainForgetting(PlainStep(a, cmd), LostKeys(s), s.assets) else PlainStep(a, cmd)
  }

  /**
   What each operation needs: tokens are written into a group in memory, added when absent and updated when present;
   assets written under a savepoint are nonempty; a squash does not meet a loaded group.
   */
  ghost predicate Enabled(s: State, cmd: Cmd) {
    match cmd
    case AddSavepoint(_) => true
    case PutTokens(op, ws) => s.savepoints == [] || (s.Top().group.Runtime? && AllowedAll(s.tokens, op, ws))
    case PutAsset(_, v) => s.savepoints == [] || v != ""
    case Squash => !Torn(s)
    case RollbackLatest => true
    case PopSavepoints(_) => true
  }

  // ---- add_savepoint ----

  lemma LastTwo<T>(xs: seq<T>, x: T)
    ensures (xs + [x])[..|xs + [x]| - 1] == xs && (xs + [x])[|xs + [x]| - 1] == x
  {
  }

  lemma ViewsAfterPush(data: Data, db: Column, ops: seq<Layer>, n: int, i: nat, k: Key)
    requires i <= |ops|
    ensures ReadAt(data, db, ops + [Layer(n, [])], i, k) == ReadAt(data, db, ops, i, k)
    ensures ReadAt(data, db, ops + [Layer(n, [])], |ops| + 1, k) == ReadAt(data, db, ops, |ops|, k)
  {
    hide ReadBefore, Flat;
    var ops' := ops + [Layer(n, [])];
    assert ops'[i..] == ops[i..] + [Layer(n, [])];
    FlatAppend(ops[i..], [Layer(n, [])]);
    FlatOne(Layer(n, []));
    assert Flat(ops[i..]) + [] == Flat(ops[i..]);
    assert ops'[|ops| + 1..] == [] && ops[|ops|..] == [];
  }

  lemma FrameCount(s: State, a: Plain)
    requires Matches(s, a)
    ensures |a.stack| == |s.savepoints|
  {
    hide ReadAt, Bases;
  }

  lemma TopSeqno(s: State, a: Plain)
    requires Matches(s, a)
    ensures |a.stack| == |s.savepoints|
    ensures s.savepoints != [] ==> a.stack[|a.stack| - 1].seqno == s.Top().seqno
  {
    hide ReadAt, Bases;
  }

  /** A runtime group above matching frames, whatever the column above it. */
  lemma FramesPush(init: seq<Savepoint>, sp: Savepoint, b: Column, c: Column, stack: seq<Frame>, f: Frame)
    requires sp.group.Runtime? && sp.group.snapshot == b && GroupOk(b, sp.group.entries, c) && GroupsOk(init, b)
    requires FramesMatch(init, b, stack)
    requires f.seqno == sp.seqno && !f.onDisk && f.tokens == b
    ensures GroupsOk(init + [sp], c) && FramesMatch(init + [sp], c, stack + [f])
  {
    hide GroupOk, SavedRollback;
    LastTwo(init, sp);
    assert Bases(init + [sp], c) == Bases(init, b) + [b];
  }

  lemma FramesPop(sps: seq<Savepoint>, c: Column, stack: seq<Frame>)
    requires sps != [] && GroupsOk(sps, c) && FramesMatch(sps, c, stack)
    ensures var init, sp, b := sps[..|sps| - 1], sps[|sps| - 1], Base(sps[|sps| - 1].group, c);
      && GroupsOk(init, b) && FramesMatch(init, b, stack[..|stack| - 1]) && |stack| == |sps|
      && stack[|stack| - 1].tokens == b && stack[|stack| - 1].seqno == sp.seqno
      && stack[|stack| - 1].onDisk == sp.group.OnDisk?
      && (sp.group.Runtime? ==> GroupOk(sp.group.snapshot, sp.group.entries, c))
  {
    hide GroupOk, SavedRollback;
  }

  lemma AddMatches(s: State, a: Plain, n: int)
    requires Valid(s) && Matches(s, a)
    ensures Valid(Added(s, n)) && Matches(Added(s, n), PlainStep(a, AddSavepoint(n)))
  {
    hide Inv, GroupsOk, FramesMatch, ReadAt, Flat;
    FrameCount(s, a);
    if s.savepoints == [] || s.Top().seqno < n {
      var t, b := Added(s, n), PlainStep(a, AddSavepoint(n));
      var sp := Savepoint(n, Runtime(s.tokens, []));
      TopSeqno(s, a);
      GroupStart(s.tokens);
      FramesPush(s.savepoints, sp, s.tokens, s.tokens, a.stack, Frame(n, false, s.tokens, a.assets));
      FlatAppend(s.ops, [Layer(n, [])]);
      FlatOne(Layer(n, []));
      assert Flat(s.ops) + [] == Flat(s.ops);
      assert t.savepoints == s.savepoints + [sp];
      forall i, k | 0 <= i <= |t.ops| ensures ReadColumn(ViewOf(b, i), k) == ReadAt(t.data, t.assets, t.ops, i, k) {
        ViewsAfterPush(s.data, s.assets, s.ops, n, if i <= |s.ops| then i else 0, k);
      }
    } else {
      TopSeqno(s, a);
    }
  }

  // ---- put_token and put_tokens ----

  lemma AllowedPrefix(c: Column, op: Op, ws: seq<Write>)
    requires ws != [] && AllowedAll(c, op, ws)
    ensures AllowedAll(c, op, ws[..|ws| - 1]) && Allowed(Written(c, ws[..|ws| - 1]), op, ws[|ws| - 1].key)
  {
    hide Written, Allowed;
    var init := ws[..|ws| - 1];
    forall i | 0 <= i < |init| ensures Allowed(Written(c, init[..i]), op, init[i].key) {
      assert init[..i] == ws[..i];
    }
  }

  lemma {:induction false} GroupAppendAll(s: Column, es: seq<Entry>, c: Column, op: Op, ws: seq<Write>)
    requires GroupOk(s, es, c) && AllowedAll(c, op, ws)
    ensures GroupOk(s, es + Recorded(op, ws), Written(c, ws))
  {
    hide GroupOk, AllowedAll;
    if ws == [] {
      assert es + Recorded(op, ws) == es;
    } else {
      var init, w := ws[..|ws| - 1], ws[|ws| - 1];
      AllowedPrefix(c, op, ws);
      GroupAppendAll(s, es, c, op, init);
      GroupAppend(s, es + Recorded(op, init), Written(c, init), op, w.key, w.value);
      assert es + Recorded(op, init) + [Entry(op, w.key)] == es + Recorded(op, ws);
    }
  }

  lemma PutTokensFrames(sps: seq<Savepoint>, c: Column, stack: seq<Frame>, op: Op, ws: seq<Write>)
    requires sps != [] && GroupsOk(sps, c) && FramesMatch(sps, c, stack)
    requires sps[|sps| - 1].group.Runtime? && AllowedAll(c, op, ws)
    ensures var n, top := |sps|, sps[|sps| - 1];
      var sps' := sps[..n - 1] + [top.(group := Record(top.group, Recorded(op, ws)))];
      GroupsOk(sps', Written(c, ws)) && FramesMatch(sps', Written(c, ws), stack)
  {
    hide GroupOk, GroupsOk, FramesMatch, Written, Recorded, AllowedAll;
    var n, top := |sps|, sps[|sps| - 1];
    var g := top.group;
    var sp := top.(group := Record(g, Recorded(op, ws)));
    FramesPop(sps, c, stack);
    GroupAppendAll(g.snapshot, g.entries, c, op, ws);
    FramesPush(sps[..n - 1], sp, g.snapshot, Written(c, ws), stack[..n - 1], stack[n - 1]);
    assert stack[..n - 1] + [stack[n - 1]] == stack;
  }

  lemma SameViews(data: Data, db: Column, ops: seq<Layer>, a: Plain, tokens: Column)
    requires ViewsMatch(data, db, ops, a)
    ensures ViewsMatch(data, db, ops, a.(tokens := tokens))
  {
    hide ReadAt;
    forall i, k | 0 <= i <= |ops| ensures ReadColumn(ViewOf(a.(tokens := tokens), i), k) == ReadAt(data, db, ops, i, k) {
      assert ViewOf(a.(tokens := tokens), i) == ViewOf(a, i);
    }
  }

  lemma PutTokensMatches(s: State, a: Plain, op: Op, ws: seq<Write>)
    requires Valid(s) && Matches(s, a) && Enabled(s, PutTokens(op, ws))
    ensures Valid(WithTokens(s, op, ws)) && Matches(WithTokens(s, op, ws), PlainStep(a, PutTokens(op, ws)))
  {
    hide Inv, Flat, Written, Recorded, AllowedAll, ViewsMatch;
    SameViews(s.data, s.assets, s.ops, a, Written(s.tokens, ws));
    if s.savepoints != [] {
      hide GroupsOk, FramesMatch;
      PutTokensFrames(s.savepoints, s.tokens, a.stack, op, ws);
    }
  }

  // ---- put_asset ----

  lemma ViewsAfterAsset(data: Data, db: Column, init: seq<Layer>, top: Layer, k: Key, v: Value, i: nat, x: Key)
    requires i <= |init| && CountOk(data, Flat(init + [top]))
    ensures ReadAt(PutData(data, k, v), db, init + [top.(vec := top.vec + [PutOp(data, k)])], i, x)
         == ReadAt(data, db, init + [top], i, x)
  {
    hide ReadBefore, Flat, CountOk;
    var top' := top.(vec := top.vec + [PutOp(data, k)]);
    assert (init + [top])[i..] == init[i..] + [top] && (init + [top'])[i..] == init[i..] + [top'];
    FlatAppend(init[i..], [top]);
    FlatAppend(init[i..], [top']);
    FlatOne(top);
    FlatOne(top');
    assert Flat(init[i..]) + top'.vec == Flat(init[i..]) + top.vec + [PutOp(data, k)];
    PutKeepsReads(data, db, Flat(init + [top]), Flat(init[i..]) + top.vec, k, v, x);
  }

  lemma InvAfterAsset(data: Data, init: seq<Layer>, top: Layer, k: Key, v: Value)
    requires Inv(data, Flat(init + [top])) && v != ""
    ensures Inv(PutData(data, k, v), Flat(init + [top.(vec := top.vec + [PutOp(data, k)])]))
  {
    hide Inv, Flat;
    var top' := top.(vec := top.vec + [PutOp(data, k)]);
    FlatAppend(init, [top]);
    FlatAppend(init, [top']);
    FlatOne(top);
    FlatOne(top');
    assert Flat(init) + top'.vec == Flat(init) + top.vec + [PutOp(data, k)];
    PutKeepsInv(data, Flat(init + [top]), k, v);
  }

  lemma NowIsLast(data: Data, db: Column, ops: seq<Layer>, k: Key)
    ensures ReadAt(data, db, ops, |ops|, k) == Read(data, db, k)
  {
    assert ops[|ops|..] == [];
  }

  lemma NoRecordsNoData(data: Data, k: Key)
    requires Inv(data, Flat([]))
    ensures k !in data
  {
    assert EntryOk(data, k, Count(Flat([]), k));
  }

  lemma PutAssetMatches(s: State, a: Plain, k: Key, v: Value)
    requires Valid(s) && Matches(s, a) && (s.savepoints == [] || v != "")
    ensures Valid(WithAsset(s, k, v)) && Matches(WithAsset(s, k, v), PlainStep(a, PutAsset(k, v)))
  {
    hide Inv, GroupsOk, ReadAt, Bases, Flat, ViewsMatch;
    if s.ops == [] {
      StoredViews(s, a, k, v);
    } else {
      var init, top := s.ops[..|s.ops| - 1], s.ops[|s.ops| - 1];
      assert s.ops == init + [top];
      InvAfterAsset(s.data, init, top, k, v);
      CachedViews(s, a, init, top, k, v);
    }
  }

  lemma StoredViews(s: State, a: Plain, k: Key, v: Value)
    requires Inv(s.data, Flat(s.ops)) && s.ops == [] && a.stack == [] && ViewsMatch(s.data, s.assets, s.ops, a)
    ensures ViewsMatch(s.data, s.assets[k := v], s.ops, a.(assets := a.assets[k := v]))
  {
    hide Inv, ReadAt, Flat;
    var b := a.(assets := a.assets[k := v]);
    forall i, x | 0 <= i <= |s.ops| ensures ReadColumn(ViewOf(b, i), x) == ReadAt(s.data, s.assets[k := v], s.ops, i, x) {
      NoRecordsNoData(s.data, x);
      NowIsLast(s.data, s.assets[k := v], s.ops, x);
      NowIsLast(s.data, s.assets, s.ops, x);
    }
  }

  lemma CachedViews(s: State, a: Plain, init: seq<Layer>, top: Layer, k: Key, v: Value)
    requires s.ops == init + [top] && Inv(s.data, Flat(s.ops)) && |a.stack| == |s.ops| && ViewsMatch(s.data, s.assets, s.ops, a)
    ensures ViewsMatch(PutData(s.data, k, v), s.assets, init + [top.(vec := top.vec + [PutOp(s.data, k)])],
              a.(assets := a.assets[k := v]))
  {
    hide Inv, ReadAt, Flat;
    var b, data, ops := a.(assets := a.assets[k := v]), PutData(s.data, k, v), init + [top.(vec := top.vec + [PutOp(s.data, k)])];
    InvCounts(s.data, Flat(s.ops));
    forall i, x | 0 <= i <= |ops| ensures ReadColumn(ViewOf(b, i), x) == ReadAt(data, s.assets, ops, i, x) {
      if i < |ops| {
        assert ViewOf(b, i) == ViewOf(a, i);
        ViewsAfterAsset(s.data, s.assets, init, top, k, v, i, x);
      } else {
        NowIsLast(data, s.assets, ops, x);
        NowIsLast(s.data, s.assets, s.ops, x);
      }
    }
  }

  lemma InvCounts(data: Data, f: seq<DataOp>)
    requires Inv(data, f)
    ensures CountOk(data, f)
  {
  }

  // ---- squash ----

  lemma FlatSquash(init: seq<Layer>, lower: Layer, upper: Layer)
    ensures Flat(init + [lower.(vec := lower.vec + upper.vec)]) == Flat(init + [lower] + [upper])
  {
    hide Flat;
    var both := lower.(vec := lower.vec + upper.vec);
    FlatAppend(init, [both]);
    FlatAppend(init, [lower]);
    FlatAppend(init + [lower], [upper]);
    FlatOne(both);
    FlatOne(lower);
    FlatOne(upper);
    assert Flat(init) + (lower.vec + upper.vec) == Flat(init) + lower.vec + upper.vec;
  }

  lemma ViewsAfterSquash(data: Data, db: Column, init: seq<Layer>, lower: Layer, upper: Layer, i: nat, k: Key)
    requires i <= |init|
    ensures ReadAt(data, db, init + [lower.(vec := lower.vec + upper.vec)], i, k)
         == ReadAt(data, db, init + [lower] + [upper], i, k)
  {
    hide ReadBefore, Flat;
    var both := lower.(vec := lower.vec + upper.vec);
    assert (init + [both])[i..] == init[i..] + [both];
    assert (init + [lower] + [upper])[i..] == init[i..] + [lower] + [upper];
    FlatSquash(init[i..], lower, upper);
  }

  lemma SquashTokens(init: seq<Savepoint>, below: Savepoint, top: Savepoint, c: Column)
    requires below.group.Runtime? && top.group.Runtime? && GroupsOk(init + [below] + [top], c)
    ensures var both := below.(group := Record(below.group, top.group.entries));
      && GroupsOk(init + [both], c)
      && Bases(init + [both], c) + [top.group.snapshot] == Bases(init + [below] + [top], c)
  {
    hide GroupOk, SavedRollback;
    var both := below.(group := Record(below.group, top.group.entries));
    LastTwo(init + [below], top);
    LastTwo(init, below);
    LastTwo(init, both);
    GroupSquash(below.group.snapshot, below.group.entries, top.group.snapshot, top.group.entries, c);
  }

  lemma SquashMatches(s: State, a: Plain)
    requires Valid(s) && Matches(s, a) && !Torn(s)
    ensures Valid(Squashed(s)) && Matches(Squashed(s), PlainStep(a, Squash))
  {
    hide Inv, GroupsOk, ReadAt, Bases, Flat;
    var t, b, n := Squashed(s), PlainStep(a, Squash), |s.ops|;
    if CanSquash(s) {
      var init, below, top := s.savepoints[..n - 2], s.savepoints[n - 2], s.Top();
      var linit, lower, upper := s.ops[..n - 2], s.ops[n - 2], s.ops[n - 1];
      assert s.savepoints == init + [below] + [top] && s.ops == linit + [lower] + [upper];
      SquashTokens(init, below, top, s.tokens);
      FlatSquash(linit, lower, upper);
      forall i, k | 0 <= i <= |t.ops| ensures ReadColumn(ViewOf(b, i), k) == ReadAt(t.data, t.assets, t.ops, i, k) {
        if i <= n - 2 {
          assert ViewOf(b, i) == ViewOf(a, i);
          ViewsAfterSquash(s.data, s.assets, linit, lower, upper, i, k);
        } else {
          NowIsLast(t.data, t.assets, t.ops, k);
          NowIsLast(s.data, s.assets, s.ops, k);
        }
      }
    }
  }

  /** A squash keeps the two stacks in lockstep, exactly unless the newest group is in memory above a loaded one. */
  lemma SquashLockstepIff(s: State)
    requires Valid(s)
    ensures Lockstep(Squashed(s).savepoints, Squashed(s).ops) <==> !Torn(s)
  {
    hide Inv, GroupsOk;
  }

  // ---- rollback_to_latest_savepoint ----

  lemma ViewsAfterRollback(data: Data, db: Column, init: seq<Layer>, top: Layer, i: nat, k: Key)
    requires i <= |init| && Inv(data, Flat(init + [top]))
    ensures ReadAt(UndoAll(data, top.vec), db, init, i, k) == ReadAt(data, db, init + [top], i, k) <==>
      !Lost(db, Flat(init), top.vec, k)
  {
    hide ReadBefore, Flat, Inv, Lost, UndoAll;
    assert (init + [top])[i..] == init[i..] + [top];
    FlatAppend(init[i..], [top]);
    FlatAppend(init, [top]);
    FlatOne(top);
    FlatSplit(init, i);
    UndoRestoresReadIff(data, db, Flat(init[..i]), Flat(init[i..]), top.vec, k);
  }

  lemma InvAfterRollback(data: Data, init: seq<Layer>, top: Layer)
    requires Inv(data, Flat(init + [top]))
    ensures Inv(UndoAll(data, top.vec), Flat(init))
  {
    hide Flat, Inv, UndoAll;
    FlatAppend(init, [top]);
    FlatOne(top);
    UndoAllAt(data, Flat(init), top.vec);
  }

  lemma RollbackTokens(s: State)
    requires s.savepoints != [] && GroupsOk(s.savepoints, s.tokens)
    ensures Undone(s.Top().group, s.tokens) == Base(s.Top().group, s.tokens)
  {
    hide GroupOk, Rollback, SavedRollback;
    if s.Top().group.Runtime? {
      GroupRollsBack(s.Top().group.snapshot, s.Top().group.entries, s.tokens);
    }
  }

  lemma ForgettingReads(c: Column, lost: set<Key>, db: Column, k: Key)
    ensures ReadColumn(Forgetting(c, lost, db), k) == if k in lost then ReadColumn(db, k) else ReadColumn(c, k)
  {
  }

  lemma ForgettingNothing(a: Plain, db: Column)
    ensures PlainForgetting(a, {}, db) == a
  {
    assert Forgetting(a.assets, {}, db) == a.assets;
    forall i | 0 <= i < |a.stack| ensures FrameForgetting(a.stack[i], {}, db) == a.stack[i] {
      assert Forgetting(a.stack[i].assets, {}, db) == a.stack[i].assets;
    }
  }

  lemma LosesKeyIsListed(s: State, k: Key)
    requires s.ops != []
    ensures k in LostKeys(s) <==> LosesKey(s, k)
  {
    if LosesKey(s, k) {
      var vec := s.ops[|s.ops| - 1].vec;
      var j := FirstIsThere(vec, k);
      assert vec[j].key == k;
    }
  }

  lemma {:induction false} FirstIsThere(vec: seq<DataOp>, k: Key) returns (j: nat)
    requires First(vec, k).Some?
    ensures j < |vec| && vec[j].key == k
  {
    if First(vec[..|vec| - 1], k).Some? {
      j := FirstIsThere(vec[..|vec| - 1], k);
    } else {
      j := |vec| - 1;
    }
  }

  /** After a rollback, reads now and at the savepoints left are the old ones, but for lost keys, which read as stored. */
  lemma ViewsRolledBack(s: State, i: nat, k: Key)
    requires Valid(s) && s.ops != [] && i <= |s.ops| - 1
    ensures var t := RolledBack(s);
      |t.ops| == |s.ops| - 1 && ReadAt(t.data, t.assets, t.ops, i, k) ==
        if k in LostKeys(s) then ReadColumn(s.assets, k) else ReadAt(s.data, s.assets, s.ops, i, k)
  {
    hide Inv, GroupsOk, ReadAt, Flat, Undone, UndoAll, Lost, LostKeys;
    var n := |s.ops|;
    var init, top := s.ops[..n - 1], s.ops[n - 1];
    assert s.ops == init + [top];
    LosesKeyIsListed(s, k);
    ViewsAfterRollback(s.data, s.assets, init, top, i, k);
    if LosesKey(s, k) {
      LostReadsStored(s.data, s.assets, init, top, i, k);
    }
  }

  lemma LostReadsStored(data: Data, db: Column, init: seq<Layer>, top: Layer, i: nat, k: Key)
    requires i <= |init| && Inv(data, Flat(init + [top])) && Lost(db, Flat(init), top.vec, k)
    ensures ReadAt(UndoAll(data, top.vec), db, init, i, k) == ReadColumn(db, k)
  {
    hide Flat, Inv, UndoAll, Count, First;
    InvAfterRollback(data, init, top);
    InvCounts(UndoAll(data, top.vec), Flat(init));
    FlatSplit(init, i);
    CountAppend(Flat(init[..i]), Flat(init[i..]), k);
    FirstCount(Flat(init[i..]), k);
    assert EntryOk(UndoAll(data, top.vec), k, Count(Flat(init), k));
  }

  /** Every rollback keeps the invariant and does to the plain stack what it should, but for the values it loses. */
  lemma RollbackMatches(s: State, a: Plain)
    requires Valid(s) && Matches(s, a)
    ensures Valid(RolledBack(s)) && Matches(RolledBack(s), ExactStep(s, a, RollbackLatest))
  {
    hide Inv, GroupsOk, FramesMatch, ReadAt, Flat, Undone, Base, UndoAll, Lost, LostKeys, Forgetting;
    var t, n := RolledBack(s), |s.ops|;
    var p, lost := PlainStep(a, RollbackLatest), LostKeys(s);
    var b := ExactStep(s, a, RollbackLatest);
    FrameCount(s, a);
    if n > 0 {
      var init, top := s.ops[..n - 1], s.ops[n - 1];
      assert s.ops == init + [top];
      RollbackTokens(s);
      FramesPop(s.savepoints, s.tokens, a.stack);
      FramesForgetting(t.savepoints, t.tokens, p, lost, s.assets);
      InvAfterRollback(s.data, init, top);
      forall i, k | 0 <= i <= |t.ops| ensures ReadColumn(ViewOf(b, i), k) == ReadAt(t.data, t.assets, t.ops, i, k) {
        ViewsRolledBack(s, i, k);
        assert ReadColumn(ViewOf(a, i), k) == ReadAt(s.data, s.assets, s.ops, i, k);
        ForgettingReads(ViewOf(p, i), lost, s.assets, k);
        assert ViewOf(p, i) == ViewOf(a, i) && ViewOf(b, i) == Forgetting(ViewOf(p, i), lost, s.assets);
      }
    } else {
      NoneLost(s);
      ForgettingNothing(p, s.assets);
    }
  }

  lemma NoneLost(s: State)
    requires s.ops == []
    ensures LostKeys(s) == {}
  {
  }

  lemma FramesForgetting(sps: seq<Savepoint>, c: Column, p: Plain, lost: set<Key>, db: Column)
    requires FramesMatch(sps, c, p.stack)
    ensures FramesMatch(sps, c, PlainForgetting(p, lost, db).stack)
  {
    hide Bases, Forgetting;
  }

  /** A rollback that loses nothing restores the top frame and leaves the others alone. */
  lemma LosslessStep(s: State, a: Plain, cmd: Cmd)
    requires cmd.RollbackLatest? ==> NothingLost(s)
    ensures ExactStep(s, a, cmd) == PlainStep(a, cmd)
  {
    hide PlainStep, PlainForgetting;
    if cmd.RollbackLatest? {
      if s.ops != [] {
        forall k ensures k !in LostKeys(s) {
          LosesKeyIsListed(s, k);
        }
      }
      assert LostKeys(s) == {};
      ForgettingNothing(PlainStep(a, cmd), s.assets);
    }
  }

  /** Exactly when a rollback gives back every asset as it was read at the savepoint. */
  lemma RollbackAssetsIff(s: State)
    requires Valid(s) && s.savepoints != []
    ensures (forall k :: Read(RolledBack(s).data, s.assets, k) == ReadAt(s.data, s.assets, s.ops, |s.ops| - 1, k)) <==>
      NothingLost(s)
  {
    hide Inv, GroupsOk, ReadAt, Flat, UndoAll, Lost, Undone;
    var n := |s.ops|;
    var init, top := s.ops[..n - 1], s.ops[n - 1];
    assert s.ops == init + [top];
    forall k ensures Read(RolledBack(s).data, s.assets, k) == ReadAt(s.data, s.assets, s.ops, n - 1, k) <==>
      !LosesKey(s, k)
    {
      ViewsAfterRollback(s.data, s.assets, init, top, n - 1, k);
      NowIsLast(UndoAll(s.data, top.vec), s.assets, init, k);
    }
  }

  // ---- pop_savepoints ----

  lemma {:induction false} BasesTail(sps: seq<Savepoint>, c: Column)
    requires sps != [] && GroupsOk(sps, c)
    ensures GroupsOk(sps[1..], c) && Bases(sps[1..], c) == Bases(sps, c)[1..]
  {
    hide GroupOk, SavedRollback;
    var init, top := sps[..|sps| - 1], sps[|sps| - 1];
    if init != [] {
      BasesTail(init, Base(top.group, c));
      assert sps[1..] == init[1..] + [top];
      LastTwo(init[1..], top);
    }
  }

  lemma ViewsAfterPop(data: Data, db: Column, first: Layer, rest: seq<Layer>, i: nat, k: Key)
    requires i <= |rest| && CountOk(data, Flat([first] + rest))
    ensures var p := Release(Popped(data, map[]), first.vec);
      ReadAt(p.data, db + p.batch, rest, i, k) == ReadAt(data, db, [first] + rest, i + 1, k)
  {
    hide ReadBefore, Flat, CountOk, Release;
    assert ([first] + rest)[i + 1..] == rest[i..];
    FlatAppend([first], rest);
    FlatOne(first);
    FlatSplit(rest, i);
    ReleaseKeepsReads(data, db, first.vec, Flat(rest[..i]), Flat(rest[i..]), k);
  }

  lemma InvAfterPop(data: Data, first: Layer, rest: seq<Layer>)
    requires Inv(data, Flat([first] + rest))
    ensures Inv(Release(Popped(data, map[]), first.vec).data, Flat(rest))
  {
    hide Flat, Inv, Release;
    FlatAppend([first], rest);
    FlatOne(first);
    ReleaseKeepsInv(data, first.vec, Flat(rest));
  }

  lemma PopOneMatches(s: State, a: Plain)
    requires Valid(s) && Matches(s, a) && s.savepoints != []
    ensures Valid(PoppedOne(s)) && Matches(PoppedOne(s), a.(stack := a.stack[1..]))
  {
    hide Inv, GroupsOk, ReadAt, Flat, Bases, Release;
    var t, b := PoppedOne(s), a.(stack := a.stack[1..]);
    var first, rest := s.ops[0], s.ops[1..];
    assert s.ops == [first] + rest;
    BasesTail(s.savepoints, s.tokens);
    InvAfterPop(s.data, first, rest);
    InvCounts(s.data, Flat(s.ops));
    forall i, k | 0 <= i <= |t.ops| ensures ReadColumn(ViewOf(b, i), k) == ReadAt(t.data, t.assets, t.ops, i, k) {
      assert ViewOf(b, i) == ViewOf(a, i + 1);
      ViewsAfterPop(s.data, s.assets, first, rest, i, k);
    }
  }

  lemma OldestSeqno(s: State, a: Plain)
    requires Valid(s) && Matches(s, a)
    ensures |a.stack| == |s.savepoints| == |s.ops|
    ensures s.savepoints != [] ==> a.stack[0].seqno == s.savepoints[0].seqno == s.ops[0].seqno
  {
    hide ReadAt, Inv, GroupsOk, Bases;
  }

  lemma {:induction false} PopMatches(s: State, a: Plain, until: int)
    requires Valid(s) && Matches(s, a)
    ensures Valid(PoppedUntil(s, until)) && Matches(PoppedUntil(s, until), PlainStep(a, PopSavepoints(until)))
    decreases |s.savepoints|
  {
    hide Valid, Matches;
    OldestSeqno(s, a);
    if s.savepoints != [] && s.savepoints[0].seqno < until {
      PopOneMatches(s, a);
      PopMatches(PoppedOne(s), a.(stack := a.stack[1..]), until);
    }
  }

  /** Popping drops, from the oldest on, exactly the frames with a smaller number. */
  lemma {:induction false} PlainPopLeaves(stack: seq<Frame>, until: int)
    ensures var p := PlainPop(stack, until); var n := |stack| - |p|;
      && 0 <= n && p == stack[n..] && (forall i :: 0 <= i < n ==> stack[i].seqno < until)
      && (p != [] ==> p[0].seqno >= until)
  {
    if stack != [] && stack[0].seqno < until {
      PlainPopLeaves(stack[1..], until);
      var p := PlainPop(stack, until);
      var n := |stack| - |p|;
      assert p == stack[1..][n - 1..];
      assert forall i :: 1 <= i < n ==> stack[i] == stack[1..][i - 1];
    }
  }

  lemma PoppedOneParts(s: State)
    requires Lockstep(s.savepoints, s.ops) && s.savepoints != []
    ensures var u := PoppedOne(s);
      && u.savepoints == s.savepoints[1..] && u.ops == s.ops[1..] && u.tokens == s.tokens && Lockstep(u.savepoints, u.ops)
  {
  }

  /** Exactly the savepoints with a number below the bound are gone; the others are left, in order. */
  ghost predicate DroppedBelow(sps: seq<Savepoint>, left: seq<Savepoint>, until: int) {
    && |left| <= |sps| && left == sps[|sps| - |left|..]
    && (forall i :: 0 <= i < |sps| - |left| ==> sps[i].seqno < until)
    && (forall i :: 0 <= i < |left| ==> left[i].seqno >= until)
  }

  lemma NoneDropped(sps: seq<Savepoint>, ops: seq<Layer>, until: int)
    requires Lockstep(sps, ops) && (sps == [] || sps[0].seqno >= until)
    ensures DroppedBelow(sps, sps, until)
  {
  }

  lemma OneDropped(sps: seq<Savepoint>, left: seq<Savepoint>, until: int)
    requires sps != [] && sps[0].seqno < until && DroppedBelow(sps[1..], left, until)
    ensures DroppedBelow(sps, left, until)
  {
    var n := |sps| - |left|;
    assert sps[1..][n - 1..] == sps[n..];
    forall i | 0 <= i < n ensures sps[i].seqno < until {
      if i > 0 {
        assert sps[i] == sps[1..][i - 1];
      }
    }
  }

  /** So it is after popping, in the cache as well, while the tokens stay. */
  lemma {:induction false} PopLeaves(s: State, until: int)
    requires Lockstep(s.savepoints, s.ops)
    ensures var t := PoppedUntil(s, until);
      && DroppedBelow(s.savepoints, t.savepoints, until) && t.tokens == s.tokens
      && |t.ops| == |t.savepoints| && t.ops == s.ops[|s.ops| - |t.ops|..]
    decreases |s.savepoints|
  {
    hide PoppedOne, DroppedBelow, Lockstep;
    SameCount(s.savepoints, s.ops);
    if s.savepoints != [] && s.savepoints[0].seqno < until {
      PoppedOneParts(s);
      var u := PoppedOne(s);
      PopLeaves(u, until);
      var t := PoppedUntil(u, until);
      assert PoppedUntil(s, until) == t;
      OneDropped(s.savepoints, t.savepoints, until);
      LeftIsShort(u.savepoints, t.savepoints, until);
      SuffixOfTail(s.ops, |t.ops|);
    } else {
      NoneDropped(s.savepoints, s.ops, until);
    }
  }

  lemma SameCount(sps: seq<Savepoint>, ops: seq<Layer>)
    requires Lockstep(sps, ops)
    ensures |sps| == |ops|
  {
  }

  lemma SuffixOfTail(ops: seq<Layer>, n: nat)
    requires n < |ops|
    ensures ops[1..][|ops| - 1 - n..] == ops[|ops| - n..]
  {
  }

  lemma LeftIsShort(sps: seq<Savepoint>, left: seq<Savepoint>, until: int)
    requires DroppedBelow(sps, left, until)
    ensures |left| <= |sps|
  {
  }

  // ---- Runs ----

  /** Every operation keeps the invariant and does to the plain stack what its name says. */
  lemma StepMatches(s: State, a: Plain, cmd: Cmd)
    requires Valid(s) && Matches(s, a) && Enabled(s, cmd)
    ensures Valid(Step(s, cmd)) && Matches(Step(s, cmd), ExactStep(s, a, cmd))
  {
    hide Valid, Matches, Torn, PlainForgetting;
    match cmd
    case AddSavepoint(n) => AddMatches(s, a, n);
    case PutTokens(op, ws) => PutTokensMatches(s, a, op, ws);
    case PutAsset(k, v) => PutAssetMatches(s, a, k, v);
    case Squash => SquashMatches(s, a);
    case RollbackLatest => RollbackMatches(s, a);
    case PopSavepoints(until) => PopMatches(s, a, until);
  }

  function Run(s: State, cmds: seq<Cmd>): State
    decreases cmds
  {
    if cmds == [] then s else Run(Step(s, cmds[0]), cmds[1..])
  }

  function PlainRun(a: Plain, cmds: seq<Cmd>): Plain
    decreases cmds
  {
    if cmds == [] then a else PlainRun(PlainStep(a, cmds[0]), cmds[1..])
  }

  ghost function ExactRun(s: State, a: Plain, cmds: seq<Cmd>): Plain
    decreases cmds
  {
    if cmds == [] then a else ExactRun(Step(s, cmds[0]), ExactStep(s, a, cmds[0]), cmds[1..])
  }

  ghost predicate EnabledRun(s: State, cmds: seq<Cmd>)
    decreases cmds
  {
    cmds == [] || (Enabled(s, cmds[0]) && EnabledRun(Step(s, cmds[0]), cmds[1..]))
  }

  /** Over every run the database is the plain stack of maps, but for values lost in rollbacks. */
  lemma {:induction false} RunMatches(s: State, a: Plain, cmds: seq<Cmd>)
    requires Valid(s) && Matches(s, a) && EnabledRun(s, cmds)
    ensures Valid(Run(s, cmds)) && Matches(Run(s, cmds), ExactRun(s, a, cmds))
    decreases cmds
  {
    if cmds != [] {
      hide Valid, Matches, Step, ExactStep, Enabled;
      StepMatches(s, a, cmds[0]);
      RunMatches(Step(s, cmds[0]), ExactStep(s, a, cmds[0]), cmds[1..]);
    }
  }

  /** The same tokens and savepoints; assets may differ. */
  ghost predicate SameTokens(a: Plain, b: Plain) {
    && a.tokens == b.tokens && |a.stack| == |b.stack|
    && forall i :: 0 <= i < |a.stack| ==> a.stack[i].(assets := b.stack[i].assets) == b.stack[i]
  }

  lemma {:induction false} PopSameTokens(a: seq<Frame>, b: seq<Frame>, until: int)
    requires |a| == |b| && forall i :: 0 <= i < |a| ==> a[i].(assets := b[i].assets) == b[i]
    ensures var p, q := PlainPop(a, until), PlainPop(b, until);
      |p| == |q| && forall i :: 0 <= i < |p| ==> p[i].(assets := q[i].assets) == q[i]
  {
    if a != [] && a[0].seqno < until {
      PopSameTokens(a[1..], b[1..], until);
    }
  }

  lemma StepSameTokens(s: State, a: Plain, b: Plain, cmd: Cmd)
    requires SameTokens(a, b)
    ensures SameTokens(ExactStep(s, a, cmd), PlainStep(b, cmd))
  {
    hide Written, PlainPop, Forgetting, LostKeys;
    if cmd.PopSavepoints? {
      PopSameTokens(a.stack, b.stack, cmd.until);
    }
  }

  lemma {:induction false} RunSameTokens(s: State, a: Plain, b: Plain, cmds: seq<Cmd>)
    requires SameTokens(a, b)
    ensures SameTokens(ExactRun(s, a, cmds), PlainRun(b, cmds))
    decreases cmds
  {
    if cmds != [] {
      hide Step, ExactStep, PlainStep, SameTokens;
      StepSameTokens(s, a, b, cmds[0]);
      RunSameTokens(Step(s, cmds[0]), ExactStep(s, a, cmds[0]), PlainStep(b, cmds[0]), cmds[1..]);
    }
  }

  lemma SameTokensMatch(s: State, a: Plain, b: Plain)
    requires TokensMatch(s, a) && SameTokens(a, b)
    ensures TokensMatch(s, b)
  {
    hide Bases;
  }

  /**
   Over every run the tokens, now and at every savepoint, are those of the plain stack, and the two stacks of savepoints
   stay in lockstep with strictly increasing numbers, whatever the rollbacks do to assets.
   */
  lemma RunTokensMatch(s: State, a: Plain, cmds: seq<Cmd>)
    requires Valid(s) && Matches(s, a) && EnabledRun(s, cmds)
    ensures TokensMatch(Run(s, cmds), PlainRun(a, cmds))
    ensures Lockstep(Run(s, cmds).savepoints, Run(s, cmds).ops)
  {
    hide EnabledRun, Run, PlainRun, ExactRun, GroupsOk, Inv, ViewsMatch, FramesMatch;
    RunMatches(s, a, cmds);
    assert SameTokens(a, a);
    RunSameTokens(s, a, a, cmds);
    SameTokensMatch(Run(s, cmds), ExactRun(s, a, cmds), PlainRun(a, cmds));
  }

  /** Every rollback of the run loses nothing. */
  ghost predicate LosslessRun(s: State, cmds: seq<Cmd>)
    decreases cmds
  {
    cmds == [] || ((cmds[0].RollbackLatest? ==> NothingLost(s)) && LosslessRun(Step(s, cmds[0]), cmds[1..]))
  }

  lemma {:induction false} LosslessRunIsPlain(s: State, a: Plain, cmds: seq<Cmd>)
    requires LosslessRun(s, cmds)
    ensures ExactRun(s, a, cmds) == PlainRun(a, cmds)
    decreases cmds
  {
    if cmds != [] {
      hide Step, ExactStep, PlainStep, NothingLost;
      LosslessStep(s, a, cmds[0]);
      LosslessRunIsPlain(Step(s, cmds[0]), PlainStep(a, cmds[0]), cmds[1..]);
    }
  }

  /** Where the frame at index d is after a command; None once it is gone. */
  function TrackStep(a: Plain, d: nat, cmd: Cmd): Option<nat> {
    var n, m := |a.stack|, |PlainStep(a, cmd).stack|;
    if cmd.PopSavepoints? then (if d + m < n || m > n then None else Some(d - (n - m)))
    else if d < m then Some(d)
    else None
  }

  function Track(a: Plain, d: nat, cmds: seq<Cmd>): Option<nat>
    decreases cmds
  {
    if cmds == [] then Some(d)
    else
      var e := TrackStep(a, d, cmds[0]);
      if e.None? then None else Track(PlainStep(a, cmds[0]), e.value, cmds[1..])
  }

  lemma SuffixAt(stack: seq<Frame>, n: nat, d: nat)
    requires n <= |stack|
    ensures n <= d < |stack| ==> stack[n..][d - n] == stack[d]
  {
  }

  lemma TrackedStep(a: Plain, d: nat, cmd: Cmd)
    requires d < |a.stack| && TrackStep(a, d, cmd).Some?
    ensures var e := TrackStep(a, d, cmd).value;
      e < |PlainStep(a, cmd).stack| && PlainStep(a, cmd).stack[e] == a.stack[d]
  {
    if cmd.PopSavepoints? {
      hide PlainPop;
      PlainPopLeaves(a.stack, cmd.until);
      SuffixAt(a.stack, |a.stack| - |PlainPop(a.stack, cmd.until)|, d);
    } else {
      hide PlainStep;
      LowerFramesStay(a, cmd, d);
    }
  }

  lemma LowerFramesStay(a: Plain, cmd: Cmd, d: nat)
    requires !cmd.PopSavepoints? && d < |a.stack| && d < |PlainStep(a, cmd).stack|
    ensures PlainStep(a, cmd).stack[d] == a.stack[d]
  {
    hide Written;
  }

  lemma {:induction false} TrackedFrame(a: Plain, d: nat, cmds: seq<Cmd>)
    requires d < |a.stack| && Track(a, d, cmds).Some?
    ensures var e := Track(a, d, cmds).value;
      e < |PlainRun(a, cmds).stack| && PlainRun(a, cmds).stack[e] == a.stack[d]
    decreases cmds
  {
    if cmds != [] {
      hide PlainStep, TrackStep;
      TrackedStep(a, d, cmds[0]);
      TrackedFrame(PlainStep(a, cmds[0]), TrackStep(a, d, cmds[0]).value, cmds[1..]);
    }
  }

  /**
   A savepoint added and, after any commands that leave it the newest (writes, nested savepoints, rollbacks,
   squashes into it, pops of older ones), rolled back: the tokens are as when it was added, in every run; and so are
   the asset reads, when no rollback loses a value.
   */
  lemma RollbackRestoresRun(s: State, a: Plain, q: int, inner: seq<Cmd>)
    requires Valid(s) && Matches(s, a) && (s.savepoints == [] || s.Top().seqno < q)
    requires EnabledRun(Added(s, q), inner)
    requires var a' := PlainStep(a, AddSavepoint(q)); Track(a', |s.savepoints|, inner) == Some(|PlainRun(a', inner).stack| - 1)
    ensures var t := Step(Run(Added(s, q), inner), RollbackLatest);
      && t.tokens == s.tokens
      && (LosslessRun(Added(s, q), inner) && NothingLost(Run(Added(s, q), inner)) ==>
           forall k :: Read(t.data, t.assets, k) == Read(s.data, s.assets, k))
  {
    hide Valid, ViewsMatch, FramesMatch, Added, NothingLost, Run, PlainRun, ExactRun, EnabledRun, LosslessRun, Track,
      PlainForgetting, LostKeys;
    var a' := PlainStep(a, AddSavepoint(q));
    var u, v, w := Run(Added(s, q), inner), PlainRun(a', inner), ExactRun(Added(s, q), a', inner);
    AddMatches(s, a, q);
    AddedFrame(s, a, q);
    RunMatches(Added(s, q), a', inner);
    RunTokensMatch(Added(s, q), a', inner);
    assert SameTokens(a', a');
    RunSameTokens(Added(s, q), a', a', inner);
    TrackedFrame(a', |s.savepoints|, inner);
    assert v.stack[|v.stack| - 1] == Frame(q, false, a.tokens, a.assets);
    StepMatches(u, w, RollbackLatest);
    var t := Step(u, RollbackLatest);
    TopFrameTokens(u, w);
    if LosslessRun(Added(s, q), inner) && NothingLost(u) {
      LosslessRunIsPlain(Added(s, q), a', inner);
      LosslessStep(u, w, RollbackLatest);
      var b := PlainStep(v, RollbackLatest);
      forall k ensures Read(t.data, t.assets, k) == Read(s.data, s.assets, k) {
        ReadsNow(s, a, k);
        ReadsNow(t, b, k);
      }
    }
  }

  lemma AddedFrame(s: State, a: Plain, q: int)
    requires Valid(s) && Matches(s, a) && (s.savepoints == [] || s.Top().seqno < q)
    ensures |a.stack| == |s.savepoints|
    ensures PlainStep(a, AddSavepoint(q)).stack == a.stack + [Frame(q, false, a.tokens, a.assets)]
  {
    hide Valid, ViewsMatch;
    TopSeqno(s, a);
  }

  lemma TopFrameTokens(s: State, a: Plain)
    requires Valid(s) && Matches(s, a) && a.stack != []
    ensures RolledBack(s).tokens == a.stack[|a.stack| - 1].tokens
  {
    hide GroupsOk, Inv, ViewsMatch, FramesMatch, Undone, UndoAll, Base, Bases;
    FrameCount(s, a);
    RollbackTokens(s);
    FramesPop(s.savepoints, s.tokens, a.stack);
  }

  lemma ReadsNow(s: State, a: Plain, k: Key)
    requires Matches(s, a) && Valid(s)
    ensures Read(s.data, s.assets, k) == ReadColumn(a.assets, k)
  {
    hide ReadAt, Inv, GroupsOk;
    NowIsLast(s.data, s.assets, s.ops, k);
    assert ViewOf(a, |s.ops|) == a.assets;
  }

  // ---- Runs without pops lose nothing ----

  /** No value was ever released: the first live record on every key found it uncached. */
  ghost predicate Unpopped(s: State) {
    forall k :: First(Flat(s.ops), k).Some? ==> First(Flat(s.ops), k).value == ""
  }

  lemma UnpoppedNothingLost(s: State)
    requires Unpopped(s)
    ensures NothingLost(s)
  {
    hide Flat, First, Count;
    if s.ops != [] {
      var init, top := s.ops[..|s.ops| - 1], s.ops[|s.ops| - 1];
      assert s.ops == init + [top];
      FlatAppend(init, [top]);
      FlatOne(top);
      forall k ensures !LosesKey(s, k) {
        FirstAppend(Flat(init), top.vec, k);
        FirstCount(Flat(init), k);
      }
    }
  }

  lemma UnpoppedStep(s: State, cmd: Cmd)
    requires Valid(s) && Unpopped(s) && !cmd.PopSavepoints? && Enabled(s, cmd)
    ensures Unpopped(Step(s, cmd))
  {
    hide Flat, First, GroupsOk, Count, UndoAll, Undone, Written, PvOk;
    var n, t := |s.ops|, Step(s, cmd);
    match cmd
    case AddSavepoint(q) =>
      FlatAppend(s.ops, [Layer(q, [])]);
      FlatOne(Layer(q, []));
      assert Flat(s.ops) + [] == Flat(s.ops);
    case PutTokens(_, _) =>
    case PutAsset(k, v) =>
      if n > 0 {
        UnpoppedPut(s, k, v);
      }
    case Squash =>
      if CanSquash(s) {
        FlatSquash(s.ops[..n - 2], s.ops[n - 2], s.ops[n - 1]);
        assert s.ops == s.ops[..n - 2] + [s.ops[n - 2]] + [s.ops[n - 1]];
      }
    case RollbackLatest =>
      if n > 0 {
        var init, top := s.ops[..n - 1], s.ops[n - 1];
        assert s.ops == init + [top];
        FlatAppend(init, [top]);
        forall k ensures First(Flat(init), k).Some? ==> First(Flat(init), k).value == "" {
          FirstAppend(Flat(init), Flat([top]), k);
        }
      }
  }

  lemma UnpoppedPut(s: State, k: Key, v: Value)
    requires Valid(s) && Unpopped(s) && s.ops != []
    ensures Unpopped(WithAsset(s, k, v))
  {
    hide Flat, First, GroupsOk, Count, PvOk;
    var n := |s.ops|;
    var init, top, op := s.ops[..n - 1], s.ops[n - 1], PutOp(s.data, k);
    var top' := top.(vec := top.vec + [op]);
    assert s.ops == init + [top];
    FlatAppend(init, [top]);
    FlatAppend(init, [top']);
    FlatOne(top);
    FlatOne(top');
    assert Flat(init) + top'.vec == Flat(s.ops) + [op];
    forall x ensures First(Flat(s.ops) + [op], x).Some? ==> First(Flat(s.ops) + [op], x).value == "" {
      FirstAppend(Flat(s.ops), [op], x);
      Single(op, x);
      FirstCount(Flat(s.ops), x);
      assert EntryOk(s.data, x, Count(Flat(s.ops), x));
    }
  }

  ghost predicate NoPops(cmds: seq<Cmd>) {
    forall i :: 0 <= i < |cmds| ==> !cmds[i].PopSavepoints?
  }

  lemma {:induction false} UnpoppedRun(s: State, a: Plain, cmds: seq<Cmd>)
    requires Valid(s) && Matches(s, a) && Unpopped(s) && EnabledRun(s, cmds) && NoPops(cmds)
    ensures LosslessRun(s, cmds)
    decreases cmds
  {
    if cmds != [] {
      hide Valid, Matches, Unpopped, Step, ExactStep, Enabled, NothingLost;
      assert !cmds[0].PopSavepoints?;
      StepMatches(s, a, cmds[0]);
      UnpoppedStep(s, cmds[0]);
      UnpoppedNothingLost(s);
      UnpoppedRun(Step(s, cmds[0]), ExactStep(s, a, cmds[0]), cmds[1..]);
    }
  }

  /** A run without pops from a state in which nothing was popped is the plain stack of maps, assets included. */
  lemma PopFreeRunMatches(s: State, a: Plain, cmds: seq<Cmd>)
    requires Valid(s) && Matches(s, a) && Unpopped(s) && EnabledRun(s, cmds) && NoPops(cmds)
    ensures Matches(Run(s, cmds), PlainRun(a, cmds))
  {
    hide Valid, Matches, Unpopped, EnabledRun, LosslessRun, Run, PlainRun, ExactRun;
    RunMatches(s, a, cmds);
    UnpoppedRun(s, a, cmds);
    LosslessRunIsPlain(s, a, cmds);
  }

  // ---- No loaded group, no torn squash ----

  ghost predicate AllInMemory(sps: seq<Savepoint>) {
    forall i :: 0 <= i < |sps| ==> sps[i].group.Runtime?
  }

  lemma {:induction false} PoppedInMemory(s: State, until: int)
    requires AllInMemory(s.savepoints)
    ensures AllInMemory(PoppedUntil(s, until).savepoints)
    decreases |s.savepoints|
  {
    hide Release;
    if s.savepoints != [] && s.ops != [] && s.savepoints[0].seqno < until {
      PoppedInMemory(PoppedOne(s), until);
    }
  }

  /** Without a load every group stays in memory, and no squash is torn. */
  lemma InMemoryStep(s: State, cmd: Cmd)
    requires AllInMemory(s.savepoints)
    ensures !Torn(s) && AllInMemory(Step(s, cmd).savepoints)
  {
    hide Written, Recorded, UndoAll, Undone, PoppedUntil;
    if cmd.PopSavepoints? {
      PoppedInMemory(s, cmd.until);
    }
  }

  lemma {:induction false} InMemoryRun(s: State, cmds: seq<Cmd>)
    requires AllInMemory(s.savepoints)
    ensures AllInMemory(Run(s, cmds).savepoints) && !Torn(Run(s, cmds))
    decreases cmds
  {
    if cmds != [] {
      hide AllInMemory, Torn, Step;
      InMemoryStep(s, cmds[0]);
      InMemoryRun(Step(s, cmds[0]), cmds[1..]);
    }
  }

  /** A loaded group with a savepoint above it: the state in which a squash tears the stacks. */
  lemma TornExists() returns (s: State)
    ensures Valid(s) && Torn(s)
  {
    s := State(map[], map[], [Savepoint(1, OnDisk([])), Savepoint(2, Runtime(map[], []))], map[], [Layer(1, []), Layer(2, [])]);
    TwoEmptyLayers();
    var sps := s.savepoints;
    assert sps[..1] == [sps[0]] && sps[..1][..0] == [];
    GroupStart(map[]);
    assert GroupsOk([], map[]);
    assert GroupsOk(sps[..1], map[]);
    NoRecordsInv();
  }

  lemma TwoEmptyLayers()
    ensures Flat([Layer(1, []), Layer(2, [])]) == []
  {
    FlatAppend([Layer(1, [])], [Layer(2, [])]);
    assert [Layer(1, [])] + [Layer(2, [])] == [Layer(1, []), Layer(2, [])];
    FlatOne(Layer(1, []));
    FlatOne(Layer(2, []));
  }

  lemma NoRecordsInv()
    ensures Inv(map[], [])
  {
    forall g: seq<DataOp>, h: seq<DataOp>, k | [] == g + h ensures Count(g, k) == 0 {
      assert g == [];
    }
  }

  // ---- The lost value ----

  const ONE := Savepoint(1, Runtime(map[], []))
  const OTHER := Savepoint(2, Runtime(map[], []))

  /** The states of a run: two savepoints write an asset, and the older one is popped. */
  const S0 := State(map[], map[], [], map[], [])
  const S1 := State(map[], map[], [ONE], map[], [Layer(1, [])])
  const S2 := State(map[], map[], [ONE], map[5 := CacheEntry(1, "a")], [Layer(1, [DataOp(5, "")])])
  const S3 := State(map[], map[], [ONE, OTHER], map[5 := CacheEntry(1, "a")], [Layer(1, [DataOp(5, "")]), Layer(2, [])])
  const S4 := State(map[], map[], [ONE, OTHER], map[5 := CacheEntry(2, "b")],
                    [Layer(1, [DataOp(5, "")]), Layer(2, [DataOp(5, "a")])])
  const S5 := State(map[], map[], [OTHER], map[5 := CacheEntry(1, "b")], [Layer(2, [DataOp(5, "a")])])

  lemma LostAdds()
    ensures Step(S0, AddSavepoint(1)) == S1 && Step(S2, AddSavepoint(2)) == S3
  {
  }

  lemma LostFirstPut()
    ensures Step(S1, PutAsset(5, "a")) == S2
  {
    assert S1.ops[..0] + [S2.ops[0]] == S2.ops;
    FirstPut(S1, 5, "a");
  }

  lemma LostSecondPut()
    ensures Step(S3, PutAsset(5, "b")) == S4
  {
    assert S3.ops[..1] + [S4.ops[1]] == S4.ops;
    FirstPut(S3, 5, "b");
  }

  lemma LostPop()
    ensures Step(S4, PopSavepoints(2)) == S5
  {
    PopTheFirst(S4, S5);
  }

  /** Two savepoints write an asset, the older is popped, the newer rolled back: the older write is gone. */
  lemma ReleasedValueLost()
    ensures var s := State(map[], map[], [], map[], []);
      var t := Run(s, [AddSavepoint(1), PutAsset(5, "a"), AddSavepoint(2), PutAsset(5, "b"), PopSavepoints(2)]);
      && ReadAt(t.data, t.assets, t.ops, 0, 5) == Some("a")
      && Read(RolledBack(t).data, RolledBack(t).assets, 5) == None
  {
    hide Step, Run, RolledBack, ReadAt;
    LostAdds();
    LostFirstPut();
    LostSecondPut();
    LostPop();
    var cs := [AddSavepoint(1), PutAsset(5, "a"), AddSavepoint(2), PutAsset(5, "b"), PopSavepoints(2)];
    RunOf(S0, S1, S2, S3, S4, S5, cs);
    LostRead(S5);
  }

  lemma LostRead(s: State)
    requires s.data == map[5 := CacheEntry(1, "b")] && |s.ops| == 1 && s.ops[0].vec == [DataOp(5, "a")]
    requires s.savepoints != [] && s.assets == map[]
    ensures ReadAt(s.data, s.assets, s.ops, 0, 5) == Some("a")
    ensures Read(RolledBack(s).data, RolledBack(s).assets, 5) == None
  {
    hide Flat, Undone, First;
    var vec := s.ops[0].vec;
    FlatOne(s.ops[0]);
    assert s.ops[0..] == [s.ops[0]];
    Single(DataOp(5, "a"), 5);
    assert vec[..0] == [];
    assert UndoAll(s.data, vec) == UndoOp(s.data, vec[0]);
  }

  lemma FirstPut(s: State, k: Key, v: Value)
    requires s.savepoints != [] && s.ops != [] && s.ops[|s.ops| - 1].vec == []
    ensures WithAsset(s, k, v) == s.(data := PutData(s.data, k, v),
      ops := s.ops[..|s.ops| - 1] + [s.ops[|s.ops| - 1].(vec := [PutOp(s.data, k)])])
  {
    assert [] + [PutOp(s.data, k)] == [PutOp(s.data, k)];
  }

  lemma RunOf(s0: State, s1: State, s2: State, s3: State, s4: State, s5: State, cs: seq<Cmd>)
    requires |cs| == 5 && Step(s0, cs[0]) == s1 && Step(s1, cs[1]) == s2 && Step(s2, cs[2]) == s3
    requires Step(s3, cs[3]) == s4 && Step(s4, cs[4]) == s5
    ensures Run(s0, cs) == s5
  {
    hide Step;
    assert Run(s4, cs[4..]) == s5;
    assert Run(s2, cs[2..]) == Run(s3, cs[3..]) == s5;
    assert Run(s1, cs[1..]) == s5;
  }

  lemma PopTheFirst(s: State, t: State)
    requires |s.savepoints| == 2 && |s.ops| == 2 && s.savepoints[0].seqno < 2 <= s.savepoints[1].seqno
    requires s.ops[0].vec == [DataOp(5, "")] && s.data == map[5 := CacheEntry(2, "b")]
    requires t == State(s.tokens, s.assets, s.savepoints[1..], map[5 := CacheEntry(1, "b")], s.ops[1..])
    ensures PoppedUntil(s, 2) == t
  {
    var vec := s.ops[0].vec;
    assert vec[..0] == [];
    assert Release(Popped(s.data, map[]), vec) == Popped(t.data, map[]);
    assert s.assets + map[] == s.assets;
    assert PoppedOne(s) == t;
  }

  // ---- Saving and loading the savepoints ----

  function SavedGroup(g: Group): Group {
    match g
    case Runtime(snapshot, entries) => OnDisk(Saved(snapshot, entries))
    case OnDisk(_) => g
  }

  function SavedStack(sps: seq<Savepoint>): (r: seq<Savepoint>)
    ensures |r| == |sps|
  {
    if sps == [] then []
    else
      var top := sps[|sps| - 1];
      SavedStack(sps[..|sps| - 1]) + [top.(group := SavedGroup(top.group))]
  }

  /** The database after its savepoints were saved and loaded again. */
  function Reloaded(s: State): State {
    s.(savepoints := SavedStack(s.savepoints), ops := ReloadOps(s.data, s.ops))
  }

  ghost predicate AllSavedRestore(sps: seq<Savepoint>) {
    forall i :: 0 <= i < |sps| && sps[i].group.Runtime? ==>
      SavedRestores(sps[i].group.snapshot, sps[i].group.entries)
  }

  /** The saved stack has the same token columns exactly when every group in memory restores its snapshot from disk. */
  lemma {:induction false} SavedBasesIff(sps: seq<Savepoint>, c: Column)
    requires GroupsOk(sps, c)
    ensures Bases(SavedStack(sps), c) == Bases(sps, c) <==> AllSavedRestore(sps)
  {
    hide SavedRollback, SavedRestores, Saved, Framed, UpdatesPresent;
    if sps != [] {
      var init, top := sps[..|sps| - 1], sps[|sps| - 1];
      var g := top.group;
      LastTwo(SavedStack(init), top.(group := SavedGroup(g)));
      if g.Runtime? {
        SavedRollbackRestoresIff(g.snapshot, g.entries, c);
      }
      var b, b' := Base(g, c), Base(SavedGroup(g), c);
      BasesEnd(Bases(init, b), b, Bases(SavedStack(init), b'), b');
      assert b == b' <==> (g.Runtime? ==> SavedRestores(g.snapshot, g.entries));
      SavedBasesIff(init, b);
      RestoreParts(init, top, sps);
    }
  }

  lemma BasesEnd(p: seq<Column>, b: Column, q: seq<Column>, b': Column)
    ensures q + [b'] == p + [b] <==> q == p && b' == b
  {
    if q + [b'] == p + [b] {
      assert (q + [b'])[|q|] == b' && (p + [b])[|p|] == b;
      assert q == (q + [b'])[..|q|] && p == (p + [b])[..|p|];
    }
  }

  lemma RestoreParts(init: seq<Savepoint>, top: Savepoint, sps: seq<Savepoint>)
    requires sps != [] && init == sps[..|sps| - 1] && top == sps[|sps| - 1]
    ensures AllSavedRestore(sps) <==>
      AllSavedRestore(init) && (top.group.Runtime? ==> SavedRestores(top.group.snapshot, top.group.entries))
  {
    hide SavedRestores;
    if AllSavedRestore(init) && (top.group.Runtime? ==> SavedRestores(top.group.snapshot, top.group.entries)) {
      forall i | 0 <= i < |sps| && sps[i].group.Runtime?
        ensures SavedRestores(sps[i].group.snapshot, sps[i].group.entries)
      {
        assert i < |init| ==> init[i] == sps[i];
      }
    }
    if AllSavedRestore(sps) {
      forall i | 0 <= i < |init| && init[i].group.Runtime?
        ensures SavedRestores(init[i].group.snapshot, init[i].group.entries)
      {
        assert init[i] == sps[i];
      }
      assert sps[|sps| - 1] == top;
    }
  }

  lemma {:induction false} SavedSeqnos(sps: seq<Savepoint>, i: nat)
    requires i < |sps|
    ensures SavedStack(sps)[i] == sps[i].(group := SavedGroup(sps[i].group))
  {
    if i < |sps| - 1 {
      SavedSeqnos(sps[..|sps| - 1], i);
    }
  }

  lemma {:induction false} SavedGroupsOk(sps: seq<Savepoint>, c: Column)
    ensures GroupsOk(SavedStack(sps), c)
  {
    if sps != [] {
      hide SavedRollback, GroupOk, Saved;
      var top := sps[|sps| - 1];
      LastTwo(SavedStack(sps[..|sps| - 1]), top.(group := SavedGroup(top.group)));
      SavedGroupsOk(sps[..|sps| - 1], Base(SavedGroup(top.group), c));
    }
  }

  lemma {:induction false} ReloadSeqnos(data: Data, ops: seq<Layer>, i: nat)
    requires i < |ops|
    ensures ReloadOps(data, ops)[i].seqno == ops[i].seqno
  {
    if i < |ops| - 1 {
      ReloadSeqnos(data, ops[..|ops| - 1], i);
    }
  }

  /**
   A reload keeps the invariant and every present read; it keeps the token columns of the savepoints exactly when every
   group in memory is one whose saved form restores its snapshot.
   */
  lemma ReloadedKeeps(s: State)
    requires Valid(s)
    ensures Valid(Reloaded(s)) && Reloaded(s).tokens == s.tokens
    ensures forall k :: Read(Reloaded(s).data, Reloaded(s).assets, k) == Read(s.data, s.assets, k)
    ensures Bases(Reloaded(s).savepoints, s.tokens) == Bases(s.savepoints, s.tokens) <==> AllSavedRestore(s.savepoints)
  {
    hide Inv, GroupsOk, Bases, SavedStack, ReloadOps, Flat, AllSavedRestore;
    var t := Reloaded(s);
    forall i | 0 <= i < |s.savepoints|
      ensures t.savepoints[i].seqno == s.savepoints[i].seqno && t.ops[i].seqno == s.ops[i].seqno
    {
      SavedSeqnos(s.savepoints, i);
      ReloadSeqnos(s.data, s.ops, i);
    }
    SavedGroupsOk(s.savepoints, s.tokens);
    ReloadKeepsInv(s.data, s.ops);
    SavedBasesIff(s.savepoints, s.tokens);
  }

  // ---- The plain stack of a state ----

  /** The asset column as reads saw it at the i-th savepoint. */
  ghost function ViewAt(s: State, i: nat): Column
    requires i <= |s.ops|
  {
    map k | k in s.assets.Keys + s.data.Keys && ReadAt(s.data, s.assets, s.ops, i, k).Some? ::
      ReadAt(s.data, s.assets, s.ops, i, k).value
  }

  lemma ViewAtReads(s: State, i: nat, k: Key)
    requires i <= |s.ops| && Inv(s.data, Flat(s.ops))
    ensures ReadColumn(ViewAt(s, i), k) == ReadAt(s.data, s.assets, s.ops, i, k)
  {
    hide Flat, Count, First;
    FlatSplit(s.ops, i);
    CountAppend(Flat(s.ops[..i]), Flat(s.ops[i..]), k);
    FirstCount(Flat(s.ops[i..]), k);
    assert EntryOk(s.data, k, Count(Flat(s.ops), k));
  }

  ghost function FrameAt(s: State, i: nat): Frame
    requires i < |s.savepoints| == |s.ops|
  {
    Frame(s.savepoints[i].seqno, s.savepoints[i].group.OnDisk?, Bases(s.savepoints, s.tokens)[i], ViewAt(s, i))
  }

  /** The plain stack that a state stands for. */
  ghost function PlainOf(s: State): Plain
    requires |s.savepoints| == |s.ops|
  {
    Plain(s.tokens, ViewAt(s, |s.ops|), seq(|s.ops|, i requires 0 <= i < |s.ops| => FrameAt(s, i)))
  }

  lemma PlainOfMatches(s: State)
    requires Valid(s)
    ensures Matches(s, PlainOf(s))
  {
    hide Inv, GroupsOk, ViewAt, Bases, ReadAt, Flat;
    var a := PlainOf(s);
    forall i, k | 0 <= i <= |s.ops| ensures ReadColumn(ViewOf(a, i), k) == ReadAt(s.data, s.assets, s.ops, i, k) {
      ViewAtReads(s, i, k);
    }
  }

  /** And there is only one: reads determine columns. */
  lemma PlainIsUnique(s: State, a: Plain)
    requires Valid(s) && Matches(s, a)
    ensures a == PlainOf(s)
  {
    hide Inv, GroupsOk, ViewAt, Bases, ReadAt, Flat;
    var b := PlainOf(s);
    PlainOfMatches(s);
    forall i | 0 <= i <= |s.ops| ensures ViewOf(a, i) == ViewOf(b, i) {
      forall k ensures ReadColumn(ViewOf(a, i), k) == ReadColumn(ViewOf(b, i), k) {
        assert ReadColumn(ViewOf(a, i), k) == ReadAt(s.data, s.assets, s.ops, i, k);
        assert ReadColumn(ViewOf(b, i), k) == ReadAt(s.data, s.assets, s.ops, i, k);
      }
      SameReads(ViewOf(a, i), ViewOf(b, i));
    }
    assert ViewOf(a, |s.ops|) == a.assets && ViewOf(b, |s.ops|) == b.assets;
    forall i | 0 <= i < |s.ops| ensures a.stack[i] == b.stack[i] {
      assert ViewOf(a, i) == a.stack[i].assets && ViewOf(b, i) == b.stack[i].assets;
    }
  }

  lemma SameReads(a: Column, b: Column)
    requires forall k :: ReadColumn(a, k) == ReadColumn(b, k)
    ensures a == b
  {
    forall k ensures Agree(a, b, k) {
      assert ReadColumn(a, k) == ReadColumn(b, k);
    }
    ColumnsEqual(a, b);
  }
}
