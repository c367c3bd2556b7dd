/**
 The DPoS header state machine (libraries/chain/block_header_state.cpp): what one accepted block header
 does to the confirmation window, the per-producer maps, the schedules and the irreversible block number.
 Digests and recovered signing keys are fields of the header they belong to.
 */
module BlockHeaderState {
  import opened Wrappers

  type Name = nat
  type Key = nat
  type BlockId = nat

  const PRODUCER_REPETITIONS: nat := 12
  const MAXIMUM_TRACKED_CONFIRMATIONS: nat := 1024
  const UINT32: nat := 0x1_0000_0000

  datatype Result<+T> = Ok(value: T) | Err(error: Error)

  datatype Error =
    | MissingTimestamp | HasExtensions | NotLater | Unlinkable | WrongProducer | WrongScheduleVersion
    | DoubleConfirm | NewScheduleOnPromotion | WrongNewScheduleVersion | PendingScheduleExists | WrongSigningKey
    | ProducerNotInSchedule

  datatype Producer = Producer(name: Name, key: Key)

  datatype Schedule = Schedule(version: nat, producers: seq<Producer>) {
    function Names(): set<Name> {
      set i | 0 <= i < |producers| :: producers[i].name
    }
  }

  datatype Header = Header(
    id: BlockId, timestamp: nat, previous: BlockId, producer: Name, confirmed: nat, scheduleVersion: nat,
    newProducers: Option<Schedule>, hasExtensions: bool, signee: Key)

  datatype State = State(
    id: BlockId, blockNum: nat, timestamp: nat, producer: Name, confirmed: nat,
    proposed: nat, irreversible: nat, bftIrreversible: nat,
    pendingLibNum: nat, pending: Schedule, active: Schedule,
    lastProduced: map<Name, nat>, lastImplied: map<Name, nat>,
    signingKey: Key, confirmCount: seq<nat>)
  {
    /** The block number that entry i of the confirmation window belongs to. */
    function BlockOf(i: int): int {
      blockNum - (|confirmCount| - 1 - i)
    }
  }

  /** More than two thirds of n producers. */
  function Required(n: nat): nat {
    n * 2 / 3 + 1
  }

  function ScheduledProducer(s: Schedule, slot: nat): (p: Producer)
    requires s.producers != []
    ensures p in s.producers
  {
    var n := |s.producers| * PRODUCER_REPETITIONS;
    assert 0 <= slot % n < n;
    s.producers[(slot % n) / PRODUCER_REPETITIONS]
  }

  // ---- The irreversible block number ----

  /** The producers whose entry reaches v. */
  function Reaching(m: map<Name, nat>, v: nat): set<Name> {
    set p | p in m && m[p] >= v
  }

  predicate Ascending(s: seq<nat>) {
    forall i, j :: 0 <= i < j < |s| ==> s[i] <= s[j]
  }

  function CountReaching(s: seq<nat>, v: nat): (c: nat)
    ensures c <= |s|
  {
    if s == [] then 0 else (if s[0] >= v then 1 else 0) + CountReaching(s[1..], v)
  }

  function Insert(x: nat, s: seq<nat>): (t: seq<nat>)
    ensures |t| == |s| + 1
  {
    if s == [] || x <= s[0] then [x] + s else [s[0]] + Insert(x, s[1..])
  }

  function Sort(s: seq<nat>): (t: seq<nat>)
    ensures |t| == |s|
  {
    if s == [] then [] else Insert(s[0], Sort(s[1..]))
  }

  /** The map's values, in the order of some enumeration of its keys. */
  ghost function Values(m: map<Name, nat>): (s: seq<nat>)
    ensures |s| == |m|
  {
    if m == map[] then [] else
      var p :| p in m;
      assert (m - {p}).Keys == m.Keys - {p};
      [m[p]] + Values(m - {p})
  }

  /** One third into the sorted values, so that more than two thirds are at least as great. */
  ghost function LastIrreversible(m: map<Name, nat>): nat {
    if m == map[] then 0 else Sort(Values(m))[(|m| - 1) / 3]
  }

  lemma {:induction false} InsertCounts(x: nat, s: seq<nat>, v: nat)
    ensures CountReaching(Insert(x, s), v) == CountReaching([x] + s, v)
  {
    if s == [] || x <= s[0] {
    } else {
      InsertCounts(x, s[1..], v);
      var t := Insert(x, s);
      assert t[0] == s[0] && t[1..] == Insert(x, s[1..]);
      assert ([x] + s)[1..] == s && ([x] + s[1..])[1..] == s[1..];
    }
  }

  lemma {:induction false} InsertAscends(x: nat, s: seq<nat>)
    requires Ascending(s)
    ensures Ascending(Insert(x, s)) && forall y :: y in Insert(x, s) <==> y == x || y in s
  {
    if s == [] || x <= s[0] {
    } else {
      InsertAscends(x, s[1..]);
      assert s == [s[0]] + s[1..];
      var u := Insert(x, s[1..]);
      assert Insert(x, s) == [s[0]] + u;
      forall j | 0 <= j < |u| ensures s[0] <= u[j] {
        assert u[j] in u;
      }
    }
  }

  lemma {:induction false} SortSorts(s: seq<nat>, v: nat)
    ensures Ascending(Sort(s)) && CountReaching(Sort(s), v) == CountReaching(s, v)
    ensures forall y :: y in Sort(s) <==> y in s
  {
    if s != [] {
      SortSorts(s[1..], v);
      InsertAscends(s[0], Sort(s[1..]));
      InsertCounts(s[0], Sort(s[1..]), v);
      var t := [s[0]] + Sort(s[1..]);
      assert t[1..] == Sort(s[1..]);
      assert s == [s[0]] + s[1..];
    }
  }

  lemma {:induction false} CountAll(s: seq<nat>, v: nat)
    requires forall i :: 0 <= i < |s| ==> s[i] >= v
    ensures CountReaching(s, v) == |s|
  {
    if s != [] {
      CountAll(s[1..], v);
    }
  }

  /** In a sorted sequence, element j reaches v exactly when at least |s| - j elements do. */
  lemma {:induction false} SortedCount(s: seq<nat>, j: nat, v: nat)
    requires Ascending(s) && j < |s|
    ensures s[j] >= v <==> CountReaching(s, v) >= |s| - j
  {
    if s[0] >= v {
      CountAll(s, v);
    } else if j > 0 {
      SortedCount(s[1..], j - 1, v);
    }
  }

  lemma ReachingWithOneMore(m: map<Name, nat>, p: Name, v: nat)
    requires p in m
    ensures |Reaching(m, v)| == |Reaching(m - {p}, v)| + if m[p] >= v then 1 else 0
  {
    var rest := Reaching(m - {p}, v);
    assert Reaching(m, v) == if m[p] >= v then rest + {p} else rest;
  }

  lemma {:induction false} ValuesCount(m: map<Name, nat>, v: nat)
    ensures CountReaching(Values(m), v) == |Reaching(m, v)|
  {
    if m == map[] {
      assert Reaching(m, v) == {};
    } else {
      var p :| p in m && Values(m) == [m[p]] + Values(m - {p});
      ValuesCount(m - {p}, v);
      ReachingWithOneMore(m, p, v);
      assert Values(m)[1..] == Values(m - {p});
    }
  }

  lemma {:induction false} ValuesAreEntries(m: map<Name, nat>, y: nat)
    requires y in Values(m)
    ensures exists p :: p in m && m[p] == y
  {
    if m != map[] {
      var p :| p in m && Values(m) == [m[p]] + Values(m - {p});
      if y != m[p] {
        ValuesAreEntries(m - {p}, y);
        var q :| q in m - {p} && (m - {p})[q] == y;
        assert q in m && m[q] == y;
      }
    }
  }

  /** The number never exceeds what floor(2n/3)+1 entries reach, and is never below it. */
  lemma QuorumReaches(m: map<Name, nat>, v: nat)
    requires m != map[]
    ensures LastIrreversible(m) >= v <==> |Reaching(m, v)| >= Required(|m|)
  {
    var s, n := Sort(Values(m)), |m|;
    ValuesCount(m, v);
    SortSorts(Values(m), v);
    SortedCount(s, (n - 1) / 3, v);
    assert n - (n - 1) / 3 == Required(n);
  }

  /** v is the greatest entry of m that at least floor(2n/3)+1 of its n entries reach. */
  ghost predicate IsQuorumValue(m: map<Name, nat>, v: nat) {
    && (exists p :: p in m && m[p] == v)
    && |Reaching(m, v)| >= Required(|m|)
    && forall p :: p in m && |Reaching(m, m[p])| >= Required(|m|) ==> m[p] <= v
  }

  lemma LastIrreversibleIsQuorumValue(m: map<Name, nat>, v: nat)
    requires m != map[]
    ensures IsQuorumValue(m, v) <==> v == LastIrreversible(m)
  {
    var u := LastIrreversible(m);
    ValuesCount(m, u);
    SortSorts(Values(m), u);
    assert u in Sort(Values(m));
    ValuesAreEntries(m, u);
    QuorumReaches(m, u);
    QuorumReaches(m, v);
    forall p | p in m && |Reaching(m, m[p])| >= Required(|m|) ensures m[p] <= u {
      QuorumReaches(m, m[p]);
    }
  }

  /** Collects the entries, sorts them and picks the one a third into the list. */
  method CalcDposLastIrreversible(m: map<Name, nat>) returns (v: nat)
    ensures v == LastIrreversible(m)
  {
    var blocknums: seq<nat> := [];
    var left := m;
    while left != map[]
      invariant left.Keys <= m.Keys && forall p :: p in left ==> left[p] == m[p]
      invariant forall w :: CountReaching(blocknums, w) + |Reaching(left, w)| == |Reaching(m, w)|
      invariant |blocknums| + |left| == |m|
      decreases |left|
    {
      var p :| p in left;
      ghost var rest := blocknums;
      forall w ensures CountReaching([left[p]] + rest, w) + |Reaching(left - {p}, w)| == |Reaching(m, w)| {
        ReachingWithOneMore(left, p, w);
        assert ([left[p]] + rest)[1..] == rest;
      }
      assert (left - {p}).Keys == left.Keys - {p};
      blocknums := [left[p]] + blocknums;
      left := left - {p};
    }
    if |blocknums| == 0 {
      return 0;
    }
    v := Sort(blocknums)[(|blocknums| - 1) / 3];
    forall w ensures CountReaching(blocknums, w) == |Reaching(m, w)| {
      assert Reaching(left, w) == {};
    }
    SortedMeaning(m, blocknums, v);
  }

  lemma SortedMeaning(m: map<Name, nat>, blocknums: seq<nat>, v: nat)
    requires m != map[] && |blocknums| == |m| && v == Sort(blocknums)[(|m| - 1) / 3]
    requires forall w :: CountReaching(blocknums, w) == |Reaching(m, w)|
    ensures v == LastIrreversible(m)
  {
    var n, u := |m|, LastIrreversible(m);
    assert n - (n - 1) / 3 == Required(n);
    SortSorts(blocknums, v);
    SortedCount(Sort(blocknums), (n - 1) / 3, v);
    QuorumReaches(m, v);
    SortSorts(blocknums, u);
    SortedCount(Sort(blocknums), (n - 1) / 3, u);
    QuorumReaches(m, u);
  }

  // ---- One step ----

  /** `--` on an 8-bit counter. */
  function Decrement(x: nat): nat {
    (x + 255) % 256
  }

  /** `a - b` on 32-bit numbers. */
  function Sub32(a: nat, b: nat): nat {
    (a - b) % UINT32
  }

  /** The window after confirming `left` entries downwards from entry i, and the entry that reached zero, or -1. */
  function ConfirmFrom(cc: seq<nat>, i: int, left: nat): (r: (seq<nat>, int))
    requires -1 <= i < |cc|
    ensures |r.0| == |cc| && -1 <= r.1 <= i
    decreases left
  {
    if i < 0 || left == 0 then (cc, -1)
    else
      var cc' := cc[i := Decrement(cc[i])];
      if cc'[i] == 0 then (cc', i) else ConfirmFrom(cc', i - 1, left - 1)
  }

  function SetConfirmed(s: State, numPrevBlocks: nat): State {
    var n := |s.confirmCount|;
    var (cc, hit) := ConfirmFrom(s.confirmCount, n - 1, numPrevBlocks + 1);
    if hit < 0 then s.(confirmed := numPrevBlocks, confirmCount := cc)
    else s.(confirmed := numPrevBlocks, confirmCount := cc[hit + 1..], proposed := Sub32(s.blockNum, n - 1 - hit))
  }

  function PushRequired(cc: seq<nat>, required: nat): seq<nat> {
    if |cc| < MAXIMUM_TRACKED_CONFIRMATIONS then cc + [required] else cc[1..] + [required]
  }

  /** The template of the block that follows `s` at time `when`; slot 0 asks for the next slot. */
  ghost function GenerateNext(s: State, when: nat): Result<State>
    requires s.active.producers != []
  {
    if when != 0 && when <= s.timestamp then Err(NotLater)
    else
      var slot := if when != 0 then when else s.timestamp + 1;
      var p := ScheduledProducer(s.active, slot);
      var implied := s.lastImplied[p.name := s.proposed];
      Ok(s.(id := 0, blockNum := s.blockNum + 1, timestamp := slot, producer := p.name, confirmed := 0,
            irreversible := LastIrreversible(implied), lastProduced := s.lastProduced[p.name := s.blockNum + 1],
            lastImplied := implied, signingKey := p.key,
            confirmCount := PushRequired(s.confirmCount, Required(|s.active.producers|) % 256)))
  }

  predicate CanPromote(s: State) {
    s.pending.producers != [] && s.irreversible >= s.pendingLibNum
  }

  /** The entries of a producer map after a promotion: kept, or started at the irreversible number. */
  function CarryOver(m: map<Name, nat>, names: set<Name>, start: nat): map<Name, nat> {
    map p | p in names :: if p in m then m[p] else start
  }

  function Promote(s: State): State
    requires CanPromote(s)
  {
    var names := s.pending.Names();
    s.(active := s.pending, pending := s.pending.(producers := []),
       lastProduced := CarryOver(s.lastProduced, names, s.irreversible)[s.producer := s.blockNum],
       lastImplied := CarryOver(s.lastImplied, names, s.irreversible))
  }

  function MaybePromote(s: State): State {
    if CanPromote(s) then Promote(s) else s
  }

  function SetNewProducers(s: State, sched: Schedule): Result<State> {
    if sched.version != s.active.version + 1 then Err(WrongNewScheduleVersion)
    else if s.pending.producers != [] then Err(PendingScheduleExists)
    else Ok(s.(pending := sched, pendingLibNum := s.blockNum))
  }

  /** The producer's last block lies below the range it confirms, or it has none on record. */
  predicate NoDoubleConfirm(lastProduced: map<Name, nat>, h: Header, blockNum: nat) {
    h.producer in lastProduced ==> lastProduced[h.producer] < Sub32(blockNum, h.confirmed)
  }

  /** The end of a step: a waiting schedule comes into force, a new one waits, and the signer must be the producer. */
  function Completed(c: State, h: Header, skipSignee: bool): Result<State> {
    var p := MaybePromote(c);
    if h.newProducers.Some? && CanPromote(c) then Err(NewScheduleOnPromotion)
    else
      var r := if h.newProducers.Some? then SetNewProducers(p, h.newProducers.value) else Ok(p);
      if r.Err? then r
      else if !skipSignee && p.signingKey != h.signee then Err(WrongSigningKey)
      else Ok(r.value.(id := h.id))
  }

  /** The state after header `h`. The double-confirm check reads the map of the state before it. */
  ghost function Next(s: State, h: Header, skipSignee: bool): Result<State>
    requires s.active.producers != []
  {
    if h.timestamp == 0 then Err(MissingTimestamp)
    else if h.hasExtensions then Err(HasExtensions)
    else if h.timestamp <= s.timestamp then Err(NotLater)
    else if h.previous != s.id then Err(Unlinkable)
    else
      var t := GenerateNext(s, h.timestamp).value;
      if t.producer != h.producer then Err(WrongProducer)
      else if s.active.version != h.scheduleVersion then Err(WrongScheduleVersion)
      else if !NoDoubleConfirm(s.lastProduced, h, t.blockNum) then Err(DoubleConfirm)
      else Completed(SetConfirmed(t, h.confirmed), h, skipSignee)
  }

  // ---- What a header must meet, and what it leaves ----

  /** The header comes later and builds on this block. */
  predicate Links(s: State, h: Header) {
    h.timestamp != 0 && !h.hasExtensions && h.timestamp > s.timestamp && h.previous == s.id
  }

  /** Whose slot a time is: every producer has twelve slots in a row. */
  function InTurn(s: State, slot: nat): (p: Producer)
    requires s.active.producers != []
    ensures p in s.active.producers
  {
    var n := |s.active.producers|;
    assert 0 <= slot % (12 * n) < 12 * n;
    s.active.producers[slot % (12 * n) / 12]
  }

  /** It is made by the producer whose turn it is, under the schedule in force. */
  predicate Matches(s: State, h: Header)
    requires s.active.producers != []
  {
    Links(s, h) && InTurn(s, h.timestamp).name == h.producer && h.scheduleVersion == s.active.version
  }

  /** And confirms blocks above the producer's last one, as far as a 32-bit subtraction shows it. */
  predicate ConfirmsAbove(s: State, h: Header)
    requires s.active.producers != []
  {
    Matches(s, h) && (h.producer in s.lastProduced ==> s.lastProduced[h.producer] < (s.blockNum + 1 - h.confirmed) % 0x1_0000_0000)
  }

  /** The waiting schedule comes into force with this header. */
  ghost predicate Promotes(s: State, h: Header) {
    s.pending.producers != [] && LastIrreversible(s.lastImplied[h.producer := s.proposed]) >= s.pendingLibNum
  }

  /** A new schedule is the next one, and none is waiting or coming into force. */
  predicate Schedules(s: State, h: Header)
    requires s.active.producers != []
  {
    ConfirmsAbove(s, h) && (h.newProducers.Some? ==>
      s.pending.producers == [] && h.newProducers.value.version == s.active.version + 1)
  }

  lemma InTurnIsScheduled(s: State, slot: nat)
    requires s.active.producers != []
    ensures InTurn(s, slot) == ScheduledProducer(s.active, slot)
  {
  }

  /** The one reason a header is refused for: the first of the conditions, in this order, that it does not meet. */
  ghost predicate RefusedFor(s: State, h: Header, skipSignee: bool, e: Error)
    requires s.active.producers != []
  {
    var scheduling := ConfirmsAbove(s, h) && h.newProducers.Some?;
    match e
    case MissingTimestamp => h.timestamp == 0
    case HasExtensions => h.timestamp != 0 && h.hasExtensions
    case NotLater => h.timestamp != 0 && !h.hasExtensions && h.timestamp <= s.timestamp
    case Unlinkable => !h.hasExtensions && h.timestamp > s.timestamp && h.previous != s.id
    case WrongProducer => Links(s, h) && InTurn(s, h.timestamp).name != h.producer
    case WrongScheduleVersion =>
      Links(s, h) && InTurn(s, h.timestamp).name == h.producer && h.scheduleVersion != s.active.version
    case DoubleConfirm => Matches(s, h) && !ConfirmsAbove(s, h)
    case NewScheduleOnPromotion => scheduling && Promotes(s, h)
    case WrongNewScheduleVersion =>
      scheduling && !Promotes(s, h) && h.newProducers.value.version != s.active.version + 1
    case PendingScheduleExists =>
      scheduling && !Promotes(s, h) && h.newProducers.value.version == s.active.version + 1 && s.pending.producers != []
    case WrongSigningKey => Schedules(s, h) && !skipSignee && InTurn(s, h.timestamp).key != h.signee
    case ProducerNotInSchedule => false
  }

  /** Exactly which headers are accepted, and the reason each other one is refused for. */
  lemma NextAccepts(s: State, h: Header, skipSignee: bool)
    requires s.active.producers != []
    ensures var r := Next(s, h, skipSignee);
      && (r.Ok? <==> Schedules(s, h) && (skipSignee || InTurn(s, h.timestamp) == Producer(h.producer, h.signee)))
      && forall e :: r == Err(e) <==> RefusedFor(s, h, skipSignee, e)
  {
    hide SetConfirmed, LastIrreversible, ScheduledProducer, PushRequired, CarryOver, Required, InTurn;
    if h.timestamp > s.timestamp {
      InTurnIsScheduled(s, h.timestamp);
      ConfirmedFields(GenerateNext(s, h.timestamp).value, h.confirmed);
    }
  }

  /** Confirming changes nothing but the window, the proposed number and the count. */
  lemma ConfirmedFields(s: State, c: nat)
    ensures var u := SetConfirmed(s, c); u == s.(confirmed := c, confirmCount := u.confirmCount, proposed := u.proposed)
  {
    hide ConfirmFrom;
  }

  /** What an accepted header leaves, beside the window and the proposed number. */
  lemma NextLeaves(s: State, h: Header, skipSignee: bool)
    requires s.active.producers != [] && Next(s, h, skipSignee).Ok?
    ensures var t := Next(s, h, skipSignee).value;
      var produced, implied := s.lastProduced[h.producer := s.blockNum + 1], s.lastImplied[h.producer := s.proposed];
      && t.id == h.id && t.blockNum == s.blockNum + 1 && t.timestamp == h.timestamp
      && t.producer == h.producer && t.confirmed == h.confirmed
      && t.irreversible == LastIrreversible(implied) && t.bftIrreversible == s.bftIrreversible
      && t.signingKey == InTurn(s, h.timestamp).key
      && (Promotes(s, h) ==>
        && t.active == s.pending && t.pending == Schedule(s.pending.version, []) && t.pendingLibNum == s.pendingLibNum
        && t.lastImplied.Keys == s.pending.Names() && t.lastProduced.Keys == s.pending.Names() + {h.producer}
        && (forall p :: p in s.pending.Names() ==> t.lastImplied[p] == if p in implied then implied[p] else t.irreversible)
        && (forall p :: p in s.pending.Names() ==> t.lastProduced[p] == if p in produced then produced[p] else t.irreversible)
        && t.lastProduced[h.producer] == s.blockNum + 1)
      && (!Promotes(s, h) ==>
        && t.active == s.active && t.lastProduced == produced && t.lastImplied == implied
        && t.pending == (if h.newProducers.Some? then h.newProducers.value else s.pending)
        && t.pendingLibNum == if h.newProducers.Some? then s.blockNum + 1 else s.pendingLibNum)
  {
    hide SetConfirmed, LastIrreversible, ScheduledProducer, PushRequired, Required, InTurn;
    InTurnIsScheduled(s, h.timestamp);
    ConfirmedFields(GenerateNext(s, h.timestamp).value, h.confirmed);
  }
}
