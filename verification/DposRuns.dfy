/**
 What every run of the header state machine keeps: a block number becomes proposed-irreversible only
 when more than two thirds of the producers, each counted once, have confirmed that block.
 */
module DposRuns {
  import opened Wrappers
  import opened BlockHeaderState

  // ---- The confirmation window ----

  ghost predicate ValidWindow(cc: seq<nat>) {
    forall j :: 0 <= j < |cc| ==> 1 <= cc[j] <= 255
  }

  /** What the loop of `set_confirmed` leaves: entries above the hit lost one, the hit was at one. */
  lemma {:induction false} ConfirmFromMeaning(cc: seq<nat>, i: int, left: nat)
    requires -1 <= i < |cc| && ValidWindow(cc)
    ensures var (r, hit) := ConfirmFrom(cc, i, left);
      && (forall j :: hit < j <= i && i - left < j ==> r[j] == cc[j] - 1 && r[j] >= 1)
      && (forall j :: i < j < |cc| ==> r[j] == cc[j])
      && (hit >= 0 ==> i - left < hit && cc[hit] == 1)
      && (hit < 0 ==> forall j :: 0 <= j <= i - left ==> r[j] == cc[j])
    decreases left
  {
    if i >= 0 && left > 0 {
      var cc' := cc[i := Decrement(cc[i])];
      assert cc'[i] == cc[i] - 1;
      if cc'[i] != 0 {
        ConfirmFromMeaning(cc', i - 1, left - 1);
      }
    }
  }

  /**
   Every entry of the window is what its block still lacks: the confirmations it needs minus the ones it has.
   Only blocks above the proposed number are tracked.
   */
  ghost predicate WindowCounts(s: State, need: int -> int, have: int -> int) {
    && ValidWindow(s.confirmCount)
    && forall j :: 0 <= j < |s.confirmCount| ==>
      && s.BlockOf(j) > s.proposed
      && s.confirmCount[j] + have(s.BlockOf(j)) == need(s.BlockOf(j))
  }

  lemma ConfirmKeepsTracking(t: State, c: nat, need: int -> int, have: int -> int, have': int -> int, j: int)
    requires WindowCounts(t, need, have) && 0 <= j < |t.confirmCount|
    requires have'(t.BlockOf(j)) == have(t.BlockOf(j)) + if t.blockNum - c <= t.BlockOf(j) then 1 else 0
    ensures var (r, hit) := ConfirmFrom(t.confirmCount, |t.confirmCount| - 1, c + 1);
      && (hit < j ==> 1 <= r[j] <= 255 && r[j] + have'(t.BlockOf(j)) == need(t.BlockOf(j)))
      && (hit == j ==> have'(t.BlockOf(j)) == need(t.BlockOf(j)))
  {
    ConfirmFromMeaning(t.confirmCount, |t.confirmCount| - 1, c + 1);
  }

  lemma ConfirmStep(t: State, c: nat, need: int -> int, have: int -> int, have': int -> int)
    requires WindowCounts(t, need, have) && |t.confirmCount| <= t.blockNum < UINT32
    requires forall j :: 0 <= j < |t.confirmCount| ==>
      have'(t.BlockOf(j)) == have(t.BlockOf(j)) + if t.blockNum - c <= t.BlockOf(j) then 1 else 0
    ensures var u := SetConfirmed(t, c);
      && WindowCounts(u, need, have')
      && |u.confirmCount| <= |t.confirmCount|
      && (u.proposed != t.proposed ==> t.proposed < u.proposed <= t.blockNum && have'(u.proposed) == need(u.proposed))
  {
    hide ConfirmFrom, SetConfirmed;
    var u := SetConfirmed(t, c);
    ConfirmProposed(t, c, need, have, have');
    forall k | 0 <= k < |u.confirmCount|
      ensures 1 <= u.confirmCount[k] <= 255 && u.BlockOf(k) > u.proposed
      ensures u.confirmCount[k] + have'(u.BlockOf(k)) == need(u.BlockOf(k))
    {
      ConfirmEntry(t, c, need, have, have', k);
    }
  }

  /** Each entry that is left. */
  lemma ConfirmEntry(t: State, c: nat, need: int -> int, have: int -> int, have': int -> int, k: nat)
    requires WindowCounts(t, need, have) && |t.confirmCount| <= t.blockNum < UINT32 && k < |SetConfirmed(t, c).confirmCount|
    requires forall j :: 0 <= j < |t.confirmCount| ==>
      have'(t.BlockOf(j)) == have(t.BlockOf(j)) + if t.blockNum - c <= t.BlockOf(j) then 1 else 0
    ensures var u := SetConfirmed(t, c);
      && 1 <= u.confirmCount[k] <= 255 && u.BlockOf(k) > u.proposed
      && u.confirmCount[k] + have'(u.BlockOf(k)) == need(u.BlockOf(k))
  {
    hide ConfirmFrom;
    var (r, hit) := ConfirmFrom(t.confirmCount, |t.confirmCount| - 1, c + 1);
    var j := hit + 1 + k;
    assert SetConfirmed(t, c).BlockOf(k) == t.BlockOf(j);
    ConfirmKeepsTracking(t, c, need, have, have', j);
  }

  /** The entry that reached zero. */
  lemma ConfirmProposed(t: State, c: nat, need: int -> int, have: int -> int, have': int -> int)
    requires WindowCounts(t, need, have) && |t.confirmCount| <= t.blockNum < UINT32
    requires forall j :: 0 <= j < |t.confirmCount| ==>
      have'(t.BlockOf(j)) == have(t.BlockOf(j)) + if t.blockNum - c <= t.BlockOf(j) then 1 else 0
    ensures var u := SetConfirmed(t, c);
      && |u.confirmCount| <= |t.confirmCount|
      && (u.proposed != t.proposed ==> t.proposed < u.proposed <= t.blockNum && have'(u.proposed) == need(u.proposed))
  {
    hide ConfirmFrom;
    var (r, hit) := ConfirmFrom(t.confirmCount, |t.confirmCount| - 1, c + 1);
    if hit >= 0 {
      ConfirmKeepsTracking(t, c, need, have, have', hit);
    }
  }

  // ---- Runs ----

  /** One accepted header. Skipping the signature check accepts more headers and changes no state. */
  ghost predicate Step(s: State, h: Header, t: State) {
    s.active.producers != [] && Next(s, h, true) == Ok(t)
  }

  ghost predicate IsRun(ss: seq<State>, hs: seq<Header>) {
    && |ss| == |hs| + 1
    && forall i :: 0 <= i < |hs| ==> Step(ss[i], hs[i], ss[i + 1])
  }

  /** A state with nothing produced, proposed or tracked yet, as the genesis block leaves it. */
  ghost predicate Genesis(s: State) {
    && s.active.producers != []
    && s.confirmCount == [] && s.lastProduced == map[] && s.lastImplied == map[]
    && s.proposed == s.irreversible == 0
  }

  /** Block numbers stay on 32 bits, and the quorum fits the 8-bit counters. */
  ghost predicate InRange(s: State) {
    s.blockNum + 1 < UINT32 && Required(|s.active.producers|) <= 255
  }

  ghost predicate RunInRange(ss: seq<State>, hs: seq<Header>)
    requires |ss| == |hs| + 1
  {
    forall i :: 0 <= i < |hs| ==> InRange(ss[i])
  }

  /** Header i, which made state i + 1, confirms block b. */
  ghost predicate Confirms(ss: seq<State>, hs: seq<Header>, i: nat, b: int)
    requires i < |hs| && |ss| == |hs| + 1
  {
    ss[i + 1].blockNum - hs[i].confirmed <= b <= ss[i + 1].blockNum
  }

  /** The producers that have confirmed block b. */
  ghost function Confirmers(ss: seq<State>, hs: seq<Header>, b: int): set<Name>
    requires |ss| == |hs| + 1
  {
    set i | 0 <= i < |hs| && Confirms(ss, hs, i, b) :: hs[i].producer
  }

  /** The headers that confirm block b. */
  ghost function ConfirmingHeaders(ss: seq<State>, hs: seq<Header>, b: int): set<nat>
    requires |ss| == |hs| + 1
  {
    set i: nat | 0 <= i < |hs| && Confirms(ss, hs, i, b)
  }

  /** The confirmations that block b needs: the quorum of the schedule it was produced under. */
  ghost function Needed(ss: seq<State>, b: int): int
    requires ss != []
  {
    var i := b - ss[0].blockNum - 1;
    if 0 <= i < |ss| then Required(|ss[i].active.producers|) else 0
  }

  // ---- What a step does to each part of the state ----

  /** The state between `generate_next` and `set_confirmed`. */
  ghost function Template(s: State, h: Header): State
    requires s.active.producers != [] && h.timestamp != 0 && h.timestamp > s.timestamp
  {
    GenerateNext(s, h.timestamp).value
  }

  lemma StepParts(s: State, h: Header, t: State)
    requires Step(s, h, t)
    ensures h.timestamp != 0 && h.timestamp > s.timestamp
    ensures var u := SetConfirmed(Template(s, h), h.confirmed);
      && t.blockNum == s.blockNum + 1 && t.confirmCount == u.confirmCount && t.proposed == u.proposed
      && t.irreversible == u.irreversible == LastIrreversible(s.lastImplied[h.producer := s.proposed])
      && t.bftIrreversible == s.bftIrreversible
      && h.producer in s.active.Names()
      && NoDoubleConfirm(s.lastProduced, h, t.blockNum)
  {
    hide SetConfirmed, LastIrreversible, ScheduledProducer, PushRequired, CarryOver, Required;
    SetConfirmedFields(GenerateNext(s, h.timestamp).value, h.confirmed);
    var p := ScheduledProducer(s.active, h.timestamp);
    var i :| 0 <= i < |s.active.producers| && s.active.producers[i] == p;
    assert s.active.producers[i].name in s.active.Names();
  }

  lemma SetConfirmedFields(s: State, c: nat)
    ensures var u := SetConfirmed(s, c);
      u == s.(confirmed := u.confirmed, confirmCount := u.confirmCount, proposed := u.proposed)
  {
    hide ConfirmFrom;
  }

  /** The maps and schedules after a step, with and without a promotion. */
  lemma StepSchedules(s: State, h: Header, t: State)
    requires Step(s, h, t)
    ensures var produced, implied := s.lastProduced[h.producer := t.blockNum], s.lastImplied[h.producer := s.proposed];
      var promoted := s.pending.producers != [] && t.irreversible >= s.pendingLibNum;
      && (promoted ==>
        && t.active == s.pending && t.pending.producers == []
        && t.lastProduced == CarryOver(produced, t.active.Names(), t.irreversible)[h.producer := t.blockNum]
        && t.lastImplied == CarryOver(implied, t.active.Names(), t.irreversible))
      && (!promoted ==>
        && t.active == s.active && t.lastProduced == produced && t.lastImplied == implied
        && ((t.pending == s.pending && t.pendingLibNum == s.pendingLibNum) ||
            (s.pending.producers == [] && t.pendingLibNum == t.blockNum)))
  {
    hide SetConfirmed, LastIrreversible, ScheduledProducer, PushRequired, CarryOver, Required;
    SetConfirmedFields(GenerateNext(s, h.timestamp).value, h.confirmed);
  }

  lemma StepNumber(s: State, h: Header, t: State)
    requires Step(s, h, t)
    ensures t.blockNum == s.blockNum + 1
  {
    hide Step, Template, SetConfirmed, LastIrreversible;
    StepParts(s, h, t);
  }

  lemma {:induction false} RunNumbers(ss: seq<State>, hs: seq<Header>, i: nat)
    requires IsRun(ss, hs) && i < |ss|
    ensures ss[i].blockNum == ss[0].blockNum + i
  {
    hide Step;
    if i > 0 {
      RunNumbers(ss, hs, i - 1);
      StepNumber(ss[i - 1], hs[i - 1], ss[i]);
    }
  }

  // ---- No producer confirms a block twice ----

  /**
   Block b of producer p is covered by the producer's record in s. A producer without a record is not
   scheduled, and when a schedule is waiting, the number the producer would start with covers the block.
   */
  ghost predicate Covered(s: State, p: Name, b: nat) {
    && b <= s.blockNum
    && (p in s.lastProduced ==> b <= s.lastProduced[p])
    && (p !in s.lastProduced ==> p !in s.active.Names() && (s.pending.producers != [] ==> b <= s.pendingLibNum))
  }

  ghost predicate RecordsCover(ss: seq<State>, hs: seq<Header>)
    requires |ss| == |hs| + 1
  {
    forall i :: 0 <= i < |hs| ==> Covered(ss[|hs|], hs[i].producer, ss[i + 1].blockNum)
  }

  lemma CoveredStep(s: State, h: Header, t: State, p: Name, b: nat)
    requires Step(s, h, t) && (Covered(s, p, b) || (p == h.producer && b == t.blockNum))
    ensures Covered(t, p, b)
  {
    hide Step, Template, SetConfirmed, LastIrreversible;
    StepParts(s, h, t);
    StepSchedules(s, h, t);
  }

  lemma RecordsCoverStep(ss: seq<State>, hs: seq<Header>, h: Header, t: State)
    requires |ss| == |hs| + 1 && RecordsCover(ss, hs) && Step(ss[|hs|], h, t)
    ensures RecordsCover(ss + [t], hs + [h])
  {
    hide Step, Covered;
    var ss', hs' := ss + [t], hs + [h];
    forall i | 0 <= i < |hs'| ensures Covered(ss'[|hs'|], hs'[i].producer, ss'[i + 1].blockNum) {
      CoveredStep(ss[|hs|], h, t, hs'[i].producer, ss'[i + 1].blockNum);
    }
  }

  /** In every run from genesis the records cover the blocks of their producers, whatever the headers confirm. */
  lemma {:induction false} RunRecordsCover(ss: seq<State>, hs: seq<Header>)
    requires IsRun(ss, hs) && Genesis(ss[0])
    ensures RecordsCover(ss, hs)
    decreases |hs|
  {
    hide Step, RecordsCover, Genesis;
    if |hs| == 0 {
      NoRecords(ss, hs);
    } else {
      var n := |hs| - 1;
      var ss0, hs0 := ss[..n + 1], hs[..n];
      assert ss == ss0 + [ss[n + 1]] && hs == hs0 + [hs[n]];
      RunRecordsCover(ss0, hs0);
      RecordsCoverStep(ss0, hs0, hs[n], ss[n + 1]);
    }
  }

  lemma NoRecords(ss: seq<State>, hs: seq<Header>)
    requires |ss| == 1 && hs == []
    ensures RecordsCover(ss, hs)
  {
  }

  /** The double-confirm check: a producer has confirmed none of the blocks that its next header confirms. */
  lemma FreshConfirmer(ss: seq<State>, hs: seq<Header>, h: Header, t: State, b: int)
    requires IsRun(ss, hs) && RecordsCover(ss, hs) && Step(ss[|hs|], h, t) && t.blockNum < UINT32
    requires h.confirmed <= t.blockNum && t.blockNum - h.confirmed <= b
    ensures h.producer !in Confirmers(ss, hs, b)
  {
    hide Step, Template, SetConfirmed, LastIrreversible;
    StepParts(ss[|hs|], h, t);
    forall i | 0 <= i < |hs| && Confirms(ss, hs, i, b) ensures hs[i].producer != h.producer {
    }
  }

  ghost predicate HasEarlierHeader(hs: seq<Header>, p: Name) {
    exists i :: 0 <= i < |hs| && hs[i].producer == p
  }

  /**
   Exactly when an accepted header confirms a block that its producer, having made a block before, has confirmed
   already: when it claims more blocks than there are, so that the 32-bit subtraction of the check wraps.
   */
  lemma DoubleConfirmIff(ss: seq<State>, hs: seq<Header>, h: Header, t: State)
    requires IsRun(ss, hs) && RecordsCover(ss, hs) && Step(ss[|hs|], h, t) && t.blockNum < UINT32
    requires HasEarlierHeader(hs, h.producer)
    ensures (exists b :: t.blockNum - h.confirmed <= b && h.producer in Confirmers(ss, hs, b)) <==> h.confirmed > t.blockNum
  {
    hide Step, RecordsCover;
    if h.confirmed > t.blockNum {
      var i :| 0 <= i < |hs| && hs[i].producer == h.producer;
      var b := ss[i + 1].blockNum;
      assert Confirms(ss, hs, i, b);
      assert h.producer in Confirmers(ss, hs, b);
    } else {
      forall b | t.blockNum - h.confirmed <= b ensures h.producer !in Confirmers(ss, hs, b) {
        FreshConfirmer(ss, hs, h, t, b);
      }
    }
  }

  /** And such a claim always passes the check, on the 16 bits of `confirmed` and block numbers 2^16 below 2^32. */
  lemma WrapPassesCheck(lastProduced: map<Name, nat>, h: Header, blockNum: nat)
    requires blockNum < h.confirmed < 0x1_0000 && blockNum + 0x1_0000 < UINT32
    requires h.producer in lastProduced ==> lastProduced[h.producer] < blockNum
    ensures NoDoubleConfirm(lastProduced, h, blockNum)
  {
    WrappedDifference(blockNum, h.confirmed);
  }

  lemma WrappedDifference(a: nat, b: nat)
    requires a < b < UINT32
    ensures Sub32(a, b) == a + UINT32 - b
  {
  }

  /** No producer confirms the same block in two headers. */
  ghost predicate NobodyCountsTwice(ss: seq<State>, hs: seq<Header>)
    requires |ss| == |hs| + 1
  {
    forall i, j, b :: 0 <= i < j < |hs| && Confirms(ss, hs, i, b) && Confirms(ss, hs, j, b) ==>
      hs[i].producer != hs[j].producer
  }

  /** Only the first header of a producer claims more blocks than there are. */
  ghost predicate ClaimsInRange(ss: seq<State>, hs: seq<Header>)
    requires |ss| == |hs| + 1
  {
    forall j :: 0 <= j < |hs| && HasEarlierHeader(hs[..j], hs[j].producer) ==> hs[j].confirmed <= ss[j + 1].blockNum
  }

  /** Exactly the runs in which nobody counts twice. */
  lemma NobodyCountsTwiceIff(ss: seq<State>, hs: seq<Header>)
    requires IsRun(ss, hs) && Genesis(ss[0]) && RunInRange(ss, hs)
    ensures NobodyCountsTwice(ss, hs) <==> ClaimsInRange(ss, hs)
  {
    hide Step, RecordsCover, Genesis, InRange;
    if NobodyCountsTwice(ss, hs) {
      forall j | 0 <= j < |hs| && HasEarlierHeader(hs[..j], hs[j].producer) ensures hs[j].confirmed <= ss[j + 1].blockNum {
        var i :| 0 <= i < |hs[..j]| && hs[..j][i].producer == hs[j].producer;
        RunNumbers(ss, hs, i + 1);
        RunNumbers(ss, hs, j + 1);
        assert Confirms(ss, hs, i, ss[i + 1].blockNum);
      }
    }
    if ClaimsInRange(ss, hs) {
      forall i, j, b | 0 <= i < j < |hs| && Confirms(ss, hs, i, b) && Confirms(ss, hs, j, b)
        ensures hs[i].producer != hs[j].producer
      {
        if hs[i].producer == hs[j].producer {
          EarlierConfirmer(ss, hs, i, j, b);
        }
      }
    }
  }

  lemma EarlierConfirmer(ss: seq<State>, hs: seq<Header>, i: nat, j: nat, b: int)
    requires IsRun(ss, hs) && Genesis(ss[0]) && RunInRange(ss, hs) && i < j < |hs| && hs[i].producer == hs[j].producer
    requires Confirms(ss, hs, i, b) && ss[j + 1].blockNum - hs[j].confirmed <= b
    ensures HasEarlierHeader(hs[..j], hs[j].producer) && hs[j].confirmed > ss[j + 1].blockNum
  {
    hide Step, RecordsCover, Genesis;
    var ss0, hs0 := ss[..j + 1], hs[..j];
    assert IsRun(ss0, hs0);
    RunRecordsCover(ss0, hs0);
    assert hs0[i].producer == hs[j].producer;
    assert Confirms(ss0, hs0, i, b);
    assert hs[j].producer in Confirmers(ss0, hs0, b);
    NextNumber(ss, hs, j);
    if hs[j].confirmed <= ss[j + 1].blockNum {
      FreshConfirmer(ss0, hs0, hs[j], ss[j + 1], b);
    }
  }

  lemma NextNumber(ss: seq<State>, hs: seq<Header>, j: nat)
    requires IsRun(ss, hs) && RunInRange(ss, hs) && j < |hs|
    ensures ss[j + 1].blockNum < UINT32
  {
    hide Step;
    RunNumbers(ss, hs, j);
    RunNumbers(ss, hs, j + 1);
    assert InRange(ss[j]);
  }

  /** When nobody counts twice, the confirming headers are as many confirmers. */
  lemma ConfirmersCounted(ss: seq<State>, hs: seq<Header>, b: int)
    requires |ss| == |hs| + 1 && NobodyCountsTwice(ss, hs)
    ensures |Confirmers(ss, hs, b)| == |ConfirmingHeaders(ss, hs, b)|
  {
    var c := ConfirmingHeaders(ss, hs, b);
    assert Confirmers(ss, hs, b) == ProducersOf(hs, c);
    SameCount(hs, c);
  }

  ghost function ProducersOf(hs: seq<Header>, c: set<nat>): set<Name>
    requires forall i :: i in c ==> i < |hs|
  {
    set i | i in c :: hs[i].producer
  }

  lemma Pick(c: set<nat>) returns (i: nat)
    requires c != {}
    ensures i in c
  {
    i :| i in c;
  }

  lemma {:induction false} SameCount(hs: seq<Header>, c: set<nat>)
    requires forall i :: i in c ==> i < |hs|
    requires forall i, j :: i in c && j in c && i < j ==> hs[i].producer != hs[j].producer
    ensures |ProducersOf(hs, c)| == |c|
    decreases c
  {
    if c == {} {
      assert ProducersOf(hs, c) == {};
    } else {
      var i := Pick(c);
      var rest := c - {i};
      SameCount(hs, rest);
      assert ProducersOf(hs, c) == ProducersOf(hs, rest) + {hs[i].producer};
      forall p | p in ProducersOf(hs, rest) ensures p != hs[i].producer {
        var j: nat :| j in rest && hs[j].producer == p;
      }
    }
  }

  lemma ConfirmingExtend(ss: seq<State>, hs: seq<Header>, h: Header, t: State, b: int)
    requires |ss| == |hs| + 1
    ensures ConfirmingHeaders(ss + [t], hs + [h], b) ==
            ConfirmingHeaders(ss, hs, b) + if t.blockNum - h.confirmed <= b <= t.blockNum then {|hs|} else {}
  {
    var ss', hs' := ss + [t], hs + [h];
    forall i | 0 <= i < |hs| ensures Confirms(ss', hs', i, b) == Confirms(ss, hs, i, b) {
    }
    assert Confirms(ss', hs', |hs|, b) == (t.blockNum - h.confirmed <= b <= t.blockNum);
  }

  // ---- The quorum ----

  ghost function Have(ss: seq<State>, hs: seq<Header>): int -> int
    requires |ss| == |hs| + 1
  {
    b => |ConfirmingHeaders(ss, hs, b)|
  }

  ghost function Need(ss: seq<State>): int -> int
    requires ss != []
  {
    b => Needed(ss, b)
  }

  ghost predicate WindowInvariant(ss: seq<State>, hs: seq<Header>)
    requires |ss| == |hs| + 1
  {
    var s := ss[|hs|];
    && WindowCounts(s, Need(ss), Have(ss, hs))
    && |s.confirmCount| <= s.blockNum - ss[0].blockNum
    && |s.confirmCount| <= MAXIMUM_TRACKED_CONFIRMATIONS
    && s.proposed <= s.blockNum
  }

  lemma NobodyConfirmedYet(ss: seq<State>, hs: seq<Header>, b: int)
    requires IsRun(ss, hs) && b > ss[|hs|].blockNum
    ensures ConfirmingHeaders(ss, hs, b) == {}
  {
    hide Step;
    forall i | 0 <= i < |hs| ensures !Confirms(ss, hs, i, b) {
      RunNumbers(ss, hs, i + 1);
      RunNumbers(ss, hs, |hs|);
    }
  }

  lemma TemplateWindow(ss: seq<State>, hs: seq<Header>, h: Header)
    requires IsRun(ss, hs) && WindowInvariant(ss, hs) && InRange(ss[|hs|])
    requires var s := ss[|hs|]; s.active.producers != [] && h.timestamp != 0 && h.timestamp > s.timestamp
    ensures var t := Template(ss[|hs|], h);
      && WindowCounts(t, Need(ss), Have(ss, hs))
      && |t.confirmCount| <= t.blockNum - ss[0].blockNum && |t.confirmCount| <= MAXIMUM_TRACKED_CONFIRMATIONS
  {
    hide Step, LastIrreversible, ScheduledProducer, ConfirmingHeaders;
    var s := ss[|hs|];
    var t := Template(s, h);
    RunNumbers(ss, hs, |hs|);
    NobodyConfirmedYet(ss, hs, t.blockNum);
    var n := |t.confirmCount|;
    forall j | 0 <= j < n
      ensures 1 <= t.confirmCount[j] <= 255 && t.BlockOf(j) > t.proposed
      ensures t.confirmCount[j] + Have(ss, hs)(t.BlockOf(j)) == Need(ss)(t.BlockOf(j))
    {
      if j < n - 1 {
        var k := if |s.confirmCount| < MAXIMUM_TRACKED_CONFIRMATIONS then j else j + 1;
        assert t.confirmCount[j] == s.confirmCount[k] && t.BlockOf(j) == s.BlockOf(k);
      } else {
        assert t.BlockOf(j) == t.blockNum;
      }
    }
  }

  /** Every header is one more confirmation of the blocks it confirms, and of no others. */
  lemma HaveAfterStep(ss: seq<State>, hs: seq<Header>, h: Header, t: State, b: int)
    requires |ss| == |hs| + 1 && b <= t.blockNum
    ensures Have(ss + [t], hs + [h])(b) == Have(ss, hs)(b) + if t.blockNum - h.confirmed <= b then 1 else 0
  {
    ConfirmingExtend(ss, hs, h, t, b);
  }

  /** A step keeps the count of every tracked block, whatever the header confirms. */
  lemma WindowInvariantStep(ss: seq<State>, hs: seq<Header>, h: Header, t: State)
    requires IsRun(ss, hs) && WindowInvariant(ss, hs) && Step(ss[|hs|], h, t) && InRange(ss[|hs|])
    ensures WindowInvariant(ss + [t], hs + [h])
    ensures ss[|hs|].proposed <= t.proposed
    ensures t.proposed != ss[|hs|].proposed ==> Have(ss + [t], hs + [h])(t.proposed) == Need(ss)(t.proposed)
  {
    hide Step, SetConfirmed, Template, Have, LastIrreversible;
    var s := ss[|hs|];
    StepParts(s, h, t);
    TemplateWindow(ss, hs, h);
    TemplateFields(s, h);
    var m := Template(s, h);
    var have, have' := Have(ss, hs), Have(ss + [t], hs + [h]);
    forall j | 0 <= j < |m.confirmCount|
      ensures have'(m.BlockOf(j)) == have(m.BlockOf(j)) + if m.blockNum - h.confirmed <= m.BlockOf(j) then 1 else 0
    {
      HaveAfterStep(ss, hs, h, t, m.BlockOf(j));
    }
    ConfirmStep(m, h.confirmed, Need(ss), have, have');
    var u := SetConfirmed(m, h.confirmed);
    SetConfirmedFields(m, h.confirmed);
    forall j | 0 <= j < |t.confirmCount|
      ensures t.BlockOf(j) == u.BlockOf(j) && Need(ss + [t])(t.BlockOf(j)) == Need(ss)(t.BlockOf(j))
    {
      RunNumbers(ss, hs, |hs|);
    }
  }

  lemma TemplateFields(s: State, h: Header)
    requires s.active.producers != [] && h.timestamp != 0 && h.timestamp > s.timestamp
    ensures Template(s, h).blockNum == s.blockNum + 1 && Template(s, h).proposed == s.proposed
  {
  }

  lemma GenesisInvariants(ss: seq<State>, hs: seq<Header>)
    requires |ss| == 1 && hs == [] && Genesis(ss[0])
    ensures WindowInvariant(ss, hs)
  {
  }

  lemma {:induction false} RunKeepsInvariants(ss: seq<State>, hs: seq<Header>)
    requires IsRun(ss, hs) && RunInRange(ss, hs) && Genesis(ss[0])
    ensures WindowInvariant(ss, hs)
    decreases |hs|
  {
    hide Step, InRange, WindowInvariant, Genesis;
    if |hs| == 0 {
      GenesisInvariants(ss, hs);
    } else {
      var n := |hs| - 1;
      var ss0, hs0 := ss[..n + 1], hs[..n];
      assert ss == ss0 + [ss[n + 1]] && hs == hs0 + [hs[n]];
      assert IsRun(ss0, hs0) && RunInRange(ss0, hs0) && ss0[0] == ss[0];
      RunKeepsInvariants(ss0, hs0);
      WindowInvariantStep(ss0, hs0, hs[n], ss[n + 1]);
    }
  }

  lemma RunPrefix(ss: seq<State>, hs: seq<Header>, i: nat)
    requires IsRun(ss, hs) && RunInRange(ss, hs) && i <= |hs|
    ensures IsRun(ss[..i + 1], hs[..i]) && RunInRange(ss[..i + 1], hs[..i])
  {
    hide Step, InRange;
  }

  /**
   Whenever a header makes block b proposed-irreversible, floor(2n/3)+1 headers have confirmed b, where n is the
   size of the schedule that b was produced under. This holds of every run.
   */
  lemma ProposedHasConfirmations(ss: seq<State>, hs: seq<Header>, i: nat)
    requires IsRun(ss, hs) && RunInRange(ss, hs) && Genesis(ss[0])
    requires i < |hs| && ss[i + 1].proposed != ss[i].proposed
    ensures var b, first := ss[i + 1].proposed, ss[0].blockNum;
      && ss[i].proposed < b && first < b <= ss[i + 1].blockNum
      && b - first - 1 < |ss|
      && |ConfirmingHeaders(ss[..i + 2], hs[..i + 1], b)| == Required(|ss[b - first - 1].active.producers|)
  {
    hide Step, InRange, Genesis, ConfirmingHeaders, Required, WindowCounts;
    RunPrefix(ss, hs, i);
    RunPrefix(ss, hs, i + 1);
    var ss0, hs0 := ss[..i + 1], hs[..i];
    assert ss[..i + 2] == ss0 + [ss[i + 1]] && hs[..i + 1] == hs0 + [hs[i]];
    RunKeepsInvariants(ss0, hs0);
    WindowInvariantStep(ss0, hs0, hs[i], ss[i + 1]);
    ProposedIsTracked(ss0, hs0, hs[i], ss[i + 1]);
    RunNumbers(ss, hs, i + 1);
  }

  /**
   And when nobody counts twice, which is so exactly when only first headers claim more blocks than there are, these
   are as many distinct producers.
   */
  lemma ProposedHasQuorum(ss: seq<State>, hs: seq<Header>, i: nat)
    requires IsRun(ss, hs) && RunInRange(ss, hs) && Genesis(ss[0]) && ClaimsInRange(ss, hs)
    requires i < |hs| && ss[i + 1].proposed != ss[i].proposed
    ensures var b, first := ss[i + 1].proposed, ss[0].blockNum;
      && first < b <= ss[i + 1].blockNum && b - first - 1 < |ss|
      && |Confirmers(ss[..i + 2], hs[..i + 1], b)| == Required(|ss[b - first - 1].active.producers|)
  {
    hide Step, InRange, Genesis, ConfirmingHeaders, Confirmers, Required;
    ProposedHasConfirmations(ss, hs, i);
    NobodyCountsTwiceIff(ss, hs);
    PrefixCountsOnce(ss, hs, i + 1);
    ConfirmersCounted(ss[..i + 2], hs[..i + 1], ss[i + 1].proposed);
  }

  lemma PrefixCountsOnce(ss: seq<State>, hs: seq<Header>, n: nat)
    requires |ss| == |hs| + 1 && n <= |hs| && NobodyCountsTwice(ss, hs)
    ensures NobodyCountsTwice(ss[..n + 1], hs[..n])
  {
    var ss0, hs0 := ss[..n + 1], hs[..n];
    forall i, j, b | 0 <= i < j < |hs0| && Confirms(ss0, hs0, i, b) && Confirms(ss0, hs0, j, b)
      ensures hs0[i].producer != hs0[j].producer
    {
      assert Confirms(ss, hs, i, b) && Confirms(ss, hs, j, b);
    }
  }

  /** The newly proposed block is one of the tracked ones, so it came after the first state. */
  lemma ProposedIsTracked(ss: seq<State>, hs: seq<Header>, h: Header, t: State)
    requires IsRun(ss, hs) && WindowInvariant(ss, hs) && Step(ss[|hs|], h, t) && InRange(ss[|hs|])
    requires t.proposed != ss[|hs|].proposed
    ensures ss[0].blockNum < t.proposed <= t.blockNum
  {
    hide Step, Template, LastIrreversible, WindowCounts;
    StepParts(ss[|hs|], h, t);
    TemplateWindow(ss, hs, h);
    TemplateFields(ss[|hs|], h);
  }

  lemma ConfirmerMadeBlock(ss: seq<State>, hs: seq<Header>, b: int, p: Name) returns (j: nat)
    requires |ss| == |hs| + 1 && p in Confirmers(ss, hs, b)
    ensures j < |hs| && Confirms(ss, hs, j, b) && hs[j].producer == p
  {
    j :| 0 <= j < |hs| && Confirms(ss, hs, j, b) && hs[j].producer == p;
  }

  /** While the schedule stays the same, the confirmers are members of it: more than two thirds of it. */
  lemma FixedScheduleQuorum(ss: seq<State>, hs: seq<Header>, i: nat)
    requires IsRun(ss, hs) && RunInRange(ss, hs) && Genesis(ss[0]) && ClaimsInRange(ss, hs)
    requires i < |hs| && ss[i + 1].proposed != ss[i].proposed
    requires forall j :: 0 <= j <= i ==> ss[j].active == ss[0].active
    ensures var c := Confirmers(ss[..i + 2], hs[..i + 1], ss[i + 1].proposed);
      c <= ss[0].active.Names() && 3 * |c| > 2 * |ss[0].active.producers|
  {
    hide Step, InRange, Genesis;
    ProposedHasQuorum(ss, hs, i);
    var b, first := ss[i + 1].proposed, ss[0].blockNum;
    RunNumbers(ss, hs, i + 1);
    assert ss[b - first - 1].active == ss[0].active;
    forall p | p in Confirmers(ss[..i + 2], hs[..i + 1], b) ensures p in ss[0].active.Names() {
      var j := ConfirmerMadeBlock(ss[..i + 2], hs[..i + 1], b, p);
      assert hs[j].producer == p && ss[j].active == ss[0].active;
      StepParts(ss[j], hs[j], ss[j + 1]);
    }
  }

  // ---- Monotonicity ----

  ghost predicate TracksAboveProposed(s: State) {
    forall j :: 0 <= j < |s.confirmCount| ==> s.BlockOf(j) > s.proposed
  }

  /** In every run from genesis: the proposed number never decreases, and the window tracks blocks above it. */
  lemma ProposedNeverDecreases(ss: seq<State>, hs: seq<Header>, i: nat)
    requires IsRun(ss, hs) && RunInRange(ss, hs) && Genesis(ss[0]) && i < |hs|
    ensures ss[i].proposed <= ss[i + 1].proposed <= ss[i + 1].blockNum
    ensures ValidWindow(ss[i + 1].confirmCount) && |ss[i + 1].confirmCount| <= MAXIMUM_TRACKED_CONFIRMATIONS
    ensures TracksAboveProposed(ss[i + 1])
  {
    hide Step, InRange, Genesis, ConfirmingHeaders;
    RunPrefix(ss, hs, i);
    var ss0, hs0 := ss[..i + 1], hs[..i];
    RunKeepsInvariants(ss0, hs0);
    WindowInvariantStep(ss0, hs0, hs[i], ss[i + 1]);
  }

  /** No producer implies more than what is proposed. */
  ghost predicate ImpliedBounded(s: State) {
    && s.irreversible <= s.proposed
    && forall p :: p in s.lastImplied ==> s.lastImplied[p] <= s.proposed
  }

  lemma IrreversibleAtMost(m: map<Name, nat>, v: nat)
    requires forall p :: p in m ==> m[p] <= v
    ensures LastIrreversible(m) <= v
  {
    if m != map[] {
      hide LastIrreversible;
      LastIrreversibleIsQuorumValue(m, LastIrreversible(m));
    }
  }

  lemma IrreversibleStep(s: State, h: Header, t: State)
    requires Step(s, h, t) && ImpliedBounded(s) && s.proposed <= t.proposed
    ensures ImpliedBounded(t) && t.irreversible <= s.proposed
  {
    hide Step, Template, SetConfirmed, LastIrreversible;
    StepParts(s, h, t);
    StepSchedules(s, h, t);
    IrreversibleAtMost(s.lastImplied[h.producer := s.proposed], s.proposed);
  }

  /** In every run from genesis, the irreversible number stays at or below the previous proposed number. */
  lemma {:induction false} IrreversibleBelowProposed(ss: seq<State>, hs: seq<Header>, i: nat)
    requires IsRun(ss, hs) && RunInRange(ss, hs) && Genesis(ss[0]) && i < |ss|
    ensures ImpliedBounded(ss[i])
    ensures i > 0 ==> ss[i].irreversible <= ss[i - 1].proposed < ss[i].blockNum
  {
    hide Step, RunInRange, Genesis, ImpliedBounded, TracksAboveProposed, ValidWindow, IsRun;
    RunStep(ss, hs, i);
    if i == 0 {
      StartIsBounded(ss[0]);
    } else {
      IrreversibleBelowProposed(ss, hs, i - 1);
      ProposedNeverDecreases(ss, hs, i - 1);
      IrreversibleStep(ss[i - 1], hs[i - 1], ss[i]);
      ProposedBelowNext(ss, hs, i);
    }
  }

  lemma RunStep(ss: seq<State>, hs: seq<Header>, i: nat)
    requires IsRun(ss, hs) && i < |ss|
    ensures |ss| == |hs| + 1 && (i > 0 ==> Step(ss[i - 1], hs[i - 1], ss[i]))
  {
    hide Step;
    if i > 0 {
      assert Step(ss[i - 1], hs[i - 1], ss[i - 1 + 1]);
    }
  }

  lemma StartIsBounded(s: State)
    requires Genesis(s)
    ensures ImpliedBounded(s)
  {
  }

  lemma ProposedBelowNext(ss: seq<State>, hs: seq<Header>, i: nat)
    requires IsRun(ss, hs) && RunInRange(ss, hs) && Genesis(ss[0]) && 0 < i < |ss|
    ensures ss[i - 1].proposed < ss[i].blockNum
  {
    hide Step, RunInRange, TracksAboveProposed, ValidWindow;
    StepNumber(ss[i - 1], hs[i - 1], ss[i]);
    if i > 1 {
      ProposedNeverDecreases(ss, hs, i - 2);
    }
  }

  /** The producers, other than the next one, whose entry lies below the irreversible number. */
  ghost function Lagging(s: State, next: Name): set<Name> {
    set p | p in s.lastImplied && p != next && s.lastImplied[p] < s.irreversible
  }

  /**
   Exactly when a step keeps the irreversible number: when the producers lagging behind it are few enough
   to leave a quorum.
   */
  lemma IrreversibleKeptIff(s: State, h: Header, t: State)
    requires Step(s, h, t) && ImpliedBounded(s)
    ensures var n := |s.lastImplied.Keys + {h.producer}|;
      t.irreversible >= s.irreversible <==> |Lagging(s, h.producer)| <= n - Required(n)
  {
    hide Step, Template, SetConfirmed, LastIrreversible, Required, Reaching, Lagging;
    StepParts(s, h, t);
    var m := s.lastImplied[h.producer := s.proposed];
    QuorumReaches(m, s.irreversible);
    UpAndLagging(s, h.producer);
  }

  lemma UpAndLagging(s: State, next: Name)
    requires ImpliedBounded(s)
    ensures var m := s.lastImplied[next := s.proposed];
      && |m| == |s.lastImplied.Keys + {next}|
      && |Reaching(m, s.irreversible)| + |Lagging(s, next)| == |m|
  {
    var m := s.lastImplied[next := s.proposed];
    assert m.Keys == s.lastImplied.Keys + {next};
    var up, low := Reaching(m, s.irreversible), Lagging(s, next);
    assert m.Keys == up + low && up !! low;
  }

  /** Between promotions nobody lags too far: the maps hold what the number was computed from. */
  lemma IrreversibleNeverDecreases(s: State, h: Header, t: State)
    requires Step(s, h, t) && ImpliedBounded(s) && s.irreversible == LastIrreversible(s.lastImplied)
    ensures t.irreversible >= s.irreversible
  {
    hide Step, Template, SetConfirmed, LastIrreversible;
    StepParts(s, h, t);
    var m, v := s.lastImplied, s.irreversible;
    var m' := m[h.producer := s.proposed];
    if m != map[] {
      QuorumReaches(m, v);
    }
    ReachingGrows(m, h.producer, s.proposed, v);
    QuorumReaches(m', v);
  }

  lemma ReachingGrows(m: map<Name, nat>, p: Name, w: nat, v: nat)
    requires w >= v
    ensures Reaching(m[p := w], v) == Reaching(m, v) + {p} && m[p := w].Keys == m.Keys + {p}
    ensures p in m && p !in Reaching(m, v) ==> |Reaching(m[p := w], v)| == |Reaching(m, v)| + 1
  {
  }

  /** The header that made t from s put the waiting schedule into force. */
  ghost predicate Promoted(s: State, t: State) {
    s.pending.producers != [] && t.irreversible >= s.pendingLibNum
  }

  lemma SettledWithoutPromotion(s: State, h: Header, t: State)
    requires Step(s, h, t) && !Promoted(s, t)
    ensures t.irreversible == LastIrreversible(t.lastImplied)
  {
    hide Step, Template, SetConfirmed, LastIrreversible;
    StepParts(s, h, t);
    StepSchedules(s, h, t);
  }

  /** In every run from genesis, the irreversible number does not decrease in a step that follows no promotion. */
  lemma IrreversibleMonotoneBetweenPromotions(ss: seq<State>, hs: seq<Header>, i: nat)
    requires IsRun(ss, hs) && RunInRange(ss, hs) && Genesis(ss[0]) && i < |hs|
    requires i > 0 ==> !Promoted(ss[i - 1], ss[i])
    ensures ss[i].irreversible <= ss[i + 1].irreversible
  {
    hide Step, InRange;
    IrreversibleBelowProposed(ss, hs, i);
    if i > 0 {
      SettledWithoutPromotion(ss[i - 1], hs[i - 1], ss[i]);
    }
    IrreversibleNeverDecreases(ss[i], hs[i], ss[i + 1]);
  }

  // ---- Steps of concrete runs ----

  /** The first state of a node: one producer, whose schedule also waits to be promoted. */
  ghost predicate NodeGenesis(s: State) {
    && Genesis(s) && s.blockNum == 1 && |s.active.producers| == 1
    && s.pending == s.active && s.pendingLibNum == 0
  }

  ghost function HeaderAfter(s: State, id: BlockId, slot: nat, producer: Name, confirmed: nat): Header {
    Header(id, slot, s.id, producer, confirmed, s.active.version, None, false, 0)
  }

  /** What a header leaves, given the irreversible number and what the confirmation loop does to the window. */
  ghost function Following(s: State, h: Header, key: Key, lib: nat, cc: seq<nat>, hit: int): State
    requires -1 <= hit < |cc|
  {
    s.(id := h.id, blockNum := s.blockNum + 1, timestamp := h.timestamp, producer := h.producer, confirmed := h.confirmed,
       irreversible := lib, lastProduced := s.lastProduced[h.producer := s.blockNum + 1],
       lastImplied := s.lastImplied[h.producer := s.proposed], signingKey := key, confirmCount := cc[hit + 1..],
       proposed := if hit < 0 then s.proposed else Sub32(s.blockNum + 1, |cc| - 1 - hit))
  }

  ghost predicate Expected(s: State, h: Header, key: Key, lib: nat, cc: seq<nat>, hit: int) {
    && s.active.producers != []
    && h == HeaderAfter(s, h.id, h.timestamp, h.producer, h.confirmed).(newProducers := h.newProducers)
    && h.timestamp > s.timestamp && ScheduledProducer(s.active, h.timestamp) == Producer(h.producer, key)
    && NoDoubleConfirm(s.lastProduced, h, s.blockNum + 1)
    && LastIrreversible(s.lastImplied[h.producer := s.proposed]) == lib
    && -1 <= hit < |cc|
    && var w := PushRequired(s.confirmCount, Required(|s.active.producers|) % 256);
       ConfirmFrom(w, |w| - 1, h.confirmed + 1) == (cc, hit)
  }

  /** A header without a new schedule. */
  lemma PlainStep(s: State, h: Header, key: Key, lib: nat, cc: seq<nat>, hit: int)
    requires Expected(s, h, key, lib, cc, hit) && h.newProducers == None
    ensures Step(s, h, MaybePromote(Following(s, h, key, lib, cc, hit)))
  {
    hide ConfirmFrom, LastIrreversible, ScheduledProducer, PushRequired, Sub32, CarryOver;
    assert cc[0..] == cc;
  }

  /** A header with one. */
  lemma SchedulingStep(s: State, h: Header, key: Key, lib: nat, cc: seq<nat>, hit: int, sched: Schedule)
    requires Expected(s, h, key, lib, cc, hit) && h.newProducers == Some(sched)
    requires s.pending.producers == [] && sched.version == s.active.version + 1
    ensures Step(s, h, Following(s, h, key, lib, cc, hit).(pending := sched, pendingLibNum := s.blockNum + 1))
  {
    hide ConfirmFrom, LastIrreversible, ScheduledProducer, PushRequired, Sub32, CarryOver;
    assert cc[0..] == cc;
  }

  lemma LibIs(m: map<Name, nat>, v: nat, up: set<Name>, above: set<Name>)
    requires m != map[] && Reaching(m, v) == up && Reaching(m, v + 1) == above
    requires |above| < Required(|m|) <= |up|
    ensures LastIrreversible(m) == v
  {
    hide LastIrreversible;
    QuorumReaches(m, v);
    QuorumReaches(m, v + 1);
  }

  lemma OneLess(n: nat)
    requires 1 < n < 256
    ensures Decrement(n) == n - 1
  {
  }

  lemma {:induction false} ConfirmOwn(cc: seq<nat>, n: nat)
    requires 1 < n < 256
    ensures ConfirmFrom(cc + [n], |cc|, 1) == (cc + [n - 1], -1)
  {
    OneLess(n);
    hide Decrement;
    assert (cc + [n])[|cc| := n - 1] == cc + [n - 1];
    assert ConfirmFrom(cc + [n - 1], |cc| - 1, 0) == (cc + [n - 1], -1);
  }

  // ---- How a node comes to its first elected schedule ----

  const ONE := Schedule(0, [Producer(9, 9)])

  /** The first producer promotes its own schedule, announces another and, two blocks on, hands over to it. */
  const N1 := State(1, 1, 1, 0, 0, 0, 0, 0, 0, ONE, ONE, map[], map[], 9, [])
  const N2 := State(2, 2, 2, 9, 0, 2, 0, 0, 0, Schedule(0, []), ONE, map[9 := 2], map[9 := 0], 9, [])

  ghost function N3(sched: Schedule): State {
    State(3, 3, 3, 9, 0, 3, 2, 0, 3, sched, ONE, map[9 := 3], map[9 := 2], 9, [])
  }

  ghost function N4(sched: Schedule): State {
    State(4, 4, 4, 9, 0, 4, 3, 0, 3, sched.(producers := []), sched, CarryOver(map[9 := 4], sched.Names(), 3)[9 := 4],
          CarryOver(map[9 := 3], sched.Names(), 3), 9, [])
  }

  ghost function Announce(sched: Schedule): Header {
    HeaderAfter(N2, 3, 3, 9, 0).(newProducers := Some(sched))
  }

  lemma AloneConfirms(s: State, h: Header, v: nat)
    requires s.active == ONE && s.confirmCount == [] && h == HeaderAfter(s, h.id, h.timestamp, 9, 0).(newProducers := h.newProducers)
    requires h.timestamp > s.timestamp && s.lastProduced.Keys <= {9} && (9 in s.lastProduced ==> s.lastProduced[9] <= s.blockNum)
    requires s.blockNum + 1 < UINT32 && s.lastImplied.Keys <= {9} && s.proposed == v
    ensures Expected(s, h, 9, v, [0], 0)
  {
    hide LastIrreversible;
    var m := s.lastImplied[9 := v];
    assert Reaching(m, v) == {9} && Reaching(m, v + 1) == {} && m.Keys == {9};
    LibIs(m, v, {9}, {});
    assert [1][0 := 0] == [0] && [] + [1] == [1];
  }

  lemma Handover(sched: Schedule)
    requires sched.version == 1 && sched.producers != []
    ensures Step(N1, HeaderAfter(N1, 2, 2, 9, 0), N2) && Step(N2, Announce(sched), N3(sched))
    ensures Step(N3(sched), HeaderAfter(N3(sched), 4, 4, 9, 0), N4(sched))
  {
    hide Step, Expected, LastIrreversible, ConfirmFrom;
    var h1, h2, h3 := HeaderAfter(N1, 2, 2, 9, 0), Announce(sched), HeaderAfter(N3(sched), 4, 4, 9, 0);
    AloneConfirms(N1, h1, 0);
    PlainStep(N1, h1, 9, 0, [0], 0);
    OwnSchedule();
    AloneConfirms(N2, h2, 2);
    SchedulingStep(N2, h2, 9, 2, [0], 0, sched);
    assert N2.lastProduced[9 := 3] == map[9 := 3] && N2.lastImplied[9 := 2] == map[9 := 2];
    AloneConfirms(N3(sched), h3, 3);
    PlainStep(N3(sched), h3, 9, 3, [0], 0);
    assert N3(sched).lastProduced[9 := 4] == map[9 := 4] && N3(sched).lastImplied[9 := 3] == map[9 := 3];
  }

  lemma OwnSchedule()
    ensures MaybePromote(Following(N1, HeaderAfter(N1, 2, 2, 9, 0), 9, 0, [0], 0)) == N2
  {
    assert ONE.producers[0].name == 9;
    assert ONE.Names() == {9};
    assert CarryOver(map[9 := 2], {9}, 0)[9 := 2] == map[9 := 2] && CarryOver(map[9 := 0], {9}, 0) == map[9 := 0];
  }

  // ---- Where the bounds are needed ----

  const TWO := Schedule(1, [Producer(1, 1), Producer(2, 2)])

  /** The state with two elected producers, and those after two blocks of the first of them. */
  const W4 := State(4, 4, 4, 9, 0, 4, 3, 0, 3, Schedule(1, []), TWO, map[1 := 3, 2 := 3, 9 := 4], map[1 := 3, 2 := 3], 9, [])
  const W5 := State(5, 5, 5, 1, 0, 4, 3, 0, 3, Schedule(1, []), TWO, map[1 := 5, 2 := 3, 9 := 4], map[1 := 4, 2 := 3], 1, [1])
  const W6 := State(6, 6, 6, 1, 100, 5, 3, 0, 3, Schedule(1, []), TWO, map[1 := 6, 2 := 3, 9 := 4], map[1 := 4, 2 := 3], 1, [1])

  lemma TwoElected()
    ensures N4(TWO) == W4
  {
    assert TWO.producers[0].name == 1 && TWO.producers[1].name == 2;
    assert TWO.Names() == {1, 2};
    assert CarryOver(map[9 := 4], {1, 2}, 3)[9 := 4] == W4.lastProduced && CarryOver(map[9 := 3], {1, 2}, 3) == W4.lastImplied;
  }

  lemma TwoLib()
    ensures LastIrreversible(map[1 := 4, 2 := 3]) == 3
  {
    hide LastIrreversible;
    var m: map<Name, nat> := map[1 := 4, 2 := 3];
    assert Reaching(m, 3) == {1, 2} && Reaching(m, 4) == {1} && m.Keys == {1, 2};
    LibIs(m, 3, {1, 2}, {1});
  }

  lemma FirstConfirm()
    ensures Step(W4, HeaderAfter(W4, 5, 5, 1, 0), W5)
  {
    hide LastIrreversible, ConfirmFrom, Step;
    assert ScheduledProducer(TWO, 5) == Producer(1, 1);
    TwoLib();
    assert W4.lastImplied[1 := 4] == W5.lastImplied && W4.lastProduced[1 := 5] == W5.lastProduced;
    assert PushRequired([], 2) == [] + [2] && [] + [1] == [1];
    ConfirmOwn([], 2);
    PlainStep(W4, HeaderAfter(W4, 5, 5, 1, 0), 1, 3, [1], -1);
  }

  lemma SecondConfirm()
    ensures Step(W5, HeaderAfter(W5, 6, 6, 1, 100), W6)
  {
    hide LastIrreversible, ConfirmFrom, Step;
    assert ScheduledProducer(TWO, 6) == Producer(1, 1);
    TwoLib();
    assert W5.lastImplied[1 := 4] == W6.lastImplied && W5.lastProduced[1 := 6] == W6.lastProduced;
    assert PushRequired([1], 2) == [1, 2];
    ConfirmHundred();
    PlainStep(W5, HeaderAfter(W5, 6, 6, 1, 100), 1, 3, [0, 1], 0);
    assert [0, 1][1..] == [1];
  }

  lemma ConfirmHundred()
    ensures ConfirmFrom([1, 2], 1, 101) == ([0, 1], 0)
  {
    var cc := [1, 2][1 := 1];
    assert cc[0 := 0] == [0, 1];
    assert ConfirmFrom(cc, 0, 100) == ([0, 1], 0);
  }

  /**
   Without the bound on `confirmed` the 32-bit subtraction of the double-confirm check wraps, and one producer
   of two, confirming block 5 twice, makes it proposed-irreversible on its own. The run starts where a node does.
   */
  lemma WrappedConfirmCountsTwice() returns (ss: seq<State>, hs: seq<Header>)
    ensures IsRun(ss, hs) && NodeGenesis(ss[0]) && RunInRange(ss, hs) && !ClaimsInRange(ss, hs) && |hs| == 5
    ensures ss[5].proposed == 5 && |ss[3].active.producers| == |ss[4].active.producers| == 2
    ensures |Confirmers(ss, hs, 5)| < Required(2)
  {
    hide Step;
    Handover(TWO);
    TwoElected();
    FirstConfirm();
    SecondConfirm();
    ss := [N1, N2, N3(TWO), W4, W5, W6];
    hs := [HeaderAfter(N1, 2, 2, 9, 0), Announce(TWO), HeaderAfter(N3(TWO), 4, 4, 9, 0), HeaderAfter(W4, 5, 5, 1, 0),
           HeaderAfter(W5, 6, 6, 1, 100)];
    assert hs[..4][3].producer == hs[4].producer;
    OneNameOnly(Confirmers(ss, hs, 5), 1);
  }

  lemma OneNameOnly(c: set<Name>, p: Name)
    requires forall q :: q in c ==> q == p
    ensures |c| <= 1
  {
    if c != {} {
      assert c == {p};
    }
  }

  // ---- Where a promotion can move the irreversible number back ----

  const FOUR := Schedule(1, [Producer(1, 1), Producer(2, 2), Producer(3, 3), Producer(4, 4)])
  const NEW_TWO := Schedule(2, [Producer(1, 1), Producer(5, 5)])

  /** The states from the election of four producers on: producer 1 makes the first block, 2, 3 and 4 the next ones. */
  const R4 := State(4, 4, 4, 9, 0, 4, 3, 0, 3, Schedule(1, []), FOUR, map[1 := 3, 2 := 3, 3 := 3, 4 := 3, 9 := 4],
                    map[1 := 3, 2 := 3, 3 := 3, 4 := 3], 9, [])
  const R5 := State(5, 5, 5, 1, 0, 4, 3, 0, 5, NEW_TWO, FOUR, map[1 := 5, 2 := 3, 3 := 3, 4 := 3, 9 := 4],
                    map[1 := 4, 2 := 3, 3 := 3, 4 := 3], 1, [2])
  const R6 := State(6, 6, 12, 2, 1, 4, 3, 0, 5, NEW_TWO, FOUR, map[1 := 5, 2 := 6, 3 := 3, 4 := 3, 9 := 4],
                    map[1 := 4, 2 := 4, 3 := 3, 4 := 3], 2, [1, 2])
  const R7 := State(7, 7, 24, 3, 2, 5, 4, 0, 5, NEW_TWO, FOUR, map[1 := 5, 2 := 6, 3 := 7, 4 := 3, 9 := 4],
                    map[1 := 4, 2 := 4, 3 := 4, 4 := 3], 3, [1, 2])
  const R8 := State(8, 8, 36, 4, 0, 5, 4, 0, 5, NEW_TWO, FOUR, map[1 := 5, 2 := 6, 3 := 7, 4 := 8, 9 := 4],
                    map[1 := 4, 2 := 4, 3 := 4, 4 := 5], 4, [1, 2, 2])
  const R9 := State(9, 9, 60, 2, 0, 5, 4, 0, 5, NEW_TWO, FOUR, map[1 := 5, 2 := 9, 3 := 7, 4 := 8, 9 := 4],
                    map[1 := 4, 2 := 5, 3 := 4, 4 := 5], 2, [1, 2, 2, 2])
  const R10 := State(10, 10, 72, 3, 0, 5, 5, 0, 5, Schedule(2, []), NEW_TWO, map[1 := 5, 5 := 5, 3 := 10],
                     map[1 := 4, 5 := 5], 3, [1, 2, 2, 2, 2])
  const R11 := State(11, 11, 84, 5, 0, 5, 4, 0, 5, Schedule(2, []), NEW_TWO, map[1 := 5, 5 := 11, 3 := 10],
                     map[1 := 4, 5 := 5], 5, [1, 2, 2, 2, 2, 1])

  lemma FourElected()
    ensures N4(FOUR) == R4
  {
    var ps := FOUR.producers;
    assert ps[0].name == 1 && ps[1].name == 2 && ps[2].name == 3 && ps[3].name == 4;
    assert FOUR.Names() == {1, 2, 3, 4};
    FourCarried(4);
    FourCarried(3);
    assert R4.lastImplied[9 := 4] == R4.lastProduced;
  }

  lemma FourCarried(v: nat)
    ensures CarryOver(map[9 := v], {1, 2, 3, 4}, 3) == R4.lastImplied
  {
  }

  /** The irreversible number of four producers, from the sets that reach it and exceed it. */
  lemma FourLib(m: map<Name, nat>, v: nat, up: set<Name>, above: set<Name>)
    requires m.Keys == {1, 2, 3, 4} && Reaching(m, v) == up && Reaching(m, v + 1) == above && |above| < 3 <= |up|
    ensures LastIrreversible(m) == v
  {
    hide LastIrreversible, Reaching;
    LibIs(m, v, up, above);
  }

  lemma Lib5()
    ensures LastIrreversible(R5.lastImplied) == 3
  {
    var m := R5.lastImplied;
    assert Reaching(m, 3) == {1, 2, 3, 4} && Reaching(m, 4) == {1};
    FourLib(m, 3, {1, 2, 3, 4}, {1});
  }

  lemma Lib6()
    ensures LastIrreversible(R6.lastImplied) == 3
  {
    var m := R6.lastImplied;
    assert Reaching(m, 3) == {1, 2, 3, 4} && Reaching(m, 4) == {1, 2};
    FourLib(m, 3, {1, 2, 3, 4}, {1, 2});
  }

  lemma Lib7()
    ensures LastIrreversible(R7.lastImplied) == 4
  {
    var m := R7.lastImplied;
    assert Reaching(m, 4) == {1, 2, 3} && Reaching(m, 5) == {};
    FourLib(m, 4, {1, 2, 3}, {});
  }

  lemma Lib8()
    ensures LastIrreversible(R8.lastImplied) == 4
  {
    var m := R8.lastImplied;
    assert Reaching(m, 4) == {1, 2, 3, 4} && Reaching(m, 5) == {4};
    FourLib(m, 4, {1, 2, 3, 4}, {4});
  }

  lemma Lib9()
    ensures LastIrreversible(R9.lastImplied) == 4
  {
    var m := R9.lastImplied;
    assert Reaching(m, 4) == {1, 2, 3, 4} && Reaching(m, 5) == {2, 4};
    FourLib(m, 4, {1, 2, 3, 4}, {2, 4});
  }

  lemma Lib10()
    ensures LastIrreversible(map[1 := 4, 2 := 5, 3 := 5, 4 := 5]) == 5
  {
    var m: map<Name, nat> := map[1 := 4, 2 := 5, 3 := 5, 4 := 5];
    assert Reaching(m, 5) == {2, 3, 4} && Reaching(m, 6) == {};
    FourLib(m, 5, {2, 3, 4}, {});
  }

  lemma Lib11()
    ensures LastIrreversible(map[1 := 4, 5 := 5]) == 4
  {
    var m: map<Name, nat> := map[1 := 4, 5 := 5];
    assert Reaching(m, 4) == {1, 5} && Reaching(m, 5) == {5} && m.Keys == {1, 5};
    LibIs(m, 4, {1, 5}, {5});
  }

  lemma ConfirmTwo()
    ensures ConfirmFrom([2, 3], 1, 2) == ([1, 2], -1)
  {
    var c := [2, 3][1 := 2];
    assert c[0 := 1] == [1, 2];
    assert ConfirmFrom([1, 2], -1, 0) == ([1, 2], -1);
    assert ConfirmFrom(c, 0, 1) == ([1, 2], -1);
  }

  lemma ConfirmThree()
    ensures ConfirmFrom([1, 2, 3], 2, 3) == ([0, 1, 2], 0)
  {
    var c := [1, 2, 3][2 := 2];
    var d := c[1 := 1];
    assert d[0 := 0] == [0, 1, 2];
    assert ConfirmFrom(d, 0, 1) == ([0, 1, 2], 0);
    assert ConfirmFrom(c, 1, 2) == ConfirmFrom(d, 0, 1);
  }

  ghost function FirstHeader(): Header {
    HeaderAfter(R4, 5, 5, 1, 0).(newProducers := Some(NEW_TWO))
  }

  lemma FourSlots()
    ensures ScheduledProducer(FOUR, 5) == Producer(1, 1) && ScheduledProducer(FOUR, 12) == Producer(2, 2)
    ensures ScheduledProducer(FOUR, 24) == Producer(3, 3) && ScheduledProducer(FOUR, 36) == Producer(4, 4)
    ensures ScheduledProducer(FOUR, 60) == Producer(2, 2) && ScheduledProducer(FOUR, 72) == Producer(3, 3)
    ensures ScheduledProducer(NEW_TWO, 84) == Producer(5, 5)
  {
  }

  lemma Pushed(cc: seq<nat>, n: nat)
    requires |cc| < MAXIMUM_TRACKED_CONFIRMATIONS
    ensures PushRequired(cc, n) == cc + [n]
  {
  }

  lemma Updated1(a: nat, b: nat, c: nat, d: nat, x: nat)
    ensures map[1 := a, 2 := b, 3 := c, 4 := d][1 := x] == map[1 := x, 2 := b, 3 := c, 4 := d]
  {
  }

  lemma Updated2(a: nat, b: nat, c: nat, d: nat, x: nat)
    ensures map[1 := a, 2 := b, 3 := c, 4 := d][2 := x] == map[1 := a, 2 := x, 3 := c, 4 := d]
  {
  }

  lemma Updated3(a: nat, b: nat, c: nat, d: nat, x: nat)
    ensures map[1 := a, 2 := b, 3 := c, 4 := d][3 := x] == map[1 := a, 2 := b, 3 := x, 4 := d]
  {
  }

  lemma Updated4(a: nat, b: nat, c: nat, d: nat, x: nat)
    ensures map[1 := a, 2 := b, 3 := c, 4 := d][4 := x] == map[1 := a, 2 := b, 3 := c, 4 := x]
  {
  }

  lemma UpdatedFive1(a: nat, b: nat, c: nat, d: nat, x: nat)
    ensures map[1 := a, 2 := b, 3 := c, 4 := d, 9 := 4][1 := x] == map[1 := x, 2 := b, 3 := c, 4 := d, 9 := 4]
  {
  }

  lemma UpdatedFive2(a: nat, b: nat, c: nat, d: nat, x: nat)
    ensures map[1 := a, 2 := b, 3 := c, 4 := d, 9 := 4][2 := x] == map[1 := a, 2 := x, 3 := c, 4 := d, 9 := 4]
  {
  }

  lemma UpdatedFive3(a: nat, b: nat, c: nat, d: nat, x: nat)
    ensures map[1 := a, 2 := b, 3 := c, 4 := d, 9 := 4][3 := x] == map[1 := a, 2 := b, 3 := x, 4 := d, 9 := 4]
  {
  }

  lemma UpdatedFive4(a: nat, b: nat, c: nat, d: nat, x: nat)
    ensures map[1 := a, 2 := b, 3 := c, 4 := d, 9 := 4][4 := x] == map[1 := a, 2 := b, 3 := c, 4 := x, 9 := 4]
  {
  }

  lemma Maps5()
    ensures R4.lastImplied[1 := 4] == R5.lastImplied
    ensures R4.lastProduced[1 := 5] == R5.lastProduced
  {
    Updated1(3, 3, 3, 3, 4);
    UpdatedFive1(3, 3, 3, 3, 5);
  }

  lemma Run5()
    ensures Step(R4, FirstHeader(), R5)
  {
    hide ConfirmFrom, LastIrreversible, ScheduledProducer, PushRequired, Step;
    FourSlots();
    Lib5();
    Maps5();
    Pushed([], 3);
    assert [] + [2] == [2];
    ConfirmOwn([], 3);
    SchedulingStep(R4, FirstHeader(), 1, 3, [2], -1, NEW_TWO);
  }

  lemma Maps6()
    ensures R5.lastImplied[2 := 4] == R6.lastImplied
    ensures R5.lastProduced[2 := 6] == R6.lastProduced
  {
    Updated2(4, 3, 3, 3, 4);
    UpdatedFive2(5, 3, 3, 3, 6);
  }

  lemma Run6()
    ensures Step(R5, HeaderAfter(R5, 6, 12, 2, 1), R6)
  {
    hide ConfirmFrom, LastIrreversible, ScheduledProducer, PushRequired, Step;
    Lib6();
    Maps6();
    FourSlots();
    Pushed([2], 3);
    assert [2] + [3] == [2, 3];
    ConfirmTwo();
    PlainStep(R5, HeaderAfter(R5, 6, 12, 2, 1), 2, 3, [1, 2], -1);
  }

  lemma Maps7()
    ensures R6.lastImplied[3 := 4] == R7.lastImplied
    ensures R6.lastProduced[3 := 7] == R7.lastProduced
  {
    Updated3(4, 4, 3, 3, 4);
    UpdatedFive3(5, 6, 3, 3, 7);
  }

  lemma Run7()
    ensures Step(R6, HeaderAfter(R6, 7, 24, 3, 2), R7)
  {
    hide ConfirmFrom, LastIrreversible, ScheduledProducer, PushRequired, Step;
    Lib7();
    Maps7();
    FourSlots();
    Pushed([1, 2], 3);
    assert [1, 2] + [3] == [1, 2, 3];
    ConfirmThree();
    assert [0, 1, 2][1..] == [1, 2];
    PlainStep(R6, HeaderAfter(R6, 7, 24, 3, 2), 3, 4, [0, 1, 2], 0);
  }

  lemma Maps8()
    ensures R7.lastImplied[4 := 5] == R8.lastImplied
    ensures R7.lastProduced[4 := 8] == R8.lastProduced
  {
    Updated4(4, 4, 4, 3, 5);
    UpdatedFive4(5, 6, 7, 3, 8);
  }

  lemma Run8()
    ensures Step(R7, HeaderAfter(R7, 8, 36, 4, 0), R8)
  {
    hide ConfirmFrom, LastIrreversible, ScheduledProducer, PushRequired, Step;
    Lib8();
    Maps8();
    FourSlots();
    Pushed([1, 2], 3);
    assert [1, 2] + [2] == [1, 2, 2];
    ConfirmOwn([1, 2], 3);
    PlainStep(R7, HeaderAfter(R7, 8, 36, 4, 0), 4, 4, [1, 2, 2], -1);
  }

  lemma Maps9()
    ensures R8.lastImplied[2 := 5] == R9.lastImplied
    ensures R8.lastProduced[2 := 9] == R9.lastProduced
  {
    Updated2(4, 4, 4, 5, 5);
    UpdatedFive2(5, 6, 7, 8, 9);
  }

  lemma Run9()
    ensures Step(R8, HeaderAfter(R8, 9, 60, 2, 0), R9)
  {
    hide ConfirmFrom, LastIrreversible, ScheduledProducer, PushRequired, Step;
    Lib9();
    Maps9();
    FourSlots();
    Pushed([1, 2, 2], 3);
    assert [1, 2, 2] + [2] == [1, 2, 2, 2];
    ConfirmOwn([1, 2, 2], 3);
    PlainStep(R8, HeaderAfter(R8, 9, 60, 2, 0), 2, 4, [1, 2, 2, 2], -1);
  }

  lemma Run10()
    ensures Step(R9, HeaderAfter(R9, 10, 72, 3, 0), R10)
  {
    hide ConfirmFrom, LastIrreversible, ScheduledProducer, PushRequired, Step, CarryOver;
    Lib10();
    assert R9.lastImplied[3 := 5] == map[1 := 4, 2 := 5, 3 := 5, 4 := 5];
    FourSlots();
    Pushed([1, 2, 2, 2], 3);
    assert [1, 2, 2, 2] + [2] == [1, 2, 2, 2, 2];
    ConfirmOwn([1, 2, 2, 2], 3);
    PlainStep(R9, HeaderAfter(R9, 10, 72, 3, 0), 3, 5, [1, 2, 2, 2, 2], -1);
    NamesOfTwo();
    CarriedProduced();
    CarriedImplied();
  }

  lemma NamesOfTwo()
    ensures NEW_TWO.Names() == {1, 5}
  {
    assert NEW_TWO.producers[0].name == 1 && NEW_TWO.producers[1].name == 5;
  }

  lemma CarriedProduced()
    ensures CarryOver(R9.lastProduced[3 := 10], {1, 5}, 5)[3 := 10] == R10.lastProduced
  {
    assert CarryOver(R9.lastProduced[3 := 10], {1, 5}, 5) == map[1 := 5, 5 := 5];
  }

  lemma CarriedImplied()
    ensures CarryOver(R9.lastImplied[3 := 5], {1, 5}, 5) == R10.lastImplied
  {
  }

  lemma Maps11()
    ensures R10.lastImplied[5 := 5] == R11.lastImplied
    ensures R10.lastProduced[5 := 11] == R11.lastProduced
  {
  }

  /** The block of producer 5: with two producers left, the quorum includes producer 1, who implied block 4 only. */
  lemma Run11()
    ensures Step(R10, HeaderAfter(R10, 11, 84, 5, 0), R11)
  {
    hide ConfirmFrom, LastIrreversible, ScheduledProducer, PushRequired, Step;
    Lib11();
    Maps11();
    FourSlots();
    Pushed([1, 2, 2, 2, 2], 2);
    assert [1, 2, 2, 2, 2] + [1] == R11.confirmCount;
    ConfirmOwn([1, 2, 2, 2, 2], 2);
    PlainStep(R10, HeaderAfter(R10, 11, 84, 5, 0), 5, 4, [1, 2, 2, 2, 2, 1], -1);
  }

  /**
   A run from where a node starts in which the irreversible number decreases, from 5 to 4, in the step after a
   promotion: producer 1 made the first block and has implied block 4 only, and the new schedule keeps it beside one
   new producer.
   */
  lemma IrreversibleCanDropAfterPromotion() returns (ss: seq<State>, hs: seq<Header>)
    ensures IsRun(ss, hs) && NodeGenesis(ss[0]) && RunInRange(ss, hs) && ClaimsInRange(ss, hs) && |hs| == 10
    ensures Promoted(ss[8], ss[9]) && ss[9].irreversible == 5 && ss[10].irreversible == 4
  {
    hide Step;
    Handover(FOUR);
    FourElected();
    Run5();
    Run6();
    Run7();
    Run8();
    Run9();
    Run10();
    Run11();
    ss := [N1, N2, N3(FOUR), R4, R5, R6, R7, R8, R9, R10, R11];
    hs := [HeaderAfter(N1, 2, 2, 9, 0), Announce(FOUR), HeaderAfter(N3(FOUR), 4, 4, 9, 0), FirstHeader(),
           HeaderAfter(R5, 6, 12, 2, 1), HeaderAfter(R6, 7, 24, 3, 2), HeaderAfter(R7, 8, 36, 4, 0),
           HeaderAfter(R8, 9, 60, 2, 0), HeaderAfter(R9, 10, 72, 3, 0), HeaderAfter(R10, 11, 84, 5, 0)];
  }
}
