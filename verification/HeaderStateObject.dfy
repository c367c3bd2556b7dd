/**
 The header state as the program holds it: an object whose fields `set_confirmed`, `maybe_promote_pending`,
 `set_new_producers` and `add_confirmation` update in place. Each method is proved against the step
 functions of `BlockHeaderState`.
 */
module HeaderStateObject {
  import opened Wrappers
  import opened BlockHeaderState

  /** A producer's statement about a block, with the key recovered from its signature. */
  datatype Confirmation = Confirmation(producer: Name, signer: Key)

  /** The value of a key that was never set. */
  const NO_KEY: Key := 0

  datatype Outcome = Done | Failed(error: Error)

  function ProducerKey(s: Schedule, p: Name): Option<Key> {
    KeyFrom(s.producers, p)
  }

  function KeyFrom(ps: seq<Producer>, p: Name): (k: Option<Key>)
    ensures k.Some? <==> exists i :: 0 <= i < |ps| && ps[i].name == p
    ensures k.Some? ==> Producer(p, k.value) in ps
  {
    if ps == [] then None
    else if ps[0].name == p then Some(ps[0].key)
    else KeyFrom(ps[1..], p)
  }

  /** No producer has confirmed twice, and every confirmation carries the producer's scheduled key. */
  ghost predicate ValidConfirmations(cs: seq<Confirmation>, active: Schedule) {
    && (forall i, j :: 0 <= i < j < |cs| ==> cs[i].producer != cs[j].producer)
    && (forall i :: 0 <= i < |cs| ==> ProducerKey(active, cs[i].producer) == Some(cs[i].signer))
  }

  /** The key of a confirmation is the one of its producer in the schedule. */
  lemma ConfirmersSign(cs: seq<Confirmation>, active: Schedule, i: nat)
    requires ValidConfirmations(cs, active) && i < |cs|
    ensures Producer(cs[i].producer, cs[i].signer) in active.producers
  {
    assert ProducerKey(active, cs[i].producer) == Some(cs[i].signer);
  }

  lemma NextConfirmer(cs: seq<Confirmation>, active: Schedule, n: nat)
    requires ValidConfirmations(cs, active) && n < |cs|
    ensures cs[n].producer in active.Names() && forall j :: 0 <= j < n ==> cs[j].producer != cs[n].producer
  {
    ConfirmersSign(cs, active, n);
    var k :| 0 <= k < |active.producers| && active.producers[k] == Producer(cs[n].producer, cs[n].signer);
    assert active.producers[k].name in active.Names();
  }

  /** Distinct confirmations are that many scheduled producers. */
  lemma ConfirmersAreScheduled(cs: seq<Confirmation>, active: Schedule) returns (who: set<Name>)
    requires ValidConfirmations(cs, active)
    ensures who <= active.Names() && |who| == |cs|
    ensures forall p :: p in who <==> exists i :: 0 <= i < |cs| && cs[i].producer == p
  {
    hide ValidConfirmations;
    who := {};
    for n := 0 to |cs|
      invariant |who| == n && who <= active.Names()
      invariant forall p :: p in who <==> exists i :: 0 <= i < n && cs[i].producer == p
    {
      NextConfirmer(cs, active, n);
      who := who + {cs[n].producer};
    }
  }

  /** Counts down from the newest entry, until the confirmations are used up or an entry reaches zero. */
  method ConfirmWindow(window: seq<nat>, count: nat) returns (cc: seq<nat>, hit: int)
    ensures (cc, hit) == ConfirmFrom(window, |window| - 1, count)
  {
    hide ConfirmFrom;
    cc := window;
    var i, blocksToConfirm := |window| - 1, count;
    while i >= 0 && blocksToConfirm != 0
      invariant -1 <= i < |cc| == |window|
      invariant ConfirmFrom(cc, i, blocksToConfirm) == ConfirmFrom(window, |window| - 1, count)
    {
      ConfirmUnfold(cc, i, blocksToConfirm);
      cc := cc[i := Decrement(cc[i])];
      if cc[i] == 0 {
        return cc, i;
      }
      i := i - 1;
      blocksToConfirm := blocksToConfirm - 1;
    }
    ConfirmNothing(cc, i, blocksToConfirm);
    hit := -1;
  }

  lemma ConfirmUnfold(cc: seq<nat>, i: int, left: nat)
    requires 0 <= i < |cc| && left > 0
    ensures var next := cc[i := Decrement(cc[i])];
      ConfirmFrom(cc, i, left) == if next[i] == 0 then (next, i) else ConfirmFrom(next, i - 1, left - 1)
  {
  }

  lemma ConfirmNothing(cc: seq<nat>, i: int, left: nat)
    requires -1 <= i < |cc| && (i < 0 || left == 0)
    ensures ConfirmFrom(cc, i, left) == (cc, -1)
  {
  }


  lemma SchedulesParts(s: State, h: Header)
    requires s.active.producers != []
    ensures Schedules(s, h) ==> !h.hasExtensions && h.timestamp > s.timestamp && h.previous == s.id
    ensures Schedules(s, h) ==> h.scheduleVersion == s.active.version
    ensures Schedules(s, h) && h.newProducers.Some? ==>
      s.pending.producers == [] && h.newProducers.value.version == s.active.version + 1
    ensures Schedules(s, h) && h.producer in s.lastProduced ==>
      s.lastProduced[h.producer] < (s.blockNum + 1 - h.confirmed) % 0x1_0000_0000
  {
  }

  /** The window grows by the quorum of the schedule in force, and keeps 1024 entries at most. */
  lemma GrownWindow(cc: seq<nat>, n: nat)
    ensures PushRequired(cc, Required(n) % 256) == (if |cc| < 1024 then cc else cc[1..]) + [(n * 2 / 3 + 1) % 256]
  {
  }

  /** What is left to do once the header is checked against the template. */
  lemma NextUnfolds(s: State, h: Header, skipSignee: bool)
    requires s.active.producers != [] && ConfirmsAbove(s, h)
    ensures var c := BlockHeaderState.SetConfirmed(BlockHeaderState.GenerateNext(s, h.timestamp).value, h.confirmed);
      BlockHeaderState.Next(s, h, skipSignee) == Completed(c, h, skipSignee)
  {
    hide BlockHeaderState.SetConfirmed, LastIrreversible, ScheduledProducer, PushRequired, CarryOver, Required, InTurn;
    InTurnIsScheduled(s, h.timestamp);
  }

  lemma ConfirmedState(s: State, n: nat, cc: seq<nat>, hit: int)
    requires (cc, hit) == ConfirmFrom(s.confirmCount, |s.confirmCount| - 1, n + 1)
    ensures |cc| == |s.confirmCount| && hit < |cc|
    ensures hit < 0 ==> BlockHeaderState.SetConfirmed(s, n) == s.(confirmed := n, confirmCount := cc)
    ensures hit >= 0 ==>
      var p := Sub32(s.blockNum, |cc| - 1 - hit);
      BlockHeaderState.SetConfirmed(s, n) == s.(confirmed := n, confirmCount := cc[hit + 1..], proposed := p)
    ensures hit == |cc| - 1 ==> cc[hit + 1..] == []
  {
  }

  class BlockHeader {
    var id: BlockId
    var blockNum: nat
    var timestamp: nat
    var producer: Name
    var confirmed: nat
    var proposed: nat
    var irreversible: nat
    var bftIrreversible: nat
    var pendingLibNum: nat
    var pending: Schedule
    var active: Schedule
    var lastProduced: map<Name, nat>
    var lastImplied: map<Name, nat>
    var signingKey: Key
    var confirmCount: seq<nat>
    var confirmations: seq<Confirmation>

    ghost function View(): State
      reads this
    {
      State(id, blockNum, timestamp, producer, confirmed, proposed, irreversible, bftIrreversible, pendingLibNum,
            pending, active, lastProduced, lastImplied, signingKey, confirmCount)
    }

    constructor (id: BlockId, blockNum: nat, timestamp: nat, producer: Name, confirmed: nat, proposed: nat,
                 irreversible: nat, bftIrreversible: nat, pendingLibNum: nat, pending: Schedule, active: Schedule,
                 lastProduced: map<Name, nat>, lastImplied: map<Name, nat>, signingKey: Key, confirmCount: seq<nat>)
      ensures View() == State(id, blockNum, timestamp, producer, confirmed, proposed, irreversible, bftIrreversible,
                              pendingLibNum, pending, active, lastProduced, lastImplied, signingKey, confirmCount)
      ensures confirmations == []
    {
      this.id, this.blockNum, this.timestamp, this.producer := id, blockNum, timestamp, producer;
      this.confirmed, this.proposed, this.irreversible := confirmed, proposed, irreversible;
      this.bftIrreversible, this.pendingLibNum := bftIrreversible, pendingLibNum;
      this.pending, this.active, this.lastProduced := pending, active, lastProduced;
      this.lastImplied, this.signingKey, this.confirmCount := lastImplied, signingKey, confirmCount;
      this.confirmations := [];
    }

    /** Confirms the head block and `numPrevBlocks` before it, and proposes the newest block that needs no more. */
    method SetConfirmed(numPrevBlocks: nat)
      modifies this`confirmed, this`confirmCount, this`proposed
      ensures View() == BlockHeaderState.SetConfirmed(old(View()), numPrevBlocks)
    {
      hide ConfirmFrom, BlockHeaderState.SetConfirmed;
      ghost var s := View();
      confirmed := numPrevBlocks;
      var last := |confirmCount| - 1;
      var window, hit := ConfirmWindow(confirmCount, numPrevBlocks + 1);
      ConfirmedState(s, numPrevBlocks, window, hit);
      confirmCount := window;
      if hit >= 0 {
        proposed := Sub32(blockNum, last - hit);
        if hit == last {
          confirmCount := [];
        } else {
          confirmCount := confirmCount[hit + 1..];
        }
      }
    }

    method CarryOverMap(m: map<Name, nat>) returns (r: map<Name, nat>)
      ensures r == CarryOver(m, active.Names(), irreversible)
    {
      r := map[];
      for k := 0 to |active.producers|
        invariant r == CarryOver(m, set i | 0 <= i < k :: active.producers[i].name, irreversible)
      {
        var name := active.producers[k].name;
        r := r[name := if name in m then m[name] else irreversible];
      }
    }

    /** Puts the waiting schedule into force once the block it was announced in is irreversible. */
    method MaybePromotePending() returns (promoted: bool)
      modifies this`active, this`pending, this`lastProduced, this`lastImplied
      ensures promoted == CanPromote(old(View())) && View() == MaybePromote(old(View()))
      ensures promoted <==> old(pending).producers != [] && irreversible >= pendingLibNum
      ensures promoted ==> active == old(pending) && pending == Schedule(old(pending).version, [])
    {
      promoted := pending.producers != [] && irreversible >= pendingLibNum;
      if promoted {
        active, pending := pending, pending.(producers := []);
        var newProduced := CarryOverMap(lastProduced);
        var newImplied := CarryOverMap(lastImplied);
        lastProduced, lastImplied := newProduced, newImplied;
        lastProduced := lastProduced[producer := blockNum];
      }
    }

    method SetNewProducers(sched: Schedule) returns (r: Outcome)
      modifies this`pending, this`pendingLibNum
      ensures r.Failed? ==> View() == old(View()) && BlockHeaderState.SetNewProducers(old(View()), sched) == Err(r.error)
      ensures r.Done? ==> BlockHeaderState.SetNewProducers(old(View()), sched) == Ok(View())
      ensures r.Done? <==> sched.version == active.version + 1 && old(pending).producers == []
      ensures r.Done? ==> pending == sched && pendingLibNum == blockNum
      ensures r == Failed(WrongNewScheduleVersion) <==> sched.version != active.version + 1
      ensures r == Failed(PendingScheduleExists) <==> sched.version == active.version + 1 && old(pending).producers != []
    {
      if sched.version != active.version + 1 {
        return Failed(WrongNewScheduleVersion);
      }
      if pending.producers != [] {
        return Failed(PendingScheduleExists);
      }
      pending, pendingLibNum := sched, blockNum;
      return Done;
    }

    /** A new object for the block after this one; this object stays as it is. */
    method GenerateNext(when: nat) returns (r: Option<BlockHeader>)
      requires active.producers != []
      ensures r.None? <==> BlockHeaderState.GenerateNext(View(), when).Err?
      ensures r.Some? ==> fresh(r.value) && BlockHeaderState.GenerateNext(View(), when) == Ok(r.value.View())
      ensures r.Some? ==> r.value.confirmations == []
      ensures r.None? <==> 0 < when <= timestamp
      ensures r.Some? ==>
        var t, slot := r.value, if when == 0 then timestamp + 1 else when;
        && t.timestamp == slot && t.blockNum == blockNum + 1
        && Producer(t.producer, t.signingKey) == InTurn(View(), slot)
        && t.confirmCount == (if |confirmCount| < 1024 then confirmCount else confirmCount[1..])
                             + [(|active.producers| * 2 / 3 + 1) % 256]
    {
      hide ScheduledProducer, InTurn, LastIrreversible, PushRequired, Required;
      GrownWindow(confirmCount, |active.producers|);
      if when != 0 && when <= timestamp {
        return None;
      }
      var slot := if when != 0 then when else timestamp + 1;
      InTurnIsScheduled(View(), slot);
      var p := ScheduledProducer(active, slot);
      var implied := lastImplied[p.name := proposed];
      var lib := CalcDposLastIrreversible(implied);
      var cc := PushRequired(confirmCount, Required(|active.producers|) % 256);
      var b := new BlockHeader(0, blockNum + 1, slot, p.name, 0, proposed, lib, bftIrreversible, pendingLibNum,
        pending, active, lastProduced[p.name := blockNum + 1], implied, p.key, cc);
      return Some(b);
    }

    /** The template for a signed header that links to this block, comes from its producer and confirms no block again. */
    method CheckedTemplate(h: Header) returns (r: Result<BlockHeader>)
      requires active.producers != []
      ensures r.Ok? ==> ConfirmsAbove(View(), h) && fresh(r.value) && r.value.confirmations == []
      ensures r.Ok? ==> BlockHeaderState.GenerateNext(View(), h.timestamp) == Ok(r.value.View())
      ensures r.Err? ==> !ConfirmsAbove(View(), h) && forall skip :: RefusedFor(View(), h, skip, r.error)
    {
      hide LastIrreversible, ScheduledProducer, PushRequired, Required, InTurn;
      if h.timestamp == 0 {
        return Err(MissingTimestamp);
      }
      if h.hasExtensions {
        return Err(HasExtensions);
      }
      if h.timestamp <= timestamp {
        return Err(NotLater);
      }
      if h.previous != id {
        return Err(Unlinkable);
      }
      InTurnIsScheduled(View(), h.timestamp);
      var g := GenerateNext(h.timestamp);
      var t := g.value;
      if t.producer != h.producer {
        return Err(WrongProducer);
      }
      if active.version != h.scheduleVersion {
        return Err(WrongScheduleVersion);
      }
      if h.producer in lastProduced && !(lastProduced[h.producer] < Sub32(t.blockNum, h.confirmed)) {
        return Err(DoubleConfirm);
      }
      return Ok(t);
    }

    /** The object for the next block, from a signed header, or the reason the header is refused. */
    method Next(h: Header, skipSignee: bool) returns (r: Result<BlockHeader>)
      requires active.producers != []
      ensures r.Ok? ==> fresh(r.value) && BlockHeaderState.Next(View(), h, skipSignee) == Ok(r.value.View())
      ensures r.Ok? ==> r.value.confirmations == []
      ensures r.Err? ==> BlockHeaderState.Next(View(), h, skipSignee) == Err(r.error)
      ensures r.Ok? <==> Schedules(View(), h) && (skipSignee || InTurn(View(), h.timestamp) == Producer(h.producer, h.signee))
      ensures forall e :: r == Err(e) <==> RefusedFor(View(), h, skipSignee, e)
      ensures r.Ok? && !skipSignee ==>
        exists i :: 0 <= i < |active.producers| && active.producers[i] == Producer(h.producer, h.signee)
      ensures r.Ok? ==> !h.hasExtensions && h.timestamp > timestamp && h.previous == id && h.scheduleVersion == active.version
      ensures r.Ok? && h.newProducers.Some? ==>
        h.newProducers.value.version == active.version + 1 && pending.producers == []
      ensures r.Ok? && h.producer in lastProduced ==>
        lastProduced[h.producer] < (blockNum + 1 - h.confirmed) % 0x1_0000_0000
    {
      hide LastIrreversible, ConfirmFrom, BlockHeaderState.SetConfirmed, ScheduledProducer, PushRequired, CarryOver, Required, InTurn, RefusedFor, BlockHeaderState.Next, Completed,
           BlockHeaderState.GenerateNext, Schedules, ConfirmsAbove;
      NextAccepts(View(), h, skipSignee);
      var c := CheckedTemplate(h);
      if c.Err? {
        return c;
      }
      var t := c.value;
      NextUnfolds(View(), h, skipSignee);
      SchedulesParts(View(), h);
      t.SetConfirmed(h.confirmed);
      var o := t.Complete(h, skipSignee);
      if o.Failed? {
        return Err(o.error);
      }
      return Ok(t);
    }

    /** The last steps, on the new object: a waiting schedule comes into force, a new one waits, and the signer is checked. */
    method Complete(h: Header, skipSignee: bool) returns (r: Outcome)
      modifies this`active, this`pending, this`lastProduced, this`lastImplied, this`pendingLibNum, this`id
      ensures r.Done? ==> Completed(old(View()), h, skipSignee) == Ok(View())
      ensures r.Failed? ==> Completed(old(View()), h, skipSignee) == Err(r.error)
    {
      hide CarryOver;
      var promoted := MaybePromotePending();
      if h.newProducers.Some? {
        if promoted {
          return Failed(NewScheduleOnPromotion);
        }
        var o := SetNewProducers(h.newProducers.value);
        if o.Failed? {
          return o;
        }
      }
      id := h.id;
      if !skipSignee && signingKey != h.signee {
        return Failed(WrongSigningKey);
      }
      return Done;
    }

    /**
     Accepts a confirmation from a scheduled producer that has not confirmed this block before. The lookup of
     an unscheduled producer yields no key, which the source compares with the unset key and lets pass; such a
     confirmation is then refused because its signer differs from the missing key.
     */
    method AddConfirmation(conf: Confirmation) returns (r: Outcome)
      requires ValidConfirmations(confirmations, active)
      modifies this`confirmations
      ensures ValidConfirmations(confirmations, active)
      ensures r.Done? ==> confirmations == old(confirmations) + [conf]
      ensures r.Failed? ==> confirmations == old(confirmations)
      ensures r.Done? <==>
        && (forall i :: 0 <= i < |old(confirmations)| ==> old(confirmations)[i].producer != conf.producer)
        && ProducerKey(active, conf.producer) == Some(conf.signer) && conf.signer != NO_KEY
      ensures r.Done? ==> Producer(conf.producer, conf.signer) in active.producers
      ensures r == Failed(DoubleConfirm) <==>
        exists i :: 0 <= i < |old(confirmations)| && old(confirmations)[i].producer == conf.producer
      ensures r == Failed(ProducerNotInSchedule) ==> ProducerKey(active, conf.producer) == Some(NO_KEY)
    {
      for i := 0 to |confirmations|
        invariant forall j :: 0 <= j < i ==> confirmations[j].producer != conf.producer
      {
        if confirmations[i].producer == conf.producer {
          return Failed(DoubleConfirm);
        }
      }
      var key := ProducerKey(active, conf.producer);
      if key == Some(NO_KEY) {
        return Failed(ProducerNotInSchedule);
      }
      if key != Some(conf.signer) {
        return Failed(WrongSigningKey);
      }
      confirmations := confirmations + [conf];
      return Done;
    }
  }
}
