/**
 The packet-in rate limiter of a switch: a bucket of tokens that is refilled whenever the
 clock enters a new slot of 100 ms.
 */
module PacketInLimiter {

  const DISABLED: int := -1
  const SLOTS_PER_S: int := 10
  const MIN_RATE: int := SLOTS_PER_S
  const SLOT_MS: int := 100
  const TWO_31: nat := 0x8000_0000
  const TWO_32: nat := 0x1_0000_0000
  const TWO_64: nat := 0x1_0000_0000_0000_0000

  type Uint64 = n: nat | n < TWO_64
  type Int32 = n: int | -0x8000_0000 <= n < 0x8000_0000

  /** The slot of the clock is passed on as an `int` and stored as a `uint64_t` again. */
  function Stored(slot: Uint64): Uint64 {
    var low := slot % TWO_32;
    if low < TWO_31 then low else TWO_64 - (TWO_32 - low)
  }

  datatype Bucket = Bucket(lastSeen: Uint64, tokens: Int32, maxRate: Int32)

  function Slot(ms: Uint64): Uint64 { ms / SLOT_MS }

  predicate Accepted(rate: int) { rate >= MIN_RATE || rate == DISABLED }

  /** The division truncates toward zero. */
  function Quota(rate: Int32): Int32 {
    if rate >= 0 then rate / SLOTS_PER_S else -(-(rate as int) / SLOTS_PER_S)
  }

  // ----- One packet, one reconfiguration -----

  function Refilled(b: Bucket, slot: Uint64): Bucket
    requires Accepted(b.maxRate) && b.maxRate != DISABLED
  {
    if b.lastSeen != slot then b.(lastSeen := Stored(slot), tokens := Quota(b.maxRate)) else b
  }

  predicate Passes(b: Bucket, ms: Uint64)
    requires Accepted(b.maxRate)
  {
    b.maxRate == DISABLED || Refilled(b, Slot(ms)).tokens > 0
  }

  function AfterPacket(b: Bucket, ms: Uint64): Bucket
    requires Accepted(b.maxRate)
  {
    if b.maxRate == DISABLED then b
    else
      var c := Refilled(b, Slot(ms));
      if c.tokens > 0 then c.(tokens := c.tokens - 1) else c
  }

  function Reconfigured(b: Bucket, rate: Int32): Bucket {
    if Accepted(rate) then b.(lastSeen := 0, maxRate := rate) else b
  }

  class Limiter {
    var lastSeen: Uint64
    var tokens: Int32
    var maxRate: Int32

    ghost predicate Valid()
      reads this
    {
      Accepted(maxRate)
    }

    ghost function Value(): Bucket
      reads this
    {
      Bucket(lastSeen, tokens, maxRate)
    }

    /** The tokens start as whatever the memory holds. */
    constructor (rate: Int32, garbage: Int32)
      requires rate >= 10 || rate == -1
      ensures Valid() && Value() == Bucket(0, garbage, rate)
    {
      lastSeen, tokens, maxRate := 0, garbage, rate;
    }

    /** Whether the packet is to be dropped. */
    method FilterPkt(nowMs: Uint64) returns (drop: bool)
      requires Valid()
      modifies this
      ensures Valid() && drop == !Passes(old(Value()), nowMs) && Value() == AfterPacket(old(Value()), nowMs)
      ensures maxRate == old(maxRate)
      ensures maxRate == -1 ==> !drop && Value() == old(Value())
      ensures maxRate != -1 && old(lastSeen) != nowMs / 100 ==> !drop && tokens == maxRate / 10 - 1
      ensures maxRate != -1 && old(lastSeen) == nowMs / 100 ==>
                && drop == (old(tokens) <= 0) && lastSeen == old(lastSeen)
                && tokens == old(tokens) - if drop then 0 else 1
      ensures maxRate != -1 && nowMs / 100 < 0x8000_0000 ==> lastSeen == nowMs / 100
    {
      var currTs: Uint64 := nowMs / SLOT_MS;
      if maxRate != DISABLED {
        if lastSeen != currTs {
          lastSeen := Stored(currTs);
          tokens := maxRate / SLOTS_PER_S;
        }
        if tokens > 0 {
          tokens := tokens - 1;
        } else {
          return true;
        }
      }
      return false;
    }

    method Reconfigure(newMaxRate: Int32) returns (ok: bool)
      requires Valid()
      modifies this
      ensures Valid() && Value() == Reconfigured(old(Value()), newMaxRate)
      ensures ok <==> newMaxRate >= 10 || newMaxRate == -1
      ensures Value() == if ok then Bucket(0, old(tokens), newMaxRate) else old(Value())
    {
      if newMaxRate < MIN_RATE && newMaxRate != DISABLED {
        return false;
      }
      lastSeen := 0;
      maxRate := newMaxRate;
      return true;
    }
  }

  // ----- Traces -----

  datatype Event = Packet(ms: Uint64) | Reconfigure(rate: Int32)

  /** The bucket after the first n events. */
  function After(b: Bucket, es: seq<Event>, n: nat): (c: Bucket)
    requires n <= |es| && Accepted(b.maxRate)
    ensures Accepted(c.maxRate)
  {
    if n == 0 then b
    else match es[n - 1]
      case Packet(ms) => AfterPacket(After(b, es, n - 1), ms)
      case Reconfigure(rate) => Reconfigured(After(b, es, n - 1), rate)
  }

  predicate Admitted(b: Bucket, es: seq<Event>, i: nat)
    requires i < |es| && es[i].Packet? && Accepted(b.maxRate)
  {
    Passes(After(b, es, i), es[i].ms)
  }

  /** A fresh limiter: just configured, tokens arbitrary. */
  predicate JustConfigured(b: Bucket) {
    b.lastSeen == 0 && Accepted(b.maxRate)
  }

  /** The clock never goes back. */
  ghost predicate WellTimed(es: seq<Event>) {
    forall i, j | 0 <= i < j < |es| && es[i].Packet? && es[j].Packet? :: es[i].ms <= es[j].ms
  }

  // ----- The reference: a counter for each slot and each configuration -----

  function Config(rate: Int32, es: seq<Event>, n: nat): (r: Int32)
    requires n <= |es| && Accepted(rate)
    ensures Accepted(r)
  {
    if n == 0 then rate
    else if es[n - 1].Reconfigure? && Accepted(es[n - 1].rate) then es[n - 1].rate
    else Config(rate, es, n - 1)
  }

  predicate Arrival(e: Event, slot: Uint64) {
    e.Packet? && Slot(e.ms) == slot
  }

  /** Packets of the slot among the first n events that came under the current configuration. */
  function Prior(es: seq<Event>, n: nat, slot: Uint64): nat
    requires n <= |es|
  {
    if n == 0 || (es[n - 1].Reconfigure? && Accepted(es[n - 1].rate)) then 0
    else Prior(es, n - 1, slot) + if Arrival(es[n - 1], slot) then 1 else 0
  }

  /** Packets of slot 0 among the first n events that came while the limiter was on. */
  function Early(rate: Int32, es: seq<Event>, n: nat): nat
    requires n <= |es| && Accepted(rate)
  {
    if n == 0 then 0
    else Early(rate, es, n - 1) + if Arrival(es[n - 1], 0) && Config(rate, es, n - 1) != DISABLED then 1 else 0
  }

  /** How many of `arrivals` packets of one slot one configuration lets through. */
  function Share(rate: Int32, slot: Uint64, arrivals: nat): nat
    requires Accepted(rate)
  {
    if rate == -1 || slot >= TWO_31 || arrivals <= rate / 10 then arrivals else rate / 10
  }

  /** A packet passes when the limiter is off, when the slot number no longer fits an `int`,
      or when fewer than a tenth of the rate came before it in its slot and configuration. In slot
      0 there is no refill, and what counts is the number of tokens found in memory. */
  predicate ReferenceAdmits(b: Bucket, es: seq<Event>, i: nat)
    requires i < |es| && es[i].Packet? && Accepted(b.maxRate)
  {
    var r := Config(b.maxRate, es, i);
    var slot := Slot(es[i].ms);
    r == -1 || slot >= TWO_31
    || if slot == 0 then Early(b.maxRate, es, i) < b.tokens else Prior(es, i, slot) < r / 10
  }

  // ----- The bucket refines the reference -----

  lemma StoredSlot(slot: Uint64, other: Uint64)
    ensures slot < TWO_31 ==> Stored(slot) == slot
    ensures TWO_31 <= slot <= other < TWO_64 / 100 ==> Stored(slot) != other
  {
    if TWO_31 <= slot {
      assert Stored(slot) < TWO_31 || Stored(slot) >= TWO_64 - TWO_31;
    }
  }

  /** The slot the bucket was last refilled for, under the current configuration. */
  function LastSlot(es: seq<Event>, n: nat): (slot: Uint64)
    requires n <= |es|
  {
    if n == 0 || (es[n - 1].Reconfigure? && Accepted(es[n - 1].rate)) then 0
    else if es[n - 1].Packet? then Slot(es[n - 1].ms)
    else LastSlot(es, n - 1)
  }

  ghost predicate Tracks(b: Bucket, rate: Int32, es: seq<Event>, n: nat)
    requires n <= |es| && Accepted(rate)
  {
    var last := LastSlot(es, n);
    && b.maxRate == Config(rate, es, n)
    && (b.maxRate != DISABLED ==>
          && b.lastSeen == Stored(last)
          && (1 <= last < TWO_31 ==>
                var left := Quota(b.maxRate) - Prior(es, n, last);
                b.tokens == if left > 0 then left else 0))
  }

  lemma {:induction false} LaterSlotIsNew(es: seq<Event>, n: nat, slot: Uint64)
    requires n <= |es|
    requires forall i | 0 <= i < n && es[i].Packet? :: Slot(es[i].ms) < slot
    ensures Prior(es, n, slot) == 0
  {
    if n != 0 && !(es[n - 1].Reconfigure? && Accepted(es[n - 1].rate)) { LaterSlotIsNew(es, n - 1, slot); }
  }

  /** Up to a packet of slot 0 there are no others. */
  lemma NoneAfter(es: seq<Event>, n: nat)
    requires n < |es| && WellTimed(es) && es[n].Packet?
    ensures Slot(es[n].ms) == 0 ==> forall slot: Uint64 | slot > 0 :: Prior(es, n, slot) == 0
  {
    if Slot(es[n].ms) == 0 {
      forall slot: Uint64 | slot > 0 ensures Prior(es, n, slot) == 0 {
        forall i | 0 <= i < n && es[i].Packet? ensures Slot(es[i].ms) < slot {
          SlotsAscend(es, i, n);
        }
        LaterSlotIsNew(es, n, slot);
      }
    }
  }

  /** The packet just before, under the same configuration, is the latest of all. */
  lemma {:induction false} LastSlotIsLatest(es: seq<Event>, n: nat)
    requires n <= |es| && WellTimed(es)
    ensures LastSlot(es, n) == 0 ==> forall slot: Uint64 | slot > 0 :: Prior(es, n, slot) == 0
    ensures LastSlot(es, n) > 0 ==> exists i :: 0 <= i < n && es[i].Packet? && Slot(es[i].ms) == LastSlot(es, n)
                                               && forall j | i < j < n :: !es[j].Packet?
  {
    if n != 0 && !(es[n - 1].Reconfigure? && Accepted(es[n - 1].rate)) {
      if es[n - 1].Packet? { NoneAfter(es, n - 1); } else { LastSlotIsLatest(es, n - 1); }
    }
  }

  /** The slots of earlier packets never exceed that of a later one. */
  lemma SlotsAscend(es: seq<Event>, i: nat, j: nat)
    requires WellTimed(es) && i <= j < |es| && es[i].Packet? && es[j].Packet?
    ensures Slot(es[i].ms) <= Slot(es[j].ms)
  {
    if i < j { assert es[i].ms <= es[j].ms; }
  }

  lemma NewSlotHasNoPrior(es: seq<Event>, n: nat)
    requires n < |es| && WellTimed(es) && es[n].Packet? && LastSlot(es, n) != Slot(es[n].ms)
    requires Slot(es[n].ms) > 0
    ensures Prior(es, n, Slot(es[n].ms)) == 0 && LastSlot(es, n) < Slot(es[n].ms)
  {
    LastSlotIsLatest(es, n);
    if LastSlot(es, n) > 0 {
      var i :| 0 <= i < n && es[i].Packet? && Slot(es[i].ms) == LastSlot(es, n) && forall j | i < j < n :: !es[j].Packet?;
      SlotsAscend(es, i, n);
      forall k | 0 <= k < n && es[k].Packet? ensures Slot(es[k].ms) < Slot(es[n].ms) {
        SlotsAscend(es, k, i);
      }
      LaterSlotIsNew(es, n, Slot(es[n].ms));
    }
  }

  lemma LastSlotBefore(es: seq<Event>, n: nat)
    requires n < |es| && WellTimed(es) && es[n].Packet?
    ensures LastSlot(es, n) <= Slot(es[n].ms)
  {
    LastSlotIsLatest(es, n);
    if LastSlot(es, n) > 0 {
      var i :| 0 <= i < n && es[i].Packet? && Slot(es[i].ms) == LastSlot(es, n) && forall j | i < j < n :: !es[j].Packet?;
      SlotsAscend(es, i, n);
    }
  }

  lemma PacketTracked(b: Bucket, rate: Int32, es: seq<Event>, n: nat)
    requires n < |es| && WellTimed(es) && Accepted(rate) && Tracks(b, rate, es, n) && es[n].Packet?
    ensures Tracks(AfterPacket(b, es[n].ms), rate, es, n + 1)
    ensures Slot(es[n].ms) > 0 ==>
              (Passes(b, es[n].ms)
               <==> Config(rate, es, n) == DISABLED || Slot(es[n].ms) >= TWO_31
                    || Prior(es, n, Slot(es[n].ms)) < Quota(Config(rate, es, n)))
  {
    var slot, last := Slot(es[n].ms), LastSlot(es, n);
    StoredSlot(last, slot);
    StoredSlot(slot, slot);
    LastSlotBefore(es, n);
    if last != slot { NewSlotHasNoPrior(es, n); }
  }

  lemma {:induction false} BucketTracks(b: Bucket, es: seq<Event>, n: nat)
    requires n <= |es| && WellTimed(es) && JustConfigured(b)
    ensures Tracks(After(b, es, n), b.maxRate, es, n)
  {
    if n != 0 {
      BucketTracks(b, es, n - 1);
      if es[n - 1].Packet? { PacketTracked(After(b, es, n - 1), b.maxRate, es, n - 1); }
    }
  }

  /** As long as the clock is in slot 0, the tokens are used up and never refilled. */
  lemma {:induction false} EarlyTokens(b: Bucket, es: seq<Event>, n: nat)
    requires n <= |es| && JustConfigured(b) && forall i | 0 <= i < n && es[i].Packet? :: Slot(es[i].ms) == 0
    ensures var c := After(b, es, n);
            && c.lastSeen == 0 && c.maxRate == Config(b.maxRate, es, n)
            && c.tokens == if b.tokens <= 0 then b.tokens
                           else if Early(b.maxRate, es, n) < b.tokens then b.tokens - Early(b.maxRate, es, n)
                           else 0
  {
    if n != 0 { EarlyTokens(b, es, n - 1); }
  }

  /** On every trace, reconfigurations included, the limiter decides each packet exactly as the
      reference does. */
  lemma LimiterRefinesReference(b: Bucket, es: seq<Event>, i: nat)
    requires JustConfigured(b) && WellTimed(es) && i < |es| && es[i].Packet?
    ensures Admitted(b, es, i) <==> ReferenceAdmits(b, es, i)
  {
    if Slot(es[i].ms) > 0 {
      BucketTracks(b, es, i);
      PacketTracked(After(b, es, i), b.maxRate, es, i);
    } else {
      forall k | 0 <= k < i && es[k].Packet? ensures Slot(es[k].ms) == 0 {
        SlotsAscend(es, k, i);
      }
      EarlyTokens(b, es, i);
    }
  }

  // ----- How many packets pass in a slot -----

  /** Admitted packets of the slot among the first n events. */
  function AdmittedIn(b: Bucket, es: seq<Event>, n: nat, slot: Uint64): nat
    requires n <= |es| && Accepted(b.maxRate)
  {
    if n == 0 then 0
    else AdmittedIn(b, es, n - 1, slot) + if Arrival(es[n - 1], slot) && Admitted(b, es, n - 1) then 1 else 0
  }

  function ArrivalsIn(es: seq<Event>, n: nat, slot: Uint64): nat
    requires n <= |es|
  {
    if n == 0 then 0 else ArrivalsIn(es, n - 1, slot) + if Arrival(es[n - 1], slot) then 1 else 0
  }

  /** The sum, over the configurations in force during the first n events, of the share each
      one lets through of the packets of the slot that came under it. */
  function Shares(rate: Int32, es: seq<Event>, n: nat, slot: Uint64): nat
    requires n <= |es| && Accepted(rate)
  {
    Closed(rate, es, n, slot) + Share(Config(rate, es, n), slot, Prior(es, n, slot))
  }

  /** The part of that sum that belongs to configurations already replaced. */
  function Closed(rate: Int32, es: seq<Event>, n: nat, slot: Uint64): nat
    requires n <= |es| && Accepted(rate)
  {
    if n == 0 then 0
    else if es[n - 1].Reconfigure? && Accepted(es[n - 1].rate) then
      Closed(rate, es, n - 1, slot) + Share(Config(rate, es, n - 1), slot, Prior(es, n - 1, slot))
    else Closed(rate, es, n - 1, slot)
  }

  /** Packets of slot 0 that came while the limiter was off. */
  function EarlyOff(rate: Int32, es: seq<Event>, n: nat): nat
    requires n <= |es| && Accepted(rate)
  {
    if n == 0 then 0
    else EarlyOff(rate, es, n - 1) + if Arrival(es[n - 1], 0) && Config(rate, es, n - 1) == DISABLED then 1 else 0
  }

  /** In slot 0, besides what comes while the limiter is off, as many pass as there were tokens in
      memory, whatever the rates. */
  lemma {:induction false} FirstSlotCount(b: Bucket, es: seq<Event>, n: nat)
    requires JustConfigured(b) && WellTimed(es) && n <= |es|
    ensures var early := Early(b.maxRate, es, n);
            AdmittedIn(b, es, n, 0)
            == EarlyOff(b.maxRate, es, n)
               + if b.tokens <= 0 then 0 else if early <= b.tokens then early else b.tokens
  {
    if n != 0 {
      FirstSlotCount(b, es, n - 1);
      if Arrival(es[n - 1], 0) { LimiterRefinesReference(b, es, n - 1); }
    }
  }

  /** Exactly the shares pass: nothing is lost and nothing more gets through. */
  lemma {:induction false} SlotCountIsExact(b: Bucket, es: seq<Event>, n: nat, slot: Uint64)
    requires JustConfigured(b) && WellTimed(es) && n <= |es| && slot > 0
    ensures AdmittedIn(b, es, n, slot) == Shares(b.maxRate, es, n, slot)
  {
    if n != 0 {
      SlotCountIsExact(b, es, n - 1, slot);
      if Arrival(es[n - 1], slot) { LimiterRefinesReference(b, es, n - 1); }
    }
  }

  /** Quotas of the configurations that saw a packet of the slot. */
  function ActiveQuotas(rate: Int32, es: seq<Event>, n: nat, slot: Uint64): nat
    requires n <= |es| && Accepted(rate)
  {
    if n == 0 then 0
    else
      var r := Config(rate, es, n - 1);
      ActiveQuotas(rate, es, n - 1, slot)
      + if Arrival(es[n - 1], slot) && Prior(es, n - 1, slot) == 0 && r != -1 then r / 10 else 0
  }

  ghost predicate NeverOffIn(rate: Int32, es: seq<Event>, slot: Uint64)
    requires Accepted(rate)
  {
    forall i | 0 <= i < |es| && Arrival(es[i], slot) :: Config(rate, es, i) != DISABLED
  }

  lemma {:induction false} SharesWithinQuotas(rate: Int32, es: seq<Event>, n: nat, slot: Uint64)
    requires Accepted(rate) && n <= |es| && slot < TWO_31 && NeverOffIn(rate, es, slot)
    ensures Closed(rate, es, n, slot) + (if Prior(es, n, slot) == 0 then 0 else Config(rate, es, n) / 10)
            <= ActiveQuotas(rate, es, n, slot)
    ensures Prior(es, n, slot) > 0 ==> Config(rate, es, n) != DISABLED
  {
    if n != 0 {
      SharesWithinQuotas(rate, es, n - 1, slot);
      if Arrival(es[n - 1], slot) { assert Config(rate, es, n - 1) != DISABLED; }
    }
  }

  /** With reconfigurations, a slot admits at most the sum of the quotas active in it. */
  lemma ReconfiguredSlotBound(b: Bucket, es: seq<Event>, slot: Uint64)
    requires JustConfigured(b) && WellTimed(es) && 0 < slot < TWO_31 && NeverOffIn(b.maxRate, es, slot)
    ensures AdmittedIn(b, es, |es|, slot) <= ActiveQuotas(b.maxRate, es, |es|, slot)
  {
    SlotCountIsExact(b, es, |es|, slot);
    SharesWithinQuotas(b.maxRate, es, |es|, slot);
  }

  // ----- One configuration: slots and windows -----

  ghost predicate OnlyPackets(es: seq<Event>) {
    forall e <- es :: e.Packet?
  }

  lemma {:induction false} OneConfiguration(rate: Int32, es: seq<Event>, n: nat, slot: Uint64)
    requires OnlyPackets(es) && n <= |es| && Accepted(rate)
    ensures Config(rate, es, n) == rate && Prior(es, n, slot) == ArrivalsIn(es, n, slot) && Closed(rate, es, n, slot) == 0
  {
    if n != 0 {
      assert es[n - 1] in es;
      OneConfiguration(rate, es, n - 1, slot);
    }
  }

  /** Without reconfiguration a slot admits its arrivals, up to a tenth of the rate, as long as
      the slot number fits an `int`. From slot 2^31 on it admits all of them, so the limit holds
      there exactly for the slots that stay within it anyway. */
  lemma SlotAdmitsTheMinimum(b: Bucket, es: seq<Event>, slot: Uint64)
    requires JustConfigured(b) && b.maxRate != DISABLED && WellTimed(es) && OnlyPackets(es) && slot > 0
    ensures var arrivals, quota := ArrivalsIn(es, |es|, slot), b.maxRate / 10;
            AdmittedIn(b, es, |es|, slot) == if slot < 0x8000_0000 && quota < arrivals then quota else arrivals
    ensures AdmittedIn(b, es, |es|, slot) <= b.maxRate / 10
            <==> slot < 0x8000_0000 || ArrivalsIn(es, |es|, slot) <= b.maxRate / 10
  {
    SlotCountIsExact(b, es, |es|, slot);
    OneConfiguration(b.maxRate, es, |es|, slot);
  }

  /** Admitted packets with from <= ms < until among the first n events. */
  function AdmittedBetween(b: Bucket, es: seq<Event>, n: nat, from: nat, until: nat): nat
    requires n <= |es| && Accepted(b.maxRate)
  {
    if n == 0 then 0
    else
      AdmittedBetween(b, es, n - 1, from, until)
      + if es[n - 1].Packet? && from <= es[n - 1].ms < until && Admitted(b, es, n - 1) then 1 else 0
  }

  /** The slots first, first + 1, .., first + k - 1 taken together. */
  function AdmittedInSlots(b: Bucket, es: seq<Event>, n: nat, first: nat, k: nat): nat
    requires n <= |es| && Accepted(b.maxRate) && first + k <= TWO_31
  {
    if k == 0 then 0 else AdmittedInSlots(b, es, n, first, k - 1) + AdmittedIn(b, es, n, first + k - 1)
  }

  lemma {:induction false} SlotsCover(b: Bucket, es: seq<Event>, n: nat, first: nat, k: nat)
    requires 0 < n <= |es| && Accepted(b.maxRate) && first + k <= TWO_31
    ensures AdmittedInSlots(b, es, n, first, k)
            == AdmittedInSlots(b, es, n - 1, first, k)
               + if es[n - 1].Packet? && first <= Slot(es[n - 1].ms) < first + k && Admitted(b, es, n - 1) then 1 else 0
  {
    if k != 0 { SlotsCover(b, es, n, first, k - 1); }
  }

  lemma {:induction false} NothingYet(b: Bucket, es: seq<Event>, first: nat, k: nat)
    requires Accepted(b.maxRate) && first + k <= TWO_31
    ensures AdmittedInSlots(b, es, 0, first, k) == 0
  {
    if k != 0 { NothingYet(b, es, first, k - 1); }
  }

  lemma {:induction false} WindowWithinSlots(b: Bucket, es: seq<Event>, n: nat, from: nat, until: nat, first: nat, k: nat)
    requires n <= |es| && Accepted(b.maxRate) && first + k <= TWO_31
    requires first * 100 <= from && until <= (first + k) * 100
    ensures AdmittedBetween(b, es, n, from, until) <= AdmittedInSlots(b, es, n, first, k)
    ensures first * 100 == from && until == (first + k) * 100 ==>
              AdmittedBetween(b, es, n, from, until) == AdmittedInSlots(b, es, n, first, k)
  {
    if n == 0 {
      NothingYet(b, es, first, k);
    } else {
      WindowWithinSlots(b, es, n - 1, from, until, first, k);
      SlotsCover(b, es, n, first, k);
    }
  }

  lemma OneMore(k: nat, q: nat)
    requires k > 0
    ensures k * q == (k - 1) * q + q
  {
  }

  lemma Larger(k: nat, m: nat, q: nat)
    requires k <= m
    ensures k * q <= m * q
  {
  }

  lemma SlotsOfWindow(from: nat, w: nat)
    requires w > 0
    ensures var first, last := from / SLOT_MS, (from + w - 1) / SLOT_MS;
            first <= last && first * 100 <= from && from + w <= (last + 1) * 100
            && last - first <= (w + 98) / 100
  {
  }

  lemma {:induction false} SlotsBound(b: Bucket, es: seq<Event>, first: nat, k: nat)
    requires JustConfigured(b) && b.maxRate != DISABLED && WellTimed(es) && OnlyPackets(es)
    requires first > 0 && first + k <= TWO_31
    ensures AdmittedInSlots(b, es, |es|, first, k) <= k * (b.maxRate / 10)
  {
    if k != 0 {
      SlotsBound(b, es, first, k - 1);
      SlotAdmitsTheMinimum(b, es, first + k - 1);
      OneMore(k, b.maxRate / 10);
    }
  }

  /** In any window of w milliseconds after slot 0 at most ((w + 98) / 100 + 1) tenths of the rate pass. */
  lemma WindowBound(b: Bucket, es: seq<Event>, from: nat, w: nat)
    requires JustConfigured(b) && b.maxRate != DISABLED && WellTimed(es) && OnlyPackets(es)
    requires w > 0 && 100 <= from && from + w <= 0x8000_0000 * 100
    ensures AdmittedBetween(b, es, |es|, from, from + w) <= ((w + 98) / 100 + 1) * (b.maxRate / 10)
  {
    var first, last := from / SLOT_MS, (from + w - 1) / SLOT_MS;
    var k := last - first + 1;
    SlotsOfWindow(from, w);
    WindowWithinSlots(b, es, |es|, from, from + w, first, k);
    SlotsBound(b, es, first, k);
    Larger(k, (w + 98) / 100 + 1, b.maxRate / 10);
  }

  /** In any ten consecutive slots, one second of clock, no more pass than the configured rate. */
  lemma TenSlotsBound(b: Bucket, es: seq<Event>, first: nat)
    requires JustConfigured(b) && b.maxRate != DISABLED && WellTimed(es) && OnlyPackets(es)
    requires 0 < first && first + 10 <= 0x8000_0000
    ensures AdmittedBetween(b, es, |es|, first * 100, first * 100 + 1000) <= b.maxRate
  {
    WindowWithinSlots(b, es, |es|, first * 100, first * 100 + 1000, first, 10);
    SlotsBound(b, es, first, 10);
  }

  /** Packets with from <= ms < until among the first n events. */
  function ArrivedBetween(es: seq<Event>, n: nat, from: nat, until: nat): nat
    requires n <= |es|
  {
    if n == 0 then 0
    else ArrivedBetween(es, n - 1, from, until) + if es[n - 1].Packet? && from <= es[n - 1].ms < until then 1 else 0
  }

  /** The packets of the 100 ms of a slot. */
  function ArrivedIn(es: seq<Event>, slot: nat): nat {
    ArrivedBetween(es, |es|, slot * 100, slot * 100 + 100)
  }

  lemma {:induction false} ArrivedInSlot(es: seq<Event>, n: nat, slot: Uint64)
    requires n <= |es|
    ensures ArrivedBetween(es, n, slot * 100, slot * 100 + 100) == ArrivalsIn(es, n, slot)
  {
    if n != 0 { ArrivedInSlot(es, n - 1, slot); }
  }

  /** In each of the k slots from `first` on at least a tenth of the rate arrives. */
  ghost predicate Busy(b: Bucket, es: seq<Event>, first: nat, k: nat) {
    forall slot | first <= slot < first + k :: ArrivedIn(es, slot) >= b.maxRate / 10
  }

  lemma {:induction false} BusySlots(b: Bucket, es: seq<Event>, first: nat, k: nat)
    requires JustConfigured(b) && b.maxRate != DISABLED && WellTimed(es) && OnlyPackets(es)
    requires first > 0 && first + k <= TWO_31 && Busy(b, es, first, k)
    ensures AdmittedInSlots(b, es, |es|, first, k) == k * (b.maxRate / 10)
  {
    if k != 0 {
      BusySlots(b, es, first, k - 1);
      var slot := first + k - 1;
      assert ArrivedIn(es, slot) >= b.maxRate / 10;
      ArrivedInSlot(es, |es|, slot);
      SlotAdmitsTheMinimum(b, es, slot);
      OneMore(k, b.maxRate / 10);
    }
  }

  /** The limit is not only kept but reached: if in each of ten consecutive slots a tenth of the rate or
      more arrives, the whole rate passes in that second, but for what the division cuts off. */
  lemma TenBusySlots(b: Bucket, es: seq<Event>, first: nat)
    requires JustConfigured(b) && b.maxRate != DISABLED && WellTimed(es) && OnlyPackets(es)
    requires 0 < first && first + 10 <= 0x8000_0000 && Busy(b, es, first, 10)
    ensures var n := AdmittedBetween(b, es, |es|, first * 100, first * 100 + 1000);
            n == b.maxRate - b.maxRate % 10 && b.maxRate - 10 < n
  {
    WindowWithinSlots(b, es, |es|, first * 100, first * 100 + 1000, first, 10);
    BusySlots(b, es, first, 10);
  }

  // ----- Traces that exceed the limit -----

  /** The slot number 2^31 no longer fits: one packet more than the quota passes, and so on. */
  lemma LateSlotIsUnlimited(tokens: Int32, n: nat)
    ensures var b, es := Bucket(0, tokens, 10), seq(n, _ => Packet(0x8000_0000 * 100));
            && JustConfigured(b) && WellTimed(es) && OnlyPackets(es)
            && AdmittedIn(b, es, n, 0x8000_0000) == n
  {
    var b, es := Bucket(0, tokens, 10), seq(n, _ => Packet(0x8000_0000 * 100));
    AllArrive(es, n, TWO_31);
    SlotAdmitsTheMinimum(b, es, TWO_31);
  }

  lemma {:induction false} AllArrive(es: seq<Event>, n: nat, slot: Uint64)
    requires n <= |es| && forall i | 0 <= i < n :: Arrival(es[i], slot)
    ensures ArrivalsIn(es, n, slot) == n
  {
    if n != 0 { AllArrive(es, n - 1, slot); }
  }

  /** A reconfiguration to the same rate within a slot lets its quota through once more. */
  lemma SlotWithTwoQuotas(tokens: Int32)
    ensures var b, es := Bucket(0, tokens, 10), [Packet(100), Reconfigure(10), Packet(199)];
            && JustConfigured(b) && WellTimed(es) && NeverOffIn(b.maxRate, es, 1)
            && AdmittedIn(b, es, 3, 1) == 2 == ActiveQuotas(b.maxRate, es, 3, 1)
  {
    var b, es := Bucket(0, tokens, 10), [Packet(100), Reconfigure(10), Packet(199)];
    assert Arrival(es[0], 1) && !Arrival(es[1], 1) && Arrival(es[2], 1);
    assert Config(b.maxRate, es, 0) == Config(b.maxRate, es, 1) == Config(b.maxRate, es, 2) == 10;
    assert Prior(es, 0, 1) == 0 && Prior(es, 2, 1) == 0;
    LimiterRefinesReference(b, es, 0);
    LimiterRefinesReference(b, es, 2);
    assert AdmittedIn(b, es, 1, 1) == 1 && AdmittedIn(b, es, 2, 1) == 1;
    assert ActiveQuotas(b.maxRate, es, 1, 1) == 1 && ActiveQuotas(b.maxRate, es, 2, 1) == 1;
  }
}
