/**
 What the two quiesced sweeps and the restart scan make of a slot table, slot by
 slot, as relations between the table before and after.
 */
module RecoverySpecs {
  import opened Model
  import opened Protocol
  import opened CallSpecs

  // ------------------------------------------------------------ owner sweep

  predicate OldEnough(s: Slot, now: u64, age: u64) {
    age == 0 || (now >= s.acquired && now - s.acquired >= age)
  }

  /** The slots that the sweep of a dead epoch is for. */
  predicate Abandoned(s: Slot, c: Component, dead: u32, now: u64, age: u64) {
    (s.state == Owned || s.state == Transfer) && s.owner == c && s.ownerEpoch == dead && OldEnough(s, now, age)
  }

  function Swept(s: Slot): Slot {
    s.(owner := NO_COMPONENT, nextOwner := NO_COMPONENT, region := EMPTY_REGION, state := Free)
  }

  function SweepSlot(s: Slot, c: Component, dead: u32, now: u64, age: u64): Slot {
    if Abandoned(s, c, dead, now, age) then Swept(s) else s
  }

  /** The table after the sweep has passed the slots below `stop`. */
  ghost predicate OwnerSwept(slots: seq<Slot>, after: seq<Slot>, stop: nat, c: Component, dead: u32, now: u64, age: u64) {
    && |after| == |slots| && stop <= |slots|
    && (forall i :: 0 <= i < stop ==> after[i] == SweepSlot(slots[i], c, dead, now, age))
    && (forall i :: stop <= i < |slots| ==> after[i] == slots[i])
  }

  function SweptCount(slots: seq<Slot>, state: SlotState, c: Component, dead: u32, now: u64, age: u64): nat {
    if slots == [] then 0
    else
      var s := slots[|slots| - 1];
      SweptCount(slots[..|slots| - 1], state, c, dead, now, age) +
      (if Abandoned(s, c, dead, now, age) && s.state == state then 1 else 0)
  }

  /** A sweep that stopped at a failing slot and is run again ends where one
      uninterrupted sweep ends. */
  lemma OwnerSweepRetried(slots: seq<Slot>, mid: seq<Slot>, after: seq<Slot>, stop: nat,
                          c: Component, dead: u32, now: u64, age: u64)
    requires ValidComponent(c)
    requires OwnerSwept(slots, mid, stop, c, dead, now, age) && OwnerSwept(mid, after, |mid|, c, dead, now, age)
    ensures OwnerSwept(slots, after, |slots|, c, dead, now, age)
  {
    forall i | 0 <= i < |slots| ensures after[i] == SweepSlot(slots[i], c, dead, now, age) {
      assert i < stop ==> mid[i] == SweepSlot(slots[i], c, dead, now, age);
    }
  }

  /**
   The owner sweep does not look at the claim token. A buffer it frees can be
   allocated again if and only if no token was left in the slot.
   */
  lemma SweptUsableIff(s: Slot, c: Component, dead: u32, now: u64, age: u64)
    requires Abandoned(s, c, dead, now, age)
    ensures SweepSlot(s, c, dead, now, age).state == Free
    ensures Takeable(SweepSlot(s, c, dead, now, age)) <==> s.token.NoToken?
  {
  }

  /** Such a token: a sender killed between its TRANSFER store and the clearing of
      its token, and swept, leaves a slot that is FREE and cannot be allocated. */
  lemma KilledSendSwept(s: Slot, next: Component, link: u64, now: u64)
    requires s.state == Owned && s.token.NoToken?
    ensures var t := SendPrefix(s, 12, next, link);
            && Abandoned(t, s.owner, s.ownerEpoch, now, 0)
            && var u := SweepSlot(t, s.owner, s.ownerEpoch, now, 0);
            && u.state == Free && !Takeable(u) && TokenOf(u.token, s.owner, s.ownerEpoch)
  {
  }

  /** After a complete sweep the allocator answers NO_BUFFER if and only if every
      slot was in use and not swept, or has a token that was left in it. */
  lemma SweptPoolExhausted(slots: seq<Slot>, after: seq<Slot>, start: nat, c: Component, dead: u32, now: u64, age: u64)
    requires 0 < |slots| < U32 && start < |slots| && start + |slots| <= U32
    requires OwnerSwept(slots, after, |slots|, c, dead, now, age)
    ensures FirstTakeable(after, start, 0) == |after| <==>
              forall i :: 0 <= i < |slots| ==>
                !Takeable(slots[i]) && (Abandoned(slots[i], c, dead, now, age) ==> slots[i].token.Token?)
  {
    NoBufferExact(after, start);
    forall i | 0 <= i < |slots|
      ensures Takeable(after[i]) <==>
                Takeable(slots[i]) || (Abandoned(slots[i], c, dead, now, age) && slots[i].token.NoToken?)
    {
      assert after[i] == SweepSlot(slots[i], c, dead, now, age);
    }
  }

  /** So a pool whose every buffer was being sent when the sender was killed is,
      once swept, FREE throughout and has no buffer to give. */
  lemma FreePoolWithoutBuffers(slots: seq<Slot>, next: Component, link: u64, after: seq<Slot>, start: nat,
                               c: Component, dead: u32, now: u64)
    requires 0 < |slots| < U32 && start < |slots| && start + |slots| <= U32 && |after| == |slots|
    requires forall i :: 0 <= i < |slots| ==>
               slots[i].state == Owned && slots[i].owner == c && slots[i].ownerEpoch == dead && slots[i].token.NoToken?
    requires OwnerSwept(seq(|slots|, i requires 0 <= i < |slots| => SendPrefix(slots[i], 12, next, link)), after, |slots|,
                        c, dead, now, 0)
    ensures forall i :: 0 <= i < |slots| ==> after[i].state == Free
    ensures FirstTakeable(after, start, 0) == |after|
  {
    var killed := seq(|slots|, i requires 0 <= i < |slots| => SendPrefix(slots[i], 12, next, link));
    forall i | 0 <= i < |slots|
      ensures Abandoned(killed[i], c, dead, now, 0) && killed[i].token.Token? && after[i].state == Free
    {
      KilledSendSwept(slots[i], next, link, now);
      assert after[i] == SweepSlot(killed[i], c, dead, now, 0);
    }
    SweptPoolExhausted(killed, after, start, c, dead, now, 0);
  }

  /** The restart scan makes such a slot usable if and only if it is the scan of the
      runtime that left the token; the claim sweep passes a FREE slot by. */
  lemma LeftTokenCleared(s: Slot, c: Component, e: u32)
    requires s.state == Free && s.token.Token?
    ensures Takeable(ScanRepair(s, c, e)) <==> TokenOf(s.token, c, e)
    ensures ScrubSlot(s) == s
  {
  }

  // ------------------------------------------------------------ claim sweep

  /** An abandoned claim leaves nothing but the generation behind. */
  function Scrubbed(s: Slot): Slot {
    Slot(Free, s.generation, NO_COMPONENT, NO_COMPONENT, 0, 0, 0, {}, 0, 0, EMPTY_REGION, 0, 0, 0, NoToken,
         0, EMPTY_REGION, NO_COMPONENT, 0, 0, NO_COMPONENT, 0, 0, 0, {})
  }

  function ScrubSlot(s: Slot): Slot {
    if s.state == Claiming then Scrubbed(s) else s
  }

  ghost predicate ClaimsSwept(slots: seq<Slot>, after: seq<Slot>, stop: nat) {
    && |after| == |slots| && stop <= |slots|
    && (forall i :: 0 <= i < stop ==> after[i] == ScrubSlot(slots[i]))
    && (forall i :: stop <= i < |slots| ==> after[i] == slots[i])
  }

  function ClaimCount(slots: seq<Slot>): nat {
    if slots == [] then 0
    else ClaimCount(slots[..|slots| - 1]) + (if slots[|slots| - 1].state == Claiming then 1 else 0)
  }

  /** The same for the claim sweep: no claim is left, and every slot of a claim
      can be allocated again. */
  lemma ClaimSweepRetried(slots: seq<Slot>, mid: seq<Slot>, after: seq<Slot>, stop: nat)
    requires ClaimsSwept(slots, mid, stop) && ClaimsSwept(mid, after, |mid|)
    ensures ClaimsSwept(slots, after, |slots|)
    ensures forall i :: 0 <= i < |slots| ==>
              after[i].state != Claiming && after[i].generation == slots[i].generation &&
              (slots[i].state == Claiming ==> after[i].state == Free && after[i].token.NoToken?)
  {
    forall i | 0 <= i < |slots| ensures after[i] == ScrubSlot(slots[i]) {
      assert i < stop ==> mid[i] == ScrubSlot(slots[i]);
    }
  }

  lemma {:induction false} ClaimCountNext(slots: seq<Slot>, i: nat)
    requires i < |slots|
    ensures ClaimCount(slots[..i + 1]) == ClaimCount(slots[..i]) + (if slots[i].state == Claiming then 1 else 0)
  {
    assert slots[..i + 1][..i] == slots[..i];
  }

  lemma {:induction false} SweptCountNext(slots: seq<Slot>, i: nat, state: SlotState,
                                          c: Component, dead: u32, now: u64, age: u64)
    requires i < |slots|
    ensures SweptCount(slots[..i + 1], state, c, dead, now, age) ==
            SweptCount(slots[..i], state, c, dead, now, age) +
            (if Abandoned(slots[i], c, dead, now, age) && slots[i].state == state then 1 else 0)
  {
    assert slots[..i + 1][..i] == slots[..i];
  }

  // ------------------------------------------------------- misdirected repair

  /**
   How a receiver comes to hold the claim of a slot addressed to another one. A
   transfer to `c` is swept with its dead sender, the slot is allocated again and
   sent to `d`, and `c` takes up the old descriptor, which still is in its ring.
   The claim is refused as stale; a kill inside it and the repair of `c` then
   take the new buffer away from `d`.
   */
  lemma MisdirectedBySweep(s: Slot, i: nat, poolId: u32, c: Component, e: u32, d: Component, a: AllocateArgs,
                           link: u64, now: u64, later: u64)
    requires s.state == Transfer && s.token.NoToken? && s.nextOwner == c && c != d
    requires a.duration == 0 && a.hopLimit != 1
    ensures var old_ := Descriptor(s, i, poolId);
            var free := SweepSlot(s, s.owner, s.ownerEpoch, now, 0);
            var sent := SendPrefix(AllocatePrefix(free, ALLOCATE_STEPS, a), SEND_STEPS, d, link);
            var new_ := Descriptor(sent, i, poolId);
            var repaired := ScanRepair(ReceiveAbortPrefix(sent, 2, c, e), c, e);
            && old_.destination == c && new_.destination == d
            && Takeable(free) && ReceiveMayStart(sent) && SourceSaved(sent)
            && ReceiveGuard(sent, old_, c, later) == StaleHandle && ReceiveGuard(sent, new_, d, later) == Ok
            && ReceiveGuard(repaired, new_, d, later) == InvalidReceiver && repaired.nextOwner == c
  {
    var free := SweepSlot(s, s.owner, s.ownerEpoch, now, 0);
    assert free == Swept(s);
    NextGenerationDiffers(s.generation);
  }

  lemma NextGenerationDiffers(g: u32)
    ensures NextGeneration(g) != g
  {
  }

  // ------------------------------------------------------------ restart scan

  /** The slot cannot be repaired while its page protection fails. */
  predicate Blocked(s: Slot, c: Component, dead: u32) {
    s.state == Claiming && TokenOf(s.token, c, dead) && (s.token.kind == Receive || s.token.kind == Allocate)
  }

  /** The slots from `from` to `to` repaired, and none of them adopted. */
  ghost predicate Repaired(slots: seq<Slot>, after: seq<Slot>, from: nat, to: nat, c: Component, dead: u32) {
    && |after| == |slots| && from <= to <= |slots|
    && (forall i :: from <= i < to ==>
          after[i] == ScanRepair(slots[i], c, dead) && !Adoptable(after[i], c, dead))
  }

  /** Repairing a repaired slot changes nothing: an interrupted scan is resumed. */
  lemma RepairTwice(s: Slot, c: Component, dead: u32)
    ensures ScanRepair(ScanRepair(s, c, dead), c, dead) == ScanRepair(s, c, dead)
  {
  }

  /** A buffer of the dead epoch whose window does not fit is found again as it is,
      but for its time stamp, by every later call of the scan. */
  lemma OverflowRepeats(s: Slot, c: Component, dead: u32, capacity: u32, now: u64)
    requires Adoptable(ScanRepair(s, c, dead), c, dead) && !Fits(ScanRepair(s, c, dead).region, capacity)
    ensures var t := ScanRepair(s, c, dead).(acquired := now);
            ScanRepair(t, c, dead) == t && Adoptable(t, c, dead) && !Fits(t.region, capacity)
  {
  }

  /** A slot that was adopted is not adopted again. */
  lemma AdoptedOnce(s: Slot, c: Component, dead: u32, now: u64, later: u64)
    requires dead + 1 < U32
    ensures var t := ScanSlot(s, c, dead, dead + 1, now);
            ScanSlot(t, c, dead, dead + 1, later) == t
  {
  }
}
