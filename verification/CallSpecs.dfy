/**
 What each call of the slot protocol answers, and what it makes of its slot when
 it is killed after `k` writes: every branch of the call, refusals included.
 `protects` says whether the page protection of the slot succeeds.
 */
module CallSpecs {
  import opened Model
  import opened Protocol

  /** The two writes that end every claim. */
  function Published(s: Slot, k: int, state: SlotState): Slot {
    s.(state := if k < 1 then s.state else state, token := if k < 2 then s.token else NoToken)
  }

  // ---------------------------------------------------------------- allocate

  /** The slot the allocator looks at in turn `n` of its scan. */
  function Visit(start: nat, n: nat, count: nat): (i: nat)
    requires count > 0
    ensures i < count
  {
    (start + n) % U32 % count
  }

  predicate Takeable(s: Slot) {
    s.state == Free && s.token.NoToken?
  }

  /** The first turn from `n` on whose slot can be taken, or the slot count. */
  function FirstTakeable(slots: seq<Slot>, start: nat, n: nat): (m: nat)
    requires |slots| > 0 && n <= |slots|
    ensures n <= m <= |slots|
    ensures forall j :: n <= j < m ==> !Takeable(slots[Visit(start, j, |slots|)])
    ensures m < |slots| ==> Takeable(slots[Visit(start, m, |slots|)])
    decreases |slots| - n
  {
    if n == |slots| || Takeable(slots[Visit(start, n, |slots|)]) then n
    else FirstTakeable(slots, start, n + 1)
  }

  ghost predicate Visited(start: nat, count: nat, i: nat)
    requires count > 0
  {
    exists n :: 0 <= n < count && Visit(start, n, count) == i
  }

  lemma SmallRemainder(i: nat, count: nat)
    requires i < count
    ensures i % count == i && (i + count) % count == i
  {
  }

  lemma VisitedWithoutWrap(start: nat, count: nat, i: nat)
    requires start < count < U32 && start + count <= U32 && i < count
    ensures Visited(start, count, i)
  {
    var n := if i >= start then i - start else i + count - start;
    SmallRemainder(i, count);
    assert Visit(start, n, count) == i;
  }

  lemma VisitWithoutWrap(start: nat, count: nat, n: nat)
    requires start < count < U32 && start + count <= U32 && n < count
    ensures Visit(start, n, count) == if start + n < count then start + n else start + n - count
  {
    var p := start + n;
    SmallRemainder(if p < count then p else p - count, count);
  }

  lemma VisitMisses(start: nat, count: nat, n: nat)
    requires start < count < U32 && start + count > U32 && n < count
    ensures Visit(start, n, count) != start - 1
  {
    var p := start + n;
    if p < U32 {
      SmallRemainder(if p < count then p else p - count, count);
    } else {
      assert p % U32 == p - U32;
      SmallRemainder(p - U32, count);
    }
  }

  /**
   The scan looks at every slot exactly when its last position does not wrap
   around the 32-bit index, and then once at each; otherwise it never looks at
   the slot before `start`.
   */
  lemma ScanCoversAll(start: nat, count: nat)
    requires start < count < U32
    ensures (forall i :: 0 <= i < count ==> Visited(start, count, i)) <==> start + count <= U32
    ensures start + count > U32 ==> !Visited(start, count, start - 1)
    ensures start + count <= U32 ==>
              forall n, m | 0 <= n < m < count :: Visit(start, n, count) != Visit(start, m, count)
  {
    if start + count <= U32 {
      forall i | 0 <= i < count ensures Visited(start, count, i) {
        VisitedWithoutWrap(start, count, i);
      }
      forall n, m | 0 <= n < m < count ensures Visit(start, n, count) != Visit(start, m, count) {
        VisitWithoutWrap(start, count, n);
        VisitWithoutWrap(start, count, m);
      }
    } else if Visited(start, count, start - 1) {
      var n :| 0 <= n < count && Visit(start, n, count) == start - 1;
      VisitMisses(start, count, n);
    }
  }

  /** The scan finds nothing exactly when none of the slots it looks at can be taken. */
  lemma NothingVisited(slots: seq<Slot>, start: nat)
    requires |slots| > 0
    ensures FirstTakeable(slots, start, 0) == |slots| <==>
              forall i :: 0 <= i < |slots| && Visited(start, |slots|, i) ==> !Takeable(slots[i])
  {
    var m := FirstTakeable(slots, start, 0);
    if m < |slots| {
      assert Visited(start, |slots|, Visit(start, m, |slots|));
    }
  }

  /** A pool without a takeable slot, and only such a pool, has no buffer to
      give, as long as the scan does not wrap: in every pool of at most 2^31 slots. */
  lemma NoBufferExact(slots: seq<Slot>, start: nat)
    requires 0 < |slots| < U32 && start < |slots| && start + |slots| <= U32
    ensures FirstTakeable(slots, start, 0) == |slots| <==> forall i :: 0 <= i < |slots| ==> !Takeable(slots[i])
  {
    NothingVisited(slots, start);
    ScanCoversAll(start, |slots|);
  }

  /** In a larger pool a scan that wraps reports no buffer although one is free. */
  lemma WrappedScanMisses(slots: seq<Slot>, start: nat)
    requires 0 < |slots| < U32 && start < |slots| && start + |slots| > U32
    requires forall i :: 0 <= i < |slots| ==> (Takeable(slots[i]) <==> i == start - 1)
    ensures FirstTakeable(slots, start, 0) == |slots| && Takeable(slots[start - 1])
  {
    NothingVisited(slots, start);
    ScanCoversAll(start, |slots|);
  }

  /** The writes of an allocation that clear what the last buffer's transfers left. */
  function ClearedPrefix(s: Slot, k: nat, a: AllocateArgs): Slot {
    s.(sequence := if k < 15 then s.sequence else 0,
       acquired := if k < 16 then s.acquired else a.now,
       deadline := if k < 17 then s.deadline else DeadlineFrom(a.now, a.duration),
       prevSequence := if k < 18 then s.prevSequence else 0,
       prevRegion := if k < 19 then s.prevRegion else EMPTY_REGION,
       prevOwner := if k < 20 then s.prevOwner else NO_COMPONENT,
       prevEpoch := if k < 21 then s.prevEpoch else 0,
       linkId := if k < 22 then s.linkId else 0,
       sourceId := if k < 23 then s.sourceId else NO_COMPONENT,
       sourceEpoch := if k < 24 then s.sourceEpoch else 0,
       sourceHops := if k < 25 then s.sourceHops else 0,
       sourceAcquired := if k < 26 then s.sourceAcquired else 0,
       sourceVisited := if k < 27 then s.sourceVisited else {})
  }

  function AllocateSteps(drawn: bool, protects: bool): nat {
    if !drawn then ALLOCATE_FAIL_STEPS else if !protects then ALLOCATE_FAIL_STEPS + 1 else ALLOCATE_STEPS
  }

  function AllocateSlot(s: Slot, k: nat, a: AllocateArgs, drawn: bool, protects: bool): Slot {
    if !drawn then AllocateFailPrefix(s, k, a)
    else if !protects && k > 28 then FreePrefix(AllocatePrefix(s, 28, a), k - 28)
    else AllocatePrefix(s, k, a)
  }

  /** A failed allocation leaves the slot takeable, one generation on. */
  lemma FailedAllocationGivesBack(s: Slot, a: AllocateArgs, drawn: bool, protects: bool)
    requires Takeable(s) && !(drawn && protects)
    ensures var t := AllocateSlot(s, AllocateSteps(drawn, protects), a, drawn, protects);
            Takeable(t) && t.owner == NO_COMPONENT && t.generation == NextGeneration(s.generation)
  {
  }

  // -------------------------------------------------------------------- send

  /** The writes of a send from its fourth on. */
  function TransferPrefix(s: Slot, k: nat, next: Component, link: u64): Slot {
    s.(nextOwner := if k < 4 then s.nextOwner else next,
       linkId := if k < 5 then s.linkId else link,
       sourceId := if k < 6 then s.sourceId else s.owner,
       sourceEpoch := if k < 7 then s.sourceEpoch else s.ownerEpoch,
       sourceHops := if k < 8 then s.sourceHops else s.hopCount,
       sourceAcquired := if k < 9 then s.sourceAcquired else s.acquired,
       sourceVisited := if k < 10 then s.sourceVisited else s.visited,
       sequence := if k < 11 then s.sequence else Inc32(s.sequence),
       state := if k < 12 then s.state else Transfer,
       token := if k < 13 then s.token else NoToken)
  }

  function PrepareStatus(s: Slot, generation: u32, c: Component, e: u32, now: u64, protects: bool): Status {
    if SendGuard(s, generation, c, e) != Ok then SendGuard(s, generation, c, e)
    else if s.token.Token? then InvalidState
    else if Expired(s, now) then Deadline
    else if HopsExhausted(s) then HopLimit
    else if !protects then Platform
    else Ok
  }

  function PrepareSlot(s: Slot, k: nat, generation: u32, c: Component, e: u32, next: Component, link: u64,
                       now: u64, protects: bool): Slot
  {
    if SendGuard(s, generation, c, e) != Ok then s
    else if s.token.Token? then (if k < 1 then s else s.(prevSequence := s.sequence))
    else if PrepareStatus(s, generation, c, e, now, protects) != Ok then SendAbortPrefix(s, k)
    else SendPrefix(s, k, next, link)
  }

  // ---------------------------------------------------------------- rollback

  predicate RollbackMatches(s: Slot, c: Component, remote: Component, m: Message) {
    s.generation == m.generation && s.owner == c && s.nextOwner == remote && s.sequence == m.sequence
  }

  function RollbackStatus(s: Slot, c: Component, remote: Component, m: Message, protects: bool): Status {
    if s.state != Transfer || s.token.Token? || !RollbackMatches(s, c, remote, m) then RecoveryRequired
    else if !protects then Platform
    else Ok
  }

  function RollbackAbortPrefix(s: Slot, k: nat, c: Component, e: u32, m: Message): Slot {
    s.(prevSequence := if k < 1 then s.prevSequence else Dec32(m.sequence),
       token := if k < 2 || 5 <= k then s.token else Token(Rollback, c, e),
       state := if k == 3 then Claiming else s.state)
  }

  /** A rollback whose protection fails stops inside its claim. */
  function RollbackSlot(s: Slot, k: nat, c: Component, e: u32, remote: Component, m: Message, protects: bool): Slot {
    if s.state != Transfer then s
    else if s.token.Token? then (if k < 1 then s else s.(prevSequence := Dec32(m.sequence)))
    else if !RollbackMatches(s, c, remote, m) then RollbackAbortPrefix(s, k, c, e, m)
    else RollbackPrefix(s, if !protects && k > 6 then 6 else k, c, e)
  }

  /** A whole send: prepared, and taken back when the ring is full. */
  function SendSlot(s: Slot, k: nat, generation: u32, c: Component, e: u32, next: Component, link: u64, now: u64,
                    protects: bool, full: bool, reopens: bool, i: nat, poolId: u32): Slot
  {
    if PrepareStatus(s, generation, c, e, now, protects) == Ok && full && k > SEND_STEPS then
      var t := SendPrefix(s, SEND_STEPS, next, link);
      RollbackSlot(t, k - SEND_STEPS, c, e, next, Descriptor(t, i, poolId), reopens)
    else PrepareSlot(s, k, generation, c, e, next, link, now, protects)
  }

  // ----------------------------------------------------------------- receive

  /** The metadata writes of a receive, without the claim around them. */
  function ReceiverPrefix(s: Slot, k: int, c: Component, e: u32, now: u64): Slot {
    s.(owner := if k < 1 then s.owner else c,
       nextOwner := if k < 2 then s.nextOwner else NO_COMPONENT,
       ownerEpoch := if k < 3 then s.ownerEpoch else e,
       hopCount := if k < 4 then s.hopCount else Inc32(s.sourceHops),
       visited := if k < 5 then s.visited else s.visited + {c},
       acquired := if k < 6 then s.acquired else now)
  }

  function ClaimStatus(s: Slot, m: Message, c: Component, now: u64, capacity: u32, protects: bool): Status {
    if !ReceiveMayStart(s) then InvalidState
    else if ReceiveGuard(s, m, c, now) != Ok then ReceiveGuard(s, m, c, now)
    else if !protects then Platform
    else if !Fits(s.region, capacity) then RegionOverflow
    else Ok
  }

  function ClaimSteps(s: Slot, m: Message, c: Component, now: u64, capacity: u32, protects: bool): nat {
    if !ReceiveMayStart(s) then 0
    else if ReceiveGuard(s, m, c, now) != Ok then RECEIVE_ABORT_STEPS
    else if ClaimStatus(s, m, c, now, capacity, protects) != Ok then 8 + FREE_STEPS
    else RECEIVE_STEPS
  }

  function ClaimSlot(s: Slot, k: nat, m: Message, c: Component, e: u32, now: u64, capacity: u32, protects: bool): Slot {
    if !ReceiveMayStart(s) then s
    else if ReceiveGuard(s, m, c, now) != Ok then ReceiveAbortPrefix(s, k, c, e)
    else if ClaimStatus(s, m, c, now, capacity, protects) != Ok && k > 8 then
      FreePrefix(ReceivePrefix(s, 8, c, e, now), k - 8)
    else ReceivePrefix(s, k, c, e, now)
  }

  // ----------------------------------------------------------------- release

  /** The writes of a release from its sixth on. */
  function FreedPrefix(s: Slot, k: nat): Slot {
    s.(owner := if k < 6 then s.owner else NO_COMPONENT,
       nextOwner := if k < 7 then s.nextOwner else NO_COMPONENT,
       region := Region(if k < 8 then s.region.offset else 0, if k < 9 then s.region.length else 0),
       state := if k < 10 then s.state else Free,
       token := if k < 11 then s.token else NoToken)
  }

  function ReleaseStatus(s: Slot, generation: u32, c: Component, e: u32, protects: bool): Status {
    if s.generation != generation then StaleHandle
    else if s.state != Owned then InvalidState
    else if s.owner != c || s.ownerEpoch != e then NotOwner
    else if s.token.Token? then InvalidState
    else if !protects then Platform
    else Ok
  }

  /** A release whose protection fails: it publishes OWNED again and clears. */
  function ReleaseAbortPrefix(s: Slot, k: nat): Slot {
    s.(prevRegion := if k < 1 then s.prevRegion else s.region,
       prevOwner := if k < 2 then s.prevOwner else s.owner,
       prevEpoch := if k < 3 then s.prevEpoch else s.ownerEpoch,
       token := if k < 4 || 7 <= k then s.token else Token(Release, s.owner, s.ownerEpoch),
       state := if k == 5 then Claiming else s.state)
  }

  function ReleaseSlot(s: Slot, k: nat, generation: u32, c: Component, e: u32, protects: bool): Slot {
    if s.generation != generation || s.state != Owned || s.owner != c || s.ownerEpoch != e then s
    else if s.token.Token? then ReleaseAbortPrefix(s, if k < 3 then k else 3)
    else if !protects then ReleaseAbortPrefix(s, k)
    else ReleasePrefix(s, k)
  }

  // ------------------------------------------------- refusals change nothing

  /** The writes of a completed call: more than any call makes. */
  const ALL := 64

  lemma CompleteClaim(s: Slot, k: nat, m: Message, c: Component, e: u32, now: u64, capacity: u32, protects: bool)
    requires k >= ClaimSteps(s, m, c, now, capacity, protects)
    ensures ClaimSlot(s, k, m, c, e, now, capacity, protects) == ClaimSlot(s, ALL, m, c, e, now, capacity, protects)
  {
  }

  /** A call that is refused leaves the ownership of the slot as it was. */
  lemma RefusedCallsKeepOwnership(s: Slot, generation: u32, c: Component, e: u32, next: Component, link: u64,
                                  now: u64, protects: bool)
    ensures PrepareStatus(s, generation, c, e, now, protects) != Ok ==>
              OwnershipOf(PrepareSlot(s, ALL, generation, c, e, next, link, now, protects)) == OwnershipOf(s)
    ensures ReleaseStatus(s, generation, c, e, protects) != Ok ==>
              OwnershipOf(ReleaseSlot(s, ALL, generation, c, e, protects)) == OwnershipOf(s)
  {
  }

  /** A refused claim clears a sender's leftover token, and changes nothing else,
      exactly if its protection did not fail and the window fits; otherwise it
      frees the buffer. */
  lemma RefusedClaimKeepsTransfer(s: Slot, m: Message, c: Component, e: u32, now: u64, capacity: u32, protects: bool)
    requires ClaimStatus(s, m, c, now, capacity, protects) != Ok
    ensures var t := ClaimSlot(s, ALL, m, c, e, now, capacity, protects);
            if ReceiveMayStart(s) && ReceiveGuard(s, m, c, now) == Ok then Takeable(t)
            else t == s || t == s.(token := NoToken)
  {
  }

  /** A send that is taken back at once leaves the ownership as it was, exactly
      if the protection of the slot succeeds; otherwise the slot stays claimed. */
  lemma SendThenRollback(s: Slot, c: Component, e: u32, next: Component, link: u64, i: nat, poolId: u32, protects: bool)
    requires s.state == Owned && s.owner == c && s.ownerEpoch == e && s.token.NoToken? && s.nextOwner == NO_COMPONENT
    ensures var t := SendPrefix(s, SEND_STEPS, next, link);
            var m := Descriptor(t, i, poolId);
            && (RollbackStatus(t, c, next, m, protects) == Ok <==> protects)
            && (OwnershipOf(RollbackSlot(t, ALL, c, e, next, m, protects)) == OwnershipOf(s) <==> protects)
            && (!protects ==> RollbackSlot(t, ALL, c, e, next, m, protects).state == Claiming)
  {
    Dec32AfterInc32(s.sequence);
  }
}
