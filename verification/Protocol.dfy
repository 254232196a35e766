/**
 The slot protocol, write by write.

 Every operation on a slot is a fixed sequence of writes to its control record.
 `XPrefix(s, k, ...)` is the record after the first `k` of them, so that a
 component killed at any instruction of operation X leaves `XPrefix(s, k, ...)`
 for some `k`, and a completed operation leaves `XPrefix(s, X_STEPS, ...)`.
 The recovery code is modelled by the functions that repair such a record.
 */
module Protocol {
  import opened Model

  // ---------------------------------------------------------------- allocate

  const ALLOCATE_STEPS := 30

  datatype AllocateArgs = AllocateArgs(
    component: Component, epoch: u32, parent: u64, region: Region,
    hopLimit: u32, now: u64, duration: u64, id: u64)

  /** A relative deadline that cannot be represented is no deadline. */
  function DeadlineFrom(now: u64, duration: u64): u64 {
    if duration == 0 || duration >= DEADLINE_NONE - now then DEADLINE_NONE
    else now + duration
  }

  /** A buffer with a relative deadline expires exactly when more than that time
      has passed; one without, or with one beyond the clock, never does. */
  lemma DeadlineMeaning(s: Slot, now: u64, duration: u64, later: u64)
    requires s.deadline == DeadlineFrom(now, duration)
    ensures Expired(s, later) <==> duration != 0 && now + duration < DEADLINE_NONE && later > now + duration
  {
  }

  function EffectiveHopLimit(limit: u32): u32 {
    if limit != 0 then limit else HOP_LIMIT_UNLIMITED
  }

  function AllocatePrefix(s: Slot, k: nat, a: AllocateArgs): Slot {
    Slot(
      state := if k < 2 then s.state else if k < 29 then Claiming else Owned,
      generation := if k < 3 then s.generation else NextGeneration(s.generation),
      owner := if k < 4 then s.owner else a.component,
      nextOwner := if k < 5 then s.nextOwner else NO_COMPONENT,
      ownerEpoch := if k < 6 then s.ownerEpoch else a.epoch,
      hopCount := if k < 7 then s.hopCount else 1,
      hopLimit := if k < 8 then s.hopLimit else EffectiveHopLimit(a.hopLimit),
      visited := if k < 9 then s.visited else if k < 10 then {} else {a.component},
      id := if k < 11 then s.id else if k < 28 then 0 else a.id,
      parent := if k < 12 then s.parent else a.parent,
      region := Region(if k < 13 then s.region.offset else a.region.offset,
                       if k < 14 then s.region.length else a.region.length),
      sequence := if k < 15 then s.sequence else 0,
      acquired := if k < 16 then s.acquired else a.now,
      deadline := if k < 17 then s.deadline else DeadlineFrom(a.now, a.duration),
      token := if k < 1 || 30 <= k then s.token
               else Token(Allocate, a.component, a.epoch),
      prevSequence := if k < 18 then s.prevSequence else 0,
      prevRegion := if k < 19 then s.prevRegion else EMPTY_REGION,
      prevOwner := if k < 20 then s.prevOwner else NO_COMPONENT,
      prevEpoch := if k < 21 then s.prevEpoch else 0,
      linkId := if k < 22 then s.linkId else 0,
      sourceId := if k < 23 then s.sourceId else NO_COMPONENT,
      sourceEpoch := if k < 24 then s.sourceEpoch else 0,
      sourceHops := if k < 25 then s.sourceHops else 0,
      sourceAcquired := if k < 26 then s.sourceAcquired else 0,
      sourceVisited := if k < 27 then s.sourceVisited else {})
  }

  const FREE_STEPS := 5

  /** The writes that give a claimed slot back to the pool. */
  function FreePrefix(s: Slot, k: nat): Slot {
    s.(owner := if k < 1 then s.owner else NO_COMPONENT,
       nextOwner := if k < 2 then s.nextOwner else NO_COMPONENT,
       region := if k < 3 then s.region else EMPTY_REGION,
       state := if k < 4 then s.state else Free,
       token := if k < 5 then s.token else NoToken)
  }

  const ALLOCATE_FAIL_STEPS := 32

  /** An allocation whose buffer ID could not be drawn gives the slot back. */
  function AllocateFailPrefix(s: Slot, k: nat, a: AllocateArgs): Slot {
    if k < 28 then AllocatePrefix(s, k, a) else FreePrefix(AllocatePrefix(s, 27, a), k - 27)
  }

  /** A claim that is given up: the slot returns to the pool. */
  function FreeClaim(s: Slot): Slot {
    s.(owner := NO_COMPONENT, nextOwner := NO_COMPONENT, region := EMPTY_REGION,
       state := Free, token := NoToken)
  }

  // -------------------------------------------------------------------- send

  const SEND_STEPS := 13

  /** What a send tests before it takes the claim. */
  function SendGuard(s: Slot, generation: u32, c: Component, e: u32): Status {
    if s.state != Owned then InvalidState
    else if s.generation != generation then StaleHandle
    else if s.owner != c || s.ownerEpoch != e then NotOwner
    else Ok
  }

  predicate Expired(s: Slot, now: u64) {
    s.deadline != DEADLINE_NONE && now > s.deadline
  }

  predicate HopsExhausted(s: Slot) {
    s.hopLimit != HOP_LIMIT_UNLIMITED && s.hopCount >= s.hopLimit
  }

  function SendPrefix(s: Slot, k: nat, next: Component, link: u64): Slot {
    s.(
      prevSequence := if k < 1 then s.prevSequence else s.sequence,
      token := if k < 2 || 13 <= k then s.token
               else Token(Send, s.owner, s.ownerEpoch),
      state := if k < 3 then s.state else if k < 12 then Claiming else Transfer,
      nextOwner := if k < 4 then s.nextOwner else next,
      linkId := if k < 5 then s.linkId else link,
      sourceId := if k < 6 then s.sourceId else s.owner,
      sourceEpoch := if k < 7 then s.sourceEpoch else s.ownerEpoch,
      sourceHops := if k < 8 then s.sourceHops else s.hopCount,
      sourceAcquired := if k < 9 then s.sourceAcquired else s.acquired,
      sourceVisited := if k < 10 then s.sourceVisited else s.visited,
      sequence := if k < 11 then s.sequence else Inc32(s.sequence))
  }

  const SEND_ABORT_STEPS := 5

  /** A send refused after its claim: it publishes OWNED again and clears. */
  function SendAbortPrefix(s: Slot, k: nat): Slot {
    s.(
      prevSequence := if k < 1 then s.prevSequence else s.sequence,
      token := if k < 2 || 5 <= k then s.token
               else Token(Send, s.owner, s.ownerEpoch),
      state := if k == 3 then Claiming else s.state)
  }

  // ---------------------------------------------------------------- rollback

  const ROLLBACK_STEPS := 8

  /** An unpublished send taken back by the component `c` that made it. */
  function RollbackPrefix(s: Slot, k: nat, c: Component, e: u32): Slot {
    s.(
      prevSequence := if k < 1 then s.prevSequence else Dec32(s.sequence),
      token := if k < 2 || 8 <= k then s.token else Token(Rollback, c, e),
      state := if k < 3 then s.state else if k < 7 then Claiming else Owned,
      nextOwner := if k < 4 then s.nextOwner else NO_COMPONENT,
      sequence := if k < 5 then s.sequence else Dec32(s.sequence),
      owner := if k < 6 then s.owner else c)
  }

  // ----------------------------------------------------------------- receive

  const RECEIVE_STEPS := 10

  /** A claim may start on an empty token or take over a sender's leftover. */
  predicate ReceiveMayStart(s: Slot) {
    s.state == Transfer && (s.token.NoToken? || s.token.kind == Send)
  }

  /** What a receiver tests while it holds the claim. */
  function ReceiveGuard(s: Slot, m: Message, receiver: Component, now: u64): Status {
    if s.generation != m.generation then StaleHandle
    else if s.owner != m.source || s.nextOwner != receiver then InvalidReceiver
    else if s.sequence != m.sequence then SequenceMismatch
    else if Expired(s, now) then Deadline
    else if HopsExhausted(s) then HopLimit
    else Ok
  }

  function ReceivePrefix(s: Slot, k: nat, c: Component, e: u32, now: u64): Slot {
    s.(
      token := if k < 1 then s.token else if k < 10 then Token(Receive, c, e) else NoToken,
      state := if k < 2 then s.state else if k < 9 then Claiming else Owned,
      owner := if k < 3 then s.owner else c,
      nextOwner := if k < 4 then s.nextOwner else NO_COMPONENT,
      ownerEpoch := if k < 5 then s.ownerEpoch else e,
      hopCount := if k < 6 then s.hopCount else Inc32(s.sourceHops),
      visited := if k < 7 then s.visited else s.visited + {c},
      acquired := if k < 8 then s.acquired else now)
  }

  const RECEIVE_ABORT_STEPS := 4

  /** A claim refused by its guard: it publishes TRANSFER again and clears. */
  function ReceiveAbortPrefix(s: Slot, k: nat, c: Component, e: u32): Slot {
    s.(
      token := if k < 1 then s.token else if k < 4 then Token(Receive, c, e) else NoToken,
      state := if k == 2 then Claiming else s.state)
  }

  // ----------------------------------------------------------------- release

  const RELEASE_STEPS := 11

  function ReleasePrefix(s: Slot, k: nat): Slot {
    s.(
      prevRegion := if k < 1 then s.prevRegion else s.region,
      prevOwner := if k < 2 then s.prevOwner else s.owner,
      prevEpoch := if k < 3 then s.prevEpoch else s.ownerEpoch,
      token := if k < 4 || 11 <= k then s.token
               else Token(Release, s.owner, s.ownerEpoch),
      state := if k < 5 then s.state else if k < 10 then Claiming else Free,
      owner := if k < 6 then s.owner else NO_COMPONENT,
      nextOwner := if k < 7 then s.nextOwner else NO_COMPONENT,
      region := Region(if k < 8 then s.region.offset else 0,
                       if k < 9 then s.region.length else 0))
  }

  // ------------------------------------------------------- region and limits

  const REGION_STEPS := 2

  /** The owner moves the data window: two stores, without a claim. */
  function RegionPrefix(s: Slot, k: nat, r: Region): Slot {
    s.(region := Region(if k < 1 then s.region.offset else r.offset, if k < 2 then s.region.length else r.length))
  }

  /** A window that is moved by a call killed between its two stores fits the slot
      if and only if the new offset and the old length do. */
  lemma TornWindowFits(s: Slot, r: Region, capacity: u32)
    ensures Fits(RegionPrefix(s, 1, r).region, capacity) <==> r.offset + s.region.length <= capacity
    ensures Fits(s.region, capacity) ==> Fits(RegionPrefix(s, 0, r).region, capacity)
    ensures Fits(r, capacity) ==> Fits(RegionPrefix(s, 2, r).region, capacity)
  {
  }

  /** Such a window that does not fit: sixteen bytes at the start of a slot of
      sixteen, of which the owner was trimming four off the front. */
  lemma TornWindowExample(s: Slot)
    requires s.region == Region(0, 16)
    ensures Fits(s.region, 16) && Fits(Region(4, 12), 16) && !Fits(RegionPrefix(s, 1, Region(4, 12)).region, 16)
  {
  }

  const LIMITS_STEPS := 2

  /** The owner edits hop limit and deadline. */
  function LimitsPrefix(s: Slot, k: nat, limit: u32, deadline: u64): Slot {
    s.(hopLimit := if k < 1 then s.hopLimit else EffectiveHopLimit(limit),
       deadline := if k < 2 then s.deadline else if deadline != 0 then deadline else DEADLINE_NONE)
  }

  // ------------------------------------------------------------------ repair

  /** The repair of a receive that died while it held the claim. */
  function UndoReceive(s: Slot, component: Component): Slot {
    s.(owner := s.sourceId, nextOwner := component, ownerEpoch := s.sourceEpoch,
       hopCount := s.sourceHops, acquired := s.sourceAcquired,
       visited := s.sourceVisited, token := NoToken, state := Transfer)
  }

  /** The repair of a send or a rollback that died while it held the claim. */
  function UndoSend(s: Slot): Slot {
    s.(sequence := s.prevSequence, nextOwner := NO_COMPONENT,
       token := NoToken, state := Owned)
  }

  /** The repair of a release that died while it held the claim. */
  function UndoRelease(s: Slot): Slot {
    s.(owner := s.prevOwner, ownerEpoch := s.prevEpoch, region := s.prevRegion,
       nextOwner := NO_COMPONENT, token := NoToken, state := Owned)
  }

  /** A buffer of the dead epoch passes to the epoch that replaces it. */
  function Adopt(s: Slot, epoch: u32, now: u64): Slot {
    s.(generation := NextGeneration(s.generation), ownerEpoch := epoch,
       acquired := now)
  }

  /** What the restart scan makes of one slot, before it decides on adoption. */
  function ScanRepair(s: Slot, c: Component, dead: u32): Slot {
    if !TokenOf(s.token, c, dead) then s
    else match s.state
      case Free => s.(token := NoToken)
      case Transfer => if s.token.kind == Receive then s.(token := NoToken) else s
      case Claiming =>
        (match s.token.kind
         case Receive => UndoReceive(s, c)
         case Allocate => FreeClaim(s)
         case Send => UndoSend(s)
         case Rollback => UndoSend(s)
         case Release => UndoRelease(s))
      case Owned => s.(token := NoToken)
      case Error => s
  }

  predicate Adoptable(s: Slot, c: Component, dead: u32) {
    s.state == Owned && s.owner == c && s.ownerEpoch == dead
  }

  /** One slot of the restart scan, adoption included. */
  function ScanSlot(s: Slot, c: Component, dead: u32, epoch: u32, now: u64): Slot {
    var r := ScanRepair(s, c, dead);
    if Adoptable(r, c, dead) then Adopt(r, epoch, now) else r
  }

  /** What reconciliation of a consumer link makes of one slot. */
  function ReconcileConsumerSlot(s: Slot, c: Component, dead: u32): Slot {
    if !TokenOf(s.token, c, dead) || s.token.kind != Receive then s
    else if s.state == Transfer then s.(token := NoToken)
    else if s.state == Claiming then UndoReceive(s, c)
    else s
  }

  /** What reconciliation of a producer link makes of one slot. */
  function ReconcileProducerSlot(s: Slot, c: Component, dead: u32): Slot {
    if !TokenOf(s.token, c, dead) then s
    else if s.state == Claiming && (s.token.kind == Send || s.token.kind == Rollback) then UndoSend(s)
    else if s.state == Transfer && s.token.kind == Rollback then s.(token := NoToken)
    else s
  }

  /** Whether reconciliation of a producer link publishes the slot again. */
  predicate Republishes(s: Slot, c: Component, dead: u32, remote: Component, link: u64) {
    s.state == Transfer && s.owner == c && s.ownerEpoch == dead &&
    s.nextOwner == remote && s.linkId == link
  }

  /** The descriptor of a slot in transfer. */
  function Descriptor(s: Slot, i: nat, poolId: u32): Message {
    Message(i, s.generation, poolId, s.owner, s.nextOwner, s.sequence)
  }

  /** Push with duplicate suppression, as the ring does it when it has room. */
  function Pushed(q: seq<Message>, m: Message): seq<Message> {
    if m in q then q else q + [m]
  }

  /** The drain of a reconciled consumer link stops at this descriptor. */
  predicate LooksCurrent(slots: seq<Slot>, m: Message) {
    m.slot < |slots| && slots[m.slot].state == Transfer && slots[m.slot].generation == m.generation
  }

  // ------------------------------------------------- exactness of the repair

  /** The part of the record that says who owns what: all but the scratch fields. */
  datatype Ownership = Ownership(
    state: SlotState, generation: u32, owner: Component, nextOwner: Component,
    epoch: u32, hopCount: u32, hopLimit: u32, visited: set<Component>,
    id: u64, parent: u64, region: Region, sequence: u32, acquired: u64,
    deadline: u64, token: Token)

  function OwnershipOf(s: Slot): Ownership {
    Ownership(s.state, s.generation, s.owner, s.nextOwner, s.ownerEpoch,
              s.hopCount, s.hopLimit, s.visited, s.id, s.parent, s.region,
              s.sequence, s.acquired, s.deadline, s.token)
  }

  /** The saved copy agrees with the record, as send publishes it. */
  predicate SourceSaved(s: Slot) {
    s.sourceId == s.owner && s.sourceEpoch == s.ownerEpoch &&
    s.sourceHops == s.hopCount && s.sourceAcquired == s.acquired &&
    s.sourceVisited == s.visited
  }

  /** A published send leaves the copy that the undo of a receive needs. */
  lemma SendSavesSource(s: Slot, next: Component, link: u64)
    ensures var t := SendPrefix(s, SEND_STEPS, next, link);
            t.state == Transfer && SourceSaved(t) && t.nextOwner == next && t.linkId == link
  {
  }

  /**
   A receive killed anywhere inside its claim is undone exactly if and only if
   the slot was addressed to the component that is restarted: the repair does
   not save the addressee, it writes the restarted component.
   */
  lemma ReceiveUndoneExactly(s: Slot, k: nat, c: Component, e: u32, now: u64)
    requires ReceiveMayStart(s) && SourceSaved(s)
    requires 2 <= k < 9
    ensures var t := ReceivePrefix(s, k, c, e, now);
            t.state == Claiming && t.token == Token(Receive, c, e) &&
            (OwnershipOf(ScanRepair(t, c, e)) == OwnershipOf(s.(token := NoToken)) <==> s.nextOwner == c)
  {
    var t := ReceivePrefix(s, k, c, e, now);
    assert OwnershipOf(ScanRepair(t, c, e)).nextOwner == c;
  }

  /** The same for a claim refused by its guard and killed before it lets go. */
  lemma RefusedReceiveUndoneExactly(s: Slot, c: Component, e: u32)
    requires ReceiveMayStart(s) && SourceSaved(s)
    ensures var t := ReceiveAbortPrefix(s, 2, c, e);
            OwnershipOf(ScanRepair(t, c, e)) == OwnershipOf(s.(token := NoToken)) <==> s.nextOwner == c
  {
    var t := ReceiveAbortPrefix(s, 2, c, e);
    assert OwnershipOf(ScanRepair(t, c, e)).nextOwner == c;
  }

  /** A claim given up after a failed page protection writes the window before it
      publishes FREE. Killed in between it is undone exactly if and only if the
      kill comes before that write, or there was no window to lose. */
  lemma GivenUpReceiveUndoneExactly(s: Slot, k: nat, c: Component, e: u32, now: u64)
    requires ReceiveMayStart(s) && SourceSaved(s) && k < 4
    ensures var t := FreePrefix(ReceivePrefix(s, 8, c, e, now), k);
            && t.state == Claiming && t.token == Token(Receive, c, e)
            && (OwnershipOf(ScanRepair(t, c, e)) == OwnershipOf(s.(token := NoToken)) <==>
                  s.nextOwner == c && (k < 3 || s.region == EMPTY_REGION))
            && (k == 3 ==> ScanRepair(t, c, e).state == Transfer && ScanRepair(t, c, e).region == EMPTY_REGION)
  {
    var t := FreePrefix(ReceivePrefix(s, 8, c, e, now), k);
    assert OwnershipOf(ScanRepair(t, c, e)).nextOwner == c;
    assert OwnershipOf(ScanRepair(t, c, e)).region == if k < 3 then s.region else EMPTY_REGION;
  }

  /** A send killed anywhere inside its claim is undone exactly. */
  lemma SendUndoneExactly(s: Slot, k: nat, next: Component, link: u64)
    requires s.state == Owned && s.token.NoToken? && s.nextOwner == NO_COMPONENT
    requires 3 <= k < 12
    ensures var t := SendPrefix(s, k, next, link);
            t.state == Claiming && t.token == Token(Send, s.owner, s.ownerEpoch) &&
            OwnershipOf(ScanRepair(t, s.owner, s.ownerEpoch)) == OwnershipOf(s)
  {
  }

  lemma Dec32AfterInc32(x: u32)
    ensures Dec32(Inc32(x)) == x && Inc32(Dec32(x)) == x
  {
  }

  /** A completed rollback, and any one killed inside its claim and repaired,
      gives back the record the send started from. */
  lemma RollbackUndoesSend(s: Slot, k: nat, next: Component, link: u64)
    requires s.state == Owned && s.token.NoToken? && s.nextOwner == NO_COMPONENT
    requires 3 <= k <= ROLLBACK_STEPS
    ensures var t := RollbackPrefix(SendPrefix(s, SEND_STEPS, next, link), k, s.owner, s.ownerEpoch);
            OwnershipOf(ScanRepair(t, s.owner, s.ownerEpoch)) == OwnershipOf(s)
  {
    Dec32AfterInc32(s.sequence);
  }

  /** A release killed anywhere inside its claim is undone exactly. */
  lemma ReleaseUndoneExactly(s: Slot, k: nat)
    requires s.state == Owned && s.token.NoToken? && s.nextOwner == NO_COMPONENT
    requires 5 <= k < 10
    ensures var t := ReleasePrefix(s, k);
            t.state == Claiming && t.token == Token(Release, s.owner, s.ownerEpoch) &&
            OwnershipOf(ScanRepair(t, s.owner, s.ownerEpoch)) == OwnershipOf(s)
  {
  }

  /** Before adoption the two recovery scans repair a claim alike. */
  lemma RepairsAgree(s: Slot, c: Component, dead: u32)
    requires s.state == Claiming && TokenOf(s.token, c, dead)
    ensures s.token.kind == Receive ==> ReconcileConsumerSlot(s, c, dead) == ScanRepair(s, c, dead)
    ensures s.token.kind == Send || s.token.kind == Rollback ==>
              ReconcileProducerSlot(s, c, dead) == ScanRepair(s, c, dead)
  {
  }

  /**
   The other half: a receiver `c` that takes up a descriptor of its own, `mine`,
   for a slot that is addressed to `d`, is refused; killed inside the claim and
   repaired, it takes the buffer away from `d`, whose descriptor `theirs` was good.
   */
  lemma MisdirectedRepair(s: Slot, mine: Message, theirs: Message, c: Component, e: u32, d: Component, now: u64)
    requires ReceiveMayStart(s) && SourceSaved(s) && c != d
    requires mine.destination == c && theirs.destination == d && ReceiveGuard(s, theirs, d, now) == Ok
    ensures ReceiveGuard(s, mine, c, now) == (if mine.generation != s.generation then StaleHandle else InvalidReceiver)
    ensures var t := ScanRepair(ReceiveAbortPrefix(s, 2, c, e), c, e);
            ReceiveGuard(t, theirs, d, now) == InvalidReceiver &&
            ReceiveGuard(t, theirs.(destination := c), c, now) == Ok
  {
  }

  /** Such a slot: sent by component 1 to component 2, claimed by component 3. */
  lemma MisdirectedExample()
    ensures var s := Slot(Transfer, 5, 1, 2, 1, 1, HOP_LIMIT_UNLIMITED, {1}, 9, 0, EMPTY_REGION, 1, 0, DEADLINE_NONE,
                          NoToken, 0, EMPTY_REGION, NO_COMPONENT, 0, 7, 1, 1, 1, 0, {1});
            ScanRepair(ReceiveAbortPrefix(s, 2, 3, 4), 3, 4).nextOwner == 3 != s.nextOwner
  {
  }
}
