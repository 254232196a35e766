/**
 What each call demands of the record it works on and what it answers otherwise,
 said on the fields of the record; and that a call changes only what is its own.
 */
module Guards {
  import opened Model
  import opened Protocol
  import opened CallSpecs
  import opened RecoverySpecs
  import opened Lifecycle
  import opened SlotPool
  import opened Links
  import opened Restart
  import BufferIds
  import RunModel
  import Refinement

  /** Identifiers 1 to 254 name components. */
  lemma ComponentsExact(c: Component)
    ensures ValidComponent(c) <==> 1 <= c <= 254
  {
  }

  // ---------------------------------------------------------------- allocate

  /** The record of a new buffer: the caller's, at its first hop, under the limits
      and in the window it asked for, with nothing left of the last buffer. */
  lemma AllocatedRecord(s: Slot, a: AllocateArgs)
    requires Takeable(s)
    ensures AllocatePrefix(s, ALLOCATE_STEPS, a) ==
              Slot(Owned, if s.generation == 0xFFFF_FFFF then 1 else s.generation + 1,
                   a.component, 0xFFFF, a.epoch,
                   1, if a.hopLimit == 0 then 0xFFFF_FFFF else a.hopLimit, {a.component},
                   a.id, a.parent, Region(a.region.offset, a.region.length), 0, a.now,
                   if a.duration == 0 || a.now + a.duration >= 0xFFFF_FFFF_FFFF_FFFF then 0xFFFF_FFFF_FFFF_FFFF
                   else a.now + a.duration,
                   NoToken, 0, Region(0, 0), 0xFFFF, 0, 0, 0xFFFF, 0, 0, 0, {})
  {
  }

  lemma TakeableExact(s: Slot)
    ensures Takeable(s) <==> s.state == Free && s.token == NoToken
  {
  }

  /** An allocation is tried if and only if it is asked for by a component, with a
      usable parent or none, for a window inside the slot. */
  lemma AllocationAllowedExact(pool: Pool, a: AllocateArgs)
    ensures pool.AllocationAllowed(a) <==>
              && 1 <= a.component <= 254 && a.region.offset + a.region.length <= pool.capacity
              && (a.parent == 0 || BufferIds.IdValid(a.parent))
  {
  }

  /** A buffer allocated with hop limit `n` is sent on if and only if it has been
      owned fewer than `n` times; one allocated without is never refused for it. */
  lemma LimitStopsSend(s: Slot, a: AllocateArgs, t: Slot, now: u64, protects: bool)
    requires Takeable(s) && t.state == Owned && t.token.NoToken? && !Expired(t, now)
    requires t.hopLimit == AllocatePrefix(s, ALLOCATE_STEPS, a).hopLimit
    ensures PrepareStatus(t, t.generation, t.owner, t.ownerEpoch, now, protects) == HopLimit <==>
              0 < a.hopLimit < 0xFFFF_FFFF && t.hopCount >= a.hopLimit
    ensures a.hopLimit == 1 ==>
              var u := AllocatePrefix(s, ALLOCATE_STEPS, a);
              PrepareStatus(u, u.generation, a.component, a.epoch, a.now, protects) == HopLimit
  {
  }

  /** A buffer allocated with a relative deadline is refused by send and by receive
      exactly when more than that time has passed. */
  lemma DeadlineStopsTransfer(s: Slot, a: AllocateArgs, t: Slot, m: Message, later: u64, capacity: u32, protects: bool)
    requires Takeable(s) && t.deadline == AllocatePrefix(s, ALLOCATE_STEPS, a).deadline && t.token.NoToken?
    ensures t.state == Owned ==>
              (PrepareStatus(t, t.generation, t.owner, t.ownerEpoch, later, protects) == Deadline <==>
                 a.duration != 0 && a.now + a.duration < 0xFFFF_FFFF_FFFF_FFFF && later > a.now + a.duration)
    ensures t.state == Transfer && m.generation == t.generation && m.source == t.owner && m.sequence == t.sequence ==>
              (ClaimStatus(t, m, t.nextOwner, later, capacity, protects) == Deadline <==>
                 a.duration != 0 && a.now + a.duration < 0xFFFF_FFFF_FFFF_FFFF && later > a.now + a.duration)
  {
    DeadlineMeaning(t, a.now, a.duration, later);
  }

  /** The limits an owner edits are the ones that are tested from then on. */
  lemma EditedLimits(s: Slot, limit: u32, deadline: u64, later: u64)
    ensures var t := LimitsPrefix(s, LIMITS_STEPS, limit, deadline);
            && t == s.(hopLimit := t.hopLimit, deadline := t.deadline)
            && (HopsExhausted(t) <==> 0 < limit < 0xFFFF_FFFF && s.hopCount >= limit)
            && (Expired(t, later) <==> 0 < deadline < 0xFFFF_FFFF_FFFF_FFFF && later > deadline)
  {
  }

  /** A claim without an epoch of its own carries the registered one, or zero. */
  lemma StampExact(pool: Pool, a: AllocateArgs)
    requires pool.Valid()
    ensures var t := pool.Stamped(a);
            && t.(epoch := a.epoch) == a && (a.epoch != 0 ==> t.epoch == a.epoch)
            && (a.epoch == 0 ==>
                  t.epoch == if 1 <= a.component <= 254 && pool.components[a.component].life != Inactive
                             then pool.components[a.component].epoch else 0)
  {
  }

  // -------------------------------------------------------------------- send

  /** The caller's buffer, by handle, owner and epoch. */
  predicate Its(s: Slot, generation: u32, c: Component, e: u32) {
    s.state == Owned && s.generation == generation && s.owner == c && s.ownerEpoch == e
  }

  lemma SendAnswers(s: Slot, generation: u32, c: Component, e: u32, now: u64, protects: bool)
    ensures var status := PrepareStatus(s, generation, c, e, now, protects);
            var late := s.deadline != 0xFFFF_FFFF_FFFF_FFFF && now > s.deadline;
            var spent := s.hopLimit != 0xFFFF_FFFF && s.hopCount >= s.hopLimit;
            var free := Its(s, generation, c, e) && s.token == NoToken;
            && (status == Ok <==> free && !late && !spent && protects)
            && (status == InvalidState <==> s.state != Owned || (Its(s, generation, c, e) && s.token != NoToken))
            && (status == StaleHandle <==> s.state == Owned && s.generation != generation)
            && (status == NotOwner <==>
                  s.state == Owned && s.generation == generation && (s.owner != c || s.ownerEpoch != e))
            && (status == Deadline <==> free && late)
            && (status == HopLimit <==> free && !late && spent)
            && (status == Platform <==> free && !late && !spent && !protects)
  {
  }

  /** A send changes nobody else's slot, at whatever write it is killed; and it
      publishes a transfer if and only if it answers Ok. */
  lemma SendChangesItsOwn(s: Slot, k: nat, generation: u32, c: Component, e: u32, next: Component, link: u64,
                          now: u64, protects: bool)
    ensures PrepareSlot(s, k, generation, c, e, next, link, now, protects) != s ==> Its(s, generation, c, e)
    ensures s.state == Owned ==>
              (PrepareSlot(s, ALL, generation, c, e, next, link, now, protects).state == Transfer <==>
                 PrepareStatus(s, generation, c, e, now, protects) == Ok)
  {
  }

  /** The record of a published transfer, and the descriptor that announces it. */
  lemma SentRecord(s: Slot, next: Component, link: u64, i: nat, poolId: u32)
    requires s.token.NoToken?
    ensures var t := SendPrefix(s, SEND_STEPS, next, link);
            && t == s.(state := Transfer, nextOwner := next, linkId := link, prevSequence := s.sequence,
                       sequence := if s.sequence == 0xFFFF_FFFF then 0 else s.sequence + 1,
                       sourceId := s.owner, sourceEpoch := s.ownerEpoch, sourceHops := s.hopCount,
                       sourceAcquired := s.acquired, sourceVisited := s.visited)
            && Descriptor(t, i, poolId) ==
                 Message(i, s.generation, poolId, s.owner, next, if s.sequence == 0xFFFF_FFFF then 0 else s.sequence + 1)
  {
  }

  // ---------------------------------------------------------------- rollback

  lemma RollbackAnswers(s: Slot, c: Component, remote: Component, m: Message, protects: bool)
    ensures var status := RollbackStatus(s, c, remote, m, protects);
            var matches := s.state == Transfer && s.token == NoToken && s.generation == m.generation && s.owner == c &&
                           s.nextOwner == remote && s.sequence == m.sequence;
            && (status == Ok <==> matches && protects)
            && (status == Platform <==> matches && !protects)
            && (status == RecoveryRequired <==> !matches)
  {
  }

  /** A rollback gives the buffer to nobody but its sender, and only the transfer it names. */
  lemma RollbackGivesBack(s: Slot, k: nat, c: Component, e: u32, remote: Component, m: Message, protects: bool)
    requires s.state == Transfer
    ensures var t := RollbackSlot(s, k, c, e, remote, m, protects);
            t.state == Owned ==>
              && s.owner == t.owner == c && s.nextOwner == remote && s.generation == m.generation
              && s.sequence == m.sequence && t.ownerEpoch == s.ownerEpoch && protects
  {
  }

  // ----------------------------------------------------------------- receive

  lemma ClaimAnswers(s: Slot, m: Message, c: Component, now: u64, capacity: u32, protects: bool)
    ensures var status := ClaimStatus(s, m, c, now, capacity, protects);
            var open := s.state == Transfer && (s.token == NoToken || s.token.kind == Send);
            var fresh_ := open && s.generation == m.generation;
            var meant := fresh_ && s.owner == m.source && s.nextOwner == c;
            var current := meant && s.sequence == m.sequence;
            var late := s.deadline != 0xFFFF_FFFF_FFFF_FFFF && now > s.deadline;
            var spent := s.hopLimit != 0xFFFF_FFFF && s.hopCount >= s.hopLimit;
            var fits := s.region.offset + s.region.length <= capacity;
            && (status == Ok <==> current && !late && !spent && protects && fits)
            && (status == InvalidState <==> !open)
            && (status == StaleHandle <==> open && s.generation != m.generation)
            && (status == InvalidReceiver <==> fresh_ && (s.owner != m.source || s.nextOwner != c))
            && (status == SequenceMismatch <==> meant && s.sequence != m.sequence)
            && (status == Deadline <==> current && late)
            && (status == HopLimit <==> current && !late && spent)
            && (status == Platform <==> current && !late && !spent && !protects)
            && (status == RegionOverflow <==> current && !late && !spent && protects && !fits)
  {
  }

  /** A claim publishes ownership if and only if it answers Ok: then the slot was
      the transfer that the descriptor announces, addressed to the claimant. */
  lemma ClaimPublishesItsOwn(s: Slot, m: Message, c: Component, e: u32, now: u64, capacity: u32, protects: bool)
    ensures var t := ClaimSlot(s, ALL, m, c, e, now, capacity, protects);
            && (t.state == Owned && s.state != Owned <==> ClaimStatus(s, m, c, now, capacity, protects) == Ok)
            && (t.state == Owned && s.state != Owned ==>
                  && s.state == Transfer && s.generation == m.generation && s.sequence == m.sequence
                  && s.owner == m.source && s.nextOwner == c && t.owner == c && t.ownerEpoch == e)
            && (t != s ==> s.state == Transfer)
  {
  }

  /** The record of a received buffer. */
  lemma ReceivedRecord(s: Slot, c: Component, e: u32, now: u64)
    ensures ReceivePrefix(s, RECEIVE_STEPS, c, e, now) ==
              s.(state := Owned, token := NoToken, owner := c, nextOwner := 0xFFFF, ownerEpoch := e,
                 hopCount := if s.sourceHops == 0xFFFF_FFFF then 0 else s.sourceHops + 1,
                 visited := s.visited + {c}, acquired := now)
  {
  }

  /** A descriptor that was claimed is refused when it is taken up again, now and
      after the buffer was sent on, to whomever. */
  lemma ClaimedOnlyOnce(s: Slot, m: Message, c: Component, e: u32, now: u64, later: u64, capacity: u32, protects: bool,
                        next: Component, link: u64)
    requires ClaimStatus(s, m, c, now, capacity, true) == Ok
    ensures var t := ClaimSlot(s, ALL, m, c, e, now, capacity, true);
            && ClaimStatus(t, m, c, later, capacity, protects) == InvalidState
            && ClaimStatus(SendPrefix(t, SEND_STEPS, next, link), m, c, later, capacity, protects)
                 in {InvalidReceiver, SequenceMismatch}
  {
    var t := ClaimSlot(s, ALL, m, c, e, now, capacity, true);
    assert t.sequence == s.sequence && Inc32(s.sequence) != s.sequence;
  }

  // ----------------------------------------------------------------- release

  lemma ReleaseAnswers(s: Slot, generation: u32, c: Component, e: u32, protects: bool)
    ensures var status := ReleaseStatus(s, generation, c, e, protects);
            && (status == Ok <==> Its(s, generation, c, e) && s.token == NoToken && protects)
            && (status == StaleHandle <==> s.generation != generation)
            && (status == InvalidState <==>
                  s.generation == generation && (s.state != Owned || (Its(s, generation, c, e) && s.token != NoToken)))
            && (status == NotOwner <==>
                  s.generation == generation && s.state == Owned && (s.owner != c || s.ownerEpoch != e))
            && (status == Platform <==> Its(s, generation, c, e) && s.token == NoToken && !protects)
  {
  }

  /** A release frees nobody else's slot, at whatever write it is killed; and it
      frees the caller's if and only if it answers Ok. */
  lemma ReleaseChangesItsOwn(s: Slot, k: nat, generation: u32, c: Component, e: u32, protects: bool)
    ensures ReleaseSlot(s, k, generation, c, e, protects) != s ==> Its(s, generation, c, e)
    ensures s.state == Owned ==>
              (ReleaseSlot(s, ALL, generation, c, e, protects).state == Free <==>
                 ReleaseStatus(s, generation, c, e, protects) == Ok)
  {
  }

  /** The record of a released slot, and of a claim that was given up. */
  lemma ReleasedRecord(s: Slot)
    ensures s.token.NoToken? ==>
              ReleasePrefix(s, RELEASE_STEPS) ==
                s.(state := Free, owner := 0xFFFF, nextOwner := 0xFFFF, region := Region(0, 0),
                   prevRegion := s.region, prevOwner := s.owner, prevEpoch := s.ownerEpoch)
    ensures FreeClaim(s) == FreePrefix(s, FREE_STEPS) ==
              s.(state := Free, token := NoToken, owner := 0xFFFF, nextOwner := 0xFFFF, region := Region(0, 0))
  {
  }

  // ---------------------------------------------------------------- recovery

  /** Adoption changes the generation, the epoch and the time stamp alone. */
  lemma AdoptionKeepsRecord(s: Slot, epoch: u32, now: u64)
    ensures var t := Adopt(s, epoch, now);
            && t.generation == (if s.generation == 0xFFFF_FFFF then 1 else s.generation + 1)
            && t.ownerEpoch == epoch && t.acquired == now
            && t.(generation := s.generation, ownerEpoch := s.ownerEpoch, acquired := s.acquired) == s
  {
  }

  lemma AdoptableExact(s: Slot, c: Component, dead: u32)
    ensures Adoptable(s, c, dead) <==> s.state == Owned && s.owner == c && s.ownerEpoch == dead
  {
  }

  /** The owner sweep frees a buffer if and only if it is the dead epoch's, owned or
      in transfer, and has not been held for less than a nonzero age. */
  lemma SweepExact(s: Slot, c: Component, dead: u32, now: u64, age: u64)
    ensures var t := SweepSlot(s, c, dead, now, age);
            if (s.state == Owned || s.state == Transfer) && s.owner == c && s.ownerEpoch == dead &&
               (age == 0 || s.acquired + age <= now)
            then
              && t.state == Free && t.owner == t.nextOwner == 0xFFFF && t.region == Region(0, 0)
              && t.(state := s.state, owner := s.owner, nextOwner := s.nextOwner, region := s.region) == s
            else t == s
  {
  }

  /** One element more or less. */
  lemma Counted(fewer: set<nat>, all: set<nat>, n: nat, hit: bool)
    requires n !in fewer && all == if hit then fewer + {n} else fewer
    ensures |all| == |fewer| + if hit then 1 else 0
  {
  }

  predicate IsClaimed(s: Slot) {
    s.state == Claiming
  }

  ghost function ClaimedSlots(slots: seq<Slot>, n: nat): set<nat>
    requires n <= |slots|
  {
    set i: nat | i < n && IsClaimed(slots[i])
  }

  /** The counts of the sweeps and of reconciliation are numbers of slots. */
  lemma {:induction false} ClaimCountExact(slots: seq<Slot>, n: nat)
    requires n <= |slots|
    ensures ClaimCount(slots[..n]) == |ClaimedSlots(slots, n)|
  {
    if n > 0 {
      ClaimCountExact(slots, n - 1);
      ClaimCountNext(slots, n - 1);
      Counted(ClaimedSlots(slots, n - 1), ClaimedSlots(slots, n), n - 1, IsClaimed(slots[n - 1]));
    }
  }

  predicate IsSwept(s: Slot, state: SlotState, c: Component, dead: u32, now: u64, age: u64) {
    Abandoned(s, c, dead, now, age) && s.state == state
  }

  ghost function SweptSlots(slots: seq<Slot>, n: nat, state: SlotState, c: Component, dead: u32, now: u64, age: u64): set<nat>
    requires n <= |slots|
  {
    set i: nat | i < n && IsSwept(slots[i], state, c, dead, now, age)
  }

  lemma SweptSlotsNext(slots: seq<Slot>, n: nat, state: SlotState, c: Component, dead: u32, now: u64, age: u64)
    requires n < |slots|
    ensures |SweptSlots(slots, n + 1, state, c, dead, now, age)| ==
            |SweptSlots(slots, n, state, c, dead, now, age)| + if IsSwept(slots[n], state, c, dead, now, age) then 1 else 0
  {
    Counted(SweptSlots(slots, n, state, c, dead, now, age), SweptSlots(slots, n + 1, state, c, dead, now, age), n,
            IsSwept(slots[n], state, c, dead, now, age));
  }

  lemma {:induction false} SweptCountExact(slots: seq<Slot>, n: nat, state: SlotState,
                                           c: Component, dead: u32, now: u64, age: u64)
    requires n <= |slots|
    ensures SweptCount(slots[..n], state, c, dead, now, age) == |SweptSlots(slots, n, state, c, dead, now, age)|
  {
    if n > 0 {
      SweptCountExact(slots, n - 1, state, c, dead, now, age);
      SweptCountNext(slots, n - 1, state, c, dead, now, age);
      SweptSlotsNext(slots, n - 1, state, c, dead, now, age);
    }
  }

  lemma {:induction false} RepublishCountExact(slots: seq<Slot>, n: nat, c: Component, dead: u32, remote: Component, link: u64)
    requires n <= |slots|
    ensures RepublishCount(slots, n, c, dead, remote, link) ==
              |set i: nat | i < n && Republishes(slots[i], c, dead, remote, link)|
  {
    var all := set i: nat | i < n && Republishes(slots[i], c, dead, remote, link);
    if n == 0 {
      assert all == {};
    } else {
      var fewer := set i: nat | i < n - 1 && Republishes(slots[i], c, dead, remote, link);
      RepublishCountExact(slots, n - 1, c, dead, remote, link);
      assert Republishes(ReconcileProducerSlot(slots[n - 1], c, dead), c, dead, remote, link) <==>
             Republishes(slots[n - 1], c, dead, remote, link);
      assert all == if Republishes(slots[n - 1], c, dead, remote, link) then fewer + {n - 1} else fewer;
    }
  }

  /** A buffer younger than the age that is asked for is kept. */
  lemma YoungBuffersKept(s: Slot, c: Component, dead: u32, now: u64, age: u64)
    requires now < s.acquired + age && age != 0
    ensures SweepSlot(s, c, dead, now, age) == s
  {
  }

  /** What the drain of a consumer link drops could not have been claimed, and it
      keeps what points at a transfer of its generation. */
  lemma DrainExact(slots: seq<Slot>, m: Message, c: Component, now: u64, capacity: u32, protects: bool)
    ensures LooksCurrent(slots, m) <==>
              m.slot < |slots| && slots[m.slot].state == Transfer && slots[m.slot].generation == m.generation
    ensures m.slot < |slots| && !LooksCurrent(slots, m) ==>
              ClaimStatus(slots[m.slot], m, c, now, capacity, protects) in {InvalidState, StaleHandle}
  {
  }

  /** Which transfers a producer link publishes again. */
  lemma RepublishExact(s: Slot, c: Component, dead: u32, remote: Component, link: u64)
    ensures Republishes(s, c, dead, remote, link) <==>
              s.state == Transfer && s.owner == c && s.ownerEpoch == dead && s.nextOwner == remote && s.linkId == link
  {
  }

  /** A descriptor announces its slot exactly if a claim gets past the tests of
      state, handle and sequence. */
  lemma AnnounceExact(slots: seq<Slot>, m: Message, c: Component, now: u64, capacity: u32, protects: bool)
    requires m.slot < |slots| && slots[m.slot].owner == m.source && slots[m.slot].nextOwner == c
    ensures Announces(m, slots) <==> !Retried(ClaimStatus(slots[m.slot], m, c, now, capacity, protects))
  {
  }

  /** Which answers of a claim make receive take up the next descriptor. */
  lemma RetriedExact(status: Status)
    ensures Retried(status) <==> status in {InvalidState, StaleHandle, SequenceMismatch}
  {
  }

  // ------------------------------------------------------------- link and scan

  /** A scan is current exactly while its component recovers in its epoch, and then
      every link of that component and epoch with a name and a role is reconciled. */
  lemma ReconcileAllowedExact(link: Link, scan: RestartScan)
    requires link.pool.Valid() && ValidComponent(link.local) && scan.Valid()
    ensures scan.Current() <==> scan.pool.components[scan.component] == Word(scan.dead + 1, Recovering)
    ensures link.ReconcileAllowed(scan) <==>
              && link.pool == scan.pool && link.local == scan.component && link.epoch == scan.dead + 1
              && link.id != 0 && (link.role == Producer || link.role == Consumer) && scan.Current()
  {
  }

  /** A reconciliation begins in runs exactly when the call is let through: while the
      component recovers from the epoch of the scan. */
  lemma ReconcileBeginRefines(cfg: RunModel.Config, sys: RunModel.Sys, link: Link, scan: RestartScan)
    requires RunModel.WellFormed(cfg, sys) && link.pool.Valid() && scan.Valid()
    requires scan.pool == link.pool && scan.component == link.local && link.epoch == scan.dead + 1
    requires var p := RunModel.PhaseOf(sys, link.local);
             RunModel.EpochOf(p) < U32 && link.pool.components[link.local] == Refinement.WordOf(p)
    requires link.id in cfg.links && (link.role == Producer || link.role == Consumer)
    requires (if link.role == Producer then cfg.links[link.id].producer else cfg.links[link.id].consumer) == link.local
    ensures var p := RunModel.PhaseOf(sys, link.local);
            && (link.ReconcileAllowed(scan) <==> p.Restarting? && p.dead == scan.dead)
            && (link.ReconcileAllowed(scan) && p.job.NoJob? <==>
                  RunModel.Enabled(cfg, sys, RunModel.ReconcileBegin(link.local, link.id)) && p.dead == scan.dead)
  {
    ReconcileAllowedExact(link, scan);
  }

  /** A link is stale exactly if it names an epoch that is not the registered one. */
  lemma StaleExact(link: Link)
    requires link.pool.Valid() && ValidComponent(link.local)
    ensures var w := link.pool.components[link.local];
            link.Stale() <==>
              link.epoch != 0 && w != Word(link.epoch, Active) && w != Word(link.epoch, Recovering)
  {
  }

  /** A send is let through exactly for a view that stands and was made for the
      component and the epoch of the link. */
  lemma SendAllowedExact(link: Link, v: View)
    requires link.pool.Valid() && ValidComponent(link.local)
    ensures link.SendAllowed(v) <==>
              && link.pool.Owns(v) && v.owner == link.local && v.epoch == link.epoch && !link.Stale()
    ensures link.pool.Owns(v) <==>
              && v.View? && v.slot < link.pool.controls.Length
              && Its(link.pool.controls[v.slot], v.generation, v.owner, v.epoch)
              && link.pool.Epoch(v.owner) == v.epoch
  {
  }

  lemma RoomExact(link: Link, size: u64, headroom: u64, tailroom: u64)
    requires link.pool.Valid() && ValidComponent(link.local)
    ensures var refusal := link.RoomRefusal(size, headroom, tailroom);
            var small := size <= 0xFFFF_FFFF && headroom <= 0xFFFF_FFFF && tailroom <= 0xFFFF_FFFF;
            && (refusal == InvalidArgument <==> !small)
            && (refusal == ComponentStale <==> small && link.Stale())
            && (refusal == RegionOverflow <==> small && !link.Stale() && headroom + size + tailroom > link.pool.capacity)
            && (refusal == Ok <==> small && !link.Stale() && headroom + size + tailroom <= link.pool.capacity)
  {
  }
}
