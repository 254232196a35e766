/**
 Send and receive, complete or killed after any of their writes, keep the
 invariant; a live receiver finds only claimable descriptors.
 */
module RunTransfers {
  import opened Model
  import opened Protocol
  import opened RunModel
  import opened RunInvariant
  import opened RunFrames
  import opened RunCalls

  // -------------------------------------------------------------------- send

  lemma SendAbortSlot(cfg: Config, phases: Phases, i: nat, s: Slot, l: Ledger, k: nat)
    requires SlotOk(cfg, phases, i, s, l) && s.state == Owned && s.token.NoToken? && Fits(s.region, cfg.capacity)
    requires k < SEND_ABORT_STEPS ==> Ph(phases, s.owner) == Crashed(s.ownerEpoch)
    ensures SlotOk(cfg, phases, i, SendAbortPrefix(s, k), l)
  {
  }

  lemma SendSlot(cfg: Config, phases: Phases, i: nat, s: Slot, l: Ledger, k: nat, link: u64)
    requires SlotOk(cfg, phases, i, s, l) && s.state == Owned && s.token.NoToken? && Fits(s.region, cfg.capacity) && !HopsExhausted(s)
    requires link in cfg.links && cfg.links[link].producer == s.owner
    requires k < SEND_STEPS ==> Ph(phases, s.owner) == Crashed(s.ownerEpoch)
    ensures SlotOk(cfg, phases, i, SendPrefix(s, k, cfg.links[link].consumer, link), SendLedger(l, k))
  {
    assert Inc32(l.sends % U32) == (l.sends + 1) % U32;
  }

  lemma RollbackSlot(cfg: Config, phases: Phases, i: nat, s: Slot, l: Ledger, k: nat)
    requires SlotOk(cfg, phases, i, s, l) && s.state == Transfer && s.token.NoToken? && ValidComponent(s.owner)
    requires k < ROLLBACK_STEPS ==> Ph(phases, s.owner) == Crashed(s.ownerEpoch)
    ensures SlotOk(cfg, phases, i, RollbackPrefix(s, k, s.owner, s.ownerEpoch), RollbackLedger(l, k))
  {
    assert Dec32(l.sends % U32) == (l.sends - 1) % U32;
    assert KeysBelow(l.keys, (l.bumps, l.sends - 1 + 1));
  }

  /** A transfer that is taken back at once. */
  lemma SendRollbackSlot(cfg: Config, phases: Phases, i: nat, s: Slot, l: Ledger, k: nat, link: u64)
    requires SlotOk(cfg, phases, i, s, l) && s.state == Owned && s.token.NoToken? && Fits(s.region, cfg.capacity) && !HopsExhausted(s)
    requires link in cfg.links && cfg.links[link].producer == s.owner
    requires k < ROLLBACK_STEPS ==> Ph(phases, s.owner) == Crashed(s.ownerEpoch)
    ensures SlotOk(cfg, phases, i,
                   RollbackPrefix(SendPrefix(s, SEND_STEPS, cfg.links[link].consumer, link), k, s.owner, s.ownerEpoch),
                   RollbackLedger(SendLedger(l, SEND_STEPS), k))
  {
    SendSlot(cfg, phases, i, s, l, SEND_STEPS, link);
    RollbackSlot(cfg, phases, i, SendPrefix(s, SEND_STEPS, cfg.links[link].consumer, link), SendLedger(l, SEND_STEPS), k);
  }

  /** The slot of a send that does not reach the ring, from what holds of the slot alone. */
  lemma SendUnpublishedRecord(cfg: Config, sys: Sys, sys': Sys, c: Component, e: u32, link: u64, i: nat, k: nat)
    requires i < |sys.slots| == |sys.ledgers| && link in cfg.links && link in sys.rings && cfg.links[link].producer == c
    requires var s := sys.slots[i];
             && s.state == Owned && s.token.NoToken? && s.owner == c && s.ownerEpoch == e && Fits(s.region, cfg.capacity)
             && SlotOk(cfg, sys'.phases, i, s, sys.ledgers[i])
    requires k < SendLength(cfg, sys, link, i) ==> Ph(sys'.phases, c) == Crashed(e)
    requires HopsExhausted(sys.slots[i]) || k <= SEND_STEPS || |sys.rings[link]| >= cfg.links[link].depth
    requires sys' == AfterSend(cfg, sys, c, e, link, i, k)
    ensures SlotOk(cfg, sys'.phases, i, sys'.slots[i], sys'.ledgers[i])
  {
    var s, l := sys.slots[i], sys.ledgers[i];
    if HopsExhausted(s) {
      SendAbortSlot(cfg, sys'.phases, i, s, l, k);
    } else if k <= SEND_STEPS {
      SendSlot(cfg, sys'.phases, i, s, l, k, link);
    } else {
      SendRollbackSlot(cfg, sys'.phases, i, s, l, k - SEND_STEPS, link);
    }
  }

  /** The slot of a send that does not reach the ring. */
  lemma SendUnpublishedSlot(cfg: Config, sys: Sys, sys': Sys, c: Component, e: u32, link: u64, i: nat, k: nat)
    requires Inv(cfg, sys) && Enabled(cfg, sys, SendCall(c, e, link, i, k))
    requires HopsExhausted(sys.slots[i]) || k <= SEND_STEPS || |sys.rings[link]| >= cfg.links[link].depth
    requires sys' == AfterSend(cfg, sys, c, e, link, i, k)
    ensures SlotOk(cfg, sys'.phases, i, sys'.slots[i], sys'.ledgers[i])
  {
    HeldUnlisted(cfg, sys, c, e, i);
    HeldSlotOk(cfg, sys, c, e, i, k < SendLength(cfg, sys, link, i));
    SendUnpublishedRecord(cfg, sys, sys', c, e, link, i, k);
  }

  /** A send that does not reach the ring. */
  lemma SendUnpublishedKeepsInv(cfg: Config, sys: Sys, sys': Sys, c: Component, e: u32, link: u64, i: nat, k: nat)
    requires Inv(cfg, sys) && Enabled(cfg, sys, SendCall(c, e, link, i, k))
    requires HopsExhausted(sys.slots[i]) || k <= SEND_STEPS || |sys.rings[link]| >= cfg.links[link].depth
    requires sys' == AfterSend(cfg, sys, c, e, link, i, k)
    ensures Inv(cfg, sys')
  {
    var killed := k < SendLength(cfg, sys, link, i);
    SendUnpublishedSlot(cfg, sys, sys', c, e, link, i, k);
    CallerAdvance(cfg, sys, c, e, killed);
    HeldUnlisted(cfg, sys, c, e, i);
    LiveSwept(sys'.phases, c, e, i, sys'.slots[i]);
    UnlistedNotPending(cfg, sys, i, sys'.slots[i], link);
    UnlistedSlotChange(cfg, sys, sys', c, CallerPhase(sys, c, killed), i);
  }

  lemma UnlistedNotPending(cfg: Config, sys: Sys, i: nat, s: Slot, link: u64)
    requires Unlisted(cfg, sys, i) && link in cfg.links && link in sys.rings
    ensures Descriptor(s, i, cfg.poolId) !in sys.rings[link]
  {
  }

  /** A send that publishes its descriptor. */
  lemma SendPublishedKeepsInv(cfg: Config, sys: Sys, ev: Event)
    requires Inv(cfg, sys) && ev.SendCall? && Enabled(cfg, sys, ev)
    requires !HopsExhausted(sys.slots[ev.i]) && ev.k > SEND_STEPS
    requires |sys.rings[ev.link]| < cfg.links[ev.link].depth
    ensures Inv(cfg, Apply(cfg, sys, ev))
    ensures var m := Descriptor(Apply(cfg, sys, ev).slots[ev.i], ev.i, cfg.poolId);
            m !in sys.rings[ev.link] && Apply(cfg, sys, ev).rings[ev.link] == sys.rings[ev.link] + [m]
  {
    var c, e, link, i, k := ev.c, ev.e, ev.link, ev.i, ev.k;
    var sys' := Apply(cfg, sys, ev);
    var p := PhaseOf(sys, c);
    CallerAdvance(cfg, sys, c, e, false);
    HeldUnlisted(cfg, sys, c, e, i);
    HeldSlotOk(cfg, sys, c, e, i, false);
    var s, l, r := sys.slots[i], sys.ledgers[i], sys.rings[link];
    SendSlot(cfg, sys.phases, i, s, l, SEND_STEPS, link);
    var t := sys'.slots[i];
    UnlistedNotPending(cfg, sys, i, t, link);
    var m := Descriptor(t, i, cfg.poolId);
    var r' := r + [m];
    assert sys'.rings[link] == r';
    LiveSwept(sys'.phases, c, e, i, t);
    RingStable(cfg, sys, sys', c, p, i, link);
    AppendKeepsRing(cfg, sys'.phases, sys'.slots, link, r, m);
    SlotAndRingChange(cfg, sys, sys', c, p, i, link);
  }

  lemma AppendKeepsRing(cfg: Config, phases: Phases, slots: seq<Slot>, link: u64, r: seq<Message>, m: Message)
    requires link in cfg.links && RingOk(cfg, phases, slots, link, r) && |r| < cfg.links[link].depth
    requires m.slot < |slots| && slots[m.slot].state == Transfer && slots[m.slot].linkId == link
    requires m == Descriptor(slots[m.slot], m.slot, cfg.poolId)
    requires forall k :: 0 <= k < |r| ==> r[k].slot != m.slot
    ensures RingOk(cfg, phases, slots, link, r + [m])
    ensures SameOthers(r, r + [m], m.slot)
  {
    var r' := r + [m];
    forall k | 0 <= k < |r'|
      ensures EntryOk(cfg, phases, slots, link, r', k)
    {
      if k < |r| {
        assert EntryOk(cfg, phases, slots, link, r, k);
      }
    }
  }

  lemma SendKeepsInv(cfg: Config, sys: Sys, ev: Event)
    requires Inv(cfg, sys) && ev.SendCall? && Enabled(cfg, sys, ev)
    ensures Inv(cfg, Apply(cfg, sys, ev))
  {
    if HopsExhausted(sys.slots[ev.i]) || ev.k <= SEND_STEPS ||
       |sys.rings[ev.link]| >= cfg.links[ev.link].depth {
      SendUnpublishedKeepsInv(cfg, sys, Apply(cfg, sys, ev), ev.c, ev.e, ev.link, ev.i, ev.k);
    } else {
      SendPublishedKeepsInv(cfg, sys, ev);
    }
  }

  // ----------------------------------------------------------------- receive

  /** The head of a live consumer's ring is current, and its claim succeeds. */
  lemma HeadIsClaimable(cfg: Config, sys: Sys, c: Component, e: u32, link: u64, now: u64)
    requires Inv(cfg, sys) && Active(cfg, sys, c, e)
    requires link in cfg.links && cfg.links[link].consumer == c && sys.rings[link] != []
    ensures ReceivePathOf(cfg, sys, link, now) == Claim
    ensures var m := sys.rings[link][0];
            m.slot < |sys.slots| && m == Descriptor(sys.slots[m.slot], m.slot, cfg.poolId) &&
            sys.slots[m.slot].state == Transfer && sys.slots[m.slot].linkId == link
  {
    var r := sys.rings[link];
    assert RingOk(cfg, sys.phases, sys.slots, link, r);
    assert EntryOk(cfg, sys.phases, sys.slots, link, r, 0);
    var i := r[0].slot;
    assert SlotOk(cfg, sys.phases, i, sys.slots[i], sys.ledgers[i]);
    assert DeliveryOk(cfg, sys.phases, sys.rings, i, sys.slots[i]);
    assert !exists x: u32 :: Unreconciled(PhaseOf(sys, c), x, link);
    assert sys.slots[i].state == Transfer;
    assert r[0] in r;
  }

  lemma KeysGrow(keys: seq<(nat, nat)>, b: nat, n: nat)
    requires KeysBelow(keys, (b, n))
    ensures KeysBelow(keys + [(b, n)], (b, n + 1))
  {
  }

  lemma ReceiveSlot(cfg: Config, phases: Phases, i: nat, s: Slot, l: Ledger, k: nat, c: Component, e: u32, now: u64)
    requires SlotOk(cfg, phases, i, s, l) && ReceiveMayStart(s) && s.nextOwner == c && ValidComponent(c)
    requires EpochOf(Ph(phases, c)) == e
    requires k < RECEIVE_STEPS ==> Ph(phases, c) == Crashed(e)
    ensures SlotOk(cfg, phases, i, ReceivePrefix(s, k, c, e, now), ReceiveLedger(l, k, c))
  {
    KeysGrow(l.keys, l.bumps, l.sends);
    assert Inc32((1 + l.claims) % U32) == (1 + (l.claims + 1)) % U32;
    assert s.hopLimit != HOP_LIMIT_UNLIMITED ==> s.hopCount < s.hopLimit;
    if 0 < l.limit < HOP_LIMIT_UNLIMITED && l.since < 0xFFFF_FFFF {
      assert 1 + l.claims < U32;
    }
  }

  /** Dropping the head of a ring that says nothing else about its slot. */
  lemma DropHeadKeepsRing(cfg: Config, phases: Phases, slots: seq<Slot>, slots': seq<Slot>, link: u64,
                          r: seq<Message>, i: nat, phases': Phases)
    requires link in cfg.links && r != [] && RingOk(cfg, phases, slots, link, r)
    requires r[0].slot == i && |slots'| == |slots|
    requires forall j :: 0 <= j < |slots| && j != i ==> slots'[j] == slots[j]
    ensures RingOk(cfg, phases', slots', link, r[1..])
    ensures SameOthers(r, r[1..], i)
  {
    var r' := r[1..];
    forall k | 0 <= k < |r'|
      ensures EntryOk(cfg, phases', slots', link, r', k)
    {
      assert EntryOk(cfg, phases, slots, link, r, k + 1);
    }
    assert r == [r[0]] + r';
  }

  /** The slot record of a receive and its descriptor, after any of the writes. */
  lemma ReceiveDelivery(cfg: Config, phases: Phases, rings: map<u64, seq<Message>>, i: nat, s: Slot,
                        k: nat, c: Component, e: u32, now: u64)
    requires s.state == Transfer && s.linkId in rings && rings[s.linkId] != [] && SourceSaved(s)
    requires rings[s.linkId][0] == Descriptor(s, i, cfg.poolId) && s.nextOwner == c && ReceiveMayStart(s)
    ensures DeliveryOk(cfg, phases, rings, i, ReceivePrefix(s, k, c, e, now))
  {
    assert Descriptor(s, i, cfg.poolId) in rings[s.linkId];
  }

  lemma ReceiveKilledKeepsInv(cfg: Config, sys: Sys, sys': Sys, c: Component, e: u32, link: u64, now: u64, k: nat)
    requires Inv(cfg, sys) && Enabled(cfg, sys, ReceiveCall(c, e, link, now, k))
    requires sys.rings[link] != [] && k <= RECEIVE_STEPS
    requires sys' == AfterReceive(cfg, sys, c, e, link, now, k)
    ensures Inv(cfg, sys')
  {
    var r := sys.rings[link];
    HeadIsClaimable(cfg, sys, c, e, link, now);
    var i := r[0].slot;
    var s, l := sys.slots[i], sys.ledgers[i];
    var q := CallerPhase(sys, c, true);
    assert sys' == Killed(SetSlot(sys, i, ReceivePrefix(s, k, c, e, now), ReceiveLedger(l, k, c)), c, true);
    CallerAdvance(cfg, sys, c, e, true);
    ReceiveStartOk(cfg, sys, c, e, i, true);
    ReceiveSlot(cfg, sys'.phases, i, s, l, k, c, e, now);
    LiveSwept(sys'.phases, c, e, i, sys'.slots[i]);
    ReceiveOtherRings(cfg, sys, i, link);
    ReceiveDelivery(cfg, sys'.phases, sys.rings, i, s, k, c, e, now);
    assert EntryOk(cfg, sys'.phases, sys'.slots, link, r, 0);
    RingStable(cfg, sys, sys', c, q, i, link);
    SlotAndRingChange(cfg, sys, sys', c, q, i, link);
  }

  lemma ReceiveDoneKeepsInv(cfg: Config, sys: Sys, sys': Sys, c: Component, e: u32, link: u64, now: u64, k: nat)
    requires Inv(cfg, sys) && Enabled(cfg, sys, ReceiveCall(c, e, link, now, k))
    requires sys.rings[link] != [] && k > RECEIVE_STEPS
    requires sys' == AfterReceive(cfg, sys, c, e, link, now, k)
    ensures Inv(cfg, sys')
  {
    var r := sys.rings[link];
    HeadIsClaimable(cfg, sys, c, e, link, now);
    var i := r[0].slot;
    var s, l := sys.slots[i], sys.ledgers[i];
    var p := PhaseOf(sys, c);
    assert sys' == SetRing(SetSlot(sys, i, ReceivePrefix(s, k, c, e, now), ReceiveLedger(l, k, c)), link, r[1..]);
    CallerAdvance(cfg, sys, c, e, false);
    ReceiveSlot(cfg, sys'.phases, i, s, l, k, c, e, now);
    LiveSwept(sys'.phases, c, e, i, sys'.slots[i]);
    ReceiveOtherRings(cfg, sys, i, link);
    DropHeadKeepsRing(cfg, sys.phases, sys.slots, sys'.slots, link, r, i, sys'.phases);
    SlotAndRingChange(cfg, sys, sys', c, p, i, link);
  }

  lemma ReceiveKeepsInv(cfg: Config, sys: Sys, ev: Event)
    requires Inv(cfg, sys) && ev.ReceiveCall? && Enabled(cfg, sys, ev)
    ensures Inv(cfg, Apply(cfg, sys, ev))
  {
    if sys.rings[ev.link] == [] {
      assert Apply(cfg, sys, ev) == sys;
    } else if ev.k <= RECEIVE_STEPS {
      ReceiveKilledKeepsInv(cfg, sys, Apply(cfg, sys, ev), ev.c, ev.e, ev.link, ev.now, ev.k);
    } else {
      ReceiveDoneKeepsInv(cfg, sys, Apply(cfg, sys, ev), ev.c, ev.e, ev.link, ev.now, ev.k);
    }
  }

  lemma ReceiveStartOk(cfg: Config, sys: Sys, c: Component, e: u32, i: nat, killed: bool)
    requires Inv(cfg, sys) && Active(cfg, sys, c, e) && i < |sys.slots|
    requires killed ==> PhaseOf(sys, c).Up?
    requires ReceiveMayStart(sys.slots[i]) && sys.slots[i].nextOwner == c
    ensures SlotOk(cfg, sys.phases[c := CallerPhase(sys, c, killed)], i, sys.slots[i], sys.ledgers[i])
  {
    CallerAdvance(cfg, sys, c, e, killed);
    SlotStable(cfg, sys.phases, c, CallerPhase(sys, c, killed), -1, i, sys.slots[i], sys.ledgers[i]);
  }

  lemma ReceiveOtherRings(cfg: Config, sys: Sys, i: nat, link: u64)
    requires Inv(cfg, sys) && i < |sys.slots| && sys.slots[i].state == Transfer && sys.slots[i].linkId == link
    ensures forall l, k | l in cfg.links && l != link && l in sys.rings && 0 <= k < |sys.rings[l]| ::
              sys.rings[l][k].slot != i
  {
    forall l, k | l in cfg.links && l != link && l in sys.rings && 0 <= k < |sys.rings[l]|
      ensures sys.rings[l][k].slot != i
    {
      assert RingOk(cfg, sys.phases, sys.slots, l, sys.rings[l]);
      assert EntryOk(cfg, sys.phases, sys.slots, l, sys.rings[l], k);
    }
  }
}
