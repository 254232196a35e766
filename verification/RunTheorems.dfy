/**
 What holds in every state of every run.
 */
module RunTheorems {
  import opened Model
  import opened Protocol
  import opened RunModel
  import opened RunInvariant
  import opened RunFrames
  import opened RunCalls
  import opened RunTransfers
  import opened RunRestart

  lemma CallKeepsInv(cfg: Config, sys: Sys, ev: Event)
    requires Inv(cfg, sys) && Enabled(cfg, sys, ev)
    requires ev.AllocateCall? || ev.AllocateFailCall? || ev.SendCall? || ev.ReceiveCall? || ev.ReleaseCall? ||
             ev.SetRegionCall? || ev.SetLimitsCall?
    ensures Inv(cfg, Apply(cfg, sys, ev))
  {
    match ev
    case AllocateCall(c, i, a, k) => AllocateKeepsInv(cfg, sys, ev);
    case AllocateFailCall(c, i, a, k) => AllocateFailKeepsInv(cfg, sys, ev);
    case SendCall(c, e, link, i, k) => SendKeepsInv(cfg, sys, ev);
    case ReceiveCall(c, e, link, now, k) => ReceiveKeepsInv(cfg, sys, ev);
    case ReleaseCall(c, e, i, k) => ReleaseKeepsInv(cfg, sys, ev);
    case SetRegionCall(c, e, i, region, k) => SetRegionKeepsInv(cfg, sys, ev);
    case SetLimitsCall(c, e, i, limit, k) => SetLimitsKeepsInv(cfg, sys, ev);
  }

  lemma RecoveryKeepsInv(cfg: Config, sys: Sys, ev: Event)
    requires Inv(cfg, sys) && Enabled(cfg, sys, ev)
    requires ev.RestartBegin? || ev.ReconcileBegin? || ev.ReconcileVisit? || ev.ReconcileDrain? || ev.ReconcileEnd? ||
             ev.RestartVisit? || ev.RestartFinish?
    ensures Inv(cfg, Apply(cfg, sys, ev))
  {
    match ev
    case RestartBegin(c) => RestartBeginKeepsInv(cfg, sys, c);
    case ReconcileBegin(c, link) => ReconcileBeginKeepsInv(cfg, sys, c, link);
    case ReconcileVisit(c) => ReconcileVisitKeepsInv(cfg, sys, c);
    case ReconcileDrain(c) => ReconcileDrainKeepsInv(cfg, sys, c);
    case ReconcileEnd(c) => ReconcileEndKeepsInv(cfg, sys, c);
    case RestartVisit(c, now) => RestartVisitKeepsInv(cfg, sys, c, now);
    case RestartFinish(c) => RestartFinishKeepsInv(cfg, sys, c);
  }

  lemma StepKeepsInv(cfg: Config, sys: Sys, ev: Event)
    requires Inv(cfg, sys) && Enabled(cfg, sys, ev)
    ensures Inv(cfg, Apply(cfg, sys, ev))
  {
    match ev
    case RegisterCall(c) => RegisterKeepsInv(cfg, sys, c);
    case UnregisterCall(c) => UnregisterKeepsInv(cfg, sys, c);
    case Die(c) => DieKeepsInv(cfg, sys, c);
    case AllocateCall(_, _, _, _) => CallKeepsInv(cfg, sys, ev);
    case AllocateFailCall(_, _, _, _) => CallKeepsInv(cfg, sys, ev);
    case SendCall(_, _, _, _, _) => CallKeepsInv(cfg, sys, ev);
    case ReceiveCall(_, _, _, _, _) => CallKeepsInv(cfg, sys, ev);
    case ReleaseCall(_, _, _, _) => CallKeepsInv(cfg, sys, ev);
    case SetRegionCall(_, _, _, _, _) => CallKeepsInv(cfg, sys, ev);
    case SetLimitsCall(_, _, _, _, _) => CallKeepsInv(cfg, sys, ev);
    case _ => RecoveryKeepsInv(cfg, sys, ev);
  }

  /** The invariant holds in every state of every run. */
  lemma {:induction false} RunKeepsInv(cfg: Config, trace: seq<Sys>, evs: seq<Event>, n: nat)
    requires IsRun(cfg, trace, evs) && n < |trace|
    ensures Inv(cfg, trace[n])
  {
    if n == 0 {
      InitInv(cfg, trace[0]);
    } else {
      RunKeepsInv(cfg, trace, evs, n - 1);
      assert StepAt(cfg, trace, evs, n - 1);
      StepKeepsInv(cfg, trace[n - 1], evs[n - 1]);
    }
  }

  /** Any enabled event extends a run: runs exclude nothing the events allow. */
  lemma RunExtends(cfg: Config, trace: seq<Sys>, evs: seq<Event>, ev: Event)
    requires IsRun(cfg, trace, evs) && Enabled(cfg, trace[|evs|], ev)
    ensures IsRun(cfg, trace + [Apply(cfg, trace[|evs|], ev)], evs + [ev])
  {
    RunKeepsInv(cfg, trace, evs, |evs|);
    StepKeepsInv(cfg, trace[|evs|], ev);
    var trace', evs' := trace + [Apply(cfg, trace[|evs|], ev)], evs + [ev];
    forall n | 0 <= n < |evs'| ensures StepAt(cfg, trace', evs', n) {
      assert n < |evs| ==> StepAt(cfg, trace, evs, n);
    }
  }

  // ---------------------------------------------------------------- delivery

  /** Nothing is owed to this transfer: its sender was not killed in the epoch
      that sent it, or the producer link has been reconciled since. */
  predicate Settled(sys: Sys, s: Slot) {
    !Unreconciled(PhaseOf(sys, s.owner), s.ownerEpoch, s.linkId)
  }

  /** Exactly one pending descriptor names slot `i`, it is on the slot's own link
      and it carries the slot's current handle and sequence. */
  ghost predicate PendsOnce(cfg: Config, sys: Sys, i: nat) {
    i < |sys.slots| &&
    var s := sys.slots[i];
    s.linkId in sys.rings &&
    exists j :: 0 <= j < |sys.rings[s.linkId]| &&
      sys.rings[s.linkId][j] == Descriptor(s, i, cfg.poolId) &&
      forall link, k | link in sys.rings && 0 <= k < |sys.rings[link]| ::
        sys.rings[link][k].slot == i ==> link == s.linkId && k == j
  }

  lemma TransferPendsOnce(cfg: Config, sys: Sys, i: nat)
    requires Inv(cfg, sys) && i < |sys.slots| && sys.slots[i].state == Transfer
    requires Descriptor(sys.slots[i], i, cfg.poolId) in sys.rings[sys.slots[i].linkId]
    ensures PendsOnce(cfg, sys, i)
  {
    var s := sys.slots[i];
    var r := sys.rings[s.linkId];
    var j :| 0 <= j < |r| && r[j] == Descriptor(s, i, cfg.poolId);
    forall link, k | link in sys.rings && 0 <= k < |sys.rings[link]|
      ensures sys.rings[link][k].slot == i ==> link == s.linkId && k == j
    {
      assert RingOk(cfg, sys.phases, sys.slots, link, sys.rings[link]);
      assert EntryOk(cfg, sys.phases, sys.slots, link, sys.rings[link], k);
    }
  }

  /** No buffer is stranded. */
  lemma NoBufferStranded(cfg: Config, trace: seq<Sys>, evs: seq<Event>, n: nat, i: nat)
    requires IsRun(cfg, trace, evs) && n < |trace| && i < |trace[n].slots|
    requires trace[n].slots[i].state == Transfer && Settled(trace[n], trace[n].slots[i])
    ensures PendsOnce(cfg, trace[n], i)
  {
    RunKeepsInv(cfg, trace, evs, n);
    var sys := trace[n];
    assert DeliveryOk(cfg, sys.phases, sys.rings, i, sys.slots[i]);
    TransferPendsOnce(cfg, sys, i);
  }

  /** A live receiver never discards a descriptor: what it finds it can claim. */
  lemma ReceiveNeverDiscards(cfg: Config, trace: seq<Sys>, evs: seq<Event>, n: nat)
    requires IsRun(cfg, trace, evs) && n < |evs| && StepAt(cfg, trace, evs, n) && evs[n].ReceiveCall?
    ensures ReceivePathOf(cfg, trace[n], evs[n].link, evs[n].now) in {Empty, Claim}
  {
    RunKeepsInv(cfg, trace, evs, n);
    if trace[n].rings[evs[n].link] != [] {
      HeadIsClaimable(cfg, trace[n], evs[n].c, evs[n].e, evs[n].link, evs[n].now);
    }
  }

  /** The drain of a reconciliation drops only the descriptor of a buffer that
      the killed consumer already owns. */
  lemma DrainDropsOnlyStale(cfg: Config, trace: seq<Sys>, evs: seq<Event>, n: nat)
    requires IsRun(cfg, trace, evs) && n < |evs| && StepAt(cfg, trace, evs, n) && evs[n].ReconcileDrain?
    ensures var sys, c := trace[n], evs[n].c;
            var m := sys.rings[PhaseOf(sys, c).job.link][0];
            m.slot < |sys.slots| && sys.slots[m.slot].state == Owned && sys.slots[m.slot].owner == c
  {
    RunKeepsInv(cfg, trace, evs, n);
    DrainedIsStale(cfg, trace[n], evs[n].c);
  }

  /** A completed send publishes exactly one descriptor if a hop is left and the
      ring has room; otherwise it leaves ownership and rings as they were. */
  lemma SendHasTwoEffects(cfg: Config, trace: seq<Sys>, evs: seq<Event>, n: nat)
    requires IsRun(cfg, trace, evs) && n < |evs| && StepAt(cfg, trace, evs, n) && evs[n].SendCall?
    requires evs[n].k == SendLength(cfg, trace[n], evs[n].link, evs[n].i)
    ensures var i, link := evs[n].i, evs[n].link;
            var s, t := trace[n].slots[i], trace[n + 1].slots[i];
            if !HopsExhausted(s) && |trace[n].rings[link]| < cfg.links[link].depth then
              && t.state == Transfer && t.nextOwner == cfg.links[link].consumer
              && t.sequence == Inc32(s.sequence) && PendsOnce(cfg, trace[n + 1], i)
              && trace[n + 1].rings == trace[n].rings[link := trace[n].rings[link] + [Descriptor(t, i, cfg.poolId)]]
            else
              OwnershipOf(t) == OwnershipOf(s) && trace[n + 1].rings == trace[n].rings
  {
    RunKeepsInv(cfg, trace, evs, n);
    RunKeepsInv(cfg, trace, evs, n + 1);
    var sys, ev := trace[n], evs[n];
    var s := sys.slots[ev.i];
    HeldUnlisted(cfg, sys, ev.c, ev.e, ev.i);
    assert SlotOk(cfg, sys.phases, ev.i, s, sys.ledgers[ev.i]);
    if HopsExhausted(s) {
    } else if |sys.rings[ev.link]| >= cfg.links[ev.link].depth {
      RollbackUndoesSend(s, ROLLBACK_STEPS, cfg.links[ev.link].consumer, ev.link);
    } else {
      SendPublishedKeepsInv(cfg, sys, ev);
      var m := Descriptor(trace[n + 1].slots[ev.i], ev.i, cfg.poolId);
      assert trace[n + 1].rings[ev.link][|sys.rings[ev.link]|] == m;
      TransferPendsOnce(cfg, trace[n + 1], ev.i);
    }
  }

  // ---------------------------------------------------------------- recovery

  /** Once the restart scan is through, nothing of the dead epoch is left: no
      claim of it and no buffer owned by it. */
  lemma RecoveryComplete(cfg: Config, trace: seq<Sys>, evs: seq<Event>, n: nat, c: Component, i: nat)
    requires IsRun(cfg, trace, evs) && n < |trace| && i < |trace[n].slots|
    requires var p := PhaseOf(trace[n], c); p.Restarting? && p.cursor == |trace[n].slots|
    ensures var s, dead := trace[n].slots[i], PhaseOf(trace[n], c).dead;
            && !(s.state == Claiming && TokenOf(s.token, c, dead))
            && !(s.state == Owned && s.owner == c && s.ownerEpoch == dead)
            && (TokenOf(s.token, c, dead) ==> s.state == Transfer && s.token.kind == Send)
  {
    RunKeepsInv(cfg, trace, evs, n);
    var sys := trace[n];
    var p, s := PhaseOf(sys, c), sys.slots[i];
    assert SlotOk(cfg, sys.phases, i, s, sys.ledgers[i]);
    assert Cleaned(sys.phases, c, i, s);
    assert PhaseOk(cfg, c, p);
    assert forall link, e :: Endpoint(cfg, c, link) ==> !Unvisited(p, e, link, i);
  }

  // ----------------------------------------------------------------- history

  /** Hop count and visited set are the history of the buffer. Its receives never
      pass the limit that was last asked for, less one, apart from those made before
      it was asked for. */
  lemma HistoryExact(cfg: Config, trace: seq<Sys>, evs: seq<Event>, n: nat, i: nat)
    requires IsRun(cfg, trace, evs) && n < |trace| && i < |trace[n].slots|
    requires trace[n].slots[i].state in {Owned, Transfer}
    ensures var s, l := trace[n].slots[i], trace[n].ledgers[i];
            && s.hopCount == (1 + l.claims) % U32 && s.visited == l.holders
            && s.hopLimit == (if l.limit == 0 then HOP_LIMIT_UNLIMITED else l.limit)
            && (0 < l.limit < HOP_LIMIT_UNLIMITED && l.since < 0xFFFF_FFFF ==>
                  s.hopCount == 1 + l.claims && (l.claims <= l.limit - 1 || l.claims == l.since))
  {
    RunKeepsInv(cfg, trace, evs, n);
    assert SlotOk(cfg, trace[n].phases, i, trace[n].slots[i], trace[n].ledgers[i]);
  }

  /** The limit a buffer lives under is the argument of its allocation. */
  lemma LimitAskedFor(cfg: Config, trace: seq<Sys>, evs: seq<Event>, n: nat)
    requires IsRun(cfg, trace, evs) && n < |evs| && evs[n].AllocateCall? && evs[n].k == ALLOCATE_STEPS
    requires evs[n].i < |trace[n].slots| && evs[n].i < |trace[n + 1].ledgers|
    ensures var l := trace[n + 1].ledgers[evs[n].i];
            l.live && l.limit == evs[n].args.hopLimit && l.since == l.claims == 0 && l.holders == {evs[n].c}
  {
    assert StepAt(cfg, trace, evs, n);
  }

  /**
   The record of a stable slot shows the window that was last set by a completed
   call, unless a call killed between its two stores has moved its offset since.
   It fits if and only if the offset shown and the length last set do. It always
   fits in transfer and in the hands of a runtime that executes: only a buffer of
   a dead owner that was not adopted may not fit. So an owned slot has no
   addressee, a transfer has a hop left, and the overflow exit and the hop exit of
   a claim are unreachable.
   */
  lemma WindowAndAddresseeSafe(cfg: Config, trace: seq<Sys>, evs: seq<Event>, n: nat, i: nat)
    requires IsRun(cfg, trace, evs) && n < |trace| && i < |trace[n].slots|
    requires trace[n].slots[i].state in {Owned, Transfer}
    ensures var s, l := trace[n].slots[i], trace[n].ledgers[i];
            && s.region == Shown(l) && Fits(l.region, cfg.capacity)
            && (Fits(s.region, cfg.capacity) <==> l.cut.Whole? || l.cut.offset + l.region.length <= cfg.capacity)
            && (s.state == Owned ==> s.nextOwner == NO_COMPONENT)
            && (s.state == Owned && Active(cfg, trace[n], s.owner, s.ownerEpoch) ==> Fits(s.region, cfg.capacity))
            && (s.state == Owned && !Fits(s.region, cfg.capacity) ==> Owed(PhaseOf(trace[n], s.owner), s.ownerEpoch, i))
            && (s.state == Transfer ==> Fits(s.region, cfg.capacity) && !HopsExhausted(s))
  {
    RunKeepsInv(cfg, trace, evs, n);
    assert SlotOk(cfg, trace[n].phases, i, trace[n].slots[i], trace[n].ledgers[i]);
  }

  /** A window is torn by nothing but a kill between the two stores of its setting. */
  lemma TornOnlyByKill(cfg: Config, trace: seq<Sys>, evs: seq<Event>, n: nat, i: nat)
    requires IsRun(cfg, trace, evs) && n < |evs| && i < cfg.slotCount
    requires trace[n].ledgers[i].cut.Whole? && trace[n + 1].ledgers[i].cut.Cut?
    ensures evs[n].SetRegionCall? && evs[n].i == i && evs[n].k == 1 && PhaseOf(trace[n + 1], evs[n].c).Crashed?
    ensures trace[n + 1].slots[i] == RegionPrefix(trace[n].slots[i], 1, evs[n].region)
  {
    assert StepAt(cfg, trace, evs, n);
    EventKeepsCut(cfg, trace[n], trace[n + 1], evs[n], i);
  }

  lemma EventKeepsCut(cfg: Config, sys: Sys, sys': Sys, ev: Event, i: nat)
    requires WellFormed(cfg, sys) && Enabled(cfg, sys, ev) && sys' == Apply(cfg, sys, ev)
    requires i < |sys.slots| && i < |sys'.ledgers|
    ensures sys.ledgers[i].cut.Whole? && sys'.ledgers[i].cut.Cut? ==> ev.SetRegionCall? && ev.i == i && ev.k == 1
  {
    if ev.SendCall? {
      SendKeepsCut(cfg, sys, sys', ev, i);
    } else if ev.ReceiveCall? {
      ReceiveKeepsCut(cfg, sys, sys', ev, i);
    } else if ev.ReconcileVisit? {
      ReconcileKeepsCut(cfg, sys, sys', ev.c, i);
    } else if ev.RestartVisit? {
      ScanKeepsCut(cfg, sys, sys', ev.c, ev.now, i);
    } else {
      OtherKeepsCut(cfg, sys, sys', ev, i);
    }
  }

  lemma SendKeepsCut(cfg: Config, sys: Sys, sys': Sys, ev: Event, i: nat)
    requires WellFormed(cfg, sys) && ev.SendCall? && Enabled(cfg, sys, ev) && sys' == Apply(cfg, sys, ev)
    requires i < |sys.slots| && i < |sys'.ledgers|
    ensures sys'.ledgers[i].cut == sys.ledgers[i].cut
  {
  }

  lemma ReceiveKeepsCut(cfg: Config, sys: Sys, sys': Sys, ev: Event, i: nat)
    requires WellFormed(cfg, sys) && ev.ReceiveCall? && Enabled(cfg, sys, ev) && sys' == Apply(cfg, sys, ev)
    requires i < |sys.slots| && i < |sys'.ledgers|
    ensures sys'.ledgers[i].cut == sys.ledgers[i].cut
  {
    match ReceivePathOf(cfg, sys, ev.link, ev.now)
    case Empty =>
    case Discard =>
    case Refuse =>
    case Claim =>
  }

  lemma ReconcileKeepsCut(cfg: Config, sys: Sys, sys': Sys, c: Component, i: nat)
    requires i < |sys.slots| == |sys.ledgers|
    requires var p := PhaseOf(sys, c);
             && p.Restarting? && p.job.Job? && p.job.next < |sys.slots|
             && p.job.link in cfg.links && p.job.link in sys.rings && sys' == AfterReconcileVisit(cfg, sys, c, p)
    ensures i < |sys'.ledgers| && sys'.ledgers[i].cut == sys.ledgers[i].cut
  {
  }

  lemma ScanKeepsCut(cfg: Config, sys: Sys, sys': Sys, c: Component, now: u64, i: nat)
    requires i < |sys.slots| == |sys.ledgers|
    requires var p := PhaseOf(sys, c);
             && p.Restarting? && p.cursor < |sys.slots| && p.dead + 1 < U32
             && sys' == AfterRestartVisit(cfg, sys, c, p, now)
    ensures i < |sys'.ledgers| && sys'.ledgers[i].cut == sys.ledgers[i].cut
  {
  }

  lemma OtherKeepsCut(cfg: Config, sys: Sys, sys': Sys, ev: Event, i: nat)
    requires WellFormed(cfg, sys) && Enabled(cfg, sys, ev) && sys' == Apply(cfg, sys, ev)
    requires i < |sys.slots| && i < |sys'.ledgers|
    requires !ev.SendCall? && !ev.ReceiveCall? && !ev.ReconcileVisit? && !ev.RestartVisit?
    ensures sys.ledgers[i].cut.Whole? && sys'.ledgers[i].cut.Cut? ==> ev.SetRegionCall? && ev.i == i && ev.k == 1
  {
  }

  // ------------------------------------------------------- identity and keys

  /** How one event may move the ledger of one slot. */
  ghost predicate LedgerStep(l: Ledger, l': Ledger) {
    && l.bumps <= l'.bumps && l.keys <= l'.keys
    && (l.bumps == l'.bumps && l'.live ==> l.live && l'.id == l.id && l'.parent == l.parent)
  }

  /** The event gives slot `i` a new generation: an allocation past its third
      write, or the adoption by a restart. */
  ghost predicate Renews(cfg: Config, sys: Sys, ev: Event, i: nat)
    requires i < |sys.slots|
  {
    || ((ev.AllocateCall? || ev.AllocateFailCall?) && ev.i == i && ev.k >= 3)
    || (ev.RestartVisit? && var p := PhaseOf(sys, ev.c);
        p.Restarting? && p.cursor == i && Adoptable(ScanRepair(sys.slots[i], ev.c, p.dead), ev.c, p.dead) &&
        !Overflows(cfg, sys.slots[i], ev.c, p.dead))
  }

  /** What one event does to the ledger of slot `i`. */
  ghost predicate LedgerMoves(cfg: Config, sys: Sys, sys': Sys, ev: Event, i: nat)
    requires i < |sys.slots|
  {
    && i < |sys.ledgers| && i < |sys'.ledgers| && LedgerStep(sys.ledgers[i], sys'.ledgers[i])
    && sys'.ledgers[i].bumps == sys.ledgers[i].bumps + if Renews(cfg, sys, ev, i) then 1 else 0
  }

  lemma SendLedgerStep(cfg: Config, sys: Sys, ev: Event, i: nat)
    requires WellFormed(cfg, sys) && ev.SendCall? && Enabled(cfg, sys, ev) && i < |sys.slots|
    ensures LedgerMoves(cfg, sys, Apply(cfg, sys, ev), ev, i)
  {
  }

  lemma ReceiveLedgerStep(cfg: Config, sys: Sys, ev: Event, i: nat)
    requires WellFormed(cfg, sys) && ev.ReceiveCall? && Enabled(cfg, sys, ev) && i < |sys.slots|
    ensures LedgerMoves(cfg, sys, Apply(cfg, sys, ev), ev, i)
  {
    match ReceivePathOf(cfg, sys, ev.link, ev.now)
    case Empty =>
    case Discard =>
    case Refuse =>
    case Claim =>
  }

  lemma ReconcileLedgerStep(cfg: Config, sys: Sys, ev: Event, i: nat)
    requires WellFormed(cfg, sys) && ev.ReconcileVisit? && Enabled(cfg, sys, ev) && i < |sys.slots|
    ensures LedgerMoves(cfg, sys, Apply(cfg, sys, ev), ev, i)
  {
  }

  lemma AllocationLedgerStep(cfg: Config, sys: Sys, ev: Event, i: nat)
    requires WellFormed(cfg, sys) && Enabled(cfg, sys, ev) && i < |sys.slots|
    requires ev.AllocateCall? || ev.AllocateFailCall?
    ensures LedgerMoves(cfg, sys, Apply(cfg, sys, ev), ev, i)
  {
  }

  lemma VisitLedgerStep(cfg: Config, sys: Sys, sys': Sys, c: Component, now: u64, i: nat)
    requires i < |sys.slots| == |sys.ledgers|
    requires var p := PhaseOf(sys, c);
             && p.Restarting? && p.cursor < |sys.slots| && p.dead + 1 < U32
             && sys' == AfterRestartVisit(cfg, sys, c, p, now)
    ensures LedgerMoves(cfg, sys, sys', RestartVisit(c, now), i)
  {
  }

  lemma OtherLedgerStep(cfg: Config, sys: Sys, ev: Event, i: nat)
    requires WellFormed(cfg, sys) && Enabled(cfg, sys, ev) && i < |sys.slots| && !ev.SendCall? && !ev.ReceiveCall?
    requires !ev.ReconcileVisit? && !ev.RestartVisit? && !ev.AllocateCall? && !ev.AllocateFailCall?
    ensures LedgerMoves(cfg, sys, Apply(cfg, sys, ev), ev, i)
  {
  }

  lemma EventLedgerStep(cfg: Config, sys: Sys, ev: Event, i: nat)
    requires WellFormed(cfg, sys) && Enabled(cfg, sys, ev) && i < |sys.slots|
    ensures LedgerMoves(cfg, sys, Apply(cfg, sys, ev), ev, i)
  {
    if ev.SendCall? {
      SendLedgerStep(cfg, sys, ev, i);
    } else if ev.ReceiveCall? {
      ReceiveLedgerStep(cfg, sys, ev, i);
    } else if ev.ReconcileVisit? {
      ReconcileLedgerStep(cfg, sys, ev, i);
    } else if ev.RestartVisit? {
      VisitLedgerStep(cfg, sys, Apply(cfg, sys, ev), ev.c, ev.now, i);
    } else if ev.AllocateCall? || ev.AllocateFailCall? {
      AllocationLedgerStep(cfg, sys, ev, i);
    } else {
      OtherLedgerStep(cfg, sys, ev, i);
    }
  }

  lemma {:induction false} LedgerMonotone(cfg: Config, trace: seq<Sys>, evs: seq<Event>, n: nat, m: nat, i: nat)
    requires IsRun(cfg, trace, evs) && n <= m < |trace| && i < cfg.slotCount
    ensures LedgerStep(trace[n].ledgers[i], trace[m].ledgers[i])
    decreases m - n
  {
    RunKeepsInv(cfg, trace, evs, n);
    RunKeepsInv(cfg, trace, evs, m);
    if n < m {
      assert StepAt(cfg, trace, evs, n);
      EventLedgerStep(cfg, trace[n], evs[n], i);
      LedgerMonotone(cfg, trace, evs, n + 1, m, i);
    }
  }

  lemma GenerationsDiffer(a: nat, b: nat)
    requires a < b < a + 0xFFFF_FFFF
    ensures GenerationAfter(a) != GenerationAfter(b)
  {
    if a > 0 {
      var x, y := a - 1, b - 1;
      assert x == x / 0xFFFF_FFFF * 0xFFFF_FFFF + x % 0xFFFF_FFFF;
      assert y == y / 0xFFFF_FFFF * 0xFFFF_FFFF + y % 0xFFFF_FFFF;
    }
  }

  /** Every reuse and every adoption advances the generation count by one, and
      nothing else moves it. */
  lemma RenewalsExact(cfg: Config, sys: Sys, ev: Event, i: nat)
    requires WellFormed(cfg, sys) && Enabled(cfg, sys, ev) && i < |sys.slots|
    ensures Apply(cfg, sys, ev).ledgers[i].bumps == sys.ledgers[i].bumps + if Renews(cfg, sys, ev, i) then 1 else 0
  {
    EventLedgerStep(cfg, sys, ev, i);
  }

  /** Within 2^32 - 2 renewals of a slot, whatever its state, two moments show the
      same generation if and only if it was not renewed in between; and then both
      show the same buffer. */
  lemma HandleNamesOneBuffer(cfg: Config, trace: seq<Sys>, evs: seq<Event>, n: nat, m: nat, i: nat)
    requires IsRun(cfg, trace, evs) && n <= m < |trace| && i < cfg.slotCount
    requires trace[m].ledgers[i].bumps < trace[n].ledgers[i].bumps + 0xFFFF_FFFF
    ensures trace[n].slots[i].generation == trace[m].slots[i].generation <==>
              trace[n].ledgers[i].bumps == trace[m].ledgers[i].bumps
    ensures trace[n].slots[i].generation == trace[m].slots[i].generation &&
            trace[n].slots[i].state in {Owned, Transfer} && trace[m].slots[i].state in {Owned, Transfer} ==>
              trace[n].slots[i].id == trace[m].slots[i].id && trace[n].slots[i].parent == trace[m].slots[i].parent
  {
    RunKeepsInv(cfg, trace, evs, n);
    RunKeepsInv(cfg, trace, evs, m);
    LedgerMonotone(cfg, trace, evs, n, m, i);
    assert SlotOk(cfg, trace[n].phases, i, trace[n].slots[i], trace[n].ledgers[i]);
    assert SlotOk(cfg, trace[m].phases, i, trace[m].slots[i], trace[m].ledgers[i]);
    if trace[n].ledgers[i].bumps < trace[m].ledgers[i].bumps {
      GenerationsDiffer(trace[n].ledgers[i].bumps, trace[m].ledgers[i].bumps);
    }
  }

  /** An older handle never validates again: after an event that renews the slot,
      no later state shows the generation from before it. */
  lemma OldHandleStaysStale(cfg: Config, trace: seq<Sys>, evs: seq<Event>, n: nat, m: nat, i: nat)
    requires IsRun(cfg, trace, evs) && n < m < |trace| && i < cfg.slotCount && Renews(cfg, trace[n], evs[n], i)
    requires trace[m].ledgers[i].bumps < trace[n].ledgers[i].bumps + 0xFFFF_FFFF
    ensures trace[m].slots[i].generation != trace[n].slots[i].generation
  {
    RenewedAt(cfg, trace, evs, n, i);
    LedgerMonotone(cfg, trace, evs, n + 1, m, i);
    HandleNamesOneBuffer(cfg, trace, evs, n, m, i);
  }

  lemma RenewedAt(cfg: Config, trace: seq<Sys>, evs: seq<Event>, n: nat, i: nat)
    requires IsRun(cfg, trace, evs) && n < |evs| && i < cfg.slotCount && Renews(cfg, trace[n], evs[n], i)
    ensures trace[n + 1].ledgers[i].bumps == trace[n].ledgers[i].bumps + 1
  {
    assert StepAt(cfg, trace, evs, n);
    RenewalsExact(cfg, trace[n], evs[n], i);
  }

  /** Event `n` is a receive that publishes ownership of the slot it names. */
  ghost predicate Delivers(cfg: Config, trace: seq<Sys>, evs: seq<Event>, n: nat) {
    n < |evs| && n < |trace| && evs[n].ReceiveCall? && evs[n].link in trace[n].rings &&
    evs[n].link in cfg.links &&
    ReceivePathOf(cfg, trace[n], evs[n].link, evs[n].now) == Claim && evs[n].k >= 9
  }

  /** The descriptor that event `n` takes up. */
  ghost function Delivered(trace: seq<Sys>, evs: seq<Event>, n: nat): Message
    requires n < |evs| && n < |trace| && evs[n].ReceiveCall? && evs[n].link in trace[n].rings
    requires trace[n].rings[evs[n].link] != []
  {
    trace[n].rings[evs[n].link][0]
  }

  lemma DeliveryIsLogged(cfg: Config, trace: seq<Sys>, evs: seq<Event>, n: nat)
    requires IsRun(cfg, trace, evs) && Delivers(cfg, trace, evs, n)
    ensures var m := Delivered(trace, evs, n);
            && m.slot < cfg.slotCount
            && var l := trace[n].ledgers[m.slot];
               && m.generation == GenerationAfter(l.bumps) && m.sequence == l.sends % U32
               && trace[n + 1].ledgers[m.slot].keys == l.keys + [(l.bumps, l.sends)]
  {
    RunKeepsInv(cfg, trace, evs, n);
    assert StepAt(cfg, trace, evs, n);
    var m := Delivered(trace, evs, n);
    HeadIsClaimable(cfg, trace[n], evs[n].c, evs[n].e, evs[n].link, evs[n].now);
    assert SlotOk(cfg, trace[n].phases, m.slot, trace[n].slots[m.slot], trace[n].ledgers[m.slot]);
  }

  /** At-most-once delivery: two receives that publish ownership never take up
      descriptors with the same slot, generation and sequence, as long as the
      32-bit generation and sequence words do not run through all their values. */
  lemma AtMostOnceDelivery(cfg: Config, trace: seq<Sys>, evs: seq<Event>, n: nat, m: nat)
    requires IsRun(cfg, trace, evs) && n < m
    requires Delivers(cfg, trace, evs, n) && Delivers(cfg, trace, evs, m)
    requires var i := Delivered(trace, evs, m).slot;
             i < cfg.slotCount &&
             trace[m].ledgers[i].bumps < trace[n].ledgers[i].bumps + 0xFFFF_FFFF &&
             trace[n].ledgers[i].sends < U32 && trace[m].ledgers[i].sends < U32
    ensures var a, b := Delivered(trace, evs, n), Delivered(trace, evs, m);
            (a.slot, a.generation, a.sequence) != (b.slot, b.generation, b.sequence)
  {
    if Delivered(trace, evs, n).slot == Delivered(trace, evs, m).slot {
      DeliveriesDiffer(cfg, trace, evs, n, m, Delivered(trace, evs, n), Delivered(trace, evs, m));
    }
  }

  lemma DeliveriesDiffer(cfg: Config, trace: seq<Sys>, evs: seq<Event>, n: nat, m: nat, a: Message, b: Message)
    requires IsRun(cfg, trace, evs) && n < m
    requires Delivers(cfg, trace, evs, n) && Delivers(cfg, trace, evs, m)
    requires a == Delivered(trace, evs, n) && b == Delivered(trace, evs, m) && a.slot == b.slot < cfg.slotCount
    requires var i := a.slot;
             trace[m].ledgers[i].bumps < trace[n].ledgers[i].bumps + 0xFFFF_FFFF &&
             trace[n].ledgers[i].sends < U32 && trace[m].ledgers[i].sends < U32
    ensures (a.generation, a.sequence) != (b.generation, b.sequence)
  {
    DeliveryIsLogged(cfg, trace, evs, n);
    DeliveryIsLogged(cfg, trace, evs, m);
    DeliveriesIncrease(cfg, trace, evs, n, m, a.slot);
    KeysDiffer(trace[n].ledgers[a.slot], trace[m].ledgers[a.slot]);
  }

  lemma KeysDiffer(l: Ledger, l': Ledger)
    requires Less((l.bumps, l.sends), (l'.bumps, l'.sends))
    requires l'.bumps < l.bumps + 0xFFFF_FFFF && l.sends < U32 && l'.sends < U32
    ensures (GenerationAfter(l.bumps), l.sends % U32) != (GenerationAfter(l'.bumps), l'.sends % U32)
  {
    if l.bumps < l'.bumps {
      GenerationsDiffer(l.bumps, l'.bumps);
    }
  }

  /** The keys of two receives of one slot are in the order of the receives. */
  lemma DeliveriesIncrease(cfg: Config, trace: seq<Sys>, evs: seq<Event>, n: nat, m: nat, i: nat)
    requires IsRun(cfg, trace, evs) && n < m < |evs| && i < cfg.slotCount
    requires var l := trace[n].ledgers[i]; trace[n + 1].ledgers[i].keys == l.keys + [(l.bumps, l.sends)]
    requires var l := trace[m].ledgers[i]; trace[m + 1].ledgers[i].keys == l.keys + [(l.bumps, l.sends)]
    ensures var l, l' := trace[n].ledgers[i], trace[m].ledgers[i];
            Less((l.bumps, l.sends), (l'.bumps, l'.sends))
  {
    LedgerMonotone(cfg, trace, evs, n + 1, m, i);
    var l, l' := trace[n].ledgers[i], trace[m].ledgers[i];
    var keys := trace[m + 1].ledgers[i].keys;
    assert KeysBelow(keys, (trace[m + 1].ledgers[i].bumps + 1, 0)) by {
      RunKeepsInv(cfg, trace, evs, m + 1);
      assert SlotOk(cfg, trace[m + 1].phases, i, trace[m + 1].slots[i], trace[m + 1].ledgers[i]);
    }
    assert keys[|l.keys|] == (l.bumps, l.sends) && keys[|l'.keys|] == (l'.bumps, l'.sends);
    assert Less(keys[|l.keys|], keys[|l'.keys|]);
  }

  // ------------------------------------------------------------ conservation

  function LiveCount(slots: seq<Slot>): nat {
    if slots == [] then 0
    else LiveCount(slots[..|slots| - 1]) + (if slots[|slots| - 1].state == Free then 0 else 1)
  }

  lemma {:induction false} LiveCountUpdate(slots: seq<Slot>, i: nat, s: Slot)
    requires i < |slots|
    ensures LiveCount(slots[i := s]) + (if slots[i].state == Free then 0 else 1) ==
            LiveCount(slots) + (if s.state == Free then 0 else 1)
  {
    var n := |slots| - 1;
    if i == n {
      assert slots[i := s][..n] == slots[..n];
    } else {
      assert slots[i := s][..n] == slots[..n][i := s];
      LiveCountUpdate(slots[..n], i, s);
    }
  }

  lemma {:induction false} LiveCountZero(slots: seq<Slot>)
    requires forall i :: 0 <= i < |slots| ==> slots[i].state == Free
    ensures LiveCount(slots) == 0
  {
    if slots != [] {
      LiveCountZero(slots[..|slots| - 1]);
    }
  }

  ghost predicate Conserved(sys: Sys) {
    sys.calm ==>
      && LiveCount(sys.slots) + sys.releases == sys.allocations
      && forall c <- sys.phases :: !sys.phases[c].Restarting?
  }

  /** A slot that changes keeps being used, or is given out, or is given back. */
  lemma SendConserves(cfg: Config, sys: Sys, ev: Event)
    requires Inv(cfg, sys) && ev.SendCall? && Enabled(cfg, sys, ev) && Conserved(sys)
    ensures Conserved(Apply(cfg, sys, ev))
  {
    var sys' := Apply(cfg, sys, ev);
    assert sys'.slots == sys.slots[ev.i := sys'.slots[ev.i]] && sys'.slots[ev.i].state != Free;
    LiveCountUpdate(sys.slots, ev.i, sys'.slots[ev.i]);
  }

  lemma ReceiveConserves(cfg: Config, sys: Sys, ev: Event)
    requires Inv(cfg, sys) && ev.ReceiveCall? && Enabled(cfg, sys, ev) && Conserved(sys)
    ensures Conserved(Apply(cfg, sys, ev))
  {
    var sys' := Apply(cfg, sys, ev);
    if sys.rings[ev.link] != [] {
      HeadIsClaimable(cfg, sys, ev.c, ev.e, ev.link, ev.now);
      var i := sys.rings[ev.link][0].slot;
      assert sys'.slots == sys.slots[i := sys'.slots[i]] && sys'.slots[i].state != Free;
      LiveCountUpdate(sys.slots, i, sys'.slots[i]);
    }
  }

  lemma EventConserves(cfg: Config, sys: Sys, ev: Event)
    requires Inv(cfg, sys) && Enabled(cfg, sys, ev) && Conserved(sys)
    ensures Conserved(Apply(cfg, sys, ev))
  {
    var sys' := Apply(cfg, sys, ev);
    if ev.SendCall? {
      SendConserves(cfg, sys, ev);
    } else if ev.ReceiveCall? {
      ReceiveConserves(cfg, sys, ev);
    } else if sys'.calm {
      OtherEventConserves(cfg, sys, ev);
    }
  }

  lemma OtherEventConserves(cfg: Config, sys: Sys, ev: Event)
    requires Inv(cfg, sys) && Enabled(cfg, sys, ev) && Conserved(sys)
    requires !ev.SendCall? && !ev.ReceiveCall? && Apply(cfg, sys, ev).calm
    ensures Conserved(Apply(cfg, sys, ev))
  {
    if ev.AllocateCall? || ev.AllocateFailCall? {
      AllocationConserves(cfg, sys, ev);
    } else if ev.ReleaseCall? || ev.SetRegionCall? || ev.SetLimitsCall? {
      OwnerCallConserves(cfg, sys, ev);
    }
  }

  lemma AllocationConserves(cfg: Config, sys: Sys, ev: Event)
    requires Inv(cfg, sys) && Enabled(cfg, sys, ev) && Conserved(sys) && Apply(cfg, sys, ev).calm
    requires ev.AllocateCall? || ev.AllocateFailCall?
    ensures Conserved(Apply(cfg, sys, ev))
  {
    LiveCountUpdate(sys.slots, ev.i, Apply(cfg, sys, ev).slots[ev.i]);
  }

  lemma OwnerCallConserves(cfg: Config, sys: Sys, ev: Event)
    requires Inv(cfg, sys) && Enabled(cfg, sys, ev) && Conserved(sys) && Apply(cfg, sys, ev).calm
    requires ev.ReleaseCall? || ev.SetRegionCall? || ev.SetLimitsCall?
    ensures Conserved(Apply(cfg, sys, ev))
  {
    LiveCountUpdate(sys.slots, ev.i, Apply(cfg, sys, ev).slots[ev.i]);
  }

  /** In a run without kills and restarts, the slots in use are the allocations
      less the releases. */
  lemma {:induction false} PoolConserved(cfg: Config, trace: seq<Sys>, evs: seq<Event>, n: nat)
    requires IsRun(cfg, trace, evs) && n < |trace|
    ensures Conserved(trace[n])
  {
    if n == 0 {
      LiveCountZero(trace[0].slots);
    } else {
      PoolConserved(cfg, trace, evs, n - 1);
      RunKeepsInv(cfg, trace, evs, n - 1);
      assert StepAt(cfg, trace, evs, n - 1);
      EventConserves(cfg, trace[n - 1], evs[n - 1]);
    }
  }
}
