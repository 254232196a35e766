/**
 What a restart makes of the pool a killed component left behind while everybody
 goes on: the other components may make any calls, be killed and be restarted
 between any two steps of the restart, and the restarted component itself may
 use the buffers it has adopted, and others, before the scan is through.
 */
module RunOnline {
  import opened Model
  import opened Protocol
  import opened RunModel
  import opened RunInvariant
  import opened RunTransfers
  import opened RunTheorems
  import opened RunOutcome

  /** The dead runtime `(c, e)` has claimed the slot. */
  predicate ClaimedBy(s: Slot, c: Component, e: u32) {
    s.state == Claiming && TokenOf(s.token, c, e)
  }

  /** The slots that are the dead runtime's: it holds the buffer or the claim. */
  predicate Mine(s: Slot, c: Component, e: u32) {
    HeldBy(s, c, e) || ClaimedBy(s, c, e)
  }

  /** Records that only events of `c` may change: `c` owns the buffer, has claimed
      it, or is to receive it. */
  predicate Reserved(s: Slot, c: Component) {
    || (s.state == Owned && s.owner == c)
    || (s.state == Claiming && s.token.Token? && s.token.component == c)
    || (s.state == Transfer && s.nextOwner == c && s.token.NoToken?)
  }

  // -------------------------------------------------- events of the others

  /** What an event of another component may make of slot `i`: nothing if the slot
      is reserved for `c`, and never a slot of the dead runtime. */
  ghost predicate OthersKeep(sys: Sys, sys': Sys, i: nat, c: Component, e: u32)
    requires i < |sys.slots|
  {
    && i < |sys'.slots| && PhaseOf(sys', c) == PhaseOf(sys, c)
    && (Reserved(sys.slots[i], c) ==> sys'.slots[i] == sys.slots[i])
    && (!Mine(sys.slots[i], c, e) ==> !Mine(sys'.slots[i], c, e))
  }

  lemma OthersSend(cfg: Config, sys: Sys, sys': Sys, ev: Event, i: nat, c: Component, e: u32)
    requires WellFormed(cfg, sys) && ev.SendCall? && Enabled(cfg, sys, ev) && ev.c != c && i < |sys.slots|
    requires sys' == Apply(cfg, sys, ev)
    ensures OthersKeep(sys, sys', i, c, e)
  {
  }

  lemma OthersReceive(cfg: Config, sys: Sys, sys': Sys, ev: Event, i: nat, c: Component, e: u32)
    requires Inv(cfg, sys) && ev.ReceiveCall? && Enabled(cfg, sys, ev) && ev.c != c && i < |sys.slots|
    requires sys' == Apply(cfg, sys, ev)
    ensures OthersKeep(sys, sys', i, c, e)
  {
    if sys.rings[ev.link] != [] {
      HeadIsClaimable(cfg, sys, ev.c, ev.e, ev.link, ev.now);
    }
  }

  lemma OthersAllocate(cfg: Config, sys: Sys, sys': Sys, ev: Event, i: nat, c: Component, e: u32)
    requires WellFormed(cfg, sys) && Enabled(cfg, sys, ev) && ev.c != c && i < |sys.slots|
    requires ev.AllocateCall? || ev.AllocateFailCall?
    requires sys' == Apply(cfg, sys, ev)
    ensures OthersKeep(sys, sys', i, c, e)
  {
  }

  lemma OthersOwn(cfg: Config, sys: Sys, sys': Sys, ev: Event, i: nat, c: Component, e: u32)
    requires WellFormed(cfg, sys) && Enabled(cfg, sys, ev) && ev.c != c && i < |sys.slots|
    requires ev.ReleaseCall? || ev.SetRegionCall? || ev.SetLimitsCall?
    requires sys' == Apply(cfg, sys, ev)
    ensures OthersKeep(sys, sys', i, c, e)
  {
  }

  predicate Keeps(s: Slot, t: Slot, c: Component, e: u32) {
    (Reserved(s, c) ==> t == s) && (!Mine(s, c, e) ==> !Mine(t, c, e))
  }

  /** A repair by the restart of `d` touches only slots that carry `d`'s token, and
      leaves them in transfer, free, or owned by `d`. */
  lemma RepairKeeps(cfg: Config, phases: Phases, i: nat, s: Slot, l: Ledger, d: Component, dead: u32, c: Component, e: u32)
    requires SlotOk(cfg, phases, i, s, l) && d != c
    ensures Keeps(s, ScanRepair(s, d, dead), c, e)
    ensures Keeps(s, ReconcileConsumerSlot(s, d, dead), c, e)
    ensures Keeps(s, ReconcileProducerSlot(s, d, dead), c, e)
  {
    if TokenOf(s.token, d, dead) && s.state == Owned {
      assert s.owner == d;
    }
  }

  lemma ReconcileKeeps(cfg: Config, sys: Sys, t: Slot, d: Component, dead: u32, i: nat, c: Component, e: u32)
    requires Inv(cfg, sys) && d != c && i < |sys.slots|
    requires || t == sys.slots[i]
             || t == ReconcileConsumerSlot(sys.slots[i], d, dead)
             || t == ReconcileProducerSlot(sys.slots[i], d, dead)
    ensures Keeps(sys.slots[i], t, c, e)
  {
    assert SlotOk(cfg, sys.phases, i, sys.slots[i], sys.ledgers[i]);
    RepairKeeps(cfg, sys.phases, i, sys.slots[i], sys.ledgers[i], d, dead, c, e);
  }

  lemma OthersReconcile(cfg: Config, sys: Sys, sys': Sys, d: Component, i: nat, c: Component, e: u32)
    requires Inv(cfg, sys) && d != c && i < |sys.slots|
    requires var p := PhaseOf(sys, d);
             && p.Restarting? && p.job.Job? && p.job.next < |sys.slots|
             && p.job.link in cfg.links && p.job.link in sys.rings && sys' == AfterReconcileVisit(cfg, sys, d, p)
    ensures OthersKeep(sys, sys', i, c, e)
  {
    VisitEffect(cfg, sys, sys', d);
    ReconcileKeeps(cfg, sys, sys'.slots[i], d, PhaseOf(sys, d).dead, i, c, e);
  }

  lemma ScanKeeps(cfg: Config, phases: Phases, i: nat, s: Slot, l: Ledger, d: Component, dead: u32, now: u64,
                  c: Component, e: u32)
    requires SlotOk(cfg, phases, i, s, l) && d != c && dead + 1 < U32
    ensures Keeps(s, ScanSlot(s, d, dead, dead + 1, now), c, e)
  {
    RepairKeeps(cfg, phases, i, s, l, d, dead, c, e);
  }

  /** The slot `i` after one turn of the scan of `d`. */
  lemma ScanShape(cfg: Config, sys: Sys, sys': Sys, d: Component, now: u64, i: nat)
    requires i < |sys.slots| == |sys.ledgers|
    requires var p := PhaseOf(sys, d);
             && p.Restarting? && p.cursor < |sys.slots| && p.dead + 1 < U32
             && sys' == AfterRestartVisit(cfg, sys, d, p, now)
    ensures var dead := PhaseOf(sys, d).dead;
            && i < |sys'.slots| && (forall c :: c != d ==> PhaseOf(sys', c) == PhaseOf(sys, c))
            && (|| sys'.slots[i] == sys.slots[i]
                || sys'.slots[i] == ScanSlot(sys.slots[i], d, dead, dead + 1, now)
                || (Overflows(cfg, sys.slots[i], d, dead) &&
                    sys'.slots[i] == ScanRepair(sys.slots[i], d, dead).(acquired := now)))
  {
  }

  lemma OverflowKeeps(cfg: Config, s: Slot, d: Component, dead: u32, now: u64, c: Component, e: u32)
    requires Overflows(cfg, s, d, dead) && d != c && Keeps(s, ScanRepair(s, d, dead), c, e)
    ensures Keeps(s, ScanRepair(s, d, dead).(acquired := now), c, e)
  {
  }

  lemma OthersScan(cfg: Config, sys: Sys, sys': Sys, d: Component, now: u64, i: nat, c: Component, e: u32)
    requires Inv(cfg, sys) && d != c && i < |sys.slots|
    requires var p := PhaseOf(sys, d);
             && p.Restarting? && p.cursor < |sys.slots| && p.dead + 1 < U32
             && sys' == AfterRestartVisit(cfg, sys, d, p, now)
    ensures OthersKeep(sys, sys', i, c, e)
  {
    var s, dead := sys.slots[i], PhaseOf(sys, d).dead;
    ScanShape(cfg, sys, sys', d, now, i);
    assert SlotOk(cfg, sys.phases, i, s, sys.ledgers[i]);
    if sys'.slots[i] == ScanSlot(s, d, dead, dead + 1, now) {
      ScanKeeps(cfg, sys.phases, i, s, sys.ledgers[i], d, dead, now, c, e);
    } else if sys'.slots[i] != s {
      RepairKeeps(cfg, sys.phases, i, s, sys.ledgers[i], d, dead, c, e);
      OverflowKeeps(cfg, s, d, dead, now, c, e);
    }
  }

  lemma OthersRest(cfg: Config, sys: Sys, sys': Sys, ev: Event, i: nat, c: Component, e: u32)
    requires WellFormed(cfg, sys) && Enabled(cfg, sys, ev) && ev.c != c && i < |sys.slots|
    requires ev.RegisterCall? || ev.UnregisterCall? || ev.Die? || ev.RestartBegin? || ev.ReconcileBegin? ||
             ev.ReconcileDrain? || ev.ReconcileEnd? || ev.RestartFinish?
    requires sys' == Apply(cfg, sys, ev)
    ensures OthersKeep(sys, sys', i, c, e)
  {
  }

  lemma OthersStep(cfg: Config, sys: Sys, sys': Sys, ev: Event, i: nat, c: Component, e: u32)
    requires Inv(cfg, sys) && Enabled(cfg, sys, ev) && ev.c != c && i < |sys.slots| && sys' == Apply(cfg, sys, ev)
    ensures OthersKeep(sys, sys', i, c, e)
  {
    if ev.SendCall? {
      OthersSend(cfg, sys, sys', ev, i, c, e);
    } else if ev.ReceiveCall? {
      OthersReceive(cfg, sys, sys', ev, i, c, e);
    } else if ev.ReconcileVisit? {
      OthersReconcile(cfg, sys, sys', ev.c, i, c, e);
    } else if ev.RestartVisit? {
      OthersScan(cfg, sys, sys', ev.c, ev.now, i, c, e);
    } else if ev.AllocateCall? || ev.AllocateFailCall? {
      OthersAllocate(cfg, sys, sys', ev, i, c, e);
    } else if ev.ReleaseCall? || ev.SetRegionCall? || ev.SetLimitsCall? {
      OthersOwn(cfg, sys, sys', ev, i, c, e);
    } else {
      OthersRest(cfg, sys, sys', ev, i, c, e);
    }
  }

  // ------------------------------------------- calls of the restarted component

  /** The component is dead in epoch `e`, or its restart from it is not finished. */
  predicate InRestart(p: Phase, e: u32) {
    p == Crashed(e) || (p.Restarting? && p.dead == e)
  }

  predicate Passed(p: Phase, i: nat) {
    p.Restarting? && i < p.cursor
  }

  /** The slots of the dead epoch that the restart has not passed. */
  predicate Untaken(s: Slot, c: Component, e: u32) {
    (s.state == Owned && s.owner == c && s.ownerEpoch == e) || ClaimedBy(s, c, e)
  }

  /** What a call, of whomever, may make of slot `i` during the restart. */
  ghost predicate CallsKeep(sys: Sys, sys': Sys, i: nat, c: Component, e: u32)
    requires i < |sys.slots|
  {
    && i < |sys'.slots| && PhaseOf(sys', c) == PhaseOf(sys, c)
    && (Untaken(sys.slots[i], c, e) ==> sys'.slots[i] == sys.slots[i])
    && (!Mine(sys.slots[i], c, e) ==> !Mine(sys'.slots[i], c, e))
  }

  predicate IsCall(ev: Event) {
    ev.AllocateCall? || ev.AllocateFailCall? || ev.SendCall? || ev.ReceiveCall? || ev.ReleaseCall? ||
    ev.SetRegionCall? || ev.SetLimitsCall?
  }

  lemma OwnReceive(cfg: Config, sys: Sys, sys': Sys, ev: Event, i: nat, e: u32)
    requires Inv(cfg, sys) && ev.ReceiveCall? && Enabled(cfg, sys, ev) && i < |sys.slots|
    requires InRestart(PhaseOf(sys, ev.c), e) && sys' == Apply(cfg, sys, ev)
    ensures CallsKeep(sys, sys', i, ev.c, e)
  {
    if sys.rings[ev.link] != [] {
      HeadIsClaimable(cfg, sys, ev.c, ev.e, ev.link, ev.now);
    }
  }

  lemma OwnSend(cfg: Config, sys: Sys, sys': Sys, ev: Event, i: nat, e: u32)
    requires WellFormed(cfg, sys) && ev.SendCall? && Enabled(cfg, sys, ev) && i < |sys.slots|
    requires InRestart(PhaseOf(sys, ev.c), e) && sys' == Apply(cfg, sys, ev)
    ensures CallsKeep(sys, sys', i, ev.c, e)
  {
  }

  lemma OwnAllocate(cfg: Config, sys: Sys, sys': Sys, ev: Event, i: nat, e: u32)
    requires WellFormed(cfg, sys) && (ev.AllocateCall? || ev.AllocateFailCall?) && Enabled(cfg, sys, ev)
    requires i < |sys.slots| && InRestart(PhaseOf(sys, ev.c), e) && sys' == Apply(cfg, sys, ev)
    ensures CallsKeep(sys, sys', i, ev.c, e)
  {
  }

  lemma OwnEdit(cfg: Config, sys: Sys, sys': Sys, ev: Event, i: nat, e: u32)
    requires WellFormed(cfg, sys) && (ev.ReleaseCall? || ev.SetRegionCall? || ev.SetLimitsCall?) && Enabled(cfg, sys, ev)
    requires i < |sys.slots| && InRestart(PhaseOf(sys, ev.c), e) && sys' == Apply(cfg, sys, ev)
    ensures CallsKeep(sys, sys', i, ev.c, e)
  {
  }

  /** The calls of the restarted component carry the new epoch: they leave the slots
      of the dead one alone. */
  lemma OwnCall(cfg: Config, sys: Sys, sys': Sys, ev: Event, i: nat, e: u32)
    requires Inv(cfg, sys) && IsCall(ev) && Enabled(cfg, sys, ev) && i < |sys.slots|
    requires InRestart(PhaseOf(sys, ev.c), e) && sys' == Apply(cfg, sys, ev)
    ensures CallsKeep(sys, sys', i, ev.c, e)
  {
    if ev.SendCall? {
      OwnSend(cfg, sys, sys', ev, i, e);
    } else if ev.ReceiveCall? {
      OwnReceive(cfg, sys, sys', ev, i, e);
    } else if ev.AllocateCall? || ev.AllocateFailCall? {
      OwnAllocate(cfg, sys, sys', ev, i, e);
    } else {
      OwnEdit(cfg, sys, sys', ev, i, e);
    }
  }

  /** While a restart is not finished, its component makes calls or restart steps. */
  lemma CallOrStep(cfg: Config, sys: Sys, sys': Sys, ev: Event, e: u32)
    requires WellFormed(cfg, sys) && Enabled(cfg, sys, ev) && InRestart(PhaseOf(sys, ev.c), e)
    requires sys' == Apply(cfg, sys, ev) && InRestart(PhaseOf(sys', ev.c), e)
    ensures IsCall(ev) || RestartStep(ev, ev.c)
  {
  }

  // ------------------------------------------------------ events of the restart

  /** What a step of the restart may make of slot `i`, which it finds as `t`. */
  ghost predicate RestartMove(cfg: Config, t: Slot, t': Slot, p: Phase, p': Phase, i: nat, c: Component, e: u32)
    requires e + 1 < U32
  {
    && InRestart(p', e) && (Passed(p, i) ==> Passed(p', i))
    && (if !Passed(p, i) && Passed(p', i) then
          !Overflows(cfg, t, c, e) && t' == ScanSlot(t, c, e, e + 1, t'.acquired)
        else
          || t' == t || t' == ReconcileConsumerSlot(t, c, e) || t' == ReconcileProducerSlot(t, c, e)
          || (Adoptable(ScanRepair(t, c, e), c, e) && t' == ScanRepair(t, c, e).(acquired := t'.acquired)))
  }

  lemma ScanMoves(cfg: Config, sys: Sys, sys': Sys, now: u64, i: nat, c: Component, e: u32)
    requires WellFormed(cfg, sys) && i < |sys.slots| && e + 1 < U32 && InRestart(PhaseOf(sys, c), e)
    requires var p := PhaseOf(sys, c);
             p.Restarting? && p.cursor < |sys.slots| && sys' == AfterRestartVisit(cfg, sys, c, p, now)
    ensures i < |sys'.slots| && RestartMove(cfg, sys.slots[i], sys'.slots[i], PhaseOf(sys, c), PhaseOf(sys', c), i, c, e)
  {
  }

  lemma RestartMoves(cfg: Config, sys: Sys, sys': Sys, ev: Event, i: nat, c: Component, e: u32)
    requires WellFormed(cfg, sys) && Enabled(cfg, sys, ev) && RestartStep(ev, c) && i < |sys.slots|
    requires sys' == Apply(cfg, sys, ev) && e + 1 < U32 && InRestart(PhaseOf(sys, c), e)
    ensures i < |sys'.slots| && RestartMove(cfg, sys.slots[i], sys'.slots[i], PhaseOf(sys, c), PhaseOf(sys', c), i, c, e)
  {
    if ev.ReconcileVisit? {
      VisitEffect(cfg, sys, sys', c);
    } else if ev.RestartVisit? {
      ScanMoves(cfg, sys, sys', ev.now, i, c, e);
    }
  }

  /** What any event may do to slot `i` during the restart of `c`. */
  ghost predicate Moves(cfg: Config, sys: Sys, sys': Sys, ev: Event, i: nat, c: Component, e: u32)
    requires i < |sys.slots| && e + 1 < U32
  {
    && i < |sys'.slots|
    && (if RestartStep(ev, c)
        then RestartMove(cfg, sys.slots[i], sys'.slots[i], PhaseOf(sys, c), PhaseOf(sys', c), i, c, e)
        else CallsKeep(sys, sys', i, c, e))
  }

  lemma EventMoves(cfg: Config, sys: Sys, sys': Sys, ev: Event, i: nat, c: Component, e: u32)
    requires Inv(cfg, sys) && Enabled(cfg, sys, ev) && sys' == Apply(cfg, sys, ev) && i < |sys.slots| && e + 1 < U32
    requires InRestart(PhaseOf(sys, c), e) && InRestart(PhaseOf(sys', c), e)
    ensures Moves(cfg, sys, sys', ev, i, c, e)
  {
    if ev.c != c {
      OthersStep(cfg, sys, sys', ev, i, c, e);
    } else {
      CallOrStep(cfg, sys, sys', ev, e);
      if RestartStep(ev, c) {
        RestartMoves(cfg, sys, sys', ev, i, c, e);
      } else {
        OwnCall(cfg, sys, sys', ev, i, e);
      }
    }
  }

  // ---------------------------------------------------------------- one slot

  /** `c` was killed in epoch `e` before state `n` and its restart is not finished
      in any state up to `m`. */
  ghost predicate During(trace: seq<Sys>, n: nat, m: nat, c: Component, e: u32)
    requires n <= m < |trace|
  {
    PhaseOf(trace[n], c) == Crashed(e) && forall j :: n <= j <= m ==> InRestart(PhaseOf(trace[j], c), e)
  }

  lemma MovesAt(cfg: Config, trace: seq<Sys>, evs: seq<Event>, n: nat, m: nat, c: Component, e: u32, i: nat)
    requires IsRun(cfg, trace, evs) && n < m < |trace| && e + 1 < U32 && i < cfg.slotCount && During(trace, n, m, c, e)
    ensures Moves(cfg, trace[m - 1], trace[m], evs[m - 1], i, c, e)
  {
    RunKeepsInv(cfg, trace, evs, m - 1);
    assert StepAt(cfg, trace, evs, m - 1);
    EventMoves(cfg, trace[m - 1], trace[m], evs[m - 1], i, c, e);
  }

  lemma HeldIsUntaken(cfg: Config, phases: Phases, i: nat, s: Slot, l: Ledger, t: Slot, c: Component, e: u32)
    requires SlotOk(cfg, phases, i, s, l) && Ph(phases, c) == Crashed(e) && ValidComponent(c)
    requires HeldBy(s, c, e) && Mended(s, t, c, e)
    ensures Untaken(t, c, e)
  {
    RepairOutcome(cfg, phases, i, s, l, c, e);
  }

  lemma MendedMoves(cfg: Config, s: Slot, t: Slot, t': Slot, p: Phase, p': Phase, i: nat, c: Component, e: u32)
    requires e + 1 < U32 && Mended(s, t, c, e) && RestartMove(cfg, t, t', p, p', i, c, e) && !Passed(p, i)
    ensures if Passed(p', i) then !Overflows(cfg, t, c, e) && Scanned(s, t', c, e) else Mended(s, t', c, e)
  {
    if Passed(p', i) {
      MendedIsScanned(s, t, c, e, t'.acquired);
    } else {
      MendOrScan(s, t, c, e);
      if Adoptable(ScanRepair(t, c, e), c, e) {
        OverflowIsMended(s, t, c, e, t'.acquired);
      }
    }
  }

  /** A buffer the dead runtime held stays the dead epoch's until it is passed. */
  lemma {:induction false} HeldUntilPassed(cfg: Config, trace: seq<Sys>, evs: seq<Event>, n: nat, m: nat,
                                           c: Component, e: u32, i: nat)
    requires IsRun(cfg, trace, evs) && n <= m < |trace| && e + 1 < U32 && i < cfg.slotCount && ValidComponent(c)
    requires During(trace, n, m, c, e) && HeldBy(trace[n].slots[i], c, e) && !Passed(PhaseOf(trace[m], c), i)
    ensures Mended(trace[n].slots[i], trace[m].slots[i], c, e)
    decreases m
  {
    if n < m {
      MovesAt(cfg, trace, evs, n, m, c, e, i);
      HeldUntilPassed(cfg, trace, evs, n, m - 1, c, e, i);
      RunKeepsInv(cfg, trace, evs, n);
      HeldStep(cfg, trace[n], trace[m - 1], trace[m], evs[m - 1], i, c, e);
    }
  }

  lemma HeldStep(cfg: Config, start: Sys, sys: Sys, sys': Sys, ev: Event, i: nat, c: Component, e: u32)
    requires Inv(cfg, start) && i < |start.slots| && i < |sys.slots| && e + 1 < U32 && ValidComponent(c)
    requires PhaseOf(start, c) == Crashed(e) && HeldBy(start.slots[i], c, e)
    requires Moves(cfg, sys, sys', ev, i, c, e) && !Passed(PhaseOf(sys, c), i)
    requires Mended(start.slots[i], sys.slots[i], c, e)
    ensures if Passed(PhaseOf(sys', c), i)
            then !Overflows(cfg, sys.slots[i], c, e) && Scanned(start.slots[i], sys'.slots[i], c, e)
            else Mended(start.slots[i], sys'.slots[i], c, e)
  {
    assert SlotOk(cfg, start.phases, i, start.slots[i], start.ledgers[i]);
    HeldIsUntaken(cfg, start.phases, i, start.slots[i], start.ledgers[i], sys.slots[i], c, e);
    if RestartStep(ev, c) {
      MendedMoves(cfg, start.slots[i], sys.slots[i], sys'.slots[i], PhaseOf(sys, c), PhaseOf(sys', c), i, c, e);
    }
  }

  /** The window of an adopted buffer fits. */
  lemma AdoptedFits(cfg: Config, s: Slot, u: Slot, t: Slot, l: Ledger, c: Component, e: u32)
    requires e + 1 < U32 && HeldBy(s, c, e) && Mended(s, u, c, e) && RepairResult(s, ScanRepair(u, c, e), l, c, e)
    requires !Overflows(cfg, u, c, e)
    ensures Fits(Shown(l), cfg.capacity)
  {
  }

  /** A killed allocation is left alone until it is passed. */
  lemma {:induction false} AllocationUntilPassed(cfg: Config, trace: seq<Sys>, evs: seq<Event>, n: nat, m: nat,
                                                 c: Component, e: u32, i: nat)
    requires IsRun(cfg, trace, evs) && n <= m < |trace| && e + 1 < U32 && i < cfg.slotCount && During(trace, n, m, c, e)
    requires ClaimedBy(trace[n].slots[i], c, e) && trace[n].slots[i].token.kind == Allocate
    requires !Passed(PhaseOf(trace[m], c), i)
    ensures forall k :: n <= k <= m ==> i < |trace[k].slots| && trace[k].slots[i] == trace[n].slots[i]
    decreases m
  {
    if n < m {
      MovesAt(cfg, trace, evs, n, m, c, e, i);
      AllocationUntilPassed(cfg, trace, evs, n, m - 1, c, e, i);
    }
  }

  /** In state `j` the claim of slot `i` is repaired, and before it was untouched. */
  ghost predicate RepairedAt(trace: seq<Sys>, n: nat, j: nat, i: nat, c: Component, e: u32)
    requires n <= j < |trace| && i < |trace[n].slots|
  {
    && i < |trace[j].slots| && trace[j].slots[i] == ScanRepair(trace[n].slots[i], c, e)
    && (forall k :: n <= k < j ==> i < |trace[k].slots| && trace[k].slots[i] == trace[n].slots[i])
  }

  ghost predicate Untouched(trace: seq<Sys>, n: nat, m: nat, i: nat)
    requires n <= m < |trace| && i < |trace[n].slots|
  {
    forall k :: n <= k <= m ==> i < |trace[k].slots| && trace[k].slots[i] == trace[n].slots[i]
  }

  /** A killed receive is left alone until it is undone. */
  lemma {:induction false} ReceiveUntilRepaired(cfg: Config, trace: seq<Sys>, evs: seq<Event>, n: nat, m: nat,
                                                c: Component, e: u32, i: nat)
    requires IsRun(cfg, trace, evs) && n <= m < |trace| && e + 1 < U32 && i < cfg.slotCount && During(trace, n, m, c, e)
    requires ClaimedBy(trace[n].slots[i], c, e) && trace[n].slots[i].token.kind == Receive
    ensures Untouched(trace, n, m, i) || exists j :: n < j <= m && RepairedAt(trace, n, j, i, c, e)
    decreases m
  {
    if n < m {
      MovesAt(cfg, trace, evs, n, m, c, e, i);
      ReceiveUntilRepaired(cfg, trace, evs, n, m - 1, c, e, i);
      if Untouched(trace, n, m - 1, i) {
        if trace[m].slots[i] != trace[n].slots[i] {
          ReceiveMoves(cfg, trace[m - 1].slots[i], trace[m].slots[i], PhaseOf(trace[m - 1], c), PhaseOf(trace[m], c), i, c, e);
          assert RepairedAt(trace, n, m, i, c, e);
        }
      } else {
        var j :| n < j <= m - 1 && RepairedAt(trace, n, j, i, c, e);
        assert n < j <= m && RepairedAt(trace, n, j, i, c, e);
      }
    }
  }

  lemma ReceiveMoves(cfg: Config, t: Slot, t': Slot, p: Phase, p': Phase, i: nat, c: Component, e: u32)
    requires e + 1 < U32 && ClaimedBy(t, c, e) && t.token.kind == Receive && RestartMove(cfg, t, t', p, p', i, c, e)
    ensures t' == t || t' == ScanRepair(t, c, e)
  {
  }

  /** Once every link is reconciled, no receive of the dead runtime is left. */
  lemma NoReceiveLeft(cfg: Config, sys: Sys, i: nat, c: Component, e: u32)
    requires Inv(cfg, sys) && i < |sys.slots|
    requires var p := PhaseOf(sys, c); p.Restarting? && p.dead == e && AllReconciled(cfg, c, p.reconciled)
    ensures !(ClaimedBy(sys.slots[i], c, e) && sys.slots[i].token.kind == Receive)
  {
    assert SlotOk(cfg, sys.phases, i, sys.slots[i], sys.ledgers[i]);
  }

  // ------------------------------------------------------------- other slots

  predicate TokenAtMost(t: Slot, t': Slot, c: Component, e: u32) {
    t' == t || (TokenOf(t.token, c, e) && t' == t.(token := NoToken))
  }

  lemma BystanderMove(cfg: Config, phases: Phases, i: nat, t: Slot, l: Ledger, t': Slot, p: Phase, p': Phase,
                      c: Component, e: u32)
    requires SlotOk(cfg, phases, i, t, l) && e + 1 < U32 && !Mine(t, c, e) && RestartMove(cfg, t, t', p, p', i, c, e)
    ensures TokenAtMost(t, t', c, e) && !Mine(t', c, e)
  {
    match t.state
    case Free =>
    case Owned =>
    case Transfer =>
    case Claiming =>
  }

  /** A slot that is not the dead runtime's never becomes so, and no step of the
      restart changes it, but for a token the dead runtime left in it. */
  lemma {:induction false} Bystander(cfg: Config, trace: seq<Sys>, evs: seq<Event>, n: nat, m: nat,
                                     c: Component, e: u32, i: nat)
    requires IsRun(cfg, trace, evs) && n <= m < |trace| && e + 1 < U32 && i < cfg.slotCount
    requires During(trace, n, m, c, e) && !Mine(trace[n].slots[i], c, e)
    ensures !Mine(trace[m].slots[i], c, e)
    ensures forall j :: n <= j < m && RestartStep(evs[j], c) ==> TokenAtMost(trace[j].slots[i], trace[j + 1].slots[i], c, e)
    decreases m
  {
    if n < m {
      MovesAt(cfg, trace, evs, n, m, c, e, i);
      Bystander(cfg, trace, evs, n, m - 1, c, e, i);
      RunKeepsInv(cfg, trace, evs, m - 1);
      var sys := trace[m - 1];
      assert SlotOk(cfg, sys.phases, i, sys.slots[i], sys.ledgers[i]);
      if RestartStep(evs[m - 1], c) {
        BystanderMove(cfg, sys.phases, i, sys.slots[i], sys.ledgers[i], trace[m].slots[i],
                      PhaseOf(sys, c), PhaseOf(trace[m], c), c, e);
      }
    }
  }

  // --------------------------------------------------------------- theorems

  /**
   An online restart, told at the moment its scan passes slot `i`. Whatever anybody
   did since the kill, the restarted component included: a buffer the dead runtime
   held is then owned by the new epoch under a new generation, with the identity,
   the window shown, the hop count and the visited set of its history, and the
   window fits; an allocation it had begun was left alone and is then given back;
   a receive it had begun was left alone until it was undone; and every other
   record was changed by no step of the restart, but for a token the dead runtime
   had left in it.
   */
  lemma RestartOutcome(cfg: Config, trace: seq<Sys>, evs: seq<Event>, n: nat, m: nat, c: Component, e: u32, i: nat)
    requires IsRun(cfg, trace, evs) && n < m < |trace| && e + 1 < U32 && i < cfg.slotCount && ValidComponent(c)
    requires During(trace, n, m, c, e) && !Passed(PhaseOf(trace[m - 1], c), i) && Passed(PhaseOf(trace[m], c), i)
    ensures var s, t, l := trace[n].slots[i], trace[m].slots[i], trace[n].ledgers[i];
            && (HeldBy(s, c, e) ==> RestartResult(s, t, l, c, e) && Fits(t.region, cfg.capacity))
            && (ClaimedBy(s, c, e) && s.token.kind == Allocate ==> Untouched(trace, n, m - 1, i) && t == FreeClaim(s))
            && (ClaimedBy(s, c, e) && s.token.kind == Receive ==>
                  exists j :: n < j <= m && RepairedAt(trace, n, j, i, c, e))
            && (!Mine(s, c, e) ==>
                  forall j :: n <= j < m && RestartStep(evs[j], c) ==>
                    TokenAtMost(trace[j].slots[i], trace[j + 1].slots[i], c, e))
  {
    var s := trace[n].slots[i];
    if !Mine(s, c, e) {
      Bystander(cfg, trace, evs, n, m, c, e, i);
    } else if HeldBy(s, c, e) {
      HeldOutcome(cfg, trace, evs, n, m, c, e, i);
    } else if s.token.kind == Allocate {
      MovesAt(cfg, trace, evs, n, m, c, e, i);
      AllocationUntilPassed(cfg, trace, evs, n, m - 1, c, e, i);
    } else {
      ReceiveUntilRepaired(cfg, trace, evs, n, m, c, e, i);
      RunKeepsInv(cfg, trace, evs, m);
      assert PhaseOk(cfg, c, PhaseOf(trace[m], c));
      NoReceiveLeft(cfg, trace[m], i, c, e);
    }
  }

  lemma HeldOutcome(cfg: Config, trace: seq<Sys>, evs: seq<Event>, n: nat, m: nat, c: Component, e: u32, i: nat)
    requires IsRun(cfg, trace, evs) && n < m < |trace| && e + 1 < U32 && i < cfg.slotCount && ValidComponent(c)
    requires During(trace, n, m, c, e) && !Passed(PhaseOf(trace[m - 1], c), i) && Passed(PhaseOf(trace[m], c), i)
    requires HeldBy(trace[n].slots[i], c, e)
    ensures RestartResult(trace[n].slots[i], trace[m].slots[i], trace[n].ledgers[i], c, e)
    ensures Fits(trace[m].slots[i].region, cfg.capacity)
  {
    HeldUntilPassed(cfg, trace, evs, n, m - 1, c, e, i);
    MovesAt(cfg, trace, evs, n, m, c, e, i);
    RunKeepsInv(cfg, trace, evs, n);
    HeldStep(cfg, trace[n], trace[m - 1], trace[m], evs[m - 1], i, c, e);
    var s, l := trace[n].slots[i], trace[n].ledgers[i];
    assert SlotOk(cfg, trace[n].phases, i, s, l);
    ScannedResult(cfg, trace[n].phases, i, s, l, trace[m].slots[i], c, e);
    ScanOutcome(cfg, trace[n].phases, i, s, l, trace[m - 1].slots[i], c, e);
    AdoptedFits(cfg, s, trace[m - 1].slots[i], trace[m].slots[i], l, c, e);
  }

  /**
   In runs the repair of a receive is always exact: a receive killed inside its
   claim is left alone until its component, restarted, has reconciled its links,
   and by then was undone to the ownership that the sender had published.
   */
  lemma KilledReceiveUndone(cfg: Config, trace: seq<Sys>, evs: seq<Event>, n: nat, m: nat, c: Component, e: u32, i: nat)
    returns (j: nat)
    requires IsRun(cfg, trace, evs) && n + 1 <= m < |trace| && e + 1 < U32 && i < cfg.slotCount
    requires evs[n].ReceiveCall? && evs[n].c == c && evs[n].e == e && 2 <= evs[n].k < 9
    requires evs[n].link in trace[n].rings && trace[n].rings[evs[n].link] != [] && trace[n].rings[evs[n].link][0].slot == i
    requires During(trace, n + 1, m, c, e)
    requires PhaseOf(trace[m], c).Restarting? && AllReconciled(cfg, c, PhaseOf(trace[m], c).reconciled)
    ensures n + 1 < j <= m && (forall k :: n < k < j ==> trace[k].slots[i] == trace[n + 1].slots[i])
    ensures OwnershipOf(trace[j].slots[i]) == OwnershipOf(trace[n].slots[i].(token := NoToken))
  {
    KilledReceive(cfg, trace, evs, n, c, e, i);
    ReceiveUntilRepaired(cfg, trace, evs, n + 1, m, c, e, i);
    RunKeepsInv(cfg, trace, evs, m);
    NoReceiveLeft(cfg, trace[m], i, c, e);
    j :| n + 1 < j <= m && RepairedAt(trace, n + 1, j, i, c, e);
    ReceiveUndoneExactly(trace[n].slots[i], evs[n].k, c, e, evs[n].now);
  }

  lemma KilledReceive(cfg: Config, trace: seq<Sys>, evs: seq<Event>, n: nat, c: Component, e: u32, i: nat)
    requires IsRun(cfg, trace, evs) && n < |evs| && i < cfg.slotCount
    requires evs[n].ReceiveCall? && evs[n].c == c && evs[n].e == e && 2 <= evs[n].k < 9
    requires evs[n].link in trace[n].rings && trace[n].rings[evs[n].link] != [] && trace[n].rings[evs[n].link][0].slot == i
    ensures var s, t := trace[n].slots[i], trace[n + 1].slots[i];
            && ReceiveMayStart(s) && SourceSaved(s) && s.nextOwner == c
            && t == ReceivePrefix(s, evs[n].k, c, e, evs[n].now)
            && PhaseOf(trace[n + 1], c) == Crashed(e)
  {
    assert StepAt(cfg, trace, evs, n);
    RunKeepsInv(cfg, trace, evs, n);
    var sys, ev := trace[n], evs[n];
    HeadIsClaimable(cfg, sys, c, e, ev.link, ev.now);
    assert SlotOk(cfg, sys.phases, i, sys.slots[i], sys.ledgers[i]);
  }
}
