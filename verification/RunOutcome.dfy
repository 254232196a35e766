/**
 What a whole restart makes of the pool a killed component left behind.
 */
module RunOutcome {
  import opened Model
  import opened Protocol
  import opened RunModel
  import opened RunInvariant
  import opened RunTheorems

  /** A step of the restart of `c` up to the end of its scan. */
  predicate RestartStep(ev: Event, c: Component) {
    ev.c == c &&
    (ev.RestartBegin? || ev.ReconcileBegin? || ev.ReconcileVisit? || ev.ReconcileDrain? ||
     ev.ReconcileEnd? || ev.RestartVisit?)
  }

  /** The record before the scan has passed it: as left, repaired, unlocked, or
      looked at by a scan that could not adopt it. */
  predicate Mended(s: Slot, t: Slot, c: Component, e: u32) {
    || t == s
    || t == ScanRepair(s, c, e)
    || (s.state == Transfer && TokenOf(s.token, c, e) && t == s.(token := NoToken))
    || (Adoptable(ScanRepair(s, c, e), c, e) && t == ScanRepair(s, c, e).(acquired := t.acquired))
  }

  /** The record after the scan has passed it. */
  ghost predicate Scanned(s: Slot, t: Slot, c: Component, e: u32)
    requires e + 1 < U32
  {
    exists u :: Mended(s, u, c, e) && t == ScanSlot(u, c, e, e + 1, t.acquired)
  }

  ghost predicate Progress(slots: seq<Slot>, sys: Sys, c: Component, e: u32)
    requires e + 1 < U32
  {
    var p := PhaseOf(sys, c);
    && |slots| == |sys.slots|
    && (p == Crashed(e) || (p.Restarting? && p.dead == e))
    && (forall i :: 0 <= i < |slots| ==>
          if p.Restarting? && i < p.cursor then Scanned(slots[i], sys.slots[i], c, e)
          else Mended(slots[i], sys.slots[i], c, e))
  }

  lemma MendedStaysMended(s: Slot, t: Slot, c: Component, e: u32)
    requires Mended(s, t, c, e)
    ensures Mended(s, ReconcileConsumerSlot(t, c, e), c, e)
    ensures Mended(s, ReconcileProducerSlot(t, c, e), c, e)
  {
  }

  lemma ScannedStaysScanned(s: Slot, t: Slot, c: Component, e: u32)
    requires e + 1 < U32 && Scanned(s, t, c, e)
    ensures Scanned(s, ReconcileConsumerSlot(t, c, e), c, e)
    ensures Scanned(s, ReconcileProducerSlot(t, c, e), c, e)
  {
    var u :| Mended(s, u, c, e) && t == ScanSlot(u, c, e, e + 1, t.acquired);
    if TokenOf(t.token, c, e) && t.state == Transfer {
      var v := t.(token := NoToken);
      assert Mended(s, v, c, e) by { ScanLeavesTransfer(u, c, e, t.acquired); }
      assert v == ScanSlot(v, c, e, e + 1, v.acquired);
    } else {
      assert ReconcileConsumerSlot(t, c, e) == t && ReconcileProducerSlot(t, c, e) == t by {
        ScanLeavesNoClaim(u, c, e, t.acquired);
      }
    }
  }

  /** A transfer that keeps a token of the dead runtime was not changed by the scan. */
  lemma ScanLeavesTransfer(u: Slot, c: Component, e: u32, now: u64)
    requires e + 1 < U32
    ensures var t := ScanSlot(u, c, e, e + 1, now);
            TokenOf(t.token, c, e) && t.state == Transfer ==> t == u
  {
  }

  lemma ScanLeavesNoClaim(u: Slot, c: Component, e: u32, now: u64)
    requires e + 1 < U32
    ensures var t := ScanSlot(u, c, e, e + 1, now);
            TokenOf(t.token, c, e) ==> t.state == Transfer || t.state == Error
  {
  }

  lemma MendedIsScanned(s: Slot, t: Slot, c: Component, e: u32, now: u64)
    requires e + 1 < U32 && Mended(s, t, c, e)
    ensures Scanned(s, ScanSlot(t, c, e, e + 1, now), c, e)
  {
    var r := ScanSlot(t, c, e, e + 1, now);
    assert r == ScanSlot(t, c, e, e + 1, r.acquired);
  }

  lemma ReconcileProgress(cfg: Config, slots: seq<Slot>, sys: Sys, sys': Sys, c: Component, e: u32)
    requires WellFormed(cfg, sys) && e + 1 < U32 && Progress(slots, sys, c, e)
    requires var p := PhaseOf(sys, c);
             && p.Restarting? && p.job.Job? && p.job.next < |sys.slots|
             && p.job.link in cfg.links && p.job.link in sys.rings && sys' == AfterReconcileVisit(cfg, sys, c, p)
    ensures Progress(slots, sys', c, e)
  {
    var i := PhaseOf(sys, c).job.next;
    VisitEffect(cfg, sys, sys', c);
    MendOrScan(slots[i], sys.slots[i], c, e);
  }

  /** A reconciliation visits one slot and leaves the scan where it is. */
  lemma VisitEffect(cfg: Config, sys: Sys, sys': Sys, c: Component)
    requires var p := PhaseOf(sys, c);
             && p.Restarting? && p.job.Job? && p.job.next < |sys.slots| == |sys.ledgers|
             && p.job.link in cfg.links && p.job.link in sys.rings && sys' == AfterReconcileVisit(cfg, sys, c, p)
    ensures var p, q := PhaseOf(sys, c), PhaseOf(sys', c);
            var i := p.job.next;
            && q.Restarting? && q.dead == p.dead && q.cursor == p.cursor && |sys'.slots| == |sys.slots|
            && (forall d :: d != c ==> PhaseOf(sys', d) == PhaseOf(sys, d))
            && (forall j :: 0 <= j < |sys.slots| && j != i ==> sys'.slots[j] == sys.slots[j])
            && (|| sys'.slots[i] == ReconcileConsumerSlot(sys.slots[i], c, p.dead)
                || sys'.slots[i] == ReconcileProducerSlot(sys.slots[i], c, p.dead))
  {
  }

  /** A scan that stays at a slot leaves it mended. */
  lemma OverflowIsMended(s: Slot, t: Slot, c: Component, e: u32, now: u64)
    requires Mended(s, t, c, e) && Adoptable(ScanRepair(t, c, e), c, e)
    ensures Mended(s, ScanRepair(t, c, e).(acquired := now), c, e)
  {
  }

  lemma ScanProgress(cfg: Config, slots: seq<Slot>, sys: Sys, sys': Sys, c: Component, e: u32, now: u64)
    requires WellFormed(cfg, sys) && e + 1 < U32 && Progress(slots, sys, c, e)
    requires var p := PhaseOf(sys, c);
             p.Restarting? && p.cursor < |sys.slots| && p.dead + 1 < U32 && sys' == AfterRestartVisit(cfg, sys, c, p, now)
    ensures Progress(slots, sys', c, e)
  {
    var i := PhaseOf(sys, c).cursor;
    if Overflows(cfg, sys.slots[i], c, e) {
      OverflowIsMended(slots[i], sys.slots[i], c, e, now);
    } else {
      MendedIsScanned(slots[i], sys.slots[i], c, e, now);
    }
    assert forall j :: 0 <= j < |slots| && j != i ==> sys'.slots[j] == sys.slots[j];
  }

  lemma ProgressStep(cfg: Config, slots: seq<Slot>, sys: Sys, ev: Event, c: Component, e: u32)
    requires WellFormed(cfg, sys) && Enabled(cfg, sys, ev) && RestartStep(ev, c)
    requires e + 1 < U32 && Progress(slots, sys, c, e)
    ensures Progress(slots, Apply(cfg, sys, ev), c, e)
  {
    if ev.ReconcileVisit? {
      ReconcileProgress(cfg, slots, sys, Apply(cfg, sys, ev), c, e);
    } else if ev.RestartVisit? {
      ScanProgress(cfg, slots, sys, Apply(cfg, sys, ev), c, e, ev.now);
    }
  }

  lemma MendOrScan(s: Slot, t: Slot, c: Component, e: u32)
    requires e + 1 < U32
    ensures Mended(s, t, c, e) ==>
              Mended(s, ReconcileConsumerSlot(t, c, e), c, e) && Mended(s, ReconcileProducerSlot(t, c, e), c, e)
    ensures Scanned(s, t, c, e) ==>
              Scanned(s, ReconcileConsumerSlot(t, c, e), c, e) && Scanned(s, ReconcileProducerSlot(t, c, e), c, e)
  {
    if Mended(s, t, c, e) { MendedStaysMended(s, t, c, e); }
    if Scanned(s, t, c, e) { ScannedStaysScanned(s, t, c, e); }
  }

  lemma {:induction false} RestartProgress(cfg: Config, trace: seq<Sys>, evs: seq<Event>, n: nat, m: nat,
                                           c: Component, e: u32)
    requires IsRun(cfg, trace, evs) && n <= m < |trace| && e + 1 < U32
    requires PhaseOf(trace[n], c) == Crashed(e)
    requires forall j :: n <= j < m ==> RestartStep(evs[j], c)
    ensures Progress(trace[n].slots, trace[m], c, e)
    decreases m
  {
    if n < m {
      RestartProgress(cfg, trace, evs, n, m - 1, c, e);
      assert StepAt(cfg, trace, evs, m - 1);
      ProgressStep(cfg, trace[n].slots, trace[m - 1], evs[m - 1], c, e);
    }
  }

  /** The dead runtime held this buffer: it owned it, or had claimed it to send,
      take back or release it. */
  predicate HeldBy(s: Slot, c: Component, e: u32) {
    || (s.state == Owned && s.owner == c && s.ownerEpoch == e)
    || (s.state == Claiming && TokenOf(s.token, c, e) && s.token.kind in {Send, Rollback, Release})
  }

  /** What a restart makes of the record `s` it finds, given the buffer's history `l`. */
  ghost predicate RestartResult(s: Slot, t: Slot, l: Ledger, c: Component, e: u32) {
    && (HeldBy(s, c, e) ==>
          && t.state == Owned && t.owner == c && t.ownerEpoch == e + 1 && t.token.NoToken?
          && t.nextOwner == NO_COMPONENT && t.generation == NextGeneration(s.generation)
          && t.id == s.id == l.id && t.parent == s.parent == l.parent && t.region == Shown(l)
          && t.hopLimit == s.hopLimit && t.deadline == s.deadline
          && t.hopCount == (1 + l.claims) % U32 && t.visited == l.holders)
    && (s.state == Claiming && TokenOf(s.token, c, e) && s.token.kind == Receive ==>
          && t.state == Transfer && t.owner == s.sourceId && t.nextOwner == c && t.token.NoToken?
          && t.generation == s.generation && t.sequence == s.sequence
          && t.ownerEpoch == s.sourceEpoch && t.acquired == s.sourceAcquired
          && t.id == s.id && t.parent == s.parent && t.region == s.region == Shown(l)
          && t.hopLimit == s.hopLimit && t.deadline == s.deadline
          && t.hopCount == (1 + l.claims) % U32 && t.visited == l.holders)
    && (s.state == Claiming && TokenOf(s.token, c, e) && s.token.kind == Allocate ==>
          t.state == Free && t.token.NoToken?)
    && (!HeldBy(s, c, e) && !(s.state == Claiming && TokenOf(s.token, c, e)) ==>
          t == s || (TokenOf(s.token, c, e) && t == s.(token := NoToken)))
  }

  /**
   A complete restart during which no other component makes a call: every buffer
   the dead runtime held is owned by the new
   epoch under a new generation, every receive it had begun is a transfer again,
   only an allocation it had begun is freed, and no other record changes but for
   the dead runtime's leftover tokens. Identity, parentage, data window, hop
   count and visited set are those of the buffer's history.
   */
  lemma QuietRestart(cfg: Config, trace: seq<Sys>, evs: seq<Event>, n: nat, m: nat, c: Component, e: u32, i: nat)
    requires IsRun(cfg, trace, evs) && n <= m < |trace| && e + 1 < U32 && i < cfg.slotCount
    requires ValidComponent(c) && PhaseOf(trace[n], c) == Crashed(e)
    requires forall j :: n <= j < m ==> RestartStep(evs[j], c)
    requires PhaseOf(trace[m], c).Restarting? && PhaseOf(trace[m], c).cursor == cfg.slotCount
    ensures RestartResult(trace[n].slots[i], trace[m].slots[i], trace[n].ledgers[i], c, e)
  {
    RestartProgress(cfg, trace, evs, n, m, c, e);
    RunKeepsInv(cfg, trace, evs, n);
    assert SlotOk(cfg, trace[n].phases, i, trace[n].slots[i], trace[n].ledgers[i]);
    ScannedResult(cfg, trace[n].phases, i, trace[n].slots[i], trace[n].ledgers[i], trace[m].slots[i], c, e);
  }

  lemma ScannedResult(cfg: Config, phases: Phases, i: nat, s: Slot, l: Ledger, t: Slot, c: Component, e: u32)
    requires SlotOk(cfg, phases, i, s, l) && Ph(phases, c) == Crashed(e) && ValidComponent(c) && e + 1 < U32
    requires Scanned(s, t, c, e)
    ensures RestartResult(s, t, l, c, e)
  {
    var u :| Mended(s, u, c, e) && t == ScanSlot(u, c, e, e + 1, t.acquired);
    ScanOutcome(cfg, phases, i, s, l, u, c, e);
  }

  /** What the repair makes of the record as the dead runtime left it. */
  ghost predicate RepairResult(s: Slot, r: Slot, l: Ledger, c: Component, e: u32) {
    && (Adoptable(r, c, e) <==> HeldBy(s, c, e))
    && (HeldBy(s, c, e) ==>
          && r.token.NoToken? && r.nextOwner == NO_COMPONENT && r.generation == s.generation
          && r.id == s.id == l.id && r.parent == s.parent == l.parent && r.region == Shown(l)
          && r.hopLimit == s.hopLimit && r.deadline == s.deadline
          && r.hopCount == (1 + l.claims) % U32 && r.visited == l.holders)
    && (s.state == Claiming && TokenOf(s.token, c, e) && s.token.kind == Receive ==> r == UndoReceive(s, c))
    && (s.state == Claiming && TokenOf(s.token, c, e) && s.token.kind == Allocate ==> r == FreeClaim(s))
    && (!HeldBy(s, c, e) && !(s.state == Claiming && TokenOf(s.token, c, e)) ==>
          r == s || (TokenOf(s.token, c, e) && r == s.(token := NoToken)))
  }

  lemma RepairOutcome(cfg: Config, phases: Phases, i: nat, s: Slot, l: Ledger, c: Component, e: u32)
    requires SlotOk(cfg, phases, i, s, l) && Ph(phases, c) == Crashed(e) && ValidComponent(c)
    ensures RepairResult(s, ScanRepair(s, c, e), l, c, e)
  {
    match s.state
    case Free =>
    case Owned =>
    case Transfer =>
    case Claiming =>
  }

  /** A mended record is repaired to the same, but for a cleared token of a transfer
      and the time stamp of a scan that could not adopt. */
  lemma MendedRepair(s: Slot, u: Slot, c: Component, e: u32)
    requires Mended(s, u, c, e)
    ensures var r, r' := ScanRepair(s, c, e), ScanRepair(u, c, e);
            || r' == r
            || (s.state == Transfer && TokenOf(s.token, c, e) && r' == s.(token := NoToken))
            || (Adoptable(r, c, e) && r' == r.(acquired := r'.acquired))
  {
  }

  lemma ScanOutcome(cfg: Config, phases: Phases, i: nat, s: Slot, l: Ledger, u: Slot, c: Component, e: u32)
    requires SlotOk(cfg, phases, i, s, l) && Ph(phases, c) == Crashed(e) && ValidComponent(c)
    requires Mended(s, u, c, e)
    ensures RepairResult(s, ScanRepair(u, c, e), l, c, e)
  {
    RepairOutcome(cfg, phases, i, s, l, c, e);
    MendedRepair(s, u, c, e);
  }
}
