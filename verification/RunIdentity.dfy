/**
 A buffer keeps its identity from its allocation to its release.
 */
module RunIdentity {
  import opened Model
  import opened Protocol
  import opened RunModel
  import opened RunInvariant
  import opened RunTheorems

  /** The slot still holds the same buffer. */
  predicate SameBuffer(l: Ledger, l': Ledger) {
    l.live && l'.live && l'.id == l.id && l'.parent == l.parent && l.bumps <= l'.bumps
  }

  lemma SendKeepsBuffer(cfg: Config, sys: Sys, sys': Sys, ev: Event, i: nat)
    requires WellFormed(cfg, sys) && ev.SendCall? && Enabled(cfg, sys, ev) && i < |sys.slots| && sys.ledgers[i].live
    requires sys' == Apply(cfg, sys, ev) && i < |sys'.slots| == |sys'.ledgers|
    ensures SameBuffer(sys.ledgers[i], sys'.ledgers[i])
  {
  }

  lemma ReceiveKeepsBuffer(cfg: Config, sys: Sys, sys': Sys, ev: Event, i: nat)
    requires WellFormed(cfg, sys) && ev.ReceiveCall? && Enabled(cfg, sys, ev) && i < |sys.slots| && sys.ledgers[i].live
    requires sys' == Apply(cfg, sys, ev) && i < |sys'.slots| == |sys'.ledgers|
    ensures SameBuffer(sys.ledgers[i], sys'.ledgers[i])
  {
    match ReceivePathOf(cfg, sys, ev.link, ev.now)
    case Empty =>
    case Discard =>
    case Refuse =>
    case Claim =>
  }

  lemma ReconcileKeepsBuffer(cfg: Config, sys: Sys, sys': Sys, c: Component, i: nat)
    requires i < |sys.slots| == |sys.ledgers| && sys.ledgers[i].live
    requires var p := PhaseOf(sys, c);
             && p.Restarting? && p.job.Job? && p.job.next < |sys.slots|
             && p.job.link in cfg.links && p.job.link in sys.rings && sys' == AfterReconcileVisit(cfg, sys, c, p)
    ensures i < |sys'.ledgers| && SameBuffer(sys.ledgers[i], sys'.ledgers[i])
  {
  }

  lemma ScanKeepsBuffer(cfg: Config, sys: Sys, sys': Sys, c: Component, now: u64, i: nat)
    requires i < |sys.slots| == |sys.ledgers| && sys.ledgers[i].live
    requires var p := PhaseOf(sys, c);
             && p.Restarting? && p.cursor < |sys.slots| && p.dead + 1 < U32
             && sys' == AfterRestartVisit(cfg, sys, c, p, now)
    ensures i < |sys'.ledgers| && SameBuffer(sys.ledgers[i], sys'.ledgers[i])
  {
  }

  /** An allocation takes no slot in use, and a release that completes frees its slot. */
  lemma OwnerCallKeepsBuffer(cfg: Config, sys: Sys, sys': Sys, ev: Event, i: nat)
    requires WellFormed(cfg, sys) && (ev.AllocateCall? || ev.AllocateFailCall? || ev.ReleaseCall?) && Enabled(cfg, sys, ev)
    requires i < |sys.slots| && sys.ledgers[i].live && sys.slots[i].state != Free
    requires sys' == Apply(cfg, sys, ev) && i < |sys'.slots| == |sys'.ledgers| && sys'.slots[i].state != Free
    ensures SameBuffer(sys.ledgers[i], sys'.ledgers[i])
  {
  }

  lemma StepKeepsBuffer(cfg: Config, sys: Sys, sys': Sys, ev: Event, i: nat)
    requires WellFormed(cfg, sys) && Enabled(cfg, sys, ev)
    requires i < |sys.slots| && sys.ledgers[i].live && sys.slots[i].state != Free
    requires sys' == Apply(cfg, sys, ev) && i < |sys'.slots| == |sys'.ledgers| && sys'.slots[i].state != Free
    ensures SameBuffer(sys.ledgers[i], sys'.ledgers[i])
  {
    if ev.SendCall? {
      SendKeepsBuffer(cfg, sys, sys', ev, i);
    } else if ev.ReceiveCall? {
      ReceiveKeepsBuffer(cfg, sys, sys', ev, i);
    } else if ev.ReconcileVisit? {
      ReconcileKeepsBuffer(cfg, sys, sys', ev.c, i);
    } else if ev.RestartVisit? {
      ScanKeepsBuffer(cfg, sys, sys', ev.c, ev.now, i);
    } else if ev.AllocateCall? || ev.AllocateFailCall? || ev.ReleaseCall? {
      OwnerCallKeepsBuffer(cfg, sys, sys', ev, i);
    } else {
      OtherKeepsBuffer(cfg, sys, sys', ev, i);
    }
  }

  lemma OtherKeepsBuffer(cfg: Config, sys: Sys, sys': Sys, ev: Event, i: nat)
    requires WellFormed(cfg, sys) && Enabled(cfg, sys, ev) && i < |sys.slots| && sys.ledgers[i].live
    requires !ev.SendCall? && !ev.ReceiveCall? && !ev.ReconcileVisit? && !ev.RestartVisit?
    requires !ev.AllocateCall? && !ev.AllocateFailCall? && !ev.ReleaseCall?
    requires sys' == Apply(cfg, sys, ev) && i < |sys'.slots| == |sys'.ledgers|
    ensures SameBuffer(sys.ledgers[i], sys'.ledgers[i])
  {
  }

  lemma BufferKeptAt(cfg: Config, trace: seq<Sys>, evs: seq<Event>, n: nat, i: nat)
    requires IsRun(cfg, trace, evs) && n < |evs| && i < cfg.slotCount
    requires i < |trace[n].slots| && i < |trace[n].ledgers| && trace[n].ledgers[i].live && trace[n].slots[i].state != Free
    requires i < |trace[n + 1].slots| && i < |trace[n + 1].ledgers| && trace[n + 1].slots[i].state != Free
    ensures SameBuffer(trace[n].ledgers[i], trace[n + 1].ledgers[i])
  {
    assert StepAt(cfg, trace, evs, n);
    assert WellFormed(cfg, trace[n + 1]);
    StepKeepsBuffer(cfg, trace[n], trace[n + 1], evs[n], i);
  }

  lemma {:induction false} BufferKept(cfg: Config, trace: seq<Sys>, evs: seq<Event>, n: nat, m: nat, i: nat)
    requires IsRun(cfg, trace, evs) && n <= m < |trace| && i < cfg.slotCount
    requires |trace[n].ledgers| == |trace[m].ledgers| == cfg.slotCount && trace[n].ledgers[i].live
    requires forall j :: n <= j <= m ==> i < |trace[j].slots| && trace[j].slots[i].state != Free
    ensures SameBuffer(trace[n].ledgers[i], trace[m].ledgers[i])
    decreases m
  {
    if n < m {
      assert WellFormed(cfg, trace[m - 1]);
      BufferKept(cfg, trace, evs, n, m - 1, i);
      BufferKeptAt(cfg, trace, evs, m - 1, i);
    }
  }

  /**
   From allocation until the slot is FREE again, buffer ID and parent ID never
   change: through sends, receives, rollbacks, kills, undone claims and
   adoptions, and also while the slot is claimed.
   */
  lemma IdentityKept(cfg: Config, trace: seq<Sys>, evs: seq<Event>, n: nat, m: nat, i: nat)
    requires IsRun(cfg, trace, evs) && n <= m < |trace| && i < cfg.slotCount
    requires forall j :: n <= j <= m ==> i < |trace[j].slots| && trace[j].slots[i].state != Free
    requires trace[n].slots[i].state != Claiming
    ensures trace[m].slots[i].id == trace[n].slots[i].id && trace[m].slots[i].parent == trace[n].slots[i].parent
  {
    RunKeepsInv(cfg, trace, evs, n);
    RunKeepsInv(cfg, trace, evs, m);
    assert SlotOk(cfg, trace[n].phases, i, trace[n].slots[i], trace[n].ledgers[i]);
    assert SlotOk(cfg, trace[m].phases, i, trace[m].slots[i], trace[m].ledgers[i]);
    BufferKept(cfg, trace, evs, n, m, i);
  }
}
