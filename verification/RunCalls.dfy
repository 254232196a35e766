/**
 Every protocol call, complete or killed after any of its writes, keeps the
 invariant.
 */
module RunCalls {
  import opened Model
  import opened Protocol
  import opened RunModel
  import opened RunInvariant
  import opened RunFrames

  // --------------------------------------------------------------- lifecycle

  lemma RegisterKeepsInv(cfg: Config, sys: Sys, c: Component)
    requires Inv(cfg, sys) && Enabled(cfg, sys, RegisterCall(c))
    ensures Inv(cfg, Apply(cfg, sys, RegisterCall(c)))
  {
    var q := Up(PhaseOf(sys, c).epoch + 1);
    PhaseChange(cfg, sys, Apply(cfg, sys, RegisterCall(c)), c, q);
  }

  lemma UnregisterKeepsInv(cfg: Config, sys: Sys, c: Component)
    requires Inv(cfg, sys) && Enabled(cfg, sys, UnregisterCall(c))
    ensures Inv(cfg, Apply(cfg, sys, UnregisterCall(c)))
  {
    var q := Off(PhaseOf(sys, c).epoch);
    PhaseChange(cfg, sys, Apply(cfg, sys, UnregisterCall(c)), c, q);
  }

  lemma DieKeepsInv(cfg: Config, sys: Sys, c: Component)
    requires Inv(cfg, sys) && Enabled(cfg, sys, Die(c))
    ensures Inv(cfg, Apply(cfg, sys, Die(c)))
  {
    var q := Crashed(PhaseOf(sys, c).epoch);
    PhaseChange(cfg, sys, Apply(cfg, sys, Die(c)), c, q);
  }

  /** What becomes of the caller's phase: killed, or as before. */
  function CallerPhase(sys: Sys, c: Component, killed: bool): Phase {
    if killed then Crashed(EpochOf(PhaseOf(sys, c)) % U32) else PhaseOf(sys, c)
  }

  /** A caller is up unless it survives the call inside its own restart. */
  lemma CallerAdvance(cfg: Config, sys: Sys, c: Component, e: u32, killed: bool)
    requires Inv(cfg, sys) && Active(cfg, sys, c, e) && (killed ==> PhaseOf(sys, c).Up?)
    ensures var p, q := PhaseOf(sys, c), CallerPhase(sys, c, killed);
            && EpochOf(p) == EpochOf(q) == e && PhaseOk(cfg, c, q) && q == Ph(sys.phases[c := q], c)
            && (killed ==> q == Crashed(e)) && (!killed ==> sys.phases[c := q] == sys.phases)
            && (forall i: int :: Advance(cfg, c, p, q, i))
            && (forall link :: RingAdvance(cfg, c, p, q, link))
            && (q.Restarting? ==> q.dead + 1 == e)
  {
    var p, q := PhaseOf(sys, c), CallerPhase(sys, c, killed);
    forall i: int ensures Advance(cfg, c, p, q, i) {
      if !killed { AdvanceRefl(cfg, c, p, i); }
    }
  }

  /** A slot owned by the live epoch of `c` is not left over from a dead one. */
  lemma LiveSwept(phases: Phases, c: Component, e: u32, i: nat, s: Slot)
    requires EpochOf(Ph(phases, c)) == e
    requires s.state == Owned ==> s.owner == c && s.ownerEpoch == e
    ensures forall d: Component :: Cleaned(phases, d, i, s)
  {
  }

  // ---------------------------------------------------------------- allocate

  lemma GenerationStep(bumps: nat)
    ensures GenerationAfter(bumps + 1) == NextGeneration(GenerationAfter(bumps))
  {
    if bumps > 0 {
      var r := (bumps - 1) % 0xFFFF_FFFF;
      assert bumps % 0xFFFF_FFFF == if r + 1 < 0xFFFF_FFFF then r + 1 else 0;
    }
  }

  lemma AllocateSlot(cfg: Config, phases: Phases, i: nat, s: Slot, l: Ledger, k: nat, a: AllocateArgs)
    requires SlotOk(cfg, phases, i, s, l) && s.state == Free && s.token.NoToken?
    requires ValidComponent(a.component) && a.duration == 0 && Fits(a.region, cfg.capacity)
    requires a.epoch == EpochOf(Ph(phases, a.component))
    requires k < ALLOCATE_STEPS ==> Ph(phases, a.component) == Crashed(a.epoch)
    ensures SlotOk(cfg, phases, i, AllocatePrefix(s, k, a), AllocateLedger(l, k, a))
  {
    GenerationStep(l.bumps);
  }

  lemma AllocateKeepsInv(cfg: Config, sys: Sys, ev: Event)
    requires Inv(cfg, sys) && ev.AllocateCall? && Enabled(cfg, sys, ev)
    ensures Inv(cfg, Apply(cfg, sys, ev))
  {
    var c, i, a, k, e := ev.c, ev.i, ev.args, ev.k, ev.args.epoch;
    var sys' := Apply(cfg, sys, ev);
    var q := CallerPhase(sys, c, k < ALLOCATE_STEPS);
    CallerAdvance(cfg, sys, c, e, k < ALLOCATE_STEPS);
    FreeUnlisted(cfg, sys, i);
    var s, l := sys.slots[i], sys.ledgers[i];
    assert SlotOk(cfg, sys'.phases, i, s, l);
    AllocateSlot(cfg, sys'.phases, i, s, l, k, a);
    LiveSwept(sys'.phases, c, e, i, sys'.slots[i]);
    UnlistedSlotChange(cfg, sys, sys', c, q, i);
  }

  lemma AllocateFailSlot(cfg: Config, phases: Phases, i: nat, s: Slot, l: Ledger, k: nat, a: AllocateArgs)
    requires SlotOk(cfg, phases, i, s, l) && s.state == Free && s.token.NoToken?
    requires ValidComponent(a.component) && a.duration == 0 && Fits(a.region, cfg.capacity)
    requires a.epoch == EpochOf(Ph(phases, a.component))
    requires k < ALLOCATE_FAIL_STEPS ==> Ph(phases, a.component) == Crashed(a.epoch)
    ensures SlotOk(cfg, phases, i, AllocateFailPrefix(s, k, a), AllocateLedger(l, if k < 28 then k else 28, a))
  {
    GenerationStep(l.bumps);
  }

  lemma AllocateFailKeepsInv(cfg: Config, sys: Sys, ev: Event)
    requires Inv(cfg, sys) && ev.AllocateFailCall? && Enabled(cfg, sys, ev)
    ensures Inv(cfg, Apply(cfg, sys, ev))
  {
    var c, i, a, k, e := ev.c, ev.i, ev.args, ev.k, ev.args.epoch;
    var sys' := Apply(cfg, sys, ev);
    var q := CallerPhase(sys, c, k < ALLOCATE_FAIL_STEPS);
    CallerAdvance(cfg, sys, c, e, k < ALLOCATE_FAIL_STEPS);
    FreeUnlisted(cfg, sys, i);
    var s, l := sys.slots[i], sys.ledgers[i];
    assert SlotOk(cfg, sys'.phases, i, s, l);
    AllocateFailSlot(cfg, sys'.phases, i, s, l, k, a);
    LiveSwept(sys'.phases, c, e, i, sys'.slots[i]);
    UnlistedSlotChange(cfg, sys, sys', c, q, i);
  }

  // ----------------------------------------------------------------- release

  lemma ReleaseSlot(cfg: Config, phases: Phases, i: nat, s: Slot, l: Ledger, k: nat)
    requires SlotOk(cfg, phases, i, s, l) && s.state == Owned && s.token.NoToken? && Fits(s.region, cfg.capacity)
    requires k < RELEASE_STEPS ==> Ph(phases, s.owner) == Crashed(s.ownerEpoch)
    ensures SlotOk(cfg, phases, i, ReleasePrefix(s, k), ReleaseLedger(l, k))
  {
  }

  lemma HeldSlotOk(cfg: Config, sys: Sys, c: Component, e: u32, i: nat, killed: bool)
    requires Inv(cfg, sys) && Active(cfg, sys, c, e) && Holds(sys, c, e, i)
    requires killed ==> PhaseOf(sys, c).Up?
    ensures var q := CallerPhase(sys, c, killed);
            SlotOk(cfg, sys.phases[c := q], i, sys.slots[i], sys.ledgers[i])
  {
    CallerAdvance(cfg, sys, c, e, killed);
    HeldUnlisted(cfg, sys, c, e, i);
    assert SlotOk(cfg, sys.phases, i, sys.slots[i], sys.ledgers[i]);
  }

  lemma ReleaseKeepsInv(cfg: Config, sys: Sys, ev: Event)
    requires Inv(cfg, sys) && ev.ReleaseCall? && Enabled(cfg, sys, ev)
    ensures Inv(cfg, Apply(cfg, sys, ev))
  {
    var c, e, i, k := ev.c, ev.e, ev.i, ev.k;
    var sys' := Apply(cfg, sys, ev);
    var killed := k < RELEASE_STEPS;
    var q := CallerPhase(sys, c, killed);
    CallerAdvance(cfg, sys, c, e, killed);
    HeldUnlisted(cfg, sys, c, e, i);
    HeldSlotOk(cfg, sys, c, e, i, killed);
    ReleaseSlot(cfg, sys'.phases, i, sys.slots[i], sys.ledgers[i], k);
    LiveSwept(sys'.phases, c, e, i, sys'.slots[i]);
    UnlistedSlotChange(cfg, sys, sys', c, q, i);
  }

  // ------------------------------------------------------- region and limits

  lemma RegionSlot(cfg: Config, phases: Phases, i: nat, s: Slot, l: Ledger, k: nat, r: Region)
    requires SlotOk(cfg, phases, i, s, l) && s.state == Owned && s.token.NoToken? && Fits(s.region, cfg.capacity)
    requires Fits(r, cfg.capacity) && (k < REGION_STEPS ==> Ph(phases, s.owner) == Crashed(s.ownerEpoch))
    ensures SlotOk(cfg, phases, i, RegionPrefix(s, k, r), RegionLedger(l, k, r))
  {
  }

  lemma SetRegionKeepsInv(cfg: Config, sys: Sys, ev: Event)
    requires Inv(cfg, sys) && ev.SetRegionCall? && Enabled(cfg, sys, ev)
    ensures Inv(cfg, Apply(cfg, sys, ev))
  {
    var c, e, i, k := ev.c, ev.e, ev.i, ev.k;
    var sys' := Apply(cfg, sys, ev);
    var killed := k < REGION_STEPS;
    CallerAdvance(cfg, sys, c, e, killed);
    HeldUnlisted(cfg, sys, c, e, i);
    HeldSlotOk(cfg, sys, c, e, i, killed);
    RegionSlot(cfg, sys'.phases, i, sys.slots[i], sys.ledgers[i], k, ev.region);
    LiveSwept(sys'.phases, c, e, i, sys'.slots[i]);
    UnlistedSlotChange(cfg, sys, sys', c, CallerPhase(sys, c, killed), i);
  }

  lemma LimitsSlot(cfg: Config, phases: Phases, i: nat, s: Slot, l: Ledger, k: nat, limit: u32)
    requires SlotOk(cfg, phases, i, s, l) && s.state == Owned && s.token.NoToken?
    ensures SlotOk(cfg, phases, i, LimitsPrefix(s, k, limit, 0), LimitsLedger(l, k, limit))
  {
  }

  lemma SetLimitsKeepsInv(cfg: Config, sys: Sys, ev: Event)
    requires Inv(cfg, sys) && ev.SetLimitsCall? && Enabled(cfg, sys, ev)
    ensures Inv(cfg, Apply(cfg, sys, ev))
  {
    var c, e, i, k := ev.c, ev.e, ev.i, ev.k;
    var sys' := Apply(cfg, sys, ev);
    var killed := k < LIMITS_STEPS;
    CallerAdvance(cfg, sys, c, e, killed);
    HeldUnlisted(cfg, sys, c, e, i);
    HeldSlotOk(cfg, sys, c, e, i, killed);
    LimitsSlot(cfg, sys'.phases, i, sys.slots[i], sys.ledgers[i], k, ev.limit);
    LiveSwept(sys'.phases, c, e, i, sys'.slots[i]);
    UnlistedSlotChange(cfg, sys, sys', c, CallerPhase(sys, c, killed), i);
  }
}
