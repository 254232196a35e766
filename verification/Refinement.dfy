/**
 The calls as the classes make them are the events of the run model: in every
 reachable state, and wherever the call is killed, the contract of the method
 and the event agree on every slot and every ring. Page protection succeeds.
 */
module Refinement {
  import opened Model
  import opened Protocol
  import opened CallSpecs
  import opened RunModel
  import opened RunInvariant
  import RunCalls
  import RunTransfers
  import RunRestart
  import Lifecycle

  /** A slot that an executing runtime owns carries no token. */
  lemma HeldHasNoToken(cfg: Config, sys: Sys, c: Component, e: u32, i: nat)
    requires Inv(cfg, sys) && Active(cfg, sys, c, e) && Holds(sys, c, e, i)
    ensures sys.slots[i].token.NoToken? && sys.slots[i].deadline == DEADLINE_NONE
  {
    assert SlotOk(cfg, sys.phases, i, sys.slots[i], sys.ledgers[i]);
  }

  lemma SendRefines(cfg: Config, sys: Sys, ev: Event, now: u64)
    requires Inv(cfg, sys) && ev.SendCall? && Enabled(cfg, sys, ev)
    ensures var s, q := sys.slots[ev.i], sys.rings[ev.link];
            var next, full := cfg.links[ev.link].consumer, |q| == cfg.links[ev.link].depth;
            var p := PrepareStatus(s, s.generation, ev.c, ev.e, now, true);
            var m := Descriptor(SendPrefix(s, SEND_STEPS, next, ev.link), ev.i, cfg.poolId);
            var sys' := Apply(cfg, sys, ev);
            && sys'.slots == sys.slots[ev.i := SendSlot(s, ev.k, s.generation, ev.c, ev.e, next, ev.link, now,
                                                        true, full, true, ev.i, cfg.poolId)]
            && sys'.rings == (if p == Ok && !full && ev.k > SEND_STEPS then sys.rings[ev.link := Pushed(q, m)] else sys.rings)
  {
    HeldHasNoToken(cfg, sys, ev.c, ev.e, ev.i);
    assert RingOk(cfg, sys.phases, sys.slots, ev.link, sys.rings[ev.link]);
    var s := sys.slots[ev.i];
    var next := cfg.links[ev.link].consumer;
    assert RollbackMatches(SendPrefix(s, SEND_STEPS, next, ev.link), ev.c, next,
                           Descriptor(SendPrefix(s, SEND_STEPS, next, ev.link), ev.i, cfg.poolId));
  }

  /** A receive claims the head of its ring at once: nothing is ever skipped. */
  lemma ReceiveRefines(cfg: Config, sys: Sys, ev: Event)
    requires Inv(cfg, sys) && ev.ReceiveCall? && Enabled(cfg, sys, ev) && sys.rings[ev.link] != []
    ensures var m := sys.rings[ev.link][0];
            var sys' := Apply(cfg, sys, ev);
            && m.source == cfg.links[ev.link].producer && m.poolId == cfg.poolId && m.destination == ev.c
            && m.slot < |sys.slots|
            && var s := sys.slots[m.slot];
            && ClaimStatus(s, m, ev.c, ev.now, cfg.capacity, true) == Ok
            && sys'.slots == sys.slots[m.slot := ClaimSlot(s, ev.k, m, ev.c, ev.e, ev.now, cfg.capacity, true)]
            && sys'.rings == (if ev.k > RECEIVE_STEPS then sys.rings[ev.link := sys.rings[ev.link][1..]] else sys.rings)
  {
    RunTransfers.HeadIsClaimable(cfg, sys, ev.c, ev.e, ev.link, ev.now);
    var i := sys.rings[ev.link][0].slot;
    assert SlotOk(cfg, sys.phases, i, sys.slots[i], sys.ledgers[i]);
  }

  lemma ReleaseRefines(cfg: Config, sys: Sys, ev: Event)
    requires Inv(cfg, sys) && ev.ReleaseCall? && Enabled(cfg, sys, ev)
    ensures var s := sys.slots[ev.i];
            && ReleaseStatus(s, s.generation, ev.c, ev.e, true) == Ok
            && Apply(cfg, sys, ev).slots == sys.slots[ev.i := CallSpecs.ReleaseSlot(s, ev.k, s.generation, ev.c, ev.e, true)]
            && Apply(cfg, sys, ev).rings == sys.rings
  {
    HeldHasNoToken(cfg, sys, ev.c, ev.e, ev.i);
  }

  lemma AllocateRefines(cfg: Config, sys: Sys, ev: Event)
    requires Inv(cfg, sys) && (ev.AllocateCall? || ev.AllocateFailCall?) && Enabled(cfg, sys, ev)
    ensures Takeable(sys.slots[ev.i])
    ensures Apply(cfg, sys, ev).slots ==
              sys.slots[ev.i := CallSpecs.AllocateSlot(sys.slots[ev.i], ev.k, ev.args, ev.AllocateCall?, true)]
    ensures Apply(cfg, sys, ev).rings == sys.rings
  {
  }

  /** The window and the limits are edited without a claim, by an owner whose window
      fits; a kill between two stores leaves the first of them. */
  lemma RegionRefines(cfg: Config, sys: Sys, ev: Event)
    requires Inv(cfg, sys) && ev.SetRegionCall? && Enabled(cfg, sys, ev)
    ensures Fits(sys.slots[ev.i].region, cfg.capacity)
    ensures Apply(cfg, sys, ev).slots == sys.slots[ev.i := RegionPrefix(sys.slots[ev.i], ev.k, ev.region)]
    ensures Apply(cfg, sys, ev).rings == sys.rings
  {
    assert SlotOk(cfg, sys.phases, ev.i, sys.slots[ev.i], sys.ledgers[ev.i]);
  }

  lemma LimitsRefines(cfg: Config, sys: Sys, ev: Event)
    requires Inv(cfg, sys) && ev.SetLimitsCall? && Enabled(cfg, sys, ev)
    ensures Apply(cfg, sys, ev).slots == sys.slots[ev.i := LimitsPrefix(sys.slots[ev.i], ev.k, ev.limit, 0)]
    ensures Apply(cfg, sys, ev).rings == sys.rings
  {
  }

  /** One slot of the scan: passed, or left at the cursor because it holds a buffer
      of the dead epoch whose window does not fit. */
  lemma ScanRefines(cfg: Config, sys: Sys, c: Component, now: u64)
    requires Inv(cfg, sys) && Enabled(cfg, sys, RestartVisit(c, now))
    ensures var p := PhaseOf(sys, c);
            var s, r := sys.slots[p.cursor], ScanRepair(sys.slots[p.cursor], c, p.dead);
            var sys' := Apply(cfg, sys, RestartVisit(c, now));
            && p.dead + 1 < U32
            && (if Adoptable(r, c, p.dead) && !Fits(r.region, cfg.capacity) then
                  && s.state == Owned && PhaseOf(sys', c) == p
                  && sys'.slots == sys.slots[p.cursor := r.(acquired := now)]
                else
                  && PhaseOf(sys', c) == p.(cursor := p.cursor + 1)
                  && sys'.slots == sys.slots[p.cursor := ScanSlot(s, c, p.dead, p.dead + 1, now)])
  {
    var p := PhaseOf(sys, c);
    var i := p.cursor;
    assert SlotOk(cfg, sys.phases, i, sys.slots[i], sys.ledgers[i]);
    RunRestart.ClaimsFit(cfg, sys.phases, i, sys.slots[i], sys.ledgers[i], c, p.dead);
  }

  /** One slot of a reconciliation, for either end of the link. */
  lemma ReconcileRefines(cfg: Config, sys: Sys, c: Component)
    requires Inv(cfg, sys) && Enabled(cfg, sys, ReconcileVisit(c))
    ensures var p := PhaseOf(sys, c);
            var i, link := p.job.next, p.job.link;
            var q, s := sys.rings[link], sys.slots[i];
            var t := if cfg.links[link].consumer == c then ReconcileConsumerSlot(s, c, p.dead)
                     else ReconcileProducerSlot(s, c, p.dead);
            var again := cfg.links[link].consumer != c && Republishes(t, c, p.dead, cfg.links[link].consumer, link) &&
                         |q| < cfg.links[link].depth;
            var sys' := Apply(cfg, sys, ReconcileVisit(c));
            && sys'.slots == sys.slots[i := t]
            && sys'.rings == if again then sys.rings[link := Pushed(q, Descriptor(t, i, cfg.poolId))] else sys.rings
  {
  }

  /**
   The calls the classes let through are possible as events: an executing runtime
   may send, release and edit what it holds, receive on its links and take any slot
   that is free and unclaimed; and it may be killed after any write of these calls.
   */
  lemma CallsPossible(cfg: Config, sys: Sys, c: Component, e: u32, i: nat, link: u64, k: nat, now: u64,
                      a: AllocateArgs, r: Region, limit: u32)
    requires Inv(cfg, sys) && 1 <= c <= 254 && PhaseOf(sys, c) == Up(e) && i < |sys.slots| && link in cfg.links
    ensures var s := sys.slots[i];
            var mine := s.state == Owned && s.owner == c && s.ownerEpoch == e;
            && (mine && cfg.links[link].producer == c && k <= SendLength(cfg, sys, link, i) ==>
                  Enabled(cfg, sys, SendCall(c, e, link, i, k)))
            && (cfg.links[link].consumer == c && k <= ReceiveLength(ReceivePathOf(cfg, sys, link, now)) ==>
                  Enabled(cfg, sys, ReceiveCall(c, e, link, now, k)))
            && (mine && k <= RELEASE_STEPS ==> Enabled(cfg, sys, ReleaseCall(c, e, i, k)))
            && (mine && k <= REGION_STEPS && r.offset + r.length <= cfg.capacity ==>
                  Enabled(cfg, sys, SetRegionCall(c, e, i, r, k)))
            && (mine && k <= LIMITS_STEPS ==> Enabled(cfg, sys, SetLimitsCall(c, e, i, limit, k)))
            && (s.state == Free && s.token == NoToken && a.component == c && a.epoch == e && a.duration == 0 &&
                a.region.offset + a.region.length <= cfg.capacity ==>
                  && (k <= ALLOCATE_STEPS ==> Enabled(cfg, sys, AllocateCall(c, i, a, k)))
                  && (k <= ALLOCATE_FAIL_STEPS ==> Enabled(cfg, sys, AllocateFailCall(c, i, a, k))))
            && Enabled(cfg, sys, Die(c))
  {
    assert link in sys.rings;
  }

  // --------------------------------------------------------------- lifecycle

  /** The lifecycle word of a component in a phase; a killed one keeps its word. */
  function WordOf(p: Phase): Lifecycle.Word
    requires EpochOf(p) < U32
  {
    match p
    case Off(epoch) => Lifecycle.Word(epoch, Lifecycle.Inactive)
    case Up(epoch) => Lifecycle.Word(epoch, Lifecycle.Active)
    case Crashed(epoch) => Lifecycle.Word(epoch, Lifecycle.Active)
    case Restarting(dead, _, _, _) => Lifecycle.Word(dead + 1, Lifecycle.Recovering)
  }

  /**
   The lifecycle events of runs are the exchanges of the words, each possible when
   the exchange is granted: register, the beginning of a restart, of a component
   that does not execute, and its end after a complete scan; a component
   unregisters when it executes.
   */
  lemma LifecycleRefines(cfg: Config, sys: Sys, ev: Event)
    requires WellFormed(cfg, sys) && ValidComponent(ev.c)
    requires ev.RegisterCall? || ev.UnregisterCall? || ev.RestartBegin? || ev.RestartFinish?
    ensures var p := PhaseOf(sys, ev.c);
            && EpochOf(p) < U32
            && var w := WordOf(p);
            && (ev.RegisterCall? ==> (Enabled(cfg, sys, ev) <==> Lifecycle.Grants(w, Lifecycle.Register, w)))
            && (ev.RestartBegin? ==>
                  (Enabled(cfg, sys, ev) <==> !p.Up? && Lifecycle.Grants(w, Lifecycle.RestartBegin(w.epoch), w)))
            && (ev.UnregisterCall? ==> (Enabled(cfg, sys, ev) <==> p.Up?))
            && (Enabled(cfg, sys, ev) && (EpochOf(p) > 0 || ev.RegisterCall?) ==>
                  var a := match ev
                           case RegisterCall(_) => Lifecycle.Register
                           case UnregisterCall(_) => Lifecycle.Unregister(w.epoch)
                           case RestartBegin(_) => Lifecycle.RestartBegin(w.epoch)
                           case _ => Lifecycle.RestartFinish(w.epoch);
                  var p' := PhaseOf(Apply(cfg, sys, ev), ev.c);
                  EpochOf(p') < U32 && WordOf(p') == Lifecycle.Desired(a, w) != w)
  {
  }
}
