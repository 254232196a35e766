/**
 When a restart can be carried through. From every reachable state in which a
 component lies killed, its restart can reach the new epoch if and only if every
 buffer the dead epoch owns has a window that fits, provided its rings are deeper
 than the pool is large. A window that does not fit is left by a call that was
 killed between the two stores of its new window.
 */
module RunProgress {
  import opened Model
  import opened Protocol
  import opened RunModel
  import opened RunInvariant
  import opened RunRestart
  import opened RunTheorems
  import opened RunOutcome
  import opened RunOnline

  /** The rings `c` publishes on have room for every slot of the pool, and one more. */
  ghost predicate Roomy(cfg: Config, c: Component) {
    forall l <- cfg.links :: cfg.links[l].producer == c ==> cfg.links[l].depth > cfg.slotCount
  }

  lemma {:induction false} DistinctBelow(slots: seq<nat>, n: nat)
    requires forall j :: 0 <= j < |slots| ==> slots[j] < n
    requires forall j, k | 0 <= j < k < |slots| :: slots[j] != slots[k]
    ensures |slots| <= n
  {
    if slots != [] {
      assert slots[0] < n;
      if n - 1 in slots {
        var j :| 0 <= j < |slots| && slots[j] == n - 1;
        var rest := slots[..j] + slots[j + 1..];
        DistinctBelow(rest, n - 1);
      } else {
        DistinctBelow(slots, n - 1);
      }
    }
  }

  /** A ring never lists a slot twice, so one deeper than the pool is never full. */
  lemma RingHasRoom(cfg: Config, sys: Sys, link: u64)
    requires Inv(cfg, sys) && link in cfg.links
    ensures link in sys.rings && |sys.rings[link]| <= cfg.slotCount
  {
    assert RingOk(cfg, sys.phases, sys.slots, link, sys.rings[link]);
    var q := sys.rings[link];
    var listed := seq(|q|, j requires 0 <= j < |q| => q[j].slot);
    forall j | 0 <= j < |q| ensures q[j].slot < cfg.slotCount {
      assert EntryOk(cfg, sys.phases, sys.slots, link, q, j);
    }
    DistinctBelow(listed, cfg.slotCount);
  }

  // ----------------------------------------------------------------- measure

  /** The links of `c` that are still to be reconciled. */
  ghost function Pending(cfg: Config, c: Component, reconciled: set<u64>): set<u64> {
    set l <- cfg.links.Keys | (cfg.links[l].producer == c || cfg.links[l].consumer == c) && l !in reconciled
  }

  ghost function Links(cfg: Config, c: Component, p: Phase): nat
    requires p.Restarting?
  {
    2 * |Pending(cfg, c, p.reconciled)| + (if p.job.Job? && p.job.link in p.reconciled then 1 else 0)
  }

  function Stage(p: Phase): nat
    requires p.Restarting?
  {
    if p.job.NoJob? then 1 else 0
  }

  /** The slots and descriptors the current step of the restart has yet to see. */
  function Work(sys: Sys, p: Phase): int
    requires p.Restarting?
  {
    if p.job.NoJob? then |sys.slots| - p.cursor
    else |sys.slots| - p.job.next + (if p.job.link in sys.rings then |sys.rings[p.job.link]| else 0)
  }

  /** The work left, for a producer link counted without its ring. */
  function WorkOf(cfg: Config, sys: Sys, c: Component, p: Phase): int
    requires p.Restarting?
  {
    if p.job.Job? && p.job.link in cfg.links && cfg.links[p.job.link].producer == c
    then |sys.slots| - p.job.next else Work(sys, p)
  }

  ghost predicate Closer(cfg: Config, sys: Sys, p: Phase, sys': Sys, p': Phase, c: Component)
    requires p.Restarting? && p'.Restarting?
  {
    || Links(cfg, c, p') < Links(cfg, c, p)
    || (Links(cfg, c, p') == Links(cfg, c, p) && Stage(p') < Stage(p))
    || (Links(cfg, c, p') == Links(cfg, c, p) && Stage(p') == Stage(p) &&
        0 <= WorkOf(cfg, sys', c, p') < WorkOf(cfg, sys, c, p))
  }

  // -------------------------------------------------------------------- steps

  /** A step of the restart of `c` that brings it closer to its end. */
  ghost predicate Good(cfg: Config, sys: Sys, c: Component, ev: Event)
    requires PhaseOf(sys, c).Restarting?
  {
    WellFormed(cfg, sys) && Enabled(cfg, sys, ev) && RestartStep(ev, c) &&
    var p, p' := PhaseOf(sys, c), PhaseOf(Apply(cfg, sys, ev), c);
    p'.Restarting? && p'.dead == p.dead && Closer(cfg, sys, p, Apply(cfg, sys, ev), p', c)
  }

  lemma BeginIsGood(cfg: Config, sys: Sys, c: Component, link: u64)
    requires Inv(cfg, sys) && ValidComponent(c) && PhaseOf(sys, c).Restarting? && PhaseOf(sys, c).job.NoJob?
    requires link in Pending(cfg, c, PhaseOf(sys, c).reconciled)
    ensures Good(cfg, sys, c, ReconcileBegin(c, link))
  {
    var p := PhaseOf(sys, c);
    var sys' := Apply(cfg, sys, ReconcileBegin(c, link));
    assert PhaseOf(sys', c) == p.(job := Job(link, 0));
  }

  lemma VisitIsGood(cfg: Config, sys: Sys, c: Component)
    requires Inv(cfg, sys) && ValidComponent(c) && Roomy(cfg, c)
    requires PhaseOf(sys, c).Restarting? && PhaseOf(sys, c).job.Job? && PhaseOf(sys, c).job.next < |sys.slots|
    ensures Good(cfg, sys, c, ReconcileVisit(c))
  {
    var p := PhaseOf(sys, c);
    assert PhaseOk(cfg, c, p);
    var link := p.job.link;
    RingHasRoom(cfg, sys, link);
    assert Enabled(cfg, sys, ReconcileVisit(c));
    var sys' := Apply(cfg, sys, ReconcileVisit(c));
    VisitAdvances(cfg, sys, sys', c);
  }

  lemma VisitAdvances(cfg: Config, sys: Sys, sys': Sys, c: Component)
    requires WellFormed(cfg, sys)
    requires var p := PhaseOf(sys, c);
             && p.Restarting? && p.job.Job? && p.job.next < |sys.slots|
             && p.job.link in cfg.links && p.job.link in sys.rings
             && (cfg.links[p.job.link].producer == c || cfg.links[p.job.link].consumer == c)
             && (cfg.links[p.job.link].producer == c ==> |sys.rings[p.job.link]| < cfg.links[p.job.link].depth)
             && sys' == AfterReconcileVisit(cfg, sys, c, p)
    ensures var p := PhaseOf(sys, c);
            && PhaseOf(sys', c) == p.(job := Job(p.job.link, p.job.next + 1))
            && |sys'.slots| == |sys.slots|
            && (cfg.links[p.job.link].producer != c ==> sys'.rings == sys.rings)
  {
  }

  lemma DrainIsGood(cfg: Config, sys: Sys, c: Component)
    requires Inv(cfg, sys) && Enabled(cfg, sys, ReconcileDrain(c))
    ensures Good(cfg, sys, c, ReconcileDrain(c))
  {
    var p := PhaseOf(sys, c);
    var sys' := Apply(cfg, sys, ReconcileDrain(c));
    assert PhaseOf(sys', c) == p;
    assert |sys'.rings[p.job.link]| == |sys.rings[p.job.link]| - 1;
  }

  lemma EndIsGood(cfg: Config, sys: Sys, c: Component)
    requires Inv(cfg, sys) && Enabled(cfg, sys, ReconcileEnd(c))
    ensures Good(cfg, sys, c, ReconcileEnd(c))
  {
    var p := PhaseOf(sys, c);
    assert PhaseOk(cfg, c, p);
    var link := p.job.link;
    var sys' := Apply(cfg, sys, ReconcileEnd(c));
    var p' := PhaseOf(sys', c);
    assert p' == p.(reconciled := p.reconciled + {link}, job := NoJob);
    var before, after := Pending(cfg, c, p.reconciled), Pending(cfg, c, p'.reconciled);
    assert after == before - {link};
  }

  lemma ScanIsGood(cfg: Config, sys: Sys, c: Component)
    requires Inv(cfg, sys) && Enabled(cfg, sys, RestartVisit(c, 0))
    requires !Overflows(cfg, sys.slots[PhaseOf(sys, c).cursor], c, PhaseOf(sys, c).dead)
    ensures Good(cfg, sys, c, RestartVisit(c, 0))
  {
    var p := PhaseOf(sys, c);
    var sys' := Apply(cfg, sys, RestartVisit(c, 0));
    assert PhaseOf(sys', c) == p.(cursor := p.cursor + 1) && |sys'.slots| == |sys.slots|;
  }

  /** The windows of the buffers that epoch `e` of `c` owns fit. */
  ghost predicate WindowsFit(cfg: Config, sys: Sys, c: Component, e: u32) {
    forall i :: 0 <= i < |sys.slots| && Holds(sys, c, e, i) ==> Fits(sys.slots[i].region, cfg.capacity)
  }

  /** A buffer that cannot be adopted is owned by the dead epoch: claims have windows that fit. */
  lemma OverflowIsHeld(cfg: Config, sys: Sys, i: nat, c: Component, e: u32)
    requires Inv(cfg, sys) && i < |sys.slots|
    ensures Overflows(cfg, sys.slots[i], c, e) <==> Holds(sys, c, e, i) && !Fits(sys.slots[i].region, cfg.capacity)
  {
    assert SlotOk(cfg, sys.phases, i, sys.slots[i], sys.ledgers[i]);
    ClaimsFit(cfg, sys.phases, i, sys.slots[i], sys.ledgers[i], c, e);
  }

  lemma MoveKeepsWindow(cfg: Config, t: Slot, t': Slot, p: Phase, p': Phase, i: nat, c: Component, e: u32)
    requires e + 1 < U32 && RestartMove(cfg, t, t', p, p', i, c, e) && !Overflows(cfg, t, c, e)
    ensures t'.state == Owned && t'.owner == c && t'.ownerEpoch == e ==> !Overflows(cfg, t', c, e)
  {
  }

  /** A step of the restart leaves the dead epoch no window that does not fit. */
  lemma WindowsStayFit(cfg: Config, sys: Sys, sys': Sys, ev: Event, c: Component, e: u32)
    requires Inv(cfg, sys) && Enabled(cfg, sys, ev) && RestartStep(ev, c) && sys' == Apply(cfg, sys, ev) && Inv(cfg, sys')
    requires e + 1 < U32 && InRestart(PhaseOf(sys, c), e) && WindowsFit(cfg, sys, c, e)
    ensures WindowsFit(cfg, sys', c, e)
  {
    forall i | 0 <= i < |sys'.slots| && Holds(sys', c, e, i) ensures Fits(sys'.slots[i].region, cfg.capacity) {
      OverflowIsHeld(cfg, sys, i, c, e);
      RestartMoves(cfg, sys, sys', ev, i, c, e);
      MoveKeepsWindow(cfg, sys.slots[i], sys'.slots[i], PhaseOf(sys, c), PhaseOf(sys', c), i, c, e);
      OverflowIsHeld(cfg, sys', i, c, e);
    }
  }

  /** While a restart is not through, one of its steps brings it closer. */
  lemma NextStep(cfg: Config, sys: Sys, c: Component) returns (ev: Event)
    requires Inv(cfg, sys) && ValidComponent(c) && Roomy(cfg, c) && PhaseOf(sys, c).Restarting?
    requires WindowsFit(cfg, sys, c, PhaseOf(sys, c).dead)
    ensures Good(cfg, sys, c, ev) || (ev == RestartFinish(c) && Enabled(cfg, sys, ev))
  {
    var p := PhaseOf(sys, c);
    assert PhaseOk(cfg, c, p);
    if p.job.Job? {
      RingHasRoom(cfg, sys, p.job.link);
      if p.job.next < |sys.slots| {
        VisitIsGood(cfg, sys, c);
        ev := ReconcileVisit(c);
      } else if cfg.links[p.job.link].consumer == c && sys.rings[p.job.link] != [] &&
                !LooksCurrent(sys.slots, sys.rings[p.job.link][0]) {
        DrainIsGood(cfg, sys, c);
        ev := ReconcileDrain(c);
      } else {
        EndIsGood(cfg, sys, c);
        ev := ReconcileEnd(c);
      }
    } else if Pending(cfg, c, p.reconciled) != {} {
      var link :| link in Pending(cfg, c, p.reconciled);
      BeginIsGood(cfg, sys, c, link);
      ev := ReconcileBegin(c, link);
    } else {
      assert AllReconciled(cfg, c, p.reconciled) by {
        forall l | l in cfg.links && (cfg.links[l].producer == c || cfg.links[l].consumer == c) ensures l in p.reconciled {
          assert l !in Pending(cfg, c, p.reconciled);
        }
      }
      if p.cursor < |sys.slots| {
        OverflowIsHeld(cfg, sys, p.cursor, c, p.dead);
        ScanIsGood(cfg, sys, c);
        ev := RestartVisit(c, 0);
      } else {
        ev := RestartFinish(c);
      }
    }
  }

  // ---------------------------------------------------------------- completion

  /** A continuation of a run by events of the restart of `c`, up to its scan's end. */
  ghost predicate Continues(trace: seq<Sys>, evs: seq<Event>, trace': seq<Sys>, evs': seq<Event>, c: Component) {
    trace <= trace' && evs <= evs' && forall n :: |evs| <= n < |evs'| ==> RestartStep(evs'[n], c)
  }

  /** What the last state of a run leaves to do. */
  ghost predicate Ready(cfg: Config, sys: Sys, c: Component, dead: u32) {
    PhaseOf(sys, c).Restarting? && PhaseOf(sys, c).dead == dead && WindowsFit(cfg, sys, c, dead)
  }

  /** One good step, and what is left to do after it. */
  lemma StepCloser(cfg: Config, trace: seq<Sys>, evs: seq<Event>, c: Component, dead: u32, ev: Event) returns (sys': Sys)
    requires IsRun(cfg, trace, evs) && Ready(cfg, trace[|evs|], c, dead) && Good(cfg, trace[|evs|], c, ev)
    ensures IsRun(cfg, trace + [sys'], evs + [ev]) && RestartStep(ev, c) && Ready(cfg, sys', c, dead)
    ensures Closer(cfg, trace[|evs|], PhaseOf(trace[|evs|], c), sys', PhaseOf(sys', c), c)
  {
    RunKeepsInv(cfg, trace, evs, |evs|);
    RunExtends(cfg, trace, evs, ev);
    StepKeepsInv(cfg, trace[|evs|], ev);
    assert EpochOf(PhaseOf(trace[|evs|], c)) < U32;
    sys' := Apply(cfg, trace[|evs|], ev);
    WindowsStayFit(cfg, trace[|evs|], sys', ev, c, dead);
  }

  lemma NextOf(cfg: Config, trace: seq<Sys>, evs: seq<Event>, c: Component, dead: u32) returns (ev: Event, done: bool)
    requires IsRun(cfg, trace, evs) && ValidComponent(c) && Roomy(cfg, c) && Ready(cfg, trace[|evs|], c, dead)
    ensures done ==> ev == RestartFinish(c) && Enabled(cfg, trace[|evs|], ev)
    ensures !done ==> Good(cfg, trace[|evs|], c, ev)
  {
    RunKeepsInv(cfg, trace, evs, |evs|);
    ev := NextStep(cfg, trace[|evs|], c);
    done := !Good(cfg, trace[|evs|], c, ev);
  }

  lemma ContinuesOn(trace: seq<Sys>, evs: seq<Event>, sys: Sys, ev: Event, trace': seq<Sys>, evs': seq<Event>, c: Component)
    requires RestartStep(ev, c) && Continues(trace + [sys], evs + [ev], trace', evs', c)
    ensures Continues(trace, evs, trace', evs', c)
  {
    assert evs'[|evs|] == ev;
  }

  lemma {:induction false} ScanCanEnd(cfg: Config, trace: seq<Sys>, evs: seq<Event>, c: Component, dead: u32)
    returns (trace': seq<Sys>, evs': seq<Event>)
    requires IsRun(cfg, trace, evs) && ValidComponent(c) && Roomy(cfg, c) && Ready(cfg, trace[|evs|], c, dead)
    ensures IsRun(cfg, trace', evs') && Continues(trace, evs, trace', evs', c)
    ensures Ready(cfg, trace'[|evs'|], c, dead) && Enabled(cfg, trace'[|evs'|], RestartFinish(c))
    decreases Links(cfg, c, PhaseOf(trace[|evs|], c)), Stage(PhaseOf(trace[|evs|], c)),
              WorkOf(cfg, trace[|evs|], c, PhaseOf(trace[|evs|], c))
  {
    var ev, done := NextOf(cfg, trace, evs, c, dead);
    if done {
      trace', evs' := trace, evs;
    } else {
      var sys' := StepCloser(cfg, trace, evs, c, dead, ev);
      trace', evs' := ScanCanEnd(cfg, trace + [sys'], evs + [ev], c, dead);
      ContinuesOn(trace, evs, sys', ev, trace', evs', c);
    }
  }

  /** If the windows fit, the restart alone leads to the next epoch. */
  lemma RestartCanFinish(cfg: Config, trace: seq<Sys>, evs: seq<Event>, c: Component, epoch: u32)
    returns (trace': seq<Sys>, evs': seq<Event>)
    requires IsRun(cfg, trace, evs) && ValidComponent(c) && Roomy(cfg, c)
    requires PhaseOf(trace[|evs|], c) == Crashed(epoch) && 0 < epoch < U32 - 1 && WindowsFit(cfg, trace[|evs|], c, epoch)
    ensures IsRun(cfg, trace', evs') && trace <= trace' && evs <= evs'
    ensures forall n :: |evs| <= n < |evs'| ==> RestartStep(evs'[n], c) || evs'[n] == RestartFinish(c)
    ensures PhaseOf(trace'[|evs'|], c) == Up(epoch + 1)
  {
    var sys := BeginsAt(cfg, trace, evs, c, epoch);
    var t, e := trace + [sys], evs + [RestartBegin(c)];
    var t1, e1 := ScanCanEnd(cfg, t, e, c, epoch);
    var end := EndsAt(cfg, t1, e1, c, epoch);
    trace', evs' := t1 + [end], e1 + [RestartFinish(c)];
    assert e1[|evs|] == RestartBegin(c);
  }

  lemma BeginsAt(cfg: Config, trace: seq<Sys>, evs: seq<Event>, c: Component, epoch: u32) returns (sys: Sys)
    requires IsRun(cfg, trace, evs) && ValidComponent(c)
    requires PhaseOf(trace[|evs|], c) == Crashed(epoch) && 0 < epoch < U32 - 1 && WindowsFit(cfg, trace[|evs|], c, epoch)
    ensures IsRun(cfg, trace + [sys], evs + [RestartBegin(c)])
    ensures PhaseOf(sys, c).Restarting? && PhaseOf(sys, c).dead == epoch && WindowsFit(cfg, sys, c, epoch)
  {
    RunKeepsInv(cfg, trace, evs, |evs|);
    RunExtends(cfg, trace, evs, RestartBegin(c));
    sys := Apply(cfg, trace[|evs|], RestartBegin(c));
    assert sys.slots == trace[|evs|].slots;
  }

  lemma EndsAt(cfg: Config, trace: seq<Sys>, evs: seq<Event>, c: Component, epoch: u32) returns (sys: Sys)
    requires IsRun(cfg, trace, evs) && Enabled(cfg, trace[|evs|], RestartFinish(c))
    requires PhaseOf(trace[|evs|], c).Restarting? && PhaseOf(trace[|evs|], c).dead == epoch < U32 - 1
    ensures IsRun(cfg, trace + [sys], evs + [RestartFinish(c)]) && PhaseOf(sys, c) == Up(epoch + 1)
  {
    RunKeepsInv(cfg, trace, evs, |evs|);
    RunExtends(cfg, trace, evs, RestartFinish(c));
    sys := Apply(cfg, trace[|evs|], RestartFinish(c));
  }

  // ------------------------------------------------------------------ stranded

  /** The restart of `c` cannot pass slot `i`. */
  ghost predicate StuckAt(cfg: Config, sys: Sys, c: Component, e: u32, i: nat) {
    && InRestart(PhaseOf(sys, c), e) && !Passed(PhaseOf(sys, c), i)
    && Holds(sys, c, e, i) && !Fits(sys.slots[i].region, cfg.capacity)
  }

  /** A restart that has not passed slot `i` does not end with this event. */
  lemma StaysInRestart(cfg: Config, sys: Sys, sys': Sys, ev: Event, e: u32, i: nat)
    requires Inv(cfg, sys) && Enabled(cfg, sys, ev) && sys' == Apply(cfg, sys, ev) && e + 1 < U32
    requires i < |sys.slots| && InRestart(PhaseOf(sys, ev.c), e) && !Passed(PhaseOf(sys, ev.c), i)
    ensures InRestart(PhaseOf(sys', ev.c), e)
  {
    if IsCall(ev) {
      OwnCall(cfg, sys, sys', ev, i, e);
    } else if RestartStep(ev, ev.c) {
      RestartMoves(cfg, sys, sys', ev, i, ev.c, e);
    }
  }

  lemma StuckStep(cfg: Config, sys: Sys, sys': Sys, ev: Event, c: Component, e: u32, i: nat)
    requires Inv(cfg, sys) && Enabled(cfg, sys, ev) && sys' == Apply(cfg, sys, ev) && e + 1 < U32
    requires StuckAt(cfg, sys, c, e, i)
    ensures StuckAt(cfg, sys', c, e, i) && sys'.slots[i].region == sys.slots[i].region
  {
    if ev.c != c {
      OthersStep(cfg, sys, sys', ev, i, c, e);
    } else {
      StaysInRestart(cfg, sys, sys', ev, e, i);
    }
    EventMoves(cfg, sys, sys', ev, i, c, e);
    StuckMove(cfg, sys, sys', ev, c, e, i);
  }

  lemma StuckMove(cfg: Config, sys: Sys, sys': Sys, ev: Event, c: Component, e: u32, i: nat)
    requires e + 1 < U32 && StuckAt(cfg, sys, c, e, i) && InRestart(PhaseOf(sys', c), e)
    requires Moves(cfg, sys, sys', ev, i, c, e)
    ensures StuckAt(cfg, sys', c, e, i) && sys'.slots[i].region == sys.slots[i].region
  {
    assert Overflows(cfg, sys.slots[i], c, e);
  }

  /** Whatever anybody does, such a restart never passes the slot and never ends. */
  lemma {:induction false} StuckForever(cfg: Config, trace: seq<Sys>, evs: seq<Event>, n: nat, m: nat,
                                        c: Component, e: u32, i: nat)
    requires IsRun(cfg, trace, evs) && n <= m < |trace| && e + 1 < U32 && StuckAt(cfg, trace[n], c, e, i)
    ensures StuckAt(cfg, trace[m], c, e, i) && i < |trace[n].slots| && trace[m].slots[i].region == trace[n].slots[i].region
    decreases m
  {
    if n < m {
      StuckForever(cfg, trace, evs, n, m - 1, c, e, i);
      RunKeepsInv(cfg, trace, evs, m - 1);
      assert StepAt(cfg, trace, evs, m - 1);
      StuckStep(cfg, trace[m - 1], trace[m], evs[m - 1], c, e, i);
    }
  }

  /** Some continuation of the run, by events of anybody, makes the next epoch ACTIVE. */
  ghost predicate CanFinish(cfg: Config, trace: seq<Sys>, evs: seq<Event>, c: Component, epoch: u32) {
    exists trace': seq<Sys>, evs': seq<Event> :: Finishes(cfg, trace, evs, trace', evs', c, epoch)
  }

  ghost predicate Finishes(cfg: Config, trace: seq<Sys>, evs: seq<Event>, trace': seq<Sys>, evs': seq<Event>,
                           c: Component, epoch: u32)
  {
    IsRun(cfg, trace', evs') && trace <= trace' && evs <= evs' && epoch + 1 < U32 &&
    PhaseOf(trace'[|evs'|], c) == Up(epoch + 1)
  }

  /**
   A killed component can be replaced if and only if every buffer it owned has a
   window that fits.
   */
  lemma RestartFinishesIff(cfg: Config, trace: seq<Sys>, evs: seq<Event>, c: Component, epoch: u32)
    requires IsRun(cfg, trace, evs) && ValidComponent(c) && Roomy(cfg, c)
    requires PhaseOf(trace[|evs|], c) == Crashed(epoch) && 0 < epoch < U32 - 1
    ensures CanFinish(cfg, trace, evs, c, epoch) <==> WindowsFit(cfg, trace[|evs|], c, epoch)
  {
    if WindowsFit(cfg, trace[|evs|], c, epoch) {
      var trace', evs' := RestartCanFinish(cfg, trace, evs, c, epoch);
      assert Finishes(cfg, trace, evs, trace', evs', c, epoch);
    } else {
      var i :| 0 <= i < |trace[|evs|].slots| && Holds(trace[|evs|], c, epoch, i) &&
               !Fits(trace[|evs|].slots[i].region, cfg.capacity);
      forall trace': seq<Sys>, evs': seq<Event> | Finishes(cfg, trace, evs, trace', evs', c, epoch) ensures false {
        assert trace'[|evs|] == trace[|evs|];
        StuckForever(cfg, trace', evs', |evs|, |evs'|, c, epoch, i);
      }
    }
  }

  /**
   A call that moves the window, killed between its two stores, strands its
   component: it never becomes ACTIVE again if the new offset and the old length
   pass the capacity. Otherwise the window fits and does not stand in the way.
   */
  lemma KilledWindowSetting(cfg: Config, trace: seq<Sys>, evs: seq<Event>, n: nat, m: nat, c: Component, e: u32, i: nat)
    requires IsRun(cfg, trace, evs) && n < m < |trace| && e + 1 < U32
    requires evs[n].SetRegionCall? && evs[n].c == c && evs[n].e == e && evs[n].i == i && evs[n].k == 1
    requires i < |trace[n].slots|
    ensures Holds(trace[n + 1], c, e, i)
    ensures var offset, length := evs[n].region.offset, trace[n].slots[i].region.length;
            && trace[n + 1].slots[i].region == Region(offset, length)
            && (Fits(trace[n + 1].slots[i].region, cfg.capacity) <==> offset + length <= cfg.capacity)
            && (offset + length > cfg.capacity ==> StuckAt(cfg, trace[m], c, e, i) && !PhaseOf(trace[m], c).Up?)
  {
    assert StepAt(cfg, trace, evs, n);
    TornWindowFits(trace[n].slots[i], evs[n].region, cfg.capacity);
    if evs[n].region.offset + trace[n].slots[i].region.length > cfg.capacity {
      StuckForever(cfg, trace, evs, n + 1, m, c, e, i);
    }
  }
}
