/**
 Whole runs of a pool: calls of any number of components, each of which may be
 killed between any two writes, and the online restart of killed components.

 Calls of different components follow one another; a killed call leaves its
 prefix of writes behind and the other components go on. A restart is split
 into one event for each slot it visits, so that the calls of the other
 components may fall between any two of its steps.
 */
module RunModel {
  import opened Model
  import opened Protocol

  // ------------------------------------------------------------------- state

  /** A ring link: one producer, one consumer, room for `depth` descriptors. */
  datatype Link = Link(producer: Component, consumer: Component, depth: nat)

  datatype Config = Config(
    slotCount: nat, capacity: u32, poolId: u32, links: map<u64, Link>)

  ghost predicate ValidConfig(cfg: Config) {
    forall l <- cfg.links ::
      l != 0 && cfg.links[l].depth >= 2 &&
      ValidComponent(cfg.links[l].producer) && ValidComponent(cfg.links[l].consumer) &&
      cfg.links[l].producer != cfg.links[l].consumer
  }

  /** An unfinished reconciliation: the next slot it looks at. */
  datatype Job = NoJob | Job(link: u64, next: nat)

  /** A component's lifecycle, and whether its runtime still executes. */
  datatype Phase =
    | Off(epoch: u32)                    // INACTIVE
    | Up(epoch: u32)                     // ACTIVE, executing
    | Crashed(epoch: u32)                // ACTIVE, killed
    | Restarting(dead: u32, reconciled: set<u64>, job: Job, cursor: nat)  // RECOVERING in epoch dead + 1

  /** A window setting that was killed between its two stores. */
  datatype Cut = Whole | Cut(offset: u32)

  /** What really happened to the buffer stored in a slot. */
  datatype Ledger = Ledger(
    live: bool,                // allocated and not released
    bumps: nat,                // generation increments of the slot so far
    id: u64, parent: u64,
    region: Region,            // the window that was last set by a completed call
    cut: Cut,                  // whether a killed call has moved its offset since
    limit: u32, since: nat,    // the hop limit last asked for, zero for none; the receives until then
    sends: nat,                // transfers of this buffer that were not taken back
    claims: nat,               // receives that published ownership
    holders: set<Component>,   // components that published ownership
    keys: seq<(nat, nat)>)     // (bumps, sends) of every receive, over the life of the slot

  datatype Sys = Sys(
    slots: seq<Slot>,
    ledgers: seq<Ledger>,
    rings: map<u64, seq<Message>>,
    phases: map<Component, Phase>,
    allocations: nat,
    releases: nat,
    calm: bool)                // no kill and no restart so far

  function PhaseOf(sys: Sys, c: Component): Phase {
    if c in sys.phases then sys.phases[c] else Off(0)
  }

  function EpochOf(p: Phase): nat {
    if p.Restarting? then p.dead + 1 else p.epoch
  }

  /** Every link of `c` has been reconciled in this restart. */
  ghost predicate AllReconciled(cfg: Config, c: Component, reconciled: set<u64>) {
    forall l <- cfg.links ::
      cfg.links[l].producer == c || cfg.links[l].consumer == c ==> l in reconciled
  }

  /** The runtime `(c, e)` executes and may call the protocol. */
  ghost predicate Active(cfg: Config, sys: Sys, c: Component, e: u32) {
    ValidComponent(c) &&
    match PhaseOf(sys, c)
    case Up(epoch) => epoch == e
    case Restarting(dead, reconciled, job, cursor) =>
      e == dead + 1 && AllReconciled(cfg, c, reconciled)
    case _ => false
  }

  // ------------------------------------------------------------------ events

  datatype Event =
    | RegisterCall(c: Component)
    | UnregisterCall(c: Component)
    | Die(c: Component)
    | AllocateCall(c: Component, i: nat, args: AllocateArgs, k: nat)
    | AllocateFailCall(c: Component, i: nat, args: AllocateArgs, k: nat)
    | SendCall(c: Component, e: u32, link: u64, i: nat, k: nat)
    | ReceiveCall(c: Component, e: u32, link: u64, now: u64, k: nat)
    | ReleaseCall(c: Component, e: u32, i: nat, k: nat)
    | SetRegionCall(c: Component, e: u32, i: nat, region: Region, k: nat)
    | SetLimitsCall(c: Component, e: u32, i: nat, limit: u32, k: nat)
    | RestartBegin(c: Component)
    | ReconcileBegin(c: Component, link: u64)
    | ReconcileVisit(c: Component)
    | ReconcileDrain(c: Component)
    | ReconcileEnd(c: Component)
    | RestartVisit(c: Component, now: u64)
    | RestartFinish(c: Component)

  /** The slot the runtime `(c, e)` holds a valid view of. */
  predicate Holds(sys: Sys, c: Component, e: u32, i: nat) {
    i < |sys.slots| && sys.slots[i].state == Owned &&
    sys.slots[i].owner == c && sys.slots[i].ownerEpoch == e
  }

  predicate AllocateReady(cfg: Config, sys: Sys, c: Component, i: nat, a: AllocateArgs) {
    i < |sys.slots| && sys.slots[i].state == Free && sys.slots[i].token.NoToken? &&
    a.component == c && a.duration == 0 && Fits(a.region, cfg.capacity)
  }

  /** The number of writes of a send in this state; the last one may be the push. */
  function SendLength(cfg: Config, sys: Sys, link: u64, i: nat): nat
    requires i < |sys.slots| && link in cfg.links && link in sys.rings
  {
    if HopsExhausted(sys.slots[i]) then SEND_ABORT_STEPS
    else if |sys.rings[link]| >= cfg.links[link].depth then SEND_STEPS + ROLLBACK_STEPS
    else SEND_STEPS + 1
  }

  datatype ReceivePath = Empty | Discard | Refuse | Claim

  /** Which way one turn of the receive loop goes. */
  function ReceivePathOf(cfg: Config, sys: Sys, link: u64, now: u64): ReceivePath
    requires link in cfg.links && link in sys.rings
  {
    var q := sys.rings[link];
    if q == [] then Empty
    else
      var m := q[0];
      var c := cfg.links[link].consumer;
      if m.source != cfg.links[link].producer || m.poolId != cfg.poolId || m.destination != c ||
         m.slot >= |sys.slots| || !ReceiveMayStart(sys.slots[m.slot]) then Discard
      else if ReceiveGuard(sys.slots[m.slot], m, c, now) != Status.Ok then Refuse
      else Claim
  }

  function ReceiveLength(p: ReceivePath): nat {
    match p
    case Empty => 0
    case Discard => 1
    case Refuse => RECEIVE_ABORT_STEPS + 1
    case Claim => RECEIVE_STEPS + 1
  }

  ghost predicate Enabled(cfg: Config, sys: Sys, ev: Event) {
    ValidComponent(ev.c) &&
    var p := PhaseOf(sys, ev.c);
    match ev
    case RegisterCall(c) => p.Off? && p.epoch < U32 - 1
    case UnregisterCall(c) => p.Up?
    case Die(c) => p.Up?
    case AllocateCall(c, i, a, k) =>
      Active(cfg, sys, c, a.epoch) && AllocateReady(cfg, sys, c, i, a) && k <= ALLOCATE_STEPS &&
      (k < ALLOCATE_STEPS ==> p.Up?)
    case AllocateFailCall(c, i, a, k) =>
      Active(cfg, sys, c, a.epoch) && AllocateReady(cfg, sys, c, i, a) && k <= ALLOCATE_FAIL_STEPS &&
      (k < ALLOCATE_FAIL_STEPS ==> p.Up?)
    case SendCall(c, e, link, i, k) =>
      Active(cfg, sys, c, e) && Holds(sys, c, e, i) && link in cfg.links && link in sys.rings &&
      cfg.links[link].producer == c && k <= SendLength(cfg, sys, link, i) &&
      (k < SendLength(cfg, sys, link, i) ==> p.Up?)
    case ReceiveCall(c, e, link, now, k) =>
      Active(cfg, sys, c, e) && link in cfg.links && link in sys.rings &&
      cfg.links[link].consumer == c &&
      k <= ReceiveLength(ReceivePathOf(cfg, sys, link, now)) &&
      (k < ReceiveLength(ReceivePathOf(cfg, sys, link, now)) ==> p.Up?)
    case ReleaseCall(c, e, i, k) =>
      Active(cfg, sys, c, e) && Holds(sys, c, e, i) && k <= RELEASE_STEPS &&
      (k < RELEASE_STEPS ==> p.Up?)
    case SetRegionCall(c, e, i, region, k) =>
      Active(cfg, sys, c, e) && Holds(sys, c, e, i) && Fits(region, cfg.capacity) && k <= REGION_STEPS &&
      (k < REGION_STEPS ==> p.Up?)
    case SetLimitsCall(c, e, i, limit, k) =>
      Active(cfg, sys, c, e) && Holds(sys, c, e, i) && k <= LIMITS_STEPS && (k < LIMITS_STEPS ==> p.Up?)
    case RestartBegin(c) =>
      (p.Crashed? || p.Off?) && 0 < p.epoch < U32 - 1
    case ReconcileBegin(c, link) =>
      p.Restarting? && p.job.NoJob? && link in cfg.links &&
      (cfg.links[link].producer == c || cfg.links[link].consumer == c)
    case ReconcileVisit(c) =>
      p.Restarting? && p.job.Job? && p.job.next < |sys.slots| &&
      p.job.link in cfg.links && p.job.link in sys.rings
    case ReconcileDrain(c) =>
      p.Restarting? && p.job.Job? && p.job.next == |sys.slots| &&
      p.job.link in cfg.links && p.job.link in sys.rings &&
      cfg.links[p.job.link].consumer == c &&
      sys.rings[p.job.link] != [] && !LooksCurrent(sys.slots, sys.rings[p.job.link][0])
    case ReconcileEnd(c) =>
      p.Restarting? && p.job.Job? && p.job.next == |sys.slots| &&
      p.job.link in cfg.links && p.job.link in sys.rings &&
      (cfg.links[p.job.link].consumer == c ==>
         sys.rings[p.job.link] == [] || LooksCurrent(sys.slots, sys.rings[p.job.link][0]))
    case RestartVisit(c, now) =>
      p.Restarting? && AllReconciled(cfg, c, p.reconciled) && p.job.NoJob? && p.cursor < |sys.slots|
    case RestartFinish(c) =>
      p.Restarting? && AllReconciled(cfg, c, p.reconciled) && p.job.NoJob? && p.cursor == |sys.slots|
  }

  // ----------------------------------------------------------------- effects

  /** `c`'s runtime is killed if `killed`, and nothing else happens. */
  function Killed(sys: Sys, c: Component, killed: bool): Sys {
    if !killed then sys
    else sys.(phases := sys.phases[c := Crashed(EpochOf(PhaseOf(sys, c)) % U32)], calm := false)
  }

  function SetSlot(sys: Sys, i: nat, s: Slot, l: Ledger): Sys
    requires i < |sys.slots| == |sys.ledgers|
  {
    sys.(slots := sys.slots[i := s], ledgers := sys.ledgers[i := l])
  }

  function SetPhase(sys: Sys, c: Component, p: Phase): Sys {
    sys.(phases := sys.phases[c := p])
  }

  function SetRing(sys: Sys, link: u64, q: seq<Message>): Sys {
    sys.(rings := sys.rings[link := q])
  }

  function AllocateLedger(l: Ledger, k: nat, a: AllocateArgs): Ledger {
    var b := if k < 3 then l.bumps else l.bumps + 1;
    if k < 29 then l.(bumps := b)
    else Ledger(true, b, a.id, a.parent, a.region, Whole, a.hopLimit, 0,
                0, 0, {a.component}, l.keys)
  }

  function SendLedger(l: Ledger, k: nat): Ledger {
    if k < 12 then l else l.(sends := l.sends + 1)
  }

  function RollbackLedger(l: Ledger, k: nat): Ledger {
    if k < 7 || l.sends == 0 then l else l.(sends := l.sends - 1)
  }

  function ReceiveLedger(l: Ledger, k: nat, c: Component): Ledger {
    if k < 9 then l
    else l.(claims := l.claims + 1, holders := l.holders + {c}, keys := l.keys + [(l.bumps, l.sends)])
  }

  function RegionLedger(l: Ledger, k: nat, r: Region): Ledger {
    if k < 1 then l else if k < 2 then l.(cut := Cut(r.offset)) else l.(region := r, cut := Whole)
  }

  function LimitsLedger(l: Ledger, k: nat, limit: u32): Ledger {
    if k < 1 then l else l.(limit := limit, since := l.claims)
  }

  /** The window the record of the buffer shows. */
  function Shown(l: Ledger): Region {
    if l.cut.Whole? then l.region else Region(l.cut.offset, l.region.length)
  }

  function ReleaseLedger(l: Ledger, k: nat): Ledger {
    if k < 10 then l else l.(live := false)
  }

  function AfterSend(cfg: Config, sys: Sys, c: Component, e: u32, link: u64, i: nat, k: nat): Sys
    requires i < |sys.slots| == |sys.ledgers| && link in cfg.links && link in sys.rings
  {
    var s, l := sys.slots[i], sys.ledgers[i];
    var next := cfg.links[link].consumer;
    var killed := k < SendLength(cfg, sys, link, i);
    if HopsExhausted(s) then
      Killed(SetSlot(sys, i, SendAbortPrefix(s, k), l), c, killed)
    else if k <= SEND_STEPS then
      Killed(SetSlot(sys, i, SendPrefix(s, k, next, link), SendLedger(l, k)), c, killed)
    else
      var t, m := SendPrefix(s, SEND_STEPS, next, link), SendLedger(l, SEND_STEPS);
      if |sys.rings[link]| >= cfg.links[link].depth then
        Killed(SetSlot(sys, i, RollbackPrefix(t, k - SEND_STEPS, c, e), RollbackLedger(m, k - SEND_STEPS)), c, killed)
      else
        SetRing(SetSlot(sys, i, t, m), link, Pushed(sys.rings[link], Descriptor(t, i, cfg.poolId)))
  }

  function AfterReceive(cfg: Config, sys: Sys, c: Component, e: u32, link: u64, now: u64, k: nat): Sys
    requires link in cfg.links && link in sys.rings && |sys.slots| == |sys.ledgers|
  {
    var path := ReceivePathOf(cfg, sys, link, now);
    var killed := k < ReceiveLength(path);
    match path
    case Empty => sys
    case Discard =>
      Killed(if killed then sys else SetRing(sys, link, sys.rings[link][1..]), c, killed)
    case Refuse =>
      var i := sys.rings[link][0].slot;
      var sys1 := SetSlot(sys, i, ReceiveAbortPrefix(sys.slots[i], k, c, e), sys.ledgers[i]);
      Killed(if killed then sys1 else SetRing(sys1, link, sys.rings[link][1..]), c, killed)
    case Claim =>
      var i := sys.rings[link][0].slot;
      var sys1 := SetSlot(sys, i, ReceivePrefix(sys.slots[i], k, c, e, now), ReceiveLedger(sys.ledgers[i], k, c));
      Killed(if killed then sys1 else SetRing(sys1, link, sys.rings[link][1..]), c, killed)
  }

  /** One slot of a reconciliation; a full ring ends it with an error. */
  function AfterReconcileVisit(cfg: Config, sys: Sys, c: Component, p: Phase): Sys
    requires p.Restarting? && p.job.Job? && p.job.next < |sys.slots| == |sys.ledgers|
    requires p.job.link in cfg.links && p.job.link in sys.rings
  {
    var link, i := p.job.link, p.job.next;
    var s, l := sys.slots[i], sys.ledgers[i];
    var done := p.(job := Job(link, i + 1));
    if cfg.links[link].consumer == c then
      SetPhase(SetSlot(sys, i, ReconcileConsumerSlot(s, c, p.dead), l), c, done)
    else
      var t := ReconcileProducerSlot(s, c, p.dead);
      var sys1 := SetSlot(sys, i, t, RepairLedger(s, l, c, p.dead));
      if s.state == Transfer && Republishes(t, c, p.dead, cfg.links[link].consumer, link) then
        if |sys.rings[link]| >= cfg.links[link].depth then
          SetPhase(sys1, c, p.(job := NoJob))
        else
          SetPhase(SetRing(sys1, link, Pushed(sys.rings[link], Descriptor(t, i, cfg.poolId))), c, done)
      else
        SetPhase(sys1, c, done)
  }

  /** A repaired rollback completes: the send it was taking back is gone. */
  function RepairLedger(s: Slot, l: Ledger, c: Component, dead: u32): Ledger {
    if s.state == Claiming && TokenOf(s.token, c, dead) && s.token.kind == Rollback && l.sends > 0
    then l.(sends := l.sends - 1) else l
  }

  /** One turn of the restart scan. A buffer whose window does not fit is not
      adopted: the scan answers REGION_OVERFLOW and stays where it is. */
  function AfterRestartVisit(cfg: Config, sys: Sys, c: Component, p: Phase, now: u64): Sys
    requires p.Restarting? && p.cursor < |sys.slots| == |sys.ledgers| && p.dead + 1 < U32
  {
    var i := p.cursor;
    var s, l := sys.slots[i], sys.ledgers[i];
    var l1 := RepairLedger(s, l, c, p.dead);
    if Overflows(cfg, s, c, p.dead) then
      SetPhase(SetSlot(sys, i, ScanRepair(s, c, p.dead).(acquired := now), l1), c, p)
    else
    var l2 := if Adoptable(ScanRepair(s, c, p.dead), c, p.dead) then l1.(bumps := l1.bumps + 1) else l1;
    SetPhase(SetSlot(sys, i, ScanSlot(s, c, p.dead, p.dead + 1, now), l2), c, p.(cursor := i + 1))
  }

  /** The slot holds a buffer of the dead epoch whose window does not fit. */
  predicate Overflows(cfg: Config, s: Slot, c: Component, dead: u32) {
    Adoptable(ScanRepair(s, c, dead), c, dead) && !Fits(ScanRepair(s, c, dead).region, cfg.capacity)
  }

  ghost predicate WellFormed(cfg: Config, sys: Sys) {
    ValidConfig(cfg) && |sys.slots| == |sys.ledgers| == cfg.slotCount &&
    sys.rings.Keys == cfg.links.Keys &&
    forall c <- sys.phases :: EpochOf(sys.phases[c]) < U32
  }

  ghost function Apply(cfg: Config, sys: Sys, ev: Event): Sys
    requires WellFormed(cfg, sys) && Enabled(cfg, sys, ev)
  {
    var p := PhaseOf(sys, ev.c);
    match ev
    case RegisterCall(c) => SetPhase(sys, c, Up(p.epoch + 1))
    case UnregisterCall(c) => SetPhase(sys, c, Off(p.epoch))
    case Die(c) => Killed(sys, c, true)
    case AllocateCall(c, i, a, k) =>
      var sys1 := SetSlot(sys, i, AllocatePrefix(sys.slots[i], k, a), AllocateLedger(sys.ledgers[i], k, a));
      if k < ALLOCATE_STEPS then Killed(sys1, c, true)
      else sys1.(allocations := sys1.allocations + 1)
    case AllocateFailCall(c, i, a, k) =>
      var sys1 := SetSlot(sys, i, AllocateFailPrefix(sys.slots[i], k, a),
                          AllocateLedger(sys.ledgers[i], if k < 28 then k else 28, a));
      Killed(sys1, c, k < ALLOCATE_FAIL_STEPS)
    case SendCall(c, e, link, i, k) => AfterSend(cfg, sys, c, e, link, i, k)
    case ReceiveCall(c, e, link, now, k) => AfterReceive(cfg, sys, c, e, link, now, k)
    case ReleaseCall(c, e, i, k) =>
      var sys1 := SetSlot(sys, i, ReleasePrefix(sys.slots[i], k), ReleaseLedger(sys.ledgers[i], k));
      if k < RELEASE_STEPS then Killed(sys1, c, true)
      else sys1.(releases := sys1.releases + 1)
    case SetRegionCall(c, e, i, region, k) =>
      Killed(SetSlot(sys, i, RegionPrefix(sys.slots[i], k, region), RegionLedger(sys.ledgers[i], k, region)),
             c, k < REGION_STEPS)
    case SetLimitsCall(c, e, i, limit, k) =>
      Killed(SetSlot(sys, i, LimitsPrefix(sys.slots[i], k, limit, 0),
                     LimitsLedger(sys.ledgers[i], k, limit)),
             c, k < LIMITS_STEPS)
    case RestartBegin(c) =>
      SetPhase(sys, c, Restarting(p.epoch, {}, NoJob, 0)).(calm := false)
    case ReconcileBegin(c, link) => SetPhase(sys, c, p.(job := Job(link, 0)))
    case ReconcileVisit(c) => AfterReconcileVisit(cfg, sys, c, p)
    case ReconcileDrain(c) => SetRing(sys, p.job.link, sys.rings[p.job.link][1..])
    case ReconcileEnd(c) =>
      SetPhase(sys, c, p.(reconciled := p.reconciled + {p.job.link}, job := NoJob))
    case RestartVisit(c, now) => AfterRestartVisit(cfg, sys, c, p, now)
    case RestartFinish(c) => SetPhase(sys, c, Up(p.dead + 1))
  }

  // -------------------------------------------------------------------- runs

  /** A freshly formatted pool with empty rings. */
  ghost predicate Init(cfg: Config, sys: Sys) {
    WellFormed(cfg, sys) &&
    (forall i :: 0 <= i < |sys.slots| ==>
       sys.slots[i].state == Free && sys.slots[i].token.NoToken? && sys.slots[i].generation == 0 &&
       sys.ledgers[i].bumps == 0 && sys.ledgers[i].keys == [] && !sys.ledgers[i].live) &&
    (forall l <- sys.rings :: sys.rings[l] == []) &&
    sys.phases == map[] && sys.allocations == 0 && sys.releases == 0 && sys.calm
  }

  /** State `n + 1` follows from state `n` by event `n`, which is enabled. */
  ghost predicate StepAt(cfg: Config, trace: seq<Sys>, evs: seq<Event>, n: nat)
    requires n < |evs| && n + 1 < |trace|
  {
    WellFormed(cfg, trace[n]) && Enabled(cfg, trace[n], evs[n]) && trace[n + 1] == Apply(cfg, trace[n], evs[n])
  }

  /** `trace` is a run: every state follows from the one before by an enabled event. */
  ghost predicate IsRun(cfg: Config, trace: seq<Sys>, evs: seq<Event>) {
    && |trace| == |evs| + 1 && Init(cfg, trace[0])
    && (forall n :: 0 <= n < |trace| ==> WellFormed(cfg, trace[n]))
    && (forall n :: 0 <= n < |evs| ==> StepAt(cfg, trace, evs, n))
  }
}
