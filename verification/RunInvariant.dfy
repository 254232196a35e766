/**
 The invariant of the run model: what every slot, every ring and every pending
 transfer satisfies between any two events, killed calls and half-done
 restarts included.
 */
module RunInvariant {
  import opened Model
  import opened Protocol
  import opened RunModel

  // ------------------------------------------------------------------ phases

  /** Epoch `e` will never execute again. */
  predicate Past(p: Phase, e: u32) {
    match p
    case Off(x) => e <= x
    case Up(x) => e < x
    case Crashed(x) => e <= x
    case Restarting(dead, _, _, _) => e <= dead
  }

  /** Epoch `e` was killed and the restart scan has yet to look at slot `i`. */
  predicate Owed(p: Phase, e: u32, i: nat) {
    match p
    case Crashed(x) => x == e
    case Restarting(dead, _, _, cursor) => dead == e && cursor <= i
    case _ => false
  }

  /** Epoch `e` was killed and no reconciliation of `link` has yet visited slot `i`. */
  predicate Unvisited(p: Phase, e: u32, link: u64, i: nat) {
    match p
    case Crashed(x) => x == e
    case Restarting(dead, reconciled, job, _) =>
      dead == e && link !in reconciled && !(job.Job? && job.link == link && job.next > i)
    case _ => false
  }

  /** Epoch `e` was killed and `link` is not reconciled. */
  predicate Unreconciled(p: Phase, e: u32, link: u64) {
    match p
    case Crashed(x) => x == e
    case Restarting(dead, reconciled, _, _) => dead == e && link !in reconciled
    case _ => false
  }

  type Phases = map<Component, Phase>

  function Ph(phases: Phases, c: Component): Phase {
    if c in phases then phases[c] else Off(0)
  }

  predicate Endpoint(cfg: Config, c: Component, link: u64) {
    link in cfg.links && (cfg.links[link].producer == c || cfg.links[link].consumer == c)
  }

  ghost predicate PhaseOk(cfg: Config, c: Component, p: Phase) {
    EpochOf(p) < U32 &&
    (p.Restarting? ==>
       && p.cursor <= cfg.slotCount
       && (p.cursor > 0 ==> AllReconciled(cfg, c, p.reconciled))
       && (p.job.Job? ==> Endpoint(cfg, c, p.job.link) && p.job.next <= cfg.slotCount))
  }

  // ------------------------------------------------------------------- slots

  /** The generation word after `bumps` increments: zero is used only at the start. */
  function GenerationAfter(bumps: nat): u32 {
    if bumps == 0 then 0 else (bumps - 1) % 0xFFFF_FFFF + 1
  }

  predicate Less(a: (nat, nat), b: (nat, nat)) {
    a.0 < b.0 || (a.0 == b.0 && a.1 < b.1)
  }

  /** The receives of a slot carry strictly increasing keys, all below the bound. */
  ghost predicate KeysBelow(keys: seq<(nat, nat)>, bound: (nat, nat)) {
    (forall x :: 0 <= x < |keys| ==> Less(keys[x], bound)) &&
    (forall x, y :: 0 <= x < y < |keys| ==> Less(keys[x], keys[y]))
  }

  /** Facts of a live buffer that no operation and no repair may change; only while
      its owner is dead and it is not adopted may its window not fit. */
  ghost predicate BufferOk(cfg: Config, s: Slot, l: Ledger) {
    HeldOk(cfg, s, l) && Fits(Shown(l), cfg.capacity)
  }

  /** The receives stay below the limit that was last asked for, apart from those
      that were made before; as long as the 32-bit hop count had not wrapped then. */
  predicate WithinLimit(l: Ledger) {
    0 < l.limit < HOP_LIMIT_UNLIMITED && l.since < 0xFFFF_FFFF ==> l.claims <= l.since || 1 + l.claims <= l.limit
  }

  ghost predicate HeldOk(cfg: Config, s: Slot, l: Ledger) {
    && l.live && s.id == l.id && s.parent == l.parent
    && Fits(l.region, cfg.capacity)
    && s.deadline == DEADLINE_NONE
    && s.hopLimit != 0
    && (l.limit != 0 ==> s.hopLimit == l.limit) && (l.limit == 0 ==> s.hopLimit == HOP_LIMIT_UNLIMITED)
    && l.since <= l.claims && WithinLimit(l)
  }

  predicate HopsExact(hops: u32, visited: set<Component>, l: Ledger) {
    hops == (1 + l.claims) % U32 && visited == l.holders
  }

  ghost predicate OwnedOk(cfg: Config, phases: Phases, i: nat, s: Slot, l: Ledger) {
    && HeldOk(cfg, s, l) && s.region == Shown(l) && HopsExact(s.hopCount, s.visited, l)
    && (Fits(Shown(l), cfg.capacity) || Owed(Ph(phases, s.owner), s.ownerEpoch, i))
    && s.nextOwner == NO_COMPONENT
    && ValidComponent(s.owner) && s.ownerEpoch <= EpochOf(Ph(phases, s.owner))
    && s.sequence == l.sends % U32 && KeysBelow(l.keys, (l.bumps, l.sends + 1))
    && (s.token.Token? ==>
          TokenOf(s.token, s.owner, s.ownerEpoch) && Owed(Ph(phases, s.owner), s.ownerEpoch, i))
  }

  ghost predicate TransferOk(cfg: Config, phases: Phases, i: nat, s: Slot, l: Ledger) {
    && BufferOk(cfg, s, l) && s.region == Shown(l) && HopsExact(s.hopCount, s.visited, l)
    && s.linkId in cfg.links
    && s.owner == cfg.links[s.linkId].producer && s.nextOwner == cfg.links[s.linkId].consumer
    && s.ownerEpoch <= EpochOf(Ph(phases, s.owner))
    && SourceSaved(s) && !HopsExhausted(s)
    && l.sends > 0 && s.sequence == l.sends % U32 && KeysBelow(l.keys, (l.bumps, l.sends))
    && (match s.token
        case NoToken => true
        case Token(kind, c, e) =>
          match kind
          case Send => c == s.owner && e == s.ownerEpoch && Past(Ph(phases, c), e)
          case Receive => c == s.nextOwner && Unvisited(Ph(phases, c), e, s.linkId, i)
          case Rollback => c == s.owner && e == s.ownerEpoch && Unvisited(Ph(phases, c), e, s.linkId, i)
          case _ => false)
  }

  ghost predicate ClaimingOk(cfg: Config, phases: Phases, i: nat, s: Slot, l: Ledger) {
    s.token.Token? &&
    var c, e := s.token.component, s.token.epoch;
    ValidComponent(c) &&
    match s.token.kind
    case Allocate => !l.live && Owed(Ph(phases, c), e, i)
    case Send =>
      && Owed(Ph(phases, c), e, i) && s.owner == c && s.ownerEpoch == e
      && BufferOk(cfg, s, l) && s.region == Shown(l) && HopsExact(s.hopCount, s.visited, l)
      && s.prevSequence == l.sends % U32 && KeysBelow(l.keys, (l.bumps, l.sends + 1))
    case Rollback =>
      && Owed(Ph(phases, c), e, i) && s.owner == c && s.ownerEpoch == e
      && BufferOk(cfg, s, l) && s.region == Shown(l) && HopsExact(s.hopCount, s.visited, l)
      && l.sends > 0 && s.prevSequence == (l.sends - 1) % U32
      && KeysBelow(l.keys, (l.bumps, l.sends))
    case Receive =>
      && s.linkId in cfg.links && c == cfg.links[s.linkId].consumer
      && s.sourceId == cfg.links[s.linkId].producer
      && s.sourceEpoch <= EpochOf(Ph(phases, s.sourceId))
      && Unvisited(Ph(phases, c), e, s.linkId, i)
      && BufferOk(cfg, s, l) && s.region == Shown(l) && HopsExact(s.sourceHops, s.sourceVisited, l)
      && (s.hopLimit != HOP_LIMIT_UNLIMITED ==> s.sourceHops < s.hopLimit)
      && l.sends > 0 && s.sequence == l.sends % U32 && KeysBelow(l.keys, (l.bumps, l.sends))
    case Release =>
      && Owed(Ph(phases, c), e, i) && s.prevOwner == c && s.prevEpoch == e
      && BufferOk(cfg, s, l) && s.prevRegion == Shown(l) && HopsExact(s.hopCount, s.visited, l)
      && s.sequence == l.sends % U32 && KeysBelow(l.keys, (l.bumps, l.sends + 1))
  }

  ghost predicate FreeOk(phases: Phases, i: nat, s: Slot, l: Ledger) {
    !l.live &&
    (s.token.Token? ==>
       (s.token.kind == Allocate || s.token.kind == Release) && ValidComponent(s.token.component) &&
       Owed(Ph(phases, s.token.component), s.token.epoch, i))
  }

  ghost predicate SlotOk(cfg: Config, phases: Phases, i: nat, s: Slot, l: Ledger) {
    && s.generation == GenerationAfter(l.bumps)
    && KeysBelow(l.keys, (l.bumps + 1, 0))
    && match s.state
       case Free => FreeOk(phases, i, s, l)
       case Owned => OwnedOk(cfg, phases, i, s, l)
       case Transfer => TransferOk(cfg, phases, i, s, l)
       case Claiming => ClaimingOk(cfg, phases, i, s, l)
       case Error => false
  }

  /** The restart scan leaves nothing of the dead epoch behind it. */
  predicate Cleaned(phases: Phases, c: Component, i: nat, s: Slot) {
    var p := Ph(phases, c);
    p.Restarting? && i < p.cursor ==> !Adoptable(s, c, p.dead)
  }

  // ------------------------------------------------------------------- rings

  /** A descriptor is current, or it is the one a killed consumer was working on. */
  predicate EntryOk(cfg: Config, phases: Phases, slots: seq<Slot>, link: u64, q: seq<Message>, j: nat)
    requires j < |q| && link in cfg.links
  {
    var m := q[j];
    m.slot < |slots| &&
    var s := slots[m.slot];
    || (s.state == Transfer && s.linkId == link && m == Descriptor(s, m.slot, cfg.poolId))
    || (j == 0 && s.state == Claiming && s.token.Token? && s.token.kind == Receive && s.linkId == link)
    || (j == 0 && s.state == Owned && s.owner == cfg.links[link].consumer &&
        Unreconciled(Ph(phases, s.owner), s.ownerEpoch, link))
  }

  ghost predicate RingOk(cfg: Config, phases: Phases, slots: seq<Slot>, link: u64, q: seq<Message>)
    requires link in cfg.links
  {
    && |q| <= cfg.links[link].depth
    && (forall j :: 0 <= j < |q| ==> EntryOk(cfg, phases, slots, link, q, j))
    && (forall j, k :: 0 <= j < k < |q| ==> q[j].slot != q[k].slot)
  }

  /** Where the descriptor of a transfer is. */
  ghost predicate DeliveryOk(cfg: Config, phases: Phases, rings: map<u64, seq<Message>>, i: nat, s: Slot) {
    && (s.state == Transfer ==>
          s.linkId in rings &&
          (Descriptor(s, i, cfg.poolId) in rings[s.linkId] ||
           Unvisited(Ph(phases, s.owner), s.ownerEpoch, s.linkId, i)) &&
          (s.token.Token? && s.token.kind == Rollback ==>
             Descriptor(s, i, cfg.poolId) !in rings[s.linkId]))
    && (s.state == Claiming && s.token.Token? && s.token.kind == Receive ==>
          s.linkId in rings && rings[s.linkId] != [] &&
          rings[s.linkId][0] == Message(i, s.generation, cfg.poolId, s.sourceId, s.token.component, s.sequence))
  }

  // --------------------------------------------------------------- invariant

  ghost predicate SlotsOk(cfg: Config, sys: Sys) {
    |sys.slots| == |sys.ledgers| &&
    forall i :: 0 <= i < |sys.slots| ==> SlotOk(cfg, sys.phases, i, sys.slots[i], sys.ledgers[i])
  }

  ghost predicate RingsOk(cfg: Config, sys: Sys) {
    forall link <- cfg.links :: link in sys.rings && RingOk(cfg, sys.phases, sys.slots, link, sys.rings[link])
  }

  ghost predicate DeliveriesOk(cfg: Config, sys: Sys) {
    forall i :: 0 <= i < |sys.slots| ==> DeliveryOk(cfg, sys.phases, sys.rings, i, sys.slots[i])
  }

  ghost predicate PhasesOk(cfg: Config, sys: Sys) {
    forall c <- sys.phases :: PhaseOk(cfg, c, sys.phases[c])
  }

  ghost predicate SweptOk(sys: Sys) {
    forall c: Component, i {:trigger Cleaned(sys.phases, c, i, sys.slots[i])} ::
      0 <= i < |sys.slots| ==> Cleaned(sys.phases, c, i, sys.slots[i])
  }

  ghost predicate Inv(cfg: Config, sys: Sys) {
    && WellFormed(cfg, sys)
    && PhasesOk(cfg, sys)
    && SlotsOk(cfg, sys)
    && RingsOk(cfg, sys)
    && DeliveriesOk(cfg, sys)
    && SweptOk(sys)
  }

  lemma InitInv(cfg: Config, sys: Sys)
    requires Init(cfg, sys)
    ensures Inv(cfg, sys)
  {
  }
}
