/**
 Every step of an online restart keeps the invariant.
 */
module RunRestart {
  import opened Model
  import opened Protocol
  import opened RunModel
  import opened RunInvariant
  import opened RunFrames
  import opened RunCalls
  import opened RunTransfers

  lemma RestartBeginKeepsInv(cfg: Config, sys: Sys, c: Component)
    requires Inv(cfg, sys) && Enabled(cfg, sys, RestartBegin(c))
    ensures Inv(cfg, Apply(cfg, sys, RestartBegin(c)))
  {
    var q := Restarting(PhaseOf(sys, c).epoch, {}, NoJob, 0);
    PhaseChange(cfg, sys, Apply(cfg, sys, RestartBegin(c)), c, q);
  }

  lemma ReconcileBeginKeepsInv(cfg: Config, sys: Sys, c: Component, link: u64)
    requires Inv(cfg, sys) && Enabled(cfg, sys, ReconcileBegin(c, link))
    ensures Inv(cfg, Apply(cfg, sys, ReconcileBegin(c, link)))
  {
    var q := PhaseOf(sys, c).(job := Job(link, 0));
    PhaseChange(cfg, sys, Apply(cfg, sys, ReconcileBegin(c, link)), c, q);
  }

  lemma RestartFinishKeepsInv(cfg: Config, sys: Sys, c: Component)
    requires Inv(cfg, sys) && Enabled(cfg, sys, RestartFinish(c))
    ensures Inv(cfg, Apply(cfg, sys, RestartFinish(c)))
  {
    var p := PhaseOf(sys, c);
    var q := Up(p.dead + 1);
    assert forall link, e :: Endpoint(cfg, c, link) ==> !Unreconciled(p, e, link);
    assert Advance(cfg, c, p, q, -1);
    PhaseChange(cfg, sys, Apply(cfg, sys, RestartFinish(c)), c, q);
  }

  // ----------------------------------------------------- change of one slot

  /** An event of `c`'s restart that repairs slot `i` and touches no ring. */
  lemma RepairChange(cfg: Config, sys: Sys, sys': Sys, c: Component, q: Phase, i: nat)
    requires Inv(cfg, sys) && i < |sys.slots|
    requires sys'.phases == sys.phases[c := q] && sys'.rings == sys.rings
    requires |sys'.slots| == |sys'.ledgers| == |sys.slots|
    requires forall j :: 0 <= j < |sys.slots| && j != i ==>
               sys'.slots[j] == sys.slots[j] && sys'.ledgers[j] == sys.ledgers[j]
    requires Advance(cfg, c, PhaseOf(sys, c), q, i) && PhaseOk(cfg, c, q)
    requires forall link :: RingAdvance(cfg, c, PhaseOf(sys, c), q, link)
    requires SlotOk(cfg, sys'.phases, i, sys'.slots[i], sys'.ledgers[i])
    requires DeliveryOk(cfg, sys'.phases, sys'.rings, i, sys'.slots[i])
    requires forall d: Component :: Cleaned(sys'.phases, d, i, sys'.slots[i])
    requires forall link, k | link in cfg.links && link in sys.rings && 0 <= k < |sys.rings[link]| ::
               sys.rings[link][k].slot == i ==> EntryOk(cfg, sys'.phases, sys'.slots, link, sys.rings[link], k)
    ensures Inv(cfg, sys')
  {
    SlotsStable(cfg, sys, sys', c, q, i);
    SweptStable(cfg, sys, sys', c, q, i);
    DeliveriesStable(cfg, sys, sys', c, q, i);
    forall link <- cfg.links
      ensures link in sys'.rings && RingOk(cfg, sys'.phases, sys'.slots, link, sys'.rings[link])
    {
      RingStable(cfg, sys, sys', c, q, i, link);
    }
  }

  /** How a repaired record relates to the one the killed runtime left. */
  predicate Mends(s: Slot, t: Slot, c: Component) {
    || t == s
    || (t == s.(token := NoToken) && s.state != Claiming)
    || (s.state == Claiming && s.token.Token? && s.token.component == c &&
        (if s.token.kind == Receive then t == UndoReceive(s, c)
         else t.state == Free || t.state == Owned))
  }

  /** The descriptors of a repaired slot stay as they are. */
  lemma RepairedEntries(cfg: Config, sys: Sys, sys': Sys, c: Component, q: Phase, i: nat)
    requires Inv(cfg, sys) && i < |sys.slots|
    requires sys'.phases == sys.phases[c := q] && |sys'.slots| == |sys.slots|
    requires forall link :: RingAdvance(cfg, c, PhaseOf(sys, c), q, link)
    requires Mends(sys.slots[i], sys'.slots[i], c)
    ensures forall link, k | link in cfg.links && link in sys.rings && 0 <= k < |sys.rings[link]| ::
              sys.rings[link][k].slot == i ==> EntryOk(cfg, sys'.phases, sys'.slots, link, sys.rings[link], k)
  {
    var s, t := sys.slots[i], sys'.slots[i];
    forall link, k | link in cfg.links && link in sys.rings && 0 <= k < |sys.rings[link]|
      ensures sys.rings[link][k].slot == i ==> EntryOk(cfg, sys'.phases, sys'.slots, link, sys.rings[link], k)
    {
      var r := sys.rings[link];
      assert RingOk(cfg, sys.phases, sys.slots, link, r);
      assert EntryOk(cfg, sys.phases, sys.slots, link, r, k);
      if r[k].slot == i {
        assert RingAdvance(cfg, c, PhaseOf(sys, c), q, link);
        if s.state == Claiming {
          assert DeliveryOk(cfg, sys.phases, sys.rings, i, s);
        } else if s.state == Owned && s.owner == c {
          assert Endpoint(cfg, c, link);
        }
      }
    }
  }

  // -------------------------------------------------------- repair of a slot

  lemma UndoReceiveSlot(cfg: Config, phases: Phases, i: nat, s: Slot, l: Ledger)
    requires SlotOk(cfg, phases, i, s, l) && s.state == Claiming && s.token.kind == Receive
    ensures SlotOk(cfg, phases, i, UndoReceive(s, s.token.component), l)
  {
  }

  lemma UndoSendSlot(cfg: Config, phases: Phases, i: nat, s: Slot, l: Ledger)
    requires SlotOk(cfg, phases, i, s, l) && s.state == Claiming && s.token.kind == Send
    requires s.token.epoch <= EpochOf(Ph(phases, s.token.component))
    ensures SlotOk(cfg, phases, i, UndoSend(s), l)
  {
  }

  lemma UndoRollbackSlot(cfg: Config, phases: Phases, i: nat, s: Slot, l: Ledger)
    requires SlotOk(cfg, phases, i, s, l) && s.state == Claiming && s.token.kind == Rollback
    requires s.token.epoch <= EpochOf(Ph(phases, s.token.component))
    ensures l.sends > 0 && SlotOk(cfg, phases, i, UndoSend(s), l.(sends := l.sends - 1))
  {
    assert KeysBelow(l.keys, (l.bumps, l.sends - 1 + 1));
  }

  lemma UndoReleaseSlot(cfg: Config, phases: Phases, i: nat, s: Slot, l: Ledger)
    requires SlotOk(cfg, phases, i, s, l) && s.state == Claiming && s.token.kind == Release
    requires s.token.epoch <= EpochOf(Ph(phases, s.token.component))
    ensures SlotOk(cfg, phases, i, UndoRelease(s), l)
  {
  }

  // ------------------------------------------------------- reconcile: consumer

  /** A reconciliation that looks at slot `i` next. */
  predicate JobAt(cfg: Config, p: Phase, i: nat) {
    p.Restarting? && p.job.Job? && p.job.next == i && p.job.link in cfg.links
  }

  lemma ConsumerRepairSlot(cfg: Config, phases: Phases, i: nat, s: Slot, l: Ledger, c: Component, dead: u32)
    requires SlotOk(cfg, phases, i, s, l)
    ensures var t := ReconcileConsumerSlot(s, c, dead);
            && SlotOk(cfg, phases, i, t, l) && Mends(s, t, c)
            && (TokenOf(t.token, c, dead) && t.token.kind == Receive ==> t.state == Owned)
  {
    if TokenOf(s.token, c, dead) && s.token.kind == Receive && s.state == Claiming {
      UndoReceiveSlot(cfg, phases, i, s, l);
    }
  }

  lemma ConsumerVisitSlot(cfg: Config, phases: Phases, i: nat, s: Slot, l: Ledger, c: Component)
    requires SlotOk(cfg, phases, i, s, l) && ValidConfig(cfg)
    requires JobAt(cfg, Ph(phases, c), i) && cfg.links[Ph(phases, c).job.link].consumer == c
    ensures var p := Ph(phases, c);
            var t := ReconcileConsumerSlot(s, c, p.dead);
            SlotOk(cfg, phases[c := p.(job := Job(p.job.link, i + 1))], i, t, l) && Mends(s, t, c)
  {
    var p := Ph(phases, c);
    var t := ReconcileConsumerSlot(s, c, p.dead);
    ConsumerRepairSlot(cfg, phases, i, s, l, c, p.dead);
    SlotStableHere(cfg, phases, c, p.(job := Job(p.job.link, i + 1)), i, t, l);
  }

  lemma ConsumerVisitDelivery(cfg: Config, phases: Phases, rings: map<u64, seq<Message>>, i: nat, s: Slot, l: Ledger,
                              c: Component)
    requires SlotOk(cfg, phases, i, s, l) && DeliveryOk(cfg, phases, rings, i, s) && ValidConfig(cfg)
    requires JobAt(cfg, Ph(phases, c), i) && cfg.links[Ph(phases, c).job.link].consumer == c
    ensures var p := Ph(phases, c);
            DeliveryOk(cfg, phases[c := p.(job := Job(p.job.link, i + 1))], rings, i, ReconcileConsumerSlot(s, c, p.dead))
  {
  }

  lemma ReconcileConsumerVisitKeepsInv(cfg: Config, sys: Sys, sys': Sys, c: Component)
    requires Inv(cfg, sys) && ValidComponent(c)
    requires var p := PhaseOf(sys, c);
             && p.Restarting? && p.job.Job? && p.job.next < |sys.slots|
             && p.job.link in cfg.links && p.job.link in sys.rings && cfg.links[p.job.link].consumer == c
             && sys' == AfterReconcileVisit(cfg, sys, c, p)
    ensures Inv(cfg, sys')
  {
    var p := PhaseOf(sys, c);
    var i := p.job.next;
    var q := p.(job := Job(p.job.link, i + 1));
    assert SlotOk(cfg, sys.phases, i, sys.slots[i], sys.ledgers[i]);
    assert DeliveryOk(cfg, sys.phases, sys.rings, i, sys.slots[i]);
    ConsumerVisitSlot(cfg, sys.phases, i, sys.slots[i], sys.ledgers[i], c);
    ConsumerVisitDelivery(cfg, sys.phases, sys.rings, i, sys.slots[i], sys.ledgers[i], c);
    assert sys' == SetPhase(SetSlot(sys, i, ReconcileConsumerSlot(sys.slots[i], c, p.dead), sys.ledgers[i]), c, q);
    forall d: Component ensures Cleaned(sys'.phases, d, i, sys'.slots[i]) {
      assert Cleaned(sys.phases, d, i, sys.slots[i]);
    }
    RepairedEntries(cfg, sys, sys', c, q, i);
    RepairChange(cfg, sys, sys', c, q, i);
  }

  /** What the drain takes off a ring is not the descriptor of any transfer. */
  lemma DrainedIsStale(cfg: Config, sys: Sys, c: Component)
    requires Inv(cfg, sys) && Enabled(cfg, sys, ReconcileDrain(c))
    ensures var m := sys.rings[PhaseOf(sys, c).job.link][0];
            m.slot < |sys.slots| && sys.slots[m.slot].state == Owned && sys.slots[m.slot].owner == c
  {
    var p := PhaseOf(sys, c);
    var link := p.job.link;
    var r := sys.rings[link];
    assert RingOk(cfg, sys.phases, sys.slots, link, r);
    assert EntryOk(cfg, sys.phases, sys.slots, link, r, 0);
    var i := r[0].slot;
    assert SlotOk(cfg, sys.phases, i, sys.slots[i], sys.ledgers[i]);
    assert !exists e: u32 :: Unvisited(p, e, link, i);
  }

  lemma ReconcileDrainKeepsInv(cfg: Config, sys: Sys, c: Component)
    requires Inv(cfg, sys) && Enabled(cfg, sys, ReconcileDrain(c))
    ensures Inv(cfg, Apply(cfg, sys, ReconcileDrain(c)))
  {
    DrainedIsStale(cfg, sys, c);
    var p := PhaseOf(sys, c);
    var link := p.job.link;
    var r := sys.rings[link];
    var i := r[0].slot;
    var sys' := Apply(cfg, sys, ReconcileDrain(c));
    assert sys.phases[c := p] == sys.phases;
    AdvanceRefl(cfg, c, p, i);
    assert RingOk(cfg, sys.phases, sys.slots, link, r);
    DropHeadKeepsRing(cfg, sys.phases, sys.slots, sys.slots, link, r, i, sys.phases);
    assert SlotOk(cfg, sys.phases, i, sys.slots[i], sys.ledgers[i]);
    forall l, k | l in cfg.links && l != link && l in sys.rings && 0 <= k < |sys.rings[l]|
      ensures sys.rings[l][k].slot == i ==> EntryOk(cfg, sys'.phases, sys'.slots, l, sys.rings[l], k)
    {
      assert RingOk(cfg, sys.phases, sys.slots, l, sys.rings[l]);
    }
    forall d: Component ensures Cleaned(sys'.phases, d, i, sys'.slots[i]) {
      assert Cleaned(sys.phases, d, i, sys.slots[i]);
    }
    SlotAndRingChange(cfg, sys, sys', c, p, i, link);
  }

  lemma ReconcileEndKeepsInv(cfg: Config, sys: Sys, c: Component)
    requires Inv(cfg, sys) && Enabled(cfg, sys, ReconcileEnd(c))
    ensures Inv(cfg, Apply(cfg, sys, ReconcileEnd(c)))
  {
    var p := PhaseOf(sys, c);
    var link := p.job.link;
    var q := p.(reconciled := p.reconciled + {link}, job := NoJob);
    var r := sys.rings[link];
    var sys' := Apply(cfg, sys, ReconcileEnd(c));
    assert RingOk(cfg, sys.phases, sys.slots, link, r);
    forall k | 0 <= k < |r|
      ensures EntryOk(cfg, sys'.phases, sys.slots, link, r, k)
    {
      assert EntryOk(cfg, sys.phases, sys.slots, link, r, k);
    }
    PhaseChange(cfg, sys, sys', c, q);
  }

  // ------------------------------------------------------ reconcile: producer

  /** The repair alone, before the restart moves on. */
  lemma ProducerRepairSlot(cfg: Config, phases: Phases, i: nat, s: Slot, l: Ledger, c: Component, dead: u32)
    requires SlotOk(cfg, phases, i, s, l) && dead <= EpochOf(Ph(phases, c))
    ensures var t := ReconcileProducerSlot(s, c, dead);
            && SlotOk(cfg, phases, i, t, RepairLedger(s, l, c, dead)) && Mends(s, t, c)
            && (t.state == Transfer && TokenOf(t.token, c, dead) ==> t.token.kind != Rollback)
  {
    if TokenOf(s.token, c, dead) && s.state == Claiming {
      match s.token.kind
      case Send => UndoSendSlot(cfg, phases, i, s, l);
      case Rollback => UndoRollbackSlot(cfg, phases, i, s, l);
      case _ =>
    }
  }

  /** A record that does not wait for the change of phase `c` makes. */
  lemma SlotStableHere(cfg: Config, phases: Phases, c: Component, q: Phase, i: nat, s: Slot, l: Ledger)
    requires SlotOk(cfg, phases, i, s, l)
    requires var p := Ph(phases, c);
             && EpochOf(p) <= EpochOf(q) && (forall e :: Past(p, e) ==> Past(q, e))
             && (s.state == Owned && s.owner == c && Owed(p, s.ownerEpoch, i) && !Fits(s.region, cfg.capacity) ==>
                   Owed(q, s.ownerEpoch, i))
             && (s.token.Token? && s.token.component == c ==>
                   && (s.state != Transfer && Owed(p, s.token.epoch, i) ==> Owed(q, s.token.epoch, i))
                   && ((s.state != Owned && s.token.kind == Receive) || (s.state == Transfer && s.token.kind == Rollback) ==>
                         Unvisited(p, s.token.epoch, s.linkId, i) ==> Unvisited(q, s.token.epoch, s.linkId, i)))
    ensures SlotOk(cfg, phases[c := q], i, s, l)
  {
    match s.state
    case Free =>
    case Owned =>
    case Transfer =>
    case Claiming =>
  }

  lemma ProducerVisitSlot(cfg: Config, phases: Phases, i: nat, s: Slot, l: Ledger, c: Component, q: Phase)
    requires SlotOk(cfg, phases, i, s, l) && ValidConfig(cfg)
    requires JobAt(cfg, Ph(phases, c), i) && cfg.links[Ph(phases, c).job.link].producer == c
    requires var p := Ph(phases, c); q == p.(job := Job(p.job.link, i + 1)) || q == p.(job := NoJob)
    ensures var p := Ph(phases, c);
            var t := ReconcileProducerSlot(s, c, p.dead);
            SlotOk(cfg, phases[c := q], i, t, RepairLedger(s, l, c, p.dead)) && Mends(s, t, c)
  {
    var p := Ph(phases, c);
    var t := ReconcileProducerSlot(s, c, p.dead);
    ProducerRepairSlot(cfg, phases, i, s, l, c, p.dead);
    SlotStableHere(cfg, phases, c, q, i, t, RepairLedger(s, l, c, p.dead));
  }

  lemma ProducerVisitDelivery(cfg: Config, phases: Phases, rings: map<u64, seq<Message>>, i: nat, s: Slot, l: Ledger,
                              c: Component, q: Phase)
    requires SlotOk(cfg, phases, i, s, l) && DeliveryOk(cfg, phases, rings, i, s) && ValidConfig(cfg)
    requires JobAt(cfg, Ph(phases, c), i) && cfg.links[Ph(phases, c).job.link].producer == c
    requires var p := Ph(phases, c);
             var t := ReconcileProducerSlot(s, c, p.dead);
             || q == p.(job := NoJob)
             || (q == p.(job := Job(p.job.link, i + 1)) &&
                 !Republishes(t, c, p.dead, cfg.links[p.job.link].consumer, p.job.link))
    ensures DeliveryOk(cfg, phases[c := q], rings, i, ReconcileProducerSlot(s, c, Ph(phases, c).dead))
  {
    var p := Ph(phases, c);
    assert forall e: u32, link :: link != p.job.link && Unvisited(p, e, link, i) ==> Unvisited(q, e, link, i);
    assert forall e: u32, link :: Unvisited(p, e, link, i) ==> e == p.dead;
  }

  /** A visit that publishes nothing. */
  lemma ProducerVisitQuietKeepsInv(cfg: Config, sys: Sys, sys': Sys, c: Component, q: Phase)
    requires Inv(cfg, sys) && ValidComponent(c)
    requires var p := PhaseOf(sys, c);
             && p.Restarting? && p.job.Job? && p.job.next < |sys.slots|
             && p.job.link in cfg.links && p.job.link in sys.rings && cfg.links[p.job.link].producer == c
    requires var p := PhaseOf(sys, c);
             var i := p.job.next;
             var s, l := sys.slots[i], sys.ledgers[i];
             var t := ReconcileProducerSlot(s, c, p.dead);
             && sys' == SetPhase(SetSlot(sys, i, t, RepairLedger(s, l, c, p.dead)), c, q)
             && (|| q == p.(job := NoJob)
                 || (q == p.(job := Job(p.job.link, i + 1)) &&
                     !Republishes(t, c, p.dead, cfg.links[p.job.link].consumer, p.job.link)))
    ensures Inv(cfg, sys')
  {
    var i := PhaseOf(sys, c).job.next;
    ProducerVisitQuietSlot(cfg, sys, c, q);
    ProducerSwept(cfg, sys, sys', c, q, i);
    RepairedEntries(cfg, sys, sys', c, q, i);
    RepairChange(cfg, sys, sys', c, q, i);
  }

  lemma ProducerVisitQuietSlot(cfg: Config, sys: Sys, c: Component, q: Phase)
    requires Inv(cfg, sys)
    requires var p := PhaseOf(sys, c);
             && p.Restarting? && p.job.Job? && p.job.next < |sys.slots|
             && p.job.link in cfg.links && cfg.links[p.job.link].producer == c
             && (|| q == p.(job := NoJob)
                 || (q == p.(job := Job(p.job.link, p.job.next + 1)) &&
                     !Republishes(ReconcileProducerSlot(sys.slots[p.job.next], c, p.dead), c, p.dead,
                                  cfg.links[p.job.link].consumer, p.job.link)))
    ensures var p := PhaseOf(sys, c);
            var i := p.job.next;
            var s, l := sys.slots[i], sys.ledgers[i];
            var t := ReconcileProducerSlot(s, c, p.dead);
            && SlotOk(cfg, sys.phases[c := q], i, t, RepairLedger(s, l, c, p.dead)) && Mends(s, t, c)
            && DeliveryOk(cfg, sys.phases[c := q], sys.rings, i, t)
  {
    var i := PhaseOf(sys, c).job.next;
    assert SlotOk(cfg, sys.phases, i, sys.slots[i], sys.ledgers[i]);
    assert DeliveryOk(cfg, sys.phases, sys.rings, i, sys.slots[i]);
    ProducerVisitSlot(cfg, sys.phases, i, sys.slots[i], sys.ledgers[i], c, q);
    ProducerVisitDelivery(cfg, sys.phases, sys.rings, i, sys.slots[i], sys.ledgers[i], c, q);
  }

  /** A claim repaired behind the cursor would contradict the invariant. */
  lemma ProducerSwept(cfg: Config, sys: Sys, sys': Sys, c: Component, q: Phase, i: nat)
    requires Inv(cfg, sys) && i < |sys.slots| == |sys'.slots|
    requires PhaseOf(sys, c).Restarting? && q.Restarting? && q.dead == PhaseOf(sys, c).dead
    requires q.cursor == PhaseOf(sys, c).cursor && sys'.phases == sys.phases[c := q]
    requires sys'.slots[i] == ReconcileProducerSlot(sys.slots[i], c, q.dead)
    ensures forall d: Component :: Cleaned(sys'.phases, d, i, sys'.slots[i])
  {
    assert SlotOk(cfg, sys.phases, i, sys.slots[i], sys.ledgers[i]);
    forall d: Component ensures Cleaned(sys'.phases, d, i, sys'.slots[i]) {
      assert Cleaned(sys.phases, d, i, sys.slots[i]);
    }
  }

  /** The ring on which a transfer is published again. */
  lemma RepublishKeepsRing(cfg: Config, phases: Phases, slots: seq<Slot>, phases': Phases, slots': seq<Slot>,
                           link: u64, r: seq<Message>, m: Message)
    requires link in cfg.links && RingOk(cfg, phases, slots, link, r) && RingOk(cfg, phases', slots', link, r)
    requires m.slot < |slots| == |slots'| && slots[m.slot].state == Transfer && slots'[m.slot].state == Transfer
    requires slots'[m.slot].linkId == link && |r| < cfg.links[link].depth
    requires m == Descriptor(slots[m.slot], m.slot, cfg.poolId) == Descriptor(slots'[m.slot], m.slot, cfg.poolId)
    ensures RingOk(cfg, phases', slots', link, Pushed(r, m)) && SameOthers(r, Pushed(r, m), m.slot)
    ensures m in Pushed(r, m)
  {
    if m !in r {
      forall k | 0 <= k < |r| ensures r[k].slot != m.slot {
        assert EntryOk(cfg, phases, slots, link, r, k);
      }
      AppendKeepsRing(cfg, phases', slots', link, r, m);
    }
  }

  /** A visit that publishes the transfer again. */
  lemma ProducerVisitPublishKeepsInv(cfg: Config, sys: Sys, sys': Sys, c: Component, q: Phase, t: Slot, m: Message)
    requires Inv(cfg, sys) && ValidComponent(c)
    requires var p := PhaseOf(sys, c);
             && p.Restarting? && p.job.Job? && p.job.next < |sys.slots|
             && p.job.link in cfg.links && p.job.link in sys.rings && cfg.links[p.job.link].producer == c
             && var link, i := p.job.link, p.job.next;
             var s, l, r := sys.slots[i], sys.ledgers[i], sys.rings[link];
             && s.state == Transfer && t == ReconcileProducerSlot(s, c, p.dead) && q == p.(job := Job(link, i + 1))
             && Republishes(t, c, p.dead, cfg.links[link].consumer, link) && |r| < cfg.links[link].depth
             && m == Descriptor(t, i, cfg.poolId)
             && sys' == SetPhase(SetRing(SetSlot(sys, i, t, RepairLedger(s, l, c, p.dead)), link, Pushed(r, m)), c, q)
    ensures Inv(cfg, sys')
  {
    var p := PhaseOf(sys, c);
    var link, i := p.job.link, p.job.next;
    var s, l, r := sys.slots[i], sys.ledgers[i], sys.rings[link];
    assert SlotOk(cfg, sys.phases, i, s, l);
    ProducerVisitSlot(cfg, sys.phases, i, s, l, c, q);
    ProducerSwept(cfg, sys, sys', c, q, i);
    RepairedEntries(cfg, sys, sys', c, q, i);
    RingStable(cfg, sys, sys', c, q, i, link);
    assert RingOk(cfg, sys.phases, sys.slots, link, r);
    RepublishKeepsRing(cfg, sys.phases, sys.slots, sys'.phases, sys'.slots, link, r, m);
    SlotAndRingChange(cfg, sys, sys', c, q, i, link);
  }

  lemma ReconcileVisitKeepsInv(cfg: Config, sys: Sys, c: Component)
    requires Inv(cfg, sys) && Enabled(cfg, sys, ReconcileVisit(c))
    ensures Inv(cfg, Apply(cfg, sys, ReconcileVisit(c)))
  {
    var p := PhaseOf(sys, c);
    var link, i := p.job.link, p.job.next;
    assert PhaseOk(cfg, c, p);
    if cfg.links[link].consumer == c {
      ReconcileConsumerVisitKeepsInv(cfg, sys, Apply(cfg, sys, ReconcileVisit(c)), c);
    } else {
      var s := sys.slots[i];
      var t := ReconcileProducerSlot(s, c, p.dead);
      if s.state == Transfer && Republishes(t, c, p.dead, cfg.links[link].consumer, link) {
        if |sys.rings[link]| >= cfg.links[link].depth {
          ProducerVisitQuietKeepsInv(cfg, sys, Apply(cfg, sys, ReconcileVisit(c)), c, p.(job := NoJob));
        } else {
          ProducerVisitPublishKeepsInv(cfg, sys, Apply(cfg, sys, ReconcileVisit(c)), c, p.(job := Job(link, i + 1)), t,
                                       Descriptor(t, i, cfg.poolId));
        }
      } else {
        ProducerVisitQuietKeepsInv(cfg, sys, Apply(cfg, sys, ReconcileVisit(c)), c, p.(job := Job(link, i + 1)));
      }
    }
  }

  // ------------------------------------------------------------ restart scan

  /** The repair of a slot that is not claimed: at most a token is cleared. */
  lemma TokenRepairSlot(cfg: Config, phases: Phases, i: nat, s: Slot, l: Ledger, c: Component, dead: u32)
    requires SlotOk(cfg, phases, i, s, l) && s.state != Claiming
    ensures var t := ScanRepair(s, c, dead);
            && SlotOk(cfg, phases, i, t, l) && Mends(s, t, c)
            && (TokenOf(t.token, c, dead) ==> t.state == Transfer && t.token.kind != Receive)
  {
    match s.state
    case Free =>
    case Transfer =>
    case Owned =>
  }

  /** The repair of the scan, before adoption and before the cursor moves on. */
  lemma ScanRepairSlot(cfg: Config, phases: Phases, i: nat, s: Slot, l: Ledger, c: Component, dead: u32)
    requires SlotOk(cfg, phases, i, s, l) && dead <= EpochOf(Ph(phases, c)) && ValidComponent(c)
    ensures var t := ScanRepair(s, c, dead);
            && SlotOk(cfg, phases, i, t, RepairLedger(s, l, c, dead)) && Mends(s, t, c)
            && (TokenOf(t.token, c, dead) ==> t.state == Transfer && t.token.kind != Receive)
  {
    if s.state != Claiming {
      TokenRepairSlot(cfg, phases, i, s, l, c, dead);
    } else if TokenOf(s.token, c, dead) {
      ClaimRepairSlot(cfg, phases, i, s, l, c, dead);
    }
  }

  lemma ClaimRepairSlot(cfg: Config, phases: Phases, i: nat, s: Slot, l: Ledger, c: Component, dead: u32)
    requires SlotOk(cfg, phases, i, s, l) && s.state == Claiming && TokenOf(s.token, c, dead)
    requires ValidComponent(c) && dead <= EpochOf(Ph(phases, c))
    ensures SlotOk(cfg, phases, i, ScanRepair(s, c, dead), RepairLedger(s, l, c, dead))
  {
    match s.token.kind
    case Allocate =>
    case Send => UndoSendSlot(cfg, phases, i, s, l);
    case Rollback => UndoRollbackSlot(cfg, phases, i, s, l);
    case Receive => UndoReceiveSlot(cfg, phases, i, s, l);
    case Release => UndoReleaseSlot(cfg, phases, i, s, l);
  }

  lemma AdoptSlot(cfg: Config, phases: Phases, i: nat, s: Slot, l: Ledger, c: Component, now: u64)
    requires SlotOk(cfg, phases, i, s, l) && s.token.NoToken? && Fits(s.region, cfg.capacity)
    requires Ph(phases, c).Restarting? && Ph(phases, c).dead + 1 < U32 && Adoptable(s, c, Ph(phases, c).dead)
    ensures SlotOk(cfg, phases, i, Adopt(s, Ph(phases, c).dead + 1, now), l.(bumps := l.bumps + 1))
  {
    GenerationStep(l.bumps);
  }

  lemma ScanDelivery(cfg: Config, phases: Phases, rings: map<u64, seq<Message>>, i: nat, s: Slot, l: Ledger,
                     c: Component, q: Phase, t: Slot)
    requires SlotOk(cfg, phases, i, s, l) && DeliveryOk(cfg, phases, rings, i, s) && Mends(s, t, c)
    requires forall e: u32, link :: Unvisited(q, e, link, i) == Unvisited(Ph(phases, c), e, link, i)
    ensures DeliveryOk(cfg, phases[c := q], rings, i, t)
  {
  }

  /** The slot after a visit that adopts it. */
  lemma AdoptVisitSlot(cfg: Config, sys: Sys, c: Component, q: Phase, now: u64, i: nat)
    requires Inv(cfg, sys) && ValidComponent(c) && i < |sys.slots|
    requires var p := PhaseOf(sys, c);
             && p.Restarting? && p.cursor == i && q == p.(cursor := i + 1) && p.dead + 1 < U32
             && Adoptable(ScanRepair(sys.slots[i], c, p.dead), c, p.dead) && !Overflows(cfg, sys.slots[i], c, p.dead)
    ensures SlotOk(cfg, sys.phases[c := q], i, Adopt(ScanRepair(sys.slots[i], c, q.dead), q.dead + 1, now),
                   var l := RepairLedger(sys.slots[i], sys.ledgers[i], c, q.dead); l.(bumps := l.bumps + 1))
  {
    var s, l := sys.slots[i], sys.ledgers[i];
    var t, l1 := ScanRepair(s, c, q.dead), RepairLedger(s, l, c, q.dead);
    assert SlotOk(cfg, sys.phases, i, s, l);
    ScanRepairSlot(cfg, sys.phases, i, s, l, c, q.dead);
    AdoptSlot(cfg, sys.phases, i, t, l1, c, now);
    SlotStableHere(cfg, sys.phases, c, q, i, Adopt(t, q.dead + 1, now), l1.(bumps := l1.bumps + 1));
  }

  lemma AdoptVisitKeepsInv(cfg: Config, sys: Sys, sys': Sys, c: Component, now: u64)
    requires Inv(cfg, sys) && ValidComponent(c)
    requires var p := PhaseOf(sys, c);
             && p.Restarting? && AllReconciled(cfg, c, p.reconciled) && p.cursor < |sys.slots| && p.dead + 1 < U32
             && Adoptable(ScanRepair(sys.slots[p.cursor], c, p.dead), c, p.dead)
             && !Overflows(cfg, sys.slots[p.cursor], c, p.dead)
             && sys' == AfterRestartVisit(cfg, sys, c, p, now)
    ensures Inv(cfg, sys')
  {
    var p := PhaseOf(sys, c);
    var i, q := p.cursor, p.(cursor := p.cursor + 1);
    AdoptVisitSlot(cfg, sys, c, q, now, i);
    OwnedByRestartedUnlisted(cfg, sys, c, i);
    var u := sys'.slots[i];
    LiveSwept(sys'.phases, c, p.dead + 1, i, u);
    UnlistedSlotChange(cfg, sys, sys', c, q, i);
  }

  /** A buffer whose window does not fit waits, owned by the dead epoch. */
  lemma OverflowSlot(cfg: Config, phases: Phases, i: nat, s: Slot, l: Ledger, c: Component, now: u64)
    requires SlotOk(cfg, phases, i, s, l) && ValidComponent(c)
    requires var p := Ph(phases, c); p.Restarting? && p.cursor <= i && Overflows(cfg, s, c, p.dead)
    ensures var t := ScanRepair(s, c, Ph(phases, c).dead).(acquired := now);
            && s.state == Owned && RepairLedger(s, l, c, Ph(phases, c).dead) == l && SlotOk(cfg, phases, i, t, l)
            && (forall d: Component :: Cleaned(phases, d, i, t))
  {
    ClaimsFit(cfg, phases, i, s, l, c, Ph(phases, c).dead);
  }

  lemma ClaimsFit(cfg: Config, phases: Phases, i: nat, s: Slot, l: Ledger, c: Component, dead: u32)
    requires SlotOk(cfg, phases, i, s, l)
    ensures s.state == Claiming ==> !Overflows(cfg, s, c, dead)
  {
  }

  lemma OverflowVisitKeepsInv(cfg: Config, sys: Sys, sys': Sys, c: Component, now: u64)
    requires Inv(cfg, sys) && ValidComponent(c)
    requires var p := PhaseOf(sys, c);
             && p.Restarting? && AllReconciled(cfg, c, p.reconciled) && p.cursor < |sys.slots| && p.dead + 1 < U32
             && Overflows(cfg, sys.slots[p.cursor], c, p.dead)
             && sys' == AfterRestartVisit(cfg, sys, c, p, now)
    ensures Inv(cfg, sys')
  {
    var p := PhaseOf(sys, c);
    var i := p.cursor;
    assert SlotOk(cfg, sys.phases, i, sys.slots[i], sys.ledgers[i]);
    OverflowSlot(cfg, sys.phases, i, sys.slots[i], sys.ledgers[i], c, now);
    OwnedByRestartedUnlisted(cfg, sys, c, i);
    assert sys'.phases == sys.phases;
    AdvanceRefl(cfg, c, p, i);
    assert PhaseOk(cfg, c, p);
    UnlistedSlotChange(cfg, sys, sys', c, p, i);
  }

  /** The slot and its descriptor after a visit that adopts nothing. */
  lemma PassVisitSlot(cfg: Config, sys: Sys, c: Component, q: Phase, t: Slot, l1: Ledger, i: nat)
    requires Inv(cfg, sys) && i < |sys.slots| && ValidComponent(c)
    requires var p := PhaseOf(sys, c);
             && p.Restarting? && p.cursor == i && q == p.(cursor := i + 1)
             && t == ScanRepair(sys.slots[i], c, p.dead) && !Adoptable(t, c, p.dead) && l1 == RepairLedger(sys.slots[i], sys.ledgers[i], c, p.dead)
    ensures SlotOk(cfg, sys.phases[c := q], i, t, l1)
    ensures DeliveryOk(cfg, sys.phases[c := q], sys.rings, i, t)
    ensures Mends(sys.slots[i], t, c)
  {
    var s, l, dead := sys.slots[i], sys.ledgers[i], q.dead;
    assert SlotOk(cfg, sys.phases, i, s, l) && DeliveryOk(cfg, sys.phases, sys.rings, i, s);
    ScanRepairSlot(cfg, sys.phases, i, s, l, c, dead);
    SlotStableHere(cfg, sys.phases, c, q, i, t, l1);
    ScanDelivery(cfg, sys.phases, sys.rings, i, s, l, c, q, t);
  }

  lemma PassVisitKeepsInv(cfg: Config, sys: Sys, c: Component, now: u64)
    requires Inv(cfg, sys) && Enabled(cfg, sys, RestartVisit(c, now))
    requires var p := PhaseOf(sys, c); !Adoptable(ScanRepair(sys.slots[p.cursor], c, p.dead), c, p.dead)
    ensures Inv(cfg, Apply(cfg, sys, RestartVisit(c, now)))
  {
    var p := PhaseOf(sys, c);
    var i, q := p.cursor, p.(cursor := p.cursor + 1);
    var s, l := sys.slots[i], sys.ledgers[i];
    var t, l1 := ScanRepair(s, c, p.dead), RepairLedger(s, l, c, p.dead);
    var sys' := Apply(cfg, sys, RestartVisit(c, now));
    assert sys' == SetPhase(SetSlot(sys, i, t, l1), c, q);
    PassVisitSlot(cfg, sys, c, q, t, l1, i);
    VisitAdvance(cfg, c, p);
    RepairedEntries(cfg, sys, sys', c, q, i);
    PassSwept(cfg, sys, sys'.phases, c, q, i, t);
    RepairChange(cfg, sys, sys', c, q, i);
  }

  lemma VisitAdvance(cfg: Config, c: Component, p: Phase)
    requires PhaseOk(cfg, c, p) && p.Restarting? && p.cursor < cfg.slotCount
    requires AllReconciled(cfg, c, p.reconciled)
    ensures var q := p.(cursor := p.cursor + 1);
            && Advance(cfg, c, p, q, p.cursor) && PhaseOk(cfg, c, q)
            && forall link :: RingAdvance(cfg, c, p, q, link)
  {
  }

  /** What the scan leaves behind belongs to no dead epoch under restart. */
  lemma PassSwept(cfg: Config, sys: Sys, phases': Phases, c: Component, q: Phase, i: nat, t: Slot)
    requires Inv(cfg, sys) && i < |sys.slots| && PhaseOf(sys, c).Restarting? && q.Restarting?
    requires q.dead == PhaseOf(sys, c).dead && t == ScanRepair(sys.slots[i], c, q.dead)
    requires !Adoptable(t, c, q.dead) && phases' == sys.phases[c := q]
    ensures forall d: Component :: Cleaned(phases', d, i, t)
  {
    assert SlotOk(cfg, sys.phases, i, sys.slots[i], sys.ledgers[i]);
    forall d: Component ensures Cleaned(phases', d, i, t) {
      assert Cleaned(sys.phases, d, i, sys.slots[i]);
    }
  }

  lemma RestartVisitKeepsInv(cfg: Config, sys: Sys, c: Component, now: u64)
    requires Inv(cfg, sys) && Enabled(cfg, sys, RestartVisit(c, now))
    ensures Inv(cfg, Apply(cfg, sys, RestartVisit(c, now)))
  {
    var p := PhaseOf(sys, c);
    if Overflows(cfg, sys.slots[p.cursor], c, p.dead) {
      OverflowVisitKeepsInv(cfg, sys, Apply(cfg, sys, RestartVisit(c, now)), c, now);
    } else if Adoptable(ScanRepair(sys.slots[p.cursor], c, p.dead), c, p.dead) {
      AdoptVisitKeepsInv(cfg, sys, Apply(cfg, sys, RestartVisit(c, now)), c, now);
    } else {
      PassVisitKeepsInv(cfg, sys, c, now);
    }
  }

  /** Once every link is reconciled, no ring lists a buffer of the dead epoch. */
  lemma OwnedByRestartedUnlisted(cfg: Config, sys: Sys, c: Component, i: nat)
    requires Inv(cfg, sys) && i < |sys.slots|
    requires PhaseOf(sys, c).Restarting? && AllReconciled(cfg, c, PhaseOf(sys, c).reconciled)
    requires Adoptable(ScanRepair(sys.slots[i], c, PhaseOf(sys, c).dead), c, PhaseOf(sys, c).dead)
    ensures Unlisted(cfg, sys, i)
  {
    var p := PhaseOf(sys, c);
    assert SlotOk(cfg, sys.phases, i, sys.slots[i], sys.ledgers[i]);
    forall link, k | link in cfg.links && link in sys.rings && 0 <= k < |sys.rings[link]|
      ensures sys.rings[link][k].slot != i
    {
      assert RingOk(cfg, sys.phases, sys.slots, link, sys.rings[link]);
      assert EntryOk(cfg, sys.phases, sys.slots, link, sys.rings[link], k);
      assert Endpoint(cfg, c, link) ==> forall e :: !Unreconciled(p, e, link);
    }
  }
}
