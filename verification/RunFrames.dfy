/**
 How the invariant survives a change to one slot, one ring and one phase:
 the parts that do not depend on which event made the change.
 */
module RunFrames {
  import opened Model
  import opened Protocol
  import opened RunModel
  import opened RunInvariant

  /** Moving `c` from `p` to `q` keeps what slots other than `i` rely on. */
  ghost predicate Advance(cfg: Config, c: Component, p: Phase, q: Phase, i: int) {
    && EpochOf(p) <= EpochOf(q) < U32
    && (forall e :: Past(p, e) ==> Past(q, e))
    && (forall e, j :: 0 <= j < cfg.slotCount && j != i && Owed(p, e, j) ==> Owed(q, e, j))
    && (forall e, link, j ::
          0 <= j < cfg.slotCount && j != i && Endpoint(cfg, c, link) && Unvisited(p, e, link, j) ==>
            Unvisited(q, e, link, j))
    && (q.Restarting? && q.cursor > 0 ==>
          p.Restarting? && p.dead == q.dead &&
          (q.cursor <= p.cursor || (q.cursor == p.cursor + 1 && p.cursor == i)))
  }

  /** Moving `c` from `p` to `q` keeps what a ring of `c` relies on. */
  ghost predicate RingAdvance(cfg: Config, c: Component, p: Phase, q: Phase, link: u64) {
    Endpoint(cfg, c, link) ==> forall e :: Unreconciled(p, e, link) ==> Unreconciled(q, e, link)
  }

  lemma AdvanceRefl(cfg: Config, c: Component, p: Phase, i: int)
    requires EpochOf(p) < U32
    ensures Advance(cfg, c, p, p, i)
    ensures forall link :: RingAdvance(cfg, c, p, p, link)
  {
  }

  /** What one slot relies on, for one runtime and one link. */
  lemma PhaseStable(cfg: Config, phases: Phases, c: Component, q: Phase, i: int, j: nat,
                    d: Component, e: u32, link: u64)
    requires Advance(cfg, c, Ph(phases, c), q, i) && j < cfg.slotCount && j != i
    ensures var p, p' := Ph(phases, d), Ph(phases[c := q], d);
            && EpochOf(p) <= EpochOf(p')
            && (Past(p, e) ==> Past(p', e))
            && (Owed(p, e, j) ==> Owed(p', e, j))
            && (Endpoint(cfg, d, link) && Unvisited(p, e, link, j) ==> Unvisited(p', e, link, j))
  {
  }

  lemma SlotStable(cfg: Config, phases: Phases, c: Component, q: Phase, i: int, j: nat, s: Slot, l: Ledger)
    requires SlotOk(cfg, phases, j, s, l)
    requires Advance(cfg, c, Ph(phases, c), q, i) && j < cfg.slotCount && j != i
    ensures SlotOk(cfg, phases[c := q], j, s, l)
  {
    if s.token.Token? {
      PhaseStable(cfg, phases, c, q, i, j, s.token.component, s.token.epoch, s.linkId);
    }
    match s.state
    case Free =>
    case Owned =>
      PhaseStable(cfg, phases, c, q, i, j, s.owner, s.ownerEpoch, s.linkId);
    case Transfer =>
      PhaseStable(cfg, phases, c, q, i, j, s.owner, s.ownerEpoch, s.linkId);
    case Claiming =>
      PhaseStable(cfg, phases, c, q, i, j, s.sourceId, s.sourceEpoch, s.linkId);
  }

  /** All slots but `i` keep their part of the invariant. */
  lemma SlotsStable(cfg: Config, sys: Sys, sys': Sys, c: Component, q: Phase, i: nat)
    requires Inv(cfg, sys) && i < |sys.slots|
    requires sys'.phases == sys.phases[c := q]
    requires |sys'.slots| == |sys'.ledgers| == |sys.slots|
    requires forall j :: 0 <= j < |sys.slots| && j != i ==>
               sys'.slots[j] == sys.slots[j] && sys'.ledgers[j] == sys.ledgers[j]
    requires Advance(cfg, c, PhaseOf(sys, c), q, i)
    requires SlotOk(cfg, sys'.phases, i, sys'.slots[i], sys'.ledgers[i])
    ensures SlotsOk(cfg, sys')
  {
    forall j | 0 <= j < |sys'.slots|
      ensures SlotOk(cfg, sys'.phases, j, sys'.slots[j], sys'.ledgers[j])
    {
      if j != i {
        SlotStable(cfg, sys.phases, c, q, i, j, sys.slots[j], sys.ledgers[j]);
      }
    }
  }

  lemma SweptStable(cfg: Config, sys: Sys, sys': Sys, c: Component, q: Phase, i: nat)
    requires Inv(cfg, sys) && i < |sys.slots|
    requires sys'.phases == sys.phases[c := q]
    requires |sys'.slots| == |sys.slots|
    requires forall j :: 0 <= j < |sys.slots| && j != i ==> sys'.slots[j] == sys.slots[j]
    requires Advance(cfg, c, PhaseOf(sys, c), q, i)
    requires forall d: Component :: Cleaned(sys'.phases, d, i, sys'.slots[i])
    ensures SweptOk(sys')
  {
    forall d: Component, j | 0 <= j < |sys'.slots|
      ensures Cleaned(sys'.phases, d, j, sys'.slots[j])
    {
      assert j != i ==> Cleaned(sys.phases, d, j, sys.slots[j]);
    }
  }

  /** A ring whose own contents did not change. */
  lemma RingStable(cfg: Config, sys: Sys, sys': Sys, c: Component, q: Phase, i: nat, link: u64)
    requires Inv(cfg, sys) && i < |sys.slots| && link in cfg.links
    requires sys'.phases == sys.phases[c := q]
    requires |sys'.slots| == |sys.slots|
    requires forall j :: 0 <= j < |sys.slots| && j != i ==> sys'.slots[j] == sys.slots[j]
    requires RingAdvance(cfg, c, PhaseOf(sys, c), q, link)
    requires forall k :: 0 <= k < |sys.rings[link]| && sys.rings[link][k].slot == i ==>
               EntryOk(cfg, sys'.phases, sys'.slots, link, sys.rings[link], k)
    ensures RingOk(cfg, sys'.phases, sys'.slots, link, sys.rings[link])
  {
    var r := sys.rings[link];
    assert RingOk(cfg, sys.phases, sys.slots, link, r);
    forall k | 0 <= k < |r|
      ensures EntryOk(cfg, sys'.phases, sys'.slots, link, r, k)
    {
      assert EntryOk(cfg, sys.phases, sys.slots, link, r, k);
      if r[k].slot != i {
        var s := sys.slots[r[k].slot];
        if s.state == Owned && s.owner == c {
          assert Endpoint(cfg, c, link);
        }
      }
    }
  }

  /** `r'` differs from `r` only in what it says about slot `i`. */
  ghost predicate SameOthers(r: seq<Message>, r': seq<Message>, i: nat) {
    && (forall m: Message :: m.slot != i ==> (m in r <==> m in r'))
    && (r != [] && r[0].slot != i ==> r' != [] && r'[0] == r[0])
  }

  /** All slots but `i` keep their descriptor. */
  lemma DeliveriesStable(cfg: Config, sys: Sys, sys': Sys, c: Component, q: Phase, i: nat)
    requires Inv(cfg, sys) && i < |sys.slots|
    requires sys'.phases == sys.phases[c := q]
    requires |sys'.slots| == |sys.slots| && sys'.rings.Keys == sys.rings.Keys
    requires forall j :: 0 <= j < |sys.slots| && j != i ==> sys'.slots[j] == sys.slots[j]
    requires forall link <- sys.rings :: SameOthers(sys.rings[link], sys'.rings[link], i)
    requires Advance(cfg, c, PhaseOf(sys, c), q, i)
    requires DeliveryOk(cfg, sys'.phases, sys'.rings, i, sys'.slots[i])
    ensures DeliveriesOk(cfg, sys')
  {
    forall j | 0 <= j < |sys'.slots|
      ensures DeliveryOk(cfg, sys'.phases, sys'.rings, j, sys'.slots[j])
    {
      if j != i {
        var s := sys.slots[j];
        assert DeliveryOk(cfg, sys.phases, sys.rings, j, s);
        assert SlotOk(cfg, sys.phases, j, s, sys.ledgers[j]);
        if s.state == Transfer {
          assert Endpoint(cfg, s.owner, s.linkId);
          assert SameOthers(sys.rings[s.linkId], sys'.rings[s.linkId], i);
        } else if s.state == Claiming && s.token.kind == Receive {
          assert SameOthers(sys.rings[s.linkId], sys'.rings[s.linkId], i);
        }
      }
    }
  }

  /** Nothing pends for this slot. */
  ghost predicate Unlisted(cfg: Config, sys: Sys, i: nat) {
    forall link, k :: link in cfg.links && link in sys.rings && 0 <= k < |sys.rings[link]| ==>
      sys.rings[link][k].slot != i
  }

  lemma FreeUnlisted(cfg: Config, sys: Sys, i: nat)
    requires Inv(cfg, sys) && i < |sys.slots|
    requires sys.slots[i].state == Free ||
             (sys.slots[i].state == Claiming && sys.slots[i].token.kind != Receive)
    ensures Unlisted(cfg, sys, i)
  {
    forall link, k | link in cfg.links && link in sys.rings && 0 <= k < |sys.rings[link]|
      ensures sys.rings[link][k].slot != i
    {
      assert RingOk(cfg, sys.phases, sys.slots, link, sys.rings[link]);
      assert EntryOk(cfg, sys.phases, sys.slots, link, sys.rings[link], k);
    }
  }

  /** A slot its live owner holds is on no ring and carries no token. */
  lemma HeldUnlisted(cfg: Config, sys: Sys, c: Component, e: u32, i: nat)
    requires Inv(cfg, sys) && Active(cfg, sys, c, e) && Holds(sys, c, e, i)
    ensures Unlisted(cfg, sys, i) && sys.slots[i].token.NoToken? && Fits(sys.slots[i].region, cfg.capacity)
  {
    assert SlotOk(cfg, sys.phases, i, sys.slots[i], sys.ledgers[i]);
    forall link, k | link in cfg.links && link in sys.rings && 0 <= k < |sys.rings[link]|
      ensures sys.rings[link][k].slot != i
    {
      assert RingOk(cfg, sys.phases, sys.slots, link, sys.rings[link]);
      assert EntryOk(cfg, sys.phases, sys.slots, link, sys.rings[link], k);
    }
  }

  /** An event that touches one unlisted slot, no ring, and the phase of `c`. */
  lemma UnlistedSlotChange(cfg: Config, sys: Sys, sys': Sys, c: Component, q: Phase, i: nat)
    requires Inv(cfg, sys) && i < |sys.slots|
    requires sys'.phases == sys.phases[c := q] && sys'.rings == sys.rings
    requires |sys'.slots| == |sys'.ledgers| == |sys.slots|
    requires forall j :: 0 <= j < |sys.slots| && j != i ==>
               sys'.slots[j] == sys.slots[j] && sys'.ledgers[j] == sys.ledgers[j]
    requires Advance(cfg, c, PhaseOf(sys, c), q, i) && PhaseOk(cfg, c, q)
    requires forall link :: RingAdvance(cfg, c, PhaseOf(sys, c), q, link)
    requires SlotOk(cfg, sys'.phases, i, sys'.slots[i], sys'.ledgers[i])
    requires DeliveryOk(cfg, sys'.phases, sys'.rings, i, sys'.slots[i])
    requires forall d: Component :: Cleaned(sys'.phases, d, i, sys'.slots[i])
    requires Unlisted(cfg, sys, i)
    ensures Inv(cfg, sys')
  {
    SlotsStable(cfg, sys, sys', c, q, i);
    SweptStable(cfg, sys, sys', c, q, i);
    DeliveriesStable(cfg, sys, sys', c, q, i);
    forall link <- cfg.links
      ensures link in sys'.rings && RingOk(cfg, sys'.phases, sys'.slots, link, sys'.rings[link])
    {
      RingStable(cfg, sys, sys', c, q, i, link);
    }
  }

  /** An event that changes one slot and one ring. */
  lemma SlotAndRingChange(cfg: Config, sys: Sys, sys': Sys, c: Component, q: Phase, i: nat, link: u64)
    requires Inv(cfg, sys) && i < |sys.slots| && link in cfg.links
    requires sys'.phases == sys.phases[c := q]
    requires sys'.rings.Keys == sys.rings.Keys
    requires forall l :: l in sys.rings && l != link ==> sys'.rings[l] == sys.rings[l]
    requires |sys'.slots| == |sys'.ledgers| == |sys.slots|
    requires forall j :: 0 <= j < |sys.slots| && j != i ==>
               sys'.slots[j] == sys.slots[j] && sys'.ledgers[j] == sys.ledgers[j]
    requires Advance(cfg, c, PhaseOf(sys, c), q, i) && PhaseOk(cfg, c, q)
    requires forall l :: l != link ==> RingAdvance(cfg, c, PhaseOf(sys, c), q, l)
    requires SlotOk(cfg, sys'.phases, i, sys'.slots[i], sys'.ledgers[i])
    requires DeliveryOk(cfg, sys'.phases, sys'.rings, i, sys'.slots[i])
    requires forall d: Component :: Cleaned(sys'.phases, d, i, sys'.slots[i])
    requires SameOthers(sys.rings[link], sys'.rings[link], i)
    requires RingOk(cfg, sys'.phases, sys'.slots, link, sys'.rings[link])
    requires forall l, k | l in cfg.links && l != link && l in sys.rings && 0 <= k < |sys.rings[l]| ::
               sys.rings[l][k].slot == i ==> EntryOk(cfg, sys'.phases, sys'.slots, l, sys.rings[l], k)
    ensures Inv(cfg, sys')
  {
    SlotsStable(cfg, sys, sys', c, q, i);
    SweptStable(cfg, sys, sys', c, q, i);
    DeliveriesStable(cfg, sys, sys', c, q, i);
    forall l <- cfg.links
      ensures l in sys'.rings && RingOk(cfg, sys'.phases, sys'.slots, l, sys'.rings[l])
    {
      if l != link {
        RingStable(cfg, sys, sys', c, q, i, l);
      }
    }
  }

  /** An event that changes the phase of one component and nothing else. */
  lemma PhaseChange(cfg: Config, sys: Sys, sys': Sys, c: Component, q: Phase)
    requires Inv(cfg, sys)
    requires sys'.phases == sys.phases[c := q] && sys'.rings == sys.rings
    requires sys'.slots == sys.slots && sys'.ledgers == sys.ledgers
    requires Advance(cfg, c, PhaseOf(sys, c), q, -1) && PhaseOk(cfg, c, q)
    requires forall link <- cfg.links ::
               RingAdvance(cfg, c, PhaseOf(sys, c), q, link) ||
               RingOk(cfg, sys'.phases, sys.slots, link, sys.rings[link])
    ensures Inv(cfg, sys')
  {
    forall j | 0 <= j < |sys'.slots|
      ensures SlotOk(cfg, sys'.phases, j, sys'.slots[j], sys'.ledgers[j])
      ensures DeliveryOk(cfg, sys'.phases, sys'.rings, j, sys'.slots[j])
    {
      var s := sys.slots[j];
      assert SlotOk(cfg, sys.phases, j, s, sys.ledgers[j]);
      assert DeliveryOk(cfg, sys.phases, sys.rings, j, s);
      SlotStable(cfg, sys.phases, c, q, -1, j, s, sys.ledgers[j]);
      if s.state == Transfer {
        assert Endpoint(cfg, s.owner, s.linkId);
      }
    }
    forall d: Component, j | 0 <= j < |sys'.slots|
      ensures Cleaned(sys'.phases, d, j, sys'.slots[j])
    {
      assert Cleaned(sys.phases, d, j, sys.slots[j]);
    }
    forall link <- cfg.links
      ensures link in sys'.rings && RingOk(cfg, sys'.phases, sys'.slots, link, sys'.rings[link])
    {
      if RingAdvance(cfg, c, PhaseOf(sys, c), q, link) {
        var r := sys.rings[link];
        assert RingOk(cfg, sys.phases, sys.slots, link, r);
        forall k | 0 <= k < |r|
          ensures EntryOk(cfg, sys'.phases, sys'.slots, link, r, k)
        {
          assert EntryOk(cfg, sys.phases, sys.slots, link, r, k);
          var s := sys.slots[r[k].slot];
          if s.state == Owned && s.owner == c {
            assert Endpoint(cfg, c, link);
          }
        }
      }
    }
  }
}
