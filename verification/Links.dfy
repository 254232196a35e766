/**
 The calls on a link: a pool and a descriptor ring between two components.
 */
module Links {
  import opened Model
  import opened Protocol
  import opened CallSpecs
  import opened RecoverySpecs
  import opened Lifecycle
  import opened SlotPool
  import opened Ring
  import opened Restart

  datatype Role = Unspecified | Producer | Consumer

  /** The descriptor announces the slot as it is now, and the slot can be claimed. */
  predicate Announces(m: Message, slots: seq<Slot>) {
    m.slot < |slots| && ReceiveMayStart(slots[m.slot]) &&
    slots[m.slot].generation == m.generation && slots[m.slot].sequence == m.sequence
  }

  /** The same table, but for tokens that senders had left behind. */
  predicate SameButTokens(slots: seq<Slot>, after: seq<Slot>) {
    && |after| == |slots|
    && forall i :: 0 <= i < |slots| ==>
         after[i] == slots[i] || (ReceiveMayStart(slots[i]) && after[i] == slots[i].(token := NoToken))
  }

  /** The ring after a producer link has published its transfers among the
      slots below `n` again. */
  function Republished(q: seq<Message>, slots: seq<Slot>, n: nat, c: Component, dead: u32, remote: Component,
                       link: u64, poolId: u32): seq<Message>
    requires n <= |slots|
  {
    if n == 0 then q
    else
      var r := Republished(q, slots, n - 1, c, dead, remote, link, poolId);
      var s := ReconcileProducerSlot(slots[n - 1], c, dead);
      if Republishes(s, c, dead, remote, link) then Pushed(r, Descriptor(s, n - 1, poolId)) else r
  }

  /** Nothing pending is lost or repeated, every transfer of the dead runtime on
      this link is pending, and nothing else was added. */
  lemma {:induction false} RepublishedExactly(q: seq<Message>, slots: seq<Slot>, n: nat, c: Component, dead: u32,
                                              remote: Component, link: u64, poolId: u32)
    requires n <= |slots|
    ensures var r := Republished(q, slots, n, c, dead, remote, link, poolId);
            && q <= r && (NoDuplicates(q) ==> NoDuplicates(r))
            && (forall i :: 0 <= i < n && Republishes(slots[i], c, dead, remote, link) ==>
                  Descriptor(slots[i], i, poolId) in r)
            && (forall m :: m in r && m !in q ==>
                  m.slot < n && Republishes(slots[m.slot], c, dead, remote, link) &&
                  m == Descriptor(slots[m.slot], m.slot, poolId))
  {
    if n > 0 {
      RepublishedExactly(q, slots, n - 1, c, dead, remote, link, poolId);
      var s := ReconcileProducerSlot(slots[n - 1], c, dead);
      assert Republishes(s, c, dead, remote, link) <==> Republishes(slots[n - 1], c, dead, remote, link);
      assert Republishes(s, c, dead, remote, link) ==>
               Descriptor(s, n - 1, poolId) == Descriptor(slots[n - 1], n - 1, poolId);
    }
  }

  /** The slots below `stop` reconciled for a consumer or for a producer link. */
  ghost predicate Reconciled(slots: seq<Slot>, after: seq<Slot>, stop: nat, c: Component, dead: u32, role: Role) {
    && |after| == |slots| && stop <= |slots|
    && (forall i :: 0 <= i < stop ==>
          after[i] == if role == Consumer then ReconcileConsumerSlot(slots[i], c, dead)
                      else ReconcileProducerSlot(slots[i], c, dead))
    && (forall i :: stop <= i < |slots| ==> after[i] == slots[i])
  }

  /** How many of the slots below `n` a producer link publishes again. */
  function RepublishCount(slots: seq<Slot>, n: nat, c: Component, dead: u32, remote: Component, link: u64): nat
    requires n <= |slots|
  {
    if n == 0 then 0
    else RepublishCount(slots, n - 1, c, dead, remote, link) +
         (if Republishes(ReconcileProducerSlot(slots[n - 1], c, dead), c, dead, remote, link) then 1 else 0)
  }

  lemma ReconciledStep(slots: seq<Slot>, mid: seq<Slot>, after: seq<Slot>, i: nat, c: Component, dead: u32, role: Role)
    requires Reconciled(slots, mid, i, c, dead, role) && i < |slots|
    requires Only(mid, after, i, if role == Consumer then ReconcileConsumerSlot(mid[i], c, dead)
                                 else ReconcileProducerSlot(mid[i], c, dead))
    ensures Reconciled(slots, after, i + 1, c, dead, role)
  {
    assert mid[i] == slots[i];
  }

  /** How one turn of the receive loop ends. */
  datatype Turn = Killed | Empty | Retry | Answer

  predicate Retried(status: Status) {
    status == InvalidState || status == StaleHandle || status == SequenceMismatch
  }

  /** A claim that is tried again on the next descriptor had none to announce. */
  lemma RetriedChangesTokens(slots: seq<Slot>, table: seq<Slot>, after: seq<Slot>, m: Message,
                             c: Component, e: u32, now: u64, capacity: u32, protects: bool)
    requires SameButTokens(slots, table) && m.slot < |table|
    requires Only(table, after, m.slot, ClaimSlot(table[m.slot], ALL, m, c, e, now, capacity, protects))
    requires Retried(ClaimStatus(table[m.slot], m, c, now, capacity, protects))
    ensures SameButTokens(slots, after) && !Announces(m, slots)
  {
    var s := table[m.slot];
    var u := ClaimSlot(s, ALL, m, c, e, now, capacity, protects);
    assert u == s || (ReceiveMayStart(s) && u == s.(token := NoToken));
  }

  class Link {
    const pool: Pool
    const ring: DescriptorRing
    const local: Component
    const remote: Component
    const id: u64
    const epoch: u32
    const role: Role
    const hopLimit: u32
    const duration: u64   // the relative deadline of buffers allocated on the link

    constructor (pool: Pool, ring: DescriptorRing, local: Component, remote: Component, id: u64, epoch: u32, role: Role,
                 hopLimit: u32, duration: u64)
      requires pool.Valid() && ring.Valid() && ValidComponent(local) && ValidComponent(remote)
      requires epoch == 0 || EpochCurrent(pool.components[local], epoch)
      ensures Valid() && this.pool == pool && this.ring == ring && this.local == local && this.remote == remote
      ensures this.duration == duration && this.hopLimit == if hopLimit != 0 then hopLimit else 0xFFFF_FFFF
      ensures this.id == id && this.role == role && this.epoch == if epoch != 0 then epoch else pool.Epoch(local)
    {
      this.pool, this.ring, this.local, this.remote, this.id, this.role := pool, ring, local, remote, id, role;
      this.epoch := if epoch != 0 then epoch else pool.Epoch(local);
      this.hopLimit, this.duration := EffectiveHopLimit(hopLimit), duration;
    }

    ghost predicate Valid()
      reads this, pool, ring, ring.entries
    {
      pool.Valid() && ring.Valid() && ValidComponent(local) && ValidComponent(remote)
    }

    /** The runtime the link was opened for is no longer the registered one. */
    predicate Stale()
      requires pool.Valid() && ValidComponent(local)
      reads this, pool, pool.components
    {
      epoch != 0 && !EpochCurrent(pool.components[local], epoch)
    }

    // -------------------------------------------------------------- allocate

    /** Why an allocation with this room is refused before it looks at a slot. */
    function RoomRefusal(size: u64, headroom: u64, tailroom: u64): Status
      requires pool.Valid() && ValidComponent(local)
      reads this, pool, pool.components
    {
      if size >= U32 || headroom >= U32 || tailroom >= U32 then InvalidArgument
      else if Stale() then ComponentStale
      else if headroom + size + tailroom > pool.capacity then RegionOverflow
      else Ok
    }

    /** The arguments of an allocation on this link. */
    function ArgsFor(size: u64, headroom: u64, above: u64, now: u64, number: u64): AllocateArgs
      requires size < U32 && headroom < U32
    {
      AllocateArgs(local, epoch, above, Region(headroom, size), hopLimit, now, duration, number)
    }

    /**
     Allocates a buffer with room before and after its data; a parent must be a
     view that stands. A call that is not refused at the start does to the table
     what the pool's allocation does, wherever it is killed.
     */
    method AllocateOnLink(size: u64, headroom: u64, tailroom: u64, parent: View, now: u64, number: u64,
                          drawn: bool, protects: bool, life: nat)
      returns (alive: bool, status: Status, view: View)
      requires Valid()
      modifies pool.controls, pool`cursor, pool`allocations
      ensures Valid()
      ensures var refusal := old(RoomRefusal(size, headroom, tailroom));
              refusal != Ok || (parent.View? && !old(pool.Owns(parent))) ==>
                alive && status == (if refusal != Ok then refusal else InvalidBuffer) && view == NoView &&
                pool.controls[..] == old(pool.controls[..])
      ensures old(RoomRefusal(size, headroom, tailroom)) == Ok && (parent.View? ==> old(pool.Owns(parent))) ==>
                && size < U32 && headroom < U32
                && var args := ArgsFor(size, headroom, if parent.View? then old(pool.controls[parent.slot]).id else 0, now, number);
                if pool.AllocationAllowed(args) then
                  Allocated(old(pool.controls[..]), pool.controls[..], old(pool.cursor), pool.Stamped(args), drawn, protects,
                            life, alive, status, view)
                else alive && status == InvalidArgument && view == NoView && pool.controls[..] == old(pool.controls[..])
      ensures alive && status == Ok ==>
                && view.View? && view.slot < pool.controls.Length && Takeable(old(pool.controls[..])[view.slot])
                && view.owner == local
                && var t := pool.controls[view.slot];
                && t.region == Region(headroom, size) && headroom + size + tailroom <= pool.capacity
                && t.state == Owned && t.generation == view.generation
                && t.hopLimit == (if hopLimit != 0 then hopLimit else 0xFFFF_FFFF)
                && t.deadline == (if duration == 0 || now + duration >= DEADLINE_NONE then DEADLINE_NONE else now + duration)
                && t.hopCount == 1 && t.visited == {local} && t.token.NoToken? && t.nextOwner == NO_COMPONENT
                && t.parent == (if parent.View? then old(pool.controls[..])[parent.slot].id else 0)
                && (epoch != 0 ==> view.epoch == epoch && pool.Owns(view))
      ensures alive && status != Ok ==> view == NoView
    {
      view := NoView;
      var refusal := RoomRefusal(size, headroom, tailroom);
      if refusal != Ok {
        return true, refusal, NoView;
      }
      if parent.View? && !pool.Owns(parent) {
        return true, InvalidBuffer, NoView;
      }
      var above: u64 := 0;
      if parent.View? {
        above := pool.controls[parent.slot].id;
      }
      alive, status, view := pool.AllocateBuffer(ArgsFor(size, headroom, above, now, number), drawn, protects, life);
    }

    // ------------------------------------------------------------------ send

    /** What a send tests before it touches anything. */
    predicate SendAllowed(v: View)
      requires pool.Valid() && ValidComponent(local)
      reads this, pool, pool.controls, pool.components
    {
      pool.Owns(v) && !Stale() && v.epoch == epoch && v.owner == local
    }

    /**
     A send that is killed leaves a prefix of its writes. One that answers has
     published the slot and its descriptor, or was refused before it published,
     or found the ring full and took the transfer back. `notifies` says whether
     the wake-up reached the receiver.
     */
    method SendBuffer(v: View, now: u64, protects: bool, notifies: bool, reopens: bool, life: nat)
      returns (alive: bool, status: Status, after: View)
      requires Valid() && Seamless(ring.depth, ring.pushed + 1)
      modifies pool.controls, ring`producer, ring`pushed, ring.entries
      ensures Valid()
      ensures !old(SendAllowed(v)) ==>
                alive && after == v && pool.controls[..] == old(pool.controls[..]) && ring.Pending() == old(ring.Pending()) &&
                status == if !old(pool.Owns(v)) then InvalidBuffer
                          else if old(Stale()) || v.epoch != epoch then ComponentStale else NotOwner
      ensures old(SendAllowed(v)) ==>
                var s, q, full := old(pool.controls[v.slot]), old(ring.Pending()), |old(ring.Pending())| == ring.depth;
                var p := PrepareStatus(s, v.generation, local, epoch, now, protects);
                var m := Descriptor(SendPrefix(s, SEND_STEPS, remote, id), v.slot, pool.id);
                && Only(old(pool.controls[..]), pool.controls[..], v.slot,
                        SendSlot(s, life, v.generation, local, epoch, remote, id, now, protects, full, reopens, v.slot, pool.id))
                && ring.Pending() == (if p == Ok && !full && life > SEND_STEPS then Pushed(q, m) else q)
                && (life >= SEND_STEPS + ROLLBACK_STEPS ==> alive)
                && (alive ==>
                      if p != Ok then status == p && after == v
                      else if !full then life > SEND_STEPS && after == NoView && status == if notifies then Ok else TransportPublished
                      else if reopens then life >= SEND_STEPS + ROLLBACK_STEPS && status == Transport && after == v
                      else status == Platform && after == NoView)
    {
      if !pool.Owns(v) {
        return true, InvalidBuffer, v;
      }
      if Stale() || v.epoch != epoch {
        return true, ComponentStale, v;
      }
      if v.owner != local {
        return true, NotOwner, v;
      }
      var message;
      alive, status, message := pool.PrepareTransfer(v.slot, v.generation, local, remote, id, now, protects, life);
      if !alive || status != Ok {
        return alive, status, v;
      }
      ghost var t := pool.controls[v.slot];
      if life == SEND_STEPS && !ring.IsFull() {
        return false, Ok, v;
      }
      status := ring.Push(message);
      if status == Ok {
        return true, if notifies then Ok else TransportPublished, NoView;
      }
      var back;
      alive, back := pool.RollbackTransfer(v.slot, local, epoch, remote, message, reopens, life - SEND_STEPS);
      if back != Ok {
        return alive, back, NoView;
      }
      return alive, status, v;
    }

    // --------------------------------------------------------------- receive

    /** The slot table after a claim of descriptor `m` that made `k` writes. */
    ghost predicate Claimed(slots: seq<Slot>, after: seq<Slot>, m: Message, k: nat, e: u32, now: u64, protects: bool)
      reads this, pool
    {
      if m.poolId != pool.id || m.destination != local || m.slot >= |slots| then after == slots
      else Only(slots, after, m.slot, ClaimSlot(slots[m.slot], k, m, local, e, now, pool.capacity, protects))
    }

    /** The writes of the claim of descriptor `m`, its commit not included. */
    function StepsOf(m: Message, now: u64, protects: bool): nat
      reads this, pool, pool.controls
    {
      if m.poolId == pool.id && m.destination == local && m.slot < pool.controls.Length
      then ClaimSteps(pool.controls[m.slot], m, local, now, pool.capacity, protects) else 0
    }

    /** Whether descriptor `m` gets as far as the claim of its slot. */
    predicate Reaches(m: Message)
      reads this, pool
    {
      m.source == remote && m.poolId == pool.id && m.destination == local && m.slot < pool.controls.Length
    }

    /** One turn: peek, claim, commit. The commit is the last write. */
    method ReceiveTurn(now: u64, protects: bool, life: nat)
      returns (turn: Turn, status: Status, view: View, left: nat)
      requires Valid()
      modifies pool.controls, ring`consumer, ring`taken
      ensures Valid()
      ensures turn == Empty <==> old(ring.Pending()) == []
      ensures turn == Empty ==> ring.Pending() == [] && pool.controls[..] == old(pool.controls[..])
      ensures turn != Empty ==>
                var m, e := old(ring.Pending())[0], pool.Epoch(local);
                var table, after := old(pool.controls[..]), pool.controls[..];
                && (turn == Killed ==>
                      ring.Pending() == old(ring.Pending()) &&
                      if m.source != remote then after == table else Claimed(table, after, m, life, e, now, protects))
                && (turn != Killed ==>
                      && ring.Pending() == old(ring.Pending())[1..]
                      && (m.source != remote ==> status == InvalidReceiver && after == table)
                      && (m.source == remote ==> Claimed(table, after, m, ALL, e, now, protects))
                      && (Reaches(m) ==> status == ClaimStatus(table[m.slot], m, local, now, pool.capacity, protects))
                      && (!Reaches(m) ==> !Retried(status) && status != Ok)
                      && (turn == Retry <==> Retried(status))
                      && (status == Ok ==> view == View(m.slot, m.generation, local, e) && pool.Owns(view)))
      ensures status != Ok ==> view == NoView
    {
      ghost var table := pool.controls[..];
      var m, position;
      view, left := NoView, life;
      status, m, position := ring.Peek();
      if status != Ok {
        return Empty, Timeout, NoView, life;
      }
      if m.source != remote {
        if life < 1 {
          return Killed, Timeout, NoView, 0;
        }
        var _ := ring.Commit(position);
        return Answer, InvalidReceiver, NoView, life - 1;
      }
      var steps, alive := StepsOf(m, now, protects), false;
      alive, status, view := pool.ClaimTransfer(m, local, now, protects, life);
      if !alive || life <= steps {
        return Killed, Timeout, NoView, 0;
      }
      if Reaches(m) {
        CompleteClaim(table[m.slot], life, m, local, pool.Epoch(local), now, pool.capacity, protects);
      }
      var _ := ring.Commit(position);
      return if Retried(status) then Retry else Answer, status, view, life - steps - 1;
    }

    /**
     Receives the first descriptor that announces its slot. Every descriptor
     dropped before it does not, and every slot touched before it only loses a
     token its sender left behind. A descriptor stays pending until the claim it
     leads to has been published or refused. `skipped` descriptors are dropped
     before the last one, which finds the table as `table`.
     */
    method ReceiveBuffer(now: u64, protects: bool, life: nat)
      returns (alive: bool, status: Status, view: View, ghost skipped: nat, ghost table: seq<Slot>, ghost writes: nat)
      requires Valid()
      modifies pool.controls, ring`consumer, ring`taken
      ensures Valid()
      ensures old(Stale()) ==>
                alive && status == ComponentStale && pool.controls[..] == old(pool.controls[..]) &&
                ring.Pending() == old(ring.Pending())
      ensures !old(Stale()) ==>
                var q, e := old(ring.Pending()), pool.Epoch(local);
                && skipped <= |q| && (forall j :: 0 <= j < skipped ==> !Announces(q[j], old(pool.controls[..])))
                && SameButTokens(old(pool.controls[..]), table)
                && (skipped == |q| ==>
                      alive && status == Timeout && pool.controls[..] == table && ring.Pending() == [])
                && (skipped < |q| && !alive ==>
                      ring.Pending() == q[skipped..] &&
                      if q[skipped].source != remote then pool.controls[..] == table
                      else Claimed(table, pool.controls[..], q[skipped], writes, e, now, protects))
                && (skipped < |q| && alive ==>
                      var m := q[skipped];
                      && ring.Pending() == q[skipped + 1..] && !Retried(status)
                      && (m.source != remote ==> status == InvalidReceiver && pool.controls[..] == table)
                      && (m.source == remote ==> Claimed(table, pool.controls[..], m, ALL, e, now, protects))
                      && (Reaches(m) ==> status == ClaimStatus(table[m.slot], m, local, now, pool.capacity, protects))
                      && (status == Ok ==>
                            && Reaches(m) && Announces(m, table) && Announces(m, old(pool.controls[..]))
                            && view == View(m.slot, m.generation, local, e) && pool.Owns(view)))
      ensures alive && status != Ok ==> view == NoView
    {
      skipped, table, writes, view := 0, pool.controls[..], 0, NoView;
      if Stale() {
        return true, ComponentStale, NoView, 0, table, 0;
      }
      ghost var slots, q := pool.controls[..], ring.Pending();
      var left := life;
      while true
        invariant Valid() && skipped <= |q| && ring.Pending() == q[skipped..]
        invariant forall j :: 0 <= j < skipped ==> !Announces(q[j], slots)
        invariant SameButTokens(slots, pool.controls[..])
        decreases |q| - skipped
      {
        table, writes := pool.controls[..], left;
        var turn;
        turn, status, view, left := ReceiveTurn(now, protects, left);
        match turn
        case Killed => return false, status, view, skipped, table, writes;
        case Empty => return true, Timeout, NoView, skipped, table, writes;
        case Answer => return true, status, view, skipped, table, writes;
        case Retry =>
          RetriedChangesTokens(slots, table, pool.controls[..], q[skipped], local, pool.Epoch(local), now,
                               pool.capacity, protects);
          skipped := skipped + 1;
      }
    }

    // ------------------------------------------------------------- reconcile

    /** Undoes a receive the dead runtime had begun on slot `i`. */
    method ReconcileConsumerVisit(i: nat, dead: u32, fault: bool) returns (blocked: bool)
      requires Valid() && i < pool.controls.Length
      modifies pool.controls
      ensures var s := old(pool.controls[i]);
              && blocked == (fault && s.state == Claiming && TokenOf(s.token, local, dead) && s.token.kind == Receive)
              && Only(old(pool.controls[..]), pool.controls[..], i,
                      if blocked then s else ReconcileConsumerSlot(s, local, dead))
    {
      var controls := pool.controls;
      var state, token := controls[i].state, controls[i].token;
      if !TokenOf(token, local, dead) || token.kind != Receive {
        return false;
      }
      if state == Transfer {
        controls[i] := controls[i].(token := NoToken);
        return false;
      }
      if state != Claiming {
        return false;
      }
      controls[i] := controls[i].(state := Error);
      if fault {
        controls[i] := controls[i].(state := Claiming);
        return true;
      }
      controls[i] := controls[i].(owner := controls[i].sourceId);
      controls[i] := controls[i].(nextOwner := local);
      controls[i] := controls[i].(ownerEpoch := controls[i].sourceEpoch);
      controls[i] := controls[i].(hopCount := controls[i].sourceHops);
      controls[i] := controls[i].(acquired := controls[i].sourceAcquired);
      controls[i] := controls[i].(visited := controls[i].sourceVisited);
      controls[i] := controls[i].(token := NoToken);
      controls[i] := controls[i].(state := Transfer);
      return false;
    }

    /** Drops descriptors up to the first that points at a transfer of its generation. */
    method Drain() returns (ghost dropped: nat)
      requires Valid()
      modifies ring`consumer, ring`taken
      ensures Valid() && dropped <= |old(ring.Pending())| && ring.Pending() == old(ring.Pending())[dropped..]
      ensures forall j :: 0 <= j < dropped ==> !LooksCurrent(pool.controls[..], old(ring.Pending())[j])
      ensures ring.Pending() == [] || LooksCurrent(pool.controls[..], ring.Pending()[0])
    {
      dropped := 0;
      ghost var q := ring.Pending();
      while true
        invariant Valid() && dropped <= |q| && ring.Pending() == q[dropped..]
        invariant forall j :: 0 <= j < dropped ==> !LooksCurrent(pool.controls[..], q[j])
        decreases |q| - dropped
      {
        var status, m, position := ring.Peek();
        if status != Ok {
          break;
        }
        if m.slot < pool.controls.Length && pool.controls[m.slot].state == Transfer &&
           pool.controls[m.slot].generation == m.generation {
          break;
        }
        var _ := ring.Commit(position);
        dropped := dropped + 1;
      }
    }

    /** A consumer link: every begun receive undone, then the stale head dropped. */
    method ReconcileConsumer(dead: u32, faulty: set<nat>) returns (status: Status, ghost stop: nat, ghost dropped: nat)
      requires Valid()
      modifies pool.controls, ring`consumer, ring`taken
      ensures Valid() && Reconciled(old(pool.controls[..]), pool.controls[..], stop, local, dead, Consumer)
      ensures status == (if stop == pool.controls.Length then Ok else Platform)
      ensures stop < pool.controls.Length ==> stop in faulty && pool.controls[stop].state == Claiming && dropped == 0
      ensures dropped <= |old(ring.Pending())| && ring.Pending() == old(ring.Pending())[dropped..]
      ensures forall j :: 0 <= j < dropped ==> !LooksCurrent(pool.controls[..], old(ring.Pending())[j])
      ensures status == Ok ==> ring.Pending() == [] || LooksCurrent(pool.controls[..], ring.Pending()[0])
    {
      ghost var slots := pool.controls[..];
      dropped, stop := 0, 0;
      var i := 0;
      while i < pool.controls.Length
        invariant 0 <= i <= pool.controls.Length && Valid() && ring.Pending() == old(ring.Pending())
        invariant Reconciled(slots, pool.controls[..], i, local, dead, Consumer)
      {
        ghost var mid := pool.controls[..];
        var blocked := ReconcileConsumerVisit(i, dead, i in faulty);
        if blocked {
          assert pool.controls[..] == mid;
          return Platform, i, 0;
        }
        ReconciledStep(slots, mid, pool.controls[..], i, local, dead, Consumer);
        i := i + 1;
      }
      dropped := Drain();
      return Ok, i, dropped;
    }

    /** Undoes a send or rollback the dead runtime had begun on slot `i`, or
        publishes its transfer on this link again. */
    method ReconcileProducerVisit(i: nat, dead: u32) returns (status: Status, again: bool)
      requires Valid() && i < pool.controls.Length && Seamless(ring.depth, ring.pushed + 1)
      modifies pool.controls, ring`producer, ring`pushed, ring.entries
      ensures Valid() && ring.pushed <= old(ring.pushed) + 1
      ensures var s := ReconcileProducerSlot(old(pool.controls[i]), local, dead);
              var q := old(ring.Pending());
              && Only(old(pool.controls[..]), pool.controls[..], i, s)
              && again == (Republishes(s, local, dead, remote, id) && |q| < ring.depth)
              && status == (if Republishes(s, local, dead, remote, id) && |q| == ring.depth then Transport else Ok)
              && ring.Pending() == if again then Pushed(q, Descriptor(s, i, pool.id)) else q
    {
      var controls := pool.controls;
      var state, token := controls[i].state, controls[i].token;
      if state == Claiming {
        if TokenOf(token, local, dead) && (token.kind == Send || token.kind == Rollback) {
          controls[i] := controls[i].(state := Error);
          controls[i] := controls[i].(sequence := controls[i].prevSequence);
          controls[i] := controls[i].(nextOwner := NO_COMPONENT);
          controls[i] := controls[i].(token := NoToken);
          controls[i] := controls[i].(state := Owned);
        }
        return Ok, false;
      }
      if state != Transfer {
        return Ok, false;
      }
      if TokenOf(token, local, dead) && token.kind == Rollback {
        controls[i] := controls[i].(token := NoToken);
      }
      controls[i] := controls[i].(state := Error);
      if controls[i].owner != local || controls[i].ownerEpoch != dead || controls[i].nextOwner != remote ||
         controls[i].linkId != id {
        controls[i] := controls[i].(state := Transfer);
        return Ok, false;
      }
      var m := Message(i, controls[i].generation, pool.id, local, remote, controls[i].sequence);
      controls[i] := controls[i].(state := Transfer);
      status := ring.Push(m);
      again := status == Ok;
    }

    /** A producer link: every begun send undone, every transfer pending again. */
    method ReconcileProducer(dead: u32) returns (status: Status, recovered: nat, ghost stop: nat)
      requires Valid() && Seamless(ring.depth, ring.pushed + pool.controls.Length)
      modifies pool.controls, ring`producer, ring`pushed, ring.entries
      ensures Valid() && stop <= pool.controls.Length
      ensures status == (if stop == pool.controls.Length then Ok else Transport)
      ensures Reconciled(old(pool.controls[..]), pool.controls[..],
                         if stop == pool.controls.Length then stop else stop + 1, local, dead, Producer)
      ensures ring.Pending() == Republished(old(ring.Pending()), old(pool.controls[..]), stop, local, dead, remote, id, pool.id)
      ensures recovered == RepublishCount(old(pool.controls[..]), stop, local, dead, remote, id)
      ensures stop < pool.controls.Length ==>
                |ring.Pending()| == ring.depth && Republishes(pool.controls[stop], local, dead, remote, id)
    {
      ghost var slots, q := pool.controls[..], ring.Pending();
      stop, recovered := 0, 0;
      var i := 0;
      while i < pool.controls.Length
        invariant 0 <= i <= pool.controls.Length && Valid() && ring.pushed <= old(ring.pushed) + i
        invariant Reconciled(slots, pool.controls[..], i, local, dead, Producer)
        invariant ring.Pending() == Republished(q, slots, i, local, dead, remote, id, pool.id)
        invariant recovered == RepublishCount(slots, i, local, dead, remote, id)
      {
        SeamlessBelow(ring.depth, ring.pushed + 1, old(ring.pushed) + pool.controls.Length);
        ghost var mid := pool.controls[..];
        var again;
        status, again := ReconcileProducerVisit(i, dead);
        ReconciledStep(slots, mid, pool.controls[..], i, local, dead, Producer);
        if status != Ok {
          return status, recovered, i;
        }
        if again {
          recovered := recovered + 1;
        }
        i := i + 1;
      }
      return Ok, recovered, i;
    }

    /** Link and restart belong to the same pool, component and recovering epoch. */
    predicate ReconcileAllowed(scan: RestartScan)
      requires pool.Valid() && ValidComponent(local)
      reads this, pool, pool.components
    {
      scan.pool == pool && scan.component == local && epoch == scan.dead + 1 && id != 0 &&
      EpochRecovering(pool.components[local], epoch) && role != Unspecified
    }

    /**
     Reconciliation of one link of a restarting component. It is refused, and
     changes nothing, unless link and restart belong together. The slots below
     `stop` are reconciled, and only they, but for the one whose transfer found
     the ring full; a consumer link then drops `dropped` descriptors.
     */
    method Reconcile(scan: RestartScan, faulty: set<nat>)
      returns (status: Status, recovered: nat, ghost stop: nat, ghost dropped: nat)
      requires Valid() && scan.Valid() && Seamless(ring.depth, ring.pushed + pool.controls.Length)
      modifies pool.controls, ring, ring.entries
      ensures Valid()
      ensures status == InvalidArgument <==>
                || scan.pool != pool || scan.component != local || epoch != scan.dead + 1 || id == 0
                || pool.components[local] != Word(epoch, Recovering) || !(role == Producer || role == Consumer)
      ensures !old(ReconcileAllowed(scan)) ==>
                status == InvalidArgument && recovered == 0 && pool.controls[..] == old(pool.controls[..]) &&
                ring.Pending() == old(ring.Pending())
      ensures old(ReconcileAllowed(scan)) ==>
                && stop <= pool.controls.Length
                && status == (if stop == pool.controls.Length then Ok else if role == Consumer then Platform else Transport)
      ensures old(ReconcileAllowed(scan)) && role == Consumer ==>
                && Reconciled(old(pool.controls[..]), pool.controls[..], stop, local, scan.dead, Consumer) && recovered == 0
                && (stop < pool.controls.Length ==> stop in faulty && pool.controls[stop].state == Claiming && dropped == 0)
                && dropped <= |old(ring.Pending())| && ring.Pending() == old(ring.Pending())[dropped..]
                && (forall j :: 0 <= j < dropped ==> !LooksCurrent(pool.controls[..], old(ring.Pending())[j]))
                && (status == Ok ==> ring.Pending() == [] || LooksCurrent(pool.controls[..], ring.Pending()[0]))
      ensures old(ReconcileAllowed(scan)) && role == Producer ==>
                && Reconciled(old(pool.controls[..]), pool.controls[..],
                              if stop == pool.controls.Length then stop else stop + 1, local, scan.dead, Producer)
                && ring.Pending() == Republished(old(ring.Pending()), old(pool.controls[..]), stop, local, scan.dead,
                                                 remote, id, pool.id)
                && recovered == RepublishCount(old(pool.controls[..]), stop, local, scan.dead, remote, id)
                && (stop < pool.controls.Length ==>
                      |ring.Pending()| == ring.depth && Republishes(pool.controls[stop], local, scan.dead, remote, id))
    {
      recovered, stop, dropped := 0, 0, 0;
      if !ReconcileAllowed(scan) {
        return InvalidArgument, 0, 0, 0;
      }
      if role == Consumer {
        status, stop, dropped := ReconcileConsumer(scan.dead, faulty);
      } else {
        status, recovered, stop := ReconcileProducer(scan.dead);
      }
    }
  }

  /** Opens a link for a runtime: it must name valid components, and an epoch
      given explicitly must be the registered one. */
  method OpenLink(pool: Pool, ring: DescriptorRing, local: Component, remote: Component, id: u64, epoch: u32, role: Role,
                  hopLimit: u32, duration: u64) returns (status: Status, link: Link?)
    requires pool.Valid() && ring.Valid()
    ensures !(ValidComponent(local) && ValidComponent(remote)) ==> status == InvalidArgument
    ensures ValidComponent(local) && ValidComponent(remote) ==>
              status == if epoch != 0 && !EpochCurrent(pool.components[local], epoch) then ComponentStale else Ok
    ensures status != Ok ==> link == null
    ensures status == Ok ==>
              && link != null && fresh(link) && link.Valid() && link.pool == pool && link.ring == ring
              && link.local == local && link.remote == remote && link.id == id && link.role == role
              && link.duration == duration && link.hopLimit == (if hopLimit != 0 then hopLimit else 0xFFFF_FFFF)
              && link.epoch == (if epoch != 0 then epoch else pool.Epoch(local))
              && !link.Stale() && (link.epoch == 0 <==> pool.Epoch(local) == 0)
  {
    if !ValidComponent(local) || !ValidComponent(remote) {
      return InvalidArgument, null;
    }
    if epoch != 0 && !EpochCurrent(pool.components[local], epoch) {
      return ComponentStale, null;
    }
    link := new Link(pool, ring, local, remote, id, epoch, role, hopLimit, duration);
    status := Ok;
  }

  lemma SeamlessBelow(depth: nat, n: nat, m: nat)
    requires n <= m && Seamless(depth, m)
    ensures Seamless(depth, n)
  {
  }
}
