/**
 A pool: the slot controls and the component table in shared memory, and the
 calls that work on one slot.

 A call may be killed: `life` is the number of writes to its slot that it gets
 to make, and `alive` says that it got to make them all and answered.
 */
module SlotPool {
  import opened Model
  import opened Protocol
  import opened CallSpecs
  import opened RecoverySpecs
  import opened Lifecycle
  import BufferIds

  /** A component's local view of a buffer it owns. */
  datatype View = NoView | View(slot: nat, generation: u32, owner: Component, epoch: u32)

  /** The table `slots` with only slot `i` replaced. */
  predicate Only(slots: seq<Slot>, now: seq<Slot>, i: nat, s: Slot) {
    i < |slots| && now == slots[i := s]
  }

  /** What an allocation that looks for a slot from `cursor` on makes of the table,
      and what it answers. */
  ghost predicate Allocated(slots: seq<Slot>, after: seq<Slot>, cursor: nat, a: AllocateArgs, drawn: bool, protects: bool,
                            life: nat, alive: bool, status: Status, view: View)
    requires |slots| > 0
  {
    var start := cursor % |slots|;
    var m := FirstTakeable(slots, start, 0);
    if m == |slots| then alive && status == NoBuffer && view == NoView && after == slots
    else
      var i := Visit(start, m, |slots|);
      && Only(slots, after, i, AllocateSlot(slots[i], life, a, drawn, protects))
      && alive == (life >= AllocateSteps(drawn, protects))
      && (alive ==> status == if !drawn then EntropyUnavailable else if !protects then Platform else Ok)
      && (alive && status == Ok ==> view == View(i, NextGeneration(slots[i].generation), a.component, a.epoch))
      && (alive && status != Ok ==> view == NoView)
  }

  class Pool {
    const controls: array<Slot>
    const components: array<Word>
    const capacity: u32
    const id: u32
    var cursor: u32       // where the next allocation starts to look
    var allocations: u64
    var releases: u64

    ghost predicate Valid()
      reads this
    {
      0 < controls.Length < U32 && components.Length == 256
    }

    constructor (count: u32, capacity: u32, id: u32)
      requires count > 0
      ensures Valid() && fresh(controls) && fresh(components) && controls.Length == count
      ensures this.capacity == capacity && this.id == id
      ensures forall i :: 0 <= i < count ==>
                Takeable(controls[i]) && controls[i].generation == 0 && controls[i].owner == NO_COMPONENT
      ensures forall c :: 0 <= c < 256 ==> components[c] == Word(0, Inactive)
      ensures cursor == 0 && allocations == 0 && releases == 0
    {
      var blank := Slot(Free, 0, NO_COMPONENT, NO_COMPONENT, 0, 0, 0, {}, 0, 0, EMPTY_REGION, 0, 0, 0, NoToken,
                        0, EMPTY_REGION, 0, 0, 0, 0, 0, 0, 0, {});
      controls := new Slot[count](_ => blank);
      components := new Word[256](_ => Word(0, Inactive));
      this.capacity, this.id := capacity, id;
      cursor, allocations, releases := 0, 0, 0;
    }

    /** The registered epoch of a component; zero when it has none. */
    function Epoch(c: Component): u32
      requires Valid()
      reads this, components
    {
      if ValidComponent(c) then RegisteredEpoch(components[c]) else 0
    }

    /** The view still stands for a buffer of the registered runtime it was made for. */
    predicate Owns(v: View)
      requires Valid()
      reads this, controls, components
    {
      v.View? && v.slot < controls.Length &&
      controls[v.slot].generation == v.generation && controls[v.slot].state == Owned &&
      controls[v.slot].owner == v.owner && controls[v.slot].ownerEpoch == v.epoch &&
      Epoch(v.owner) == v.epoch
    }

    // ------------------------------------------------------------- lifecycle

    method RegisterComponent(c: Component) returns (status: Status, epoch: u32)
      requires Valid()
      modifies components
      ensures !ValidComponent(c) ==> status == InvalidArgument && components[..] == old(components[..])
      ensures ValidComponent(c) ==>
                var w := old(components[c]);
                if w.life == Inactive && w.epoch < 0xFFFF_FFFF then
                  && status == Ok && epoch == w.epoch + 1 && Epoch(c) == epoch
                  && components[..] == old(components[..])[c := Word(w.epoch + 1, Active)]
                else status == ComponentStale && components[..] == old(components[..])
    {
      epoch := 0;
      if !ValidComponent(c) {
        return InvalidArgument, 0;
      }
      var current := components[c];
      if current.epoch == 0xFFFF_FFFF || current.life != Inactive {
        return ComponentStale, 0;
      }
      components[c] := Word(current.epoch + 1, Active);
      return Ok, current.epoch + 1;
    }

    method UnregisterComponent(c: Component, epoch: u32) returns (status: Status)
      requires Valid()
      modifies components
      ensures !ValidComponent(c) || epoch == 0 ==> status == InvalidArgument && components[..] == old(components[..])
      ensures ValidComponent(c) && epoch != 0 ==>
                if old(components[c]).epoch == epoch && old(components[c]).life != Inactive then
                  status == Ok && components[..] == old(components[..])[c := Word(epoch, Inactive)]
                else status == ComponentStale && components[..] == old(components[..])
    {
      if !ValidComponent(c) || epoch == 0 {
        return InvalidArgument;
      }
      var current := components[c];
      if current.epoch != epoch || current.life == Inactive {
        return ComponentStale;
      }
      components[c] := Word(epoch, Inactive);
      return Ok;
    }

    /** The end of every claim: the state is published, then the token cleared. */
    method Publish(i: nat, state: SlotState, life: int)
      requires i < controls.Length
      modifies controls
      ensures Only(old(controls[..]), controls[..], i, Published(old(controls[i]), life, state))
    {
      if life > 0 { controls[i] := controls[i].(state := state); }
      if life > 1 { controls[i] := controls[i].(token := NoToken); }
    }

    // -------------------------------------------------------------- allocate

    /** The writes of an allocation before the buffer has an ID. */
    method FillRecord(i: nat, a: AllocateArgs, life: nat)
      requires i < controls.Length && Takeable(controls[i]) && life <= 27
      modifies controls
      ensures controls[..] == old(controls[..])[i := AllocatePrefix(old(controls[i]), life, a)]
    {
      ghost var s := controls[i];
      if life > 0 { controls[i] := controls[i].(token := Token(Allocate, a.component, a.epoch)); }
      if life > 1 { controls[i] := controls[i].(state := Claiming); }
      if life > 2 { controls[i] := controls[i].(generation := NextGeneration(controls[i].generation)); }
      if life > 3 { controls[i] := controls[i].(owner := a.component); }
      if life > 4 { controls[i] := controls[i].(nextOwner := NO_COMPONENT); }
      if life > 5 { controls[i] := controls[i].(ownerEpoch := a.epoch); }
      if life > 6 { controls[i] := controls[i].(hopCount := 1); }
      if life > 7 { controls[i] := controls[i].(hopLimit := EffectiveHopLimit(a.hopLimit)); }
      if life > 8 { controls[i] := controls[i].(visited := {}); }
      if life > 9 { controls[i] := controls[i].(visited := controls[i].visited + {a.component}); }
      if life > 10 { controls[i] := controls[i].(id := 0); }
      if life > 11 { controls[i] := controls[i].(parent := a.parent); }
      if life > 12 { controls[i] := controls[i].(region := controls[i].region.(offset := a.region.offset)); }
      if life > 13 { controls[i] := controls[i].(region := controls[i].region.(length := a.region.length)); }
      ClearTransferRecord(i, a, life);
      assert {} + {a.component} == {a.component};
      assert controls[i] == AllocatePrefix(s, life, a);
    }

    /** The rest of them: nothing is left of the transfers of the last buffer. */
    method ClearTransferRecord(i: nat, a: AllocateArgs, life: nat)
      requires i < controls.Length
      modifies controls
      ensures controls[..] == old(controls[..])[i := ClearedPrefix(old(controls[i]), life, a)]
    {
      if life > 14 { controls[i] := controls[i].(sequence := 0); }
      if life > 15 { controls[i] := controls[i].(acquired := a.now); }
      if life > 16 { controls[i] := controls[i].(deadline := DeadlineFrom(a.now, a.duration)); }
      if life > 17 { controls[i] := controls[i].(prevSequence := 0); }
      if life > 18 { controls[i] := controls[i].(prevRegion := EMPTY_REGION); }
      if life > 19 { controls[i] := controls[i].(prevOwner := NO_COMPONENT); }
      if life > 20 { controls[i] := controls[i].(prevEpoch := 0); }
      if life > 21 { controls[i] := controls[i].(linkId := 0); }
      if life > 22 { controls[i] := controls[i].(sourceId := NO_COMPONENT); }
      if life > 23 { controls[i] := controls[i].(sourceEpoch := 0); }
      if life > 24 { controls[i] := controls[i].(sourceHops := 0); }
      if life > 25 { controls[i] := controls[i].(sourceAcquired := 0); }
      if life > 26 { controls[i] := controls[i].(sourceVisited := {}); }
    }

    /** The writes of an allocation on the slot it has found. */
    method WriteAllocation(i: nat, a: AllocateArgs, drawn: bool, protects: bool, life: nat)
      requires Valid() && i < controls.Length && Takeable(controls[i])
      modifies controls
      ensures Only(old(controls[..]), controls[..], i, AllocateSlot(old(controls[i]), life, a, drawn, protects))
    {
      ghost var s := controls[i];
      FillRecord(i, a, if life < 27 then life else 27);
      if !drawn {
        FreeClaimed(i, life - 27);
        return;
      }
      if life > 27 { controls[i] := controls[i].(id := a.id); }
      if !protects {
        FreeClaimed(i, life - 28);
        return;
      }
      Publish(i, Owned, life - 28);
      assert controls[i] == AllocatePrefix(s, life, a);
    }

    /** The slot of a claim that is given up returns to the pool. */
    method FreeClaimed(i: nat, life: int)
      requires i < controls.Length
      modifies controls
      ensures Only(old(controls[..]), controls[..], i, FreePrefix(old(controls[i]), if life < 0 then 0 else life))
    {
      if life > 0 { controls[i] := controls[i].(owner := NO_COMPONENT); }
      if life > 1 { controls[i] := controls[i].(nextOwner := NO_COMPONENT); }
      if life > 2 { controls[i] := controls[i].(region := EMPTY_REGION); }
      Publish(i, Free, life - 3);
    }

    /** The arguments with the epoch the claim is stamped with. */
    function Stamped(a: AllocateArgs): AllocateArgs
      requires Valid()
      reads this, components
    {
      if a.epoch != 0 then a else a.(epoch := Epoch(a.component))
    }

    predicate AllocationAllowed(a: AllocateArgs) {
      ValidComponent(a.component) && (a.parent == 0 || BufferIds.IdValid(a.parent)) && Fits(a.region, capacity)
    }

    /**
     The cyclic scan takes the first slot, from the cursor on, that is FREE and
     has no token. Without one the pool is unchanged. `drawn` says whether a
     buffer ID could be drawn.
     */
    method AllocateBuffer(args: AllocateArgs, drawn: bool, protects: bool, life: nat)
      returns (alive: bool, status: Status, view: View)
      requires Valid()
      modifies controls, this`cursor, this`allocations
      ensures !AllocationAllowed(args) ==>
                alive && status == InvalidArgument && view == NoView && controls[..] == old(controls[..]) &&
                cursor == old(cursor) && allocations == old(allocations)
      ensures AllocationAllowed(args) ==>
                && Allocated(old(controls[..]), controls[..], old(cursor), Stamped(args), drawn, protects, life,
                             alive, status, view)
                && (if alive && status == Ok then
                      cursor == (view.slot + 1) % controls.Length && allocations == (old(allocations) + 1) % U64
                    else cursor == old(cursor) && allocations == old(allocations))
    {
      if !AllocationAllowed(args) {
        return true, InvalidArgument, NoView;
      }
      var a := Stamped(args);
      var count := controls.Length;
      var start := cursor % count;
      ghost var slots := controls[..];
      ghost var m := FirstTakeable(slots, start, 0);
      var n := 0;
      while n < count
        invariant 0 <= n <= m <= count
        invariant controls[..] == slots && cursor == old(cursor) && allocations == old(allocations)
      {
        var i := (start + n) % U32 % count;
        assert i == Visit(start, n, |slots|);
        if Takeable(controls[i]) {
          WriteAllocation(i, a, drawn, protects, life);
          alive := life >= AllocateSteps(drawn, protects);
          if !drawn {
            return alive, EntropyUnavailable, NoView;
          } else if !protects {
            return alive, Platform, NoView;
          } else if alive {
            cursor := (i + 1) % count;
            allocations := (allocations + 1) % U64;
            return true, Ok, View(i, controls[i].generation, a.component, a.epoch);
          } else {
            return false, Ok, NoView;
          }
        }
        n := n + 1;
      }
      return true, NoBuffer, NoView;
    }

    // ------------------------------------------------------------------ send

    /** The writes of a send inside its claim, and its publication. */
    method WriteTransfer(i: nat, next: Component, link: u64, life: nat)
      requires i < controls.Length
      modifies controls
      ensures Only(old(controls[..]), controls[..], i, TransferPrefix(old(controls[i]), life, next, link))
    {
      if life > 3 { controls[i] := controls[i].(nextOwner := next); }
      if life > 4 { controls[i] := controls[i].(linkId := link); }
      if life > 5 { controls[i] := controls[i].(sourceId := controls[i].owner); }
      if life > 6 { controls[i] := controls[i].(sourceEpoch := controls[i].ownerEpoch); }
      if life > 7 { controls[i] := controls[i].(sourceHops := controls[i].hopCount); }
      if life > 8 { controls[i] := controls[i].(sourceAcquired := controls[i].acquired); }
      if life > 9 { controls[i] := controls[i].(sourceVisited := controls[i].visited); }
      if life > 10 { controls[i] := controls[i].(sequence := Inc32(controls[i].sequence)); }
      Publish(i, Transfer, life - 11);
    }

    /** Publishes an owned slot as a transfer to `next` and fills the descriptor. */
    method PrepareTransfer(i: nat, generation: u32, c: Component, next: Component, link: u64,
                           now: u64, protects: bool, life: nat)
      returns (alive: bool, status: Status, message: Message)
      requires Valid()
      modifies controls
      ensures !(ValidComponent(c) && ValidComponent(next)) ==>
                alive && status == InvalidArgument && controls[..] == old(controls[..])
      ensures ValidComponent(c) && ValidComponent(next) && i >= controls.Length ==>
                alive && status == InvalidHandle && controls[..] == old(controls[..])
      ensures ValidComponent(c) && ValidComponent(next) && i < controls.Length ==>
                var s, e := old(controls[i]), Epoch(c);
                && Only(old(controls[..]), controls[..], i,
                        PrepareSlot(s, life, generation, c, e, next, link, now, protects))
                && (life >= SEND_STEPS ==> alive)
                && (alive ==> status == PrepareStatus(s, generation, c, e, now, protects))
                && (alive && status == Ok ==> life >= SEND_STEPS && message == Descriptor(controls[i], i, id))
    {
      message := Message(0, 0, 0, 0, 0, 0);
      if !(ValidComponent(c) && ValidComponent(next)) {
        return true, InvalidArgument, message;
      }
      if i >= controls.Length {
        return true, InvalidHandle, message;
      }
      ghost var s := controls[i];
      var e := Epoch(c);
      if controls[i].state != Owned {
        return true, InvalidState, message;
      }
      if controls[i].generation != generation {
        return true, StaleHandle, message;
      }
      if controls[i].owner != c || controls[i].ownerEpoch != e {
        return true, NotOwner, message;
      }
      if life > 0 { controls[i] := controls[i].(prevSequence := controls[i].sequence); }
      if controls[i].token.Token? {
        return life > 0, InvalidState, message;
      }
      if life > 1 { controls[i] := controls[i].(token := Token(Send, c, e)); }
      if life > 2 { controls[i] := controls[i].(state := Claiming); }
      var refusal := if Expired(controls[i], now) then Deadline
                     else if HopsExhausted(controls[i]) then HopLimit
                     else if !protects then Platform else Ok;
      if refusal != Ok {
        Publish(i, Owned, life - 3);
        assert controls[i] == SendAbortPrefix(s, life);
        return life >= SEND_ABORT_STEPS, refusal, message;
      }
      WriteTransfer(i, next, link, life);
      message := Message(i, generation, id, c, next, controls[i].sequence);
      assert controls[i] == SendPrefix(s, life, next, link);
      return life >= SEND_STEPS, Ok, message;
    }

    /** Takes an unpublished transfer back. */
    method RollbackTransfer(i: nat, c: Component, e: u32, remote: Component, m: Message, protects: bool, life: nat)
      returns (alive: bool, status: Status)
      requires Valid() && i < controls.Length
      modifies controls
      ensures Only(old(controls[..]), controls[..], i, RollbackSlot(old(controls[i]), life, c, e, remote, m, protects))
      ensures life >= ROLLBACK_STEPS ==> alive
      ensures alive ==> status == RollbackStatus(old(controls[i]), c, remote, m, protects)
      ensures alive && status == Ok ==> life >= ROLLBACK_STEPS
    {
      ghost var s := controls[i];
      if controls[i].state != Transfer {
        return true, RecoveryRequired;
      }
      if life > 0 { controls[i] := controls[i].(prevSequence := Dec32(m.sequence)); }
      if controls[i].token.Token? {
        return life > 0, RecoveryRequired;
      }
      if life > 1 { controls[i] := controls[i].(token := Token(Rollback, c, e)); }
      if life > 2 { controls[i] := controls[i].(state := Claiming); }
      if !RollbackMatches(controls[i], c, remote, m) {
        Publish(i, Transfer, life - 3);
        assert controls[i] == RollbackAbortPrefix(s, life, c, e, m);
        return life > 4, RecoveryRequired;
      }
      if life > 3 { controls[i] := controls[i].(nextOwner := NO_COMPONENT); }
      if life > 4 { controls[i] := controls[i].(sequence := Dec32(m.sequence)); }
      if life > 5 { controls[i] := controls[i].(owner := c); }
      if !protects {
        return life > 5, Platform;
      }
      Publish(i, Owned, life - 6);
      assert controls[i] == RollbackPrefix(s, life, c, e);
      return life > 7, Ok;
    }

    // --------------------------------------------------------------- receive

    /** The writes that make `c` the owner inside its claim. */
    method WriteReceiver(i: nat, c: Component, e: u32, now: u64, life: int)
      requires i < controls.Length
      modifies controls
      ensures Only(old(controls[..]), controls[..], i, ReceiverPrefix(old(controls[i]), life, c, e, now))
    {
      if life > 0 { controls[i] := controls[i].(owner := c); }
      if life > 1 { controls[i] := controls[i].(nextOwner := NO_COMPONENT); }
      if life > 2 { controls[i] := controls[i].(ownerEpoch := e); }
      if life > 3 { controls[i] := controls[i].(hopCount := Inc32(controls[i].sourceHops)); }
      if life > 4 { controls[i] := controls[i].(visited := controls[i].visited + {c}); }
      if life > 5 { controls[i] := controls[i].(acquired := now); }
    }

    /** The claim of a slot in transfer: refused, given up, or published. */
    method WriteClaim(i: nat, m: Message, c: Component, e: u32, now: u64, protects: bool, life: nat)
      returns (alive: bool, status: Status)
      requires i < controls.Length && ReceiveMayStart(controls[i])
      modifies controls
      ensures var s := old(controls[i]);
              && Only(old(controls[..]), controls[..], i, ClaimSlot(s, life, m, c, e, now, capacity, protects))
              && alive == (life >= ClaimSteps(s, m, c, now, capacity, protects))
              && status == ClaimStatus(s, m, c, now, capacity, protects)
    {
      ghost var s := controls[i];
      if life > 0 { controls[i] := controls[i].(token := Token(Receive, c, e)); }
      if life > 1 { controls[i] := controls[i].(state := Claiming); }
      var refusal := ReceiveGuard(controls[i], m, c, now);
      if refusal != Ok {
        Publish(i, Transfer, life - 2);
        assert controls[i] == ReceiveAbortPrefix(s, life, c, e);
        return life >= RECEIVE_ABORT_STEPS, refusal;
      }
      WriteReceiver(i, c, e, now, life - 2);
      assert controls[i] == ReceivePrefix(s, if life < 8 then life else 8, c, e, now);
      if !protects || !Fits(controls[i].region, capacity) {
        FreeClaimed(i, life - 8);
        return life >= 8 + FREE_STEPS, if !protects then Platform else RegionOverflow;
      }
      Publish(i, Owned, life - 8);
      assert controls[i] == ReceivePrefix(s, life, c, e, now);
      return life >= RECEIVE_STEPS, Ok;
    }

    /** Takes over the transfer that a descriptor announces. */
    method ClaimTransfer(m: Message, c: Component, now: u64, protects: bool, life: nat)
      returns (alive: bool, status: Status, view: View)
      requires Valid()
      modifies controls
      ensures !ValidComponent(c) ==>
                alive && status == InvalidArgument && controls[..] == old(controls[..])
      ensures ValidComponent(c) && (m.poolId != id || m.destination != c || m.slot >= controls.Length) ==>
                alive && controls[..] == old(controls[..]) &&
                status == if m.poolId != id then InvalidHandle
                          else if m.destination != c then InvalidReceiver else InvalidHandle
      ensures ValidComponent(c) && m.poolId == id && m.destination == c && m.slot < controls.Length ==>
                var s, e := old(controls[m.slot]), Epoch(c);
                && Only(old(controls[..]), controls[..], m.slot, ClaimSlot(s, life, m, c, e, now, capacity, protects))
                && alive == (life >= ClaimSteps(s, m, c, now, capacity, protects))
                && (alive ==> status == ClaimStatus(s, m, c, now, capacity, protects))
                && (alive && status == Ok ==> view == View(m.slot, m.generation, c, e) && Owns(view))
      ensures alive && status != Ok ==> view == NoView
    {
      view := NoView;
      if !ValidComponent(c) {
        return true, InvalidArgument, view;
      }
      if m.poolId != id {
        return true, InvalidHandle, view;
      }
      if m.destination != c {
        return true, InvalidReceiver, view;
      }
      var i := m.slot;
      if i >= controls.Length {
        return true, InvalidHandle, view;
      }
      if !ReceiveMayStart(controls[i]) {
        return true, InvalidState, view;
      }
      var e := Epoch(c);
      alive, status := WriteClaim(i, m, c, e, now, protects, life);
      return alive, status, if alive && status == Ok then View(i, m.generation, c, e) else NoView;
    }

    // --------------------------------------------------------------- release

    /** The writes of a release inside its claim, and its publication. */
    method WriteFree(i: nat, life: nat)
      requires i < controls.Length
      modifies controls
      ensures Only(old(controls[..]), controls[..], i, FreedPrefix(old(controls[i]), life))
    {
      if life > 5 { controls[i] := controls[i].(owner := NO_COMPONENT); }
      if life > 6 { controls[i] := controls[i].(nextOwner := NO_COMPONENT); }
      if life > 7 { controls[i] := controls[i].(region := controls[i].region.(offset := 0)); }
      if life > 8 { controls[i] := controls[i].(region := controls[i].region.(length := 0)); }
      Publish(i, Free, life - 9);
    }

    /** Returns an owned slot to the pool. */
    method ReleaseBuffer(i: nat, generation: u32, c: Component, protects: bool, life: nat)
      returns (alive: bool, status: Status)
      requires Valid()
      modifies controls, this`releases
      ensures !ValidComponent(c) ==> alive && status == InvalidArgument && controls[..] == old(controls[..])
      ensures ValidComponent(c) && i >= controls.Length ==>
                alive && status == InvalidHandle && controls[..] == old(controls[..])
      ensures ValidComponent(c) && i < controls.Length ==>
                var s, e := old(controls[i]), Epoch(c);
                && Only(old(controls[..]), controls[..], i, ReleaseSlot(s, life, generation, c, e, protects))
                && (life >= RELEASE_STEPS ==> alive)
                && (alive ==> status == ReleaseStatus(s, generation, c, e, protects))
                && (alive && status == Ok ==> life >= RELEASE_STEPS)
      ensures releases == if alive && status == Ok then (old(releases) + 1) % U64 else old(releases)
    {
      if !ValidComponent(c) {
        return true, InvalidArgument;
      }
      if i >= controls.Length {
        return true, InvalidHandle;
      }
      ghost var s := controls[i];
      var e := Epoch(c);
      if controls[i].generation != generation {
        return true, StaleHandle;
      }
      if controls[i].state != Owned {
        return true, InvalidState;
      }
      if controls[i].owner != c || controls[i].ownerEpoch != e {
        return true, NotOwner;
      }
      if life > 0 { controls[i] := controls[i].(prevRegion := controls[i].region); }
      if life > 1 { controls[i] := controls[i].(prevOwner := controls[i].owner); }
      if life > 2 { controls[i] := controls[i].(prevEpoch := controls[i].ownerEpoch); }
      if controls[i].token.Token? {
        return life > 2, InvalidState;
      }
      if life > 3 { controls[i] := controls[i].(token := Token(Release, c, e)); }
      if life > 4 { controls[i] := controls[i].(state := Claiming); }
      if !protects {
        Publish(i, Owned, life - 5);
        assert controls[i] == ReleaseAbortPrefix(s, life);
        return life > 6, Platform;
      }
      WriteFree(i, life);
      assert controls[i] == ReleasePrefix(s, life);
      if life < RELEASE_STEPS {
        return false, InvalidState;
      }
      releases := (releases + 1) % U64;
      return true, Ok;
    }

    /** The release of a view: refused, and nothing changed, unless the view stands. */
    method ReleaseView(v: View, protects: bool, life: nat) returns (alive: bool, status: Status, after: View)
      requires Valid()
      modifies controls, this`releases
      ensures !old(Owns(v)) ==>
                alive && status == InvalidBuffer && after == v && controls[..] == old(controls[..]) && releases == old(releases)
      ensures old(Owns(v)) && ValidComponent(v.owner) ==>
                && Only(old(controls[..]), controls[..], v.slot,
                        ReleaseSlot(old(controls[v.slot]), life, v.generation, v.owner, v.epoch, protects))
                && (alive ==> status == ReleaseStatus(old(controls[v.slot]), v.generation, v.owner, v.epoch, protects))
                && after == if alive && status == Ok then NoView else v
    {
      if !Owns(v) {
        return true, InvalidBuffer, v;
      }
      alive, status := ReleaseBuffer(v.slot, v.generation, v.owner, protects, life);
      after := if alive && status == Ok then NoView else v;
    }

    // ---------------------------------------------------------------- sweeps

    /** Takes a candidate, looks at its owner, and frees it or puts it back. */
    method SweepOne(i: nat, c: Component, dead: u32, age: u64, now: u64, fault: bool) returns (freed: bool, failed: bool)
      requires i < controls.Length
      modifies controls
      ensures freed == (Abandoned(old(controls[i]), c, dead, now, age) && !fault)
      ensures failed == (Abandoned(old(controls[i]), c, dead, now, age) && fault)
      ensures Only(old(controls[..]), controls[..], i, if freed then Swept(old(controls[i])) else old(controls[i]))
    {
      var state := controls[i].state;
      if state != Owned && state != Transfer {
        return false, false;
      }
      controls[i] := controls[i].(state := Error);
      if controls[i].owner != c || controls[i].ownerEpoch != dead || !OldEnough(controls[i], now, age) {
        controls[i] := controls[i].(state := state);
        return false, false;
      }
      if fault {
        controls[i] := controls[i].(state := state);
        return false, true;
      }
      controls[i] := controls[i].(owner := NO_COMPONENT);
      controls[i] := controls[i].(nextOwner := NO_COMPONENT);
      controls[i] := controls[i].(region := EMPTY_REGION);
      controls[i] := controls[i].(state := Free);
      return true, false;
    }

    /**
     The quiesced sweep of a dead epoch frees exactly its buffers of the given
     age, owned or in transfer, and restores every other slot. It stops at the
     first of them whose protection fails. `faulty` names the failing slots.
     */
    method RecoverOwner(c: Component, dead: u32, age: u64, now: u64, faulty: set<nat>)
      returns (status: Status, owned: nat, transfer: nat, ghost stop: nat)
      requires Valid()
      modifies controls
      ensures !ValidComponent(c) || dead == 0 ==> status == InvalidArgument && controls[..] == old(controls[..])
      ensures ValidComponent(c) && dead != 0 && EpochCurrent(components[c], dead) ==>
                status == ComponentStale && controls[..] == old(controls[..])
      ensures ValidComponent(c) && dead != 0 && !EpochCurrent(components[c], dead) ==>
                var slots := old(controls[..]);
                && OwnerSwept(slots, controls[..], stop, c, dead, now, age)
                && (forall i :: 0 <= i < stop && Abandoned(slots[i], c, dead, now, age) ==> i !in faulty)
                && status == (if stop == |slots| then Ok else Platform)
                && (stop < |slots| ==> Abandoned(slots[stop], c, dead, now, age) && stop in faulty)
                && owned == SweptCount(slots[..stop], Owned, c, dead, now, age)
                && transfer == SweptCount(slots[..stop], Transfer, c, dead, now, age)
    {
      owned, transfer, stop := 0, 0, 0;
      if !ValidComponent(c) || dead == 0 {
        return InvalidArgument, 0, 0, 0;
      }
      if components[c].life != Inactive && components[c].epoch == dead {
        return ComponentStale, 0, 0, 0;
      }
      ghost var slots := controls[..];
      var i := 0;
      while i < controls.Length
        invariant 0 <= i <= controls.Length
        invariant OwnerSwept(slots, controls[..], i, c, dead, now, age)
        invariant forall j :: 0 <= j < i && Abandoned(slots[j], c, dead, now, age) ==> j !in faulty
        invariant owned == SweptCount(slots[..i], Owned, c, dead, now, age)
        invariant transfer == SweptCount(slots[..i], Transfer, c, dead, now, age)
      {
        SweptCountNext(slots, i, Owned, c, dead, now, age);
        SweptCountNext(slots, i, Transfer, c, dead, now, age);
        var state := controls[i].state;
        var freed, failed := SweepOne(i, c, dead, age, now, i in faulty);
        if failed {
          return Platform, owned, transfer, i;
        }
        if freed {
          if state == Owned { owned := owned + 1; } else { transfer := transfer + 1; }
        }
        i := i + 1;
      }
      return Ok, owned, transfer, i;
    }

    /**
     The quiesced sweep of abandoned claims empties every one of them. At the
     first slot whose protection fails it stops: that claim and all later ones
     are left CLAIMING.
     */
    method RecoverClaiming(faulty: set<nat>) returns (status: Status, recovered: nat, ghost stop: nat)
      requires Valid()
      modifies controls
      ensures ClaimsSwept(old(controls[..]), controls[..], stop)
      ensures forall i :: 0 <= i < stop && old(controls[..])[i].state == Claiming ==> i !in faulty
      ensures status == (if stop == controls.Length then Ok else Platform)
      ensures stop < controls.Length ==> controls[stop].state == Claiming && stop in faulty
      ensures recovered == ClaimCount(old(controls[..])[..stop])
    {
      recovered, stop := 0, 0;
      ghost var slots := controls[..];
      var i := 0;
      while i < controls.Length
        invariant 0 <= i <= controls.Length
        invariant ClaimsSwept(slots, controls[..], i)
        invariant forall j :: 0 <= j < i && slots[j].state == Claiming ==> j !in faulty
        invariant recovered == ClaimCount(slots[..i])
      {
        ClaimCountNext(slots, i);
        if controls[i].state == Claiming {
          controls[i] := controls[i].(state := Error);
          if i in faulty {
            controls[i] := controls[i].(state := Claiming);
            return Platform, recovered, i;
          }
          controls[i] := Scrubbed(controls[i]).(state := Error);
          controls[i] := controls[i].(state := Free);
          recovered := recovered + 1;
        }
        i := i + 1;
      }
      return Ok, recovered, i;
    }
  }
}
