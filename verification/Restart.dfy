/**
 The online restart of a component: begin, the scan that repairs and adopts one
 slot after another, and finish.
 */
module Restart {
  import opened Model
  import opened Protocol
  import opened RecoverySpecs
  import opened Lifecycle
  import opened SlotPool

  /** The view of slot `i` that the scan returns. */
  function AdoptedView(slots: seq<Slot>, i: nat, c: Component, dead: u32): View
    requires i < |slots| && dead + 1 < U32
  {
    View(i, NextGeneration(ScanRepair(slots[i], c, dead).generation), c, dead + 1)
  }

  predicate Listed(views: seq<View>, v: View) {
    v in views
  }

  /** The views of the slots below `n` that the dead epoch left owned, in order. */
  ghost predicate AdoptsExactly(views: seq<View>, slots: seq<Slot>, n: nat, c: Component, dead: u32)
    requires n <= |slots| && dead + 1 < U32
  {
    && (forall k :: 0 <= k < |views| ==>
          views[k].View? && views[k].slot < n && views[k] == AdoptedView(slots, views[k].slot, c, dead) &&
          Adoptable(ScanRepair(slots[views[k].slot], c, dead), c, dead))
    && (forall k, l | 0 <= k < l < |views| :: views[k].View? && views[l].View? && views[k].slot < views[l].slot)
    && (forall i :: 0 <= i < n && Adoptable(ScanRepair(slots[i], c, dead), c, dead) ==>
          Listed(views, AdoptedView(slots, i, c, dead)))
  }

  /** The table after a scan has passed the slots below `n`. */
  ghost predicate ScannedTo(slots: seq<Slot>, after: seq<Slot>, n: nat, c: Component, dead: u32, now: u64)
    requires dead + 1 < U32
  {
    && |after| == |slots| && n <= |slots|
    && (forall i :: 0 <= i < n ==> after[i] == ScanSlot(slots[i], c, dead, dead + 1, now))
    && (forall i :: n <= i < |slots| ==> after[i] == slots[i])
  }

  /** What one call of the scan does from slot `from` on, up to slot `last`. */
  ghost predicate NextResult(slots: seq<Slot>, after: seq<Slot>, from: nat, last: nat, status: Status, view: View,
                             c: Component, dead: u32, now: u64, capacity: u32, faulty: set<nat>)
    requires dead + 1 < U32
  {
    && from <= last <= |slots| == |after|
    && Repaired(slots, after, from, last, c, dead)
    && (forall i :: 0 <= i < |slots| && (i < from || i > last) ==> after[i] == slots[i])
    && (status == NoBuffer <==> last == |slots|)
    && status in {Ok, NoBuffer, Platform, RegionOverflow}
    && (status == Ok ==>
          && Adoptable(ScanRepair(slots[last], c, dead), c, dead)
          && Fits(ScanRepair(slots[last], c, dead).region, capacity)
          && after[last] == ScanSlot(slots[last], c, dead, dead + 1, now)
          && view == AdoptedView(slots, last, c, dead))
    && (status != Ok ==> view == NoView)
    && (status == Platform ==>
          last in faulty && (after[last] == slots[last] || after[last] == ScanRepair(slots[last], c, dead)))
    && (status == RegionOverflow ==>
          Adoptable(ScanRepair(slots[last], c, dead), c, dead) &&
          !Fits(ScanRepair(slots[last], c, dead).region, capacity) &&
          after[last] == ScanRepair(slots[last], c, dead).(acquired := now))
  }

  /** The window of every buffer the scan will adopt fits its slot. */
  ghost predicate WindowsFit(slots: seq<Slot>, c: Component, dead: u32, capacity: u32) {
    forall i :: 0 <= i < |slots| && Adoptable(ScanRepair(slots[i], c, dead), c, dead) ==>
      Fits(ScanRepair(slots[i], c, dead).region, capacity)
  }

  /** A slot that is repaired and not adopted is scanned. */
  lemma PassedIsScanned(s: Slot, t: Slot, c: Component, dead: u32, now: u64)
    requires dead + 1 < U32 && t == ScanRepair(s, c, dead) && !Adoptable(t, c, dead)
    ensures t == ScanSlot(s, c, dead, dead + 1, now)
  {
  }

  /** The table after a scan that has passed the slots below `n` and stopped there. */
  ghost predicate ScannedBut(slots: seq<Slot>, after: seq<Slot>, n: nat, c: Component, dead: u32, now: u64)
    requires dead + 1 < U32
  {
    && |after| == |slots| && n <= |slots|
    && (forall i :: 0 <= i < n ==> after[i] == ScanSlot(slots[i], c, dead, dead + 1, now))
    && (forall i :: n < i < |slots| ==> after[i] == slots[i])
  }

  /** Why a scan stops at the slot it finds as `s` and leaves as `t`. */
  ghost predicate StopsAt(s: Slot, t: Slot, status: Status, c: Component, dead: u32, now: u64, capacity: u32, fault: bool) {
    var r := ScanRepair(s, c, dead);
    || (status == Platform && fault && (t == s || t == r))
    || (status == RegionOverflow && Adoptable(r, c, dead) && !Fits(r.region, capacity) && t == r.(acquired := now))
  }

  lemma ScanExtends(slots: seq<Slot>, mid: seq<Slot>, after: seq<Slot>, from: nat, last: nat,
                    c: Component, dead: u32, now: u64)
    requires dead + 1 < U32 && ScannedTo(slots, mid, from, c, dead, now) && Repaired(mid, after, from, last, c, dead)
    requires forall i :: 0 <= i < |mid| && (i < from || i > last) ==> after[i] == mid[i]
    ensures forall i :: from <= i < last ==> !Adoptable(ScanRepair(slots[i], c, dead), c, dead)
    ensures ScannedBut(slots, after, last, c, dead, now)
  {
    forall i | from <= i < last
      ensures after[i] == ScanSlot(slots[i], c, dead, dead + 1, now) && !Adoptable(ScanRepair(slots[i], c, dead), c, dead)
    {
      assert mid[i] == slots[i];
      PassedIsScanned(slots[i], after[i], c, dead, now);
    }
  }

  lemma NextExtends(slots: seq<Slot>, mid: seq<Slot>, after: seq<Slot>, views: seq<View>, from: nat, last: nat,
                    status: Status, view: View, c: Component, dead: u32, now: u64, capacity: u32, faulty: set<nat>)
    requires dead + 1 < U32 && ScannedTo(slots, mid, from, c, dead, now) && AdoptsExactly(views, slots, from, c, dead)
    requires WindowsFit(slots[..from], c, dead, capacity)
    requires NextResult(mid, after, from, last, status, view, c, dead, now, capacity, faulty)
    ensures status == Ok ==> ScannedTo(slots, after, last + 1, c, dead, now) &&
                             AdoptsExactly(views + [view], slots, last + 1, c, dead)
    ensures status != Ok ==> ScannedBut(slots, after, last, c, dead, now) && AdoptsExactly(views, slots, last, c, dead)
    ensures WindowsFit(slots[..if status == Ok then last + 1 else last], c, dead, capacity)
    ensures status != Ok && status != NoBuffer ==>
              last < |slots| && StopsAt(slots[last], after[last], status, c, dead, now, capacity, last in faulty)
  {
    assert last < |slots| ==> mid[last] == slots[last];
    ScanExtends(slots, mid, after, from, last, c, dead, now);
    AdoptsMore(views, slots, from, last, c, dead);
  }

  /** Where the documented loop stands when it has come to slot `n`. */
  ghost predicate AdoptState(slots: seq<Slot>, after: seq<Slot>, n: nat, status: Status, views: seq<View>,
                             c: Component, dead: u32, now: u64, capacity: u32, faulty: set<nat>)
    requires dead + 1 < U32
  {
    && n <= |slots| == |after| && AdoptsExactly(views, slots, n, c, dead) && WindowsFit(slots[..n], c, dead, capacity)
    && (if status == Ok then ScannedTo(slots, after, n, c, dead, now) else ScannedBut(slots, after, n, c, dead, now))
    && (status != Ok ==> (status == NoBuffer <==> n == |slots|))
    && (status != Ok && status != NoBuffer ==>
          StopsAt(slots[n], after[n], status, c, dead, now, capacity, n in faulty))
  }

  lemma StartState(slots: seq<Slot>, c: Component, dead: u32, now: u64, capacity: u32, faulty: set<nat>)
    requires dead + 1 < U32
    ensures AdoptState(slots, slots, 0, Ok, [], c, dead, now, capacity, faulty)
  {
  }

  /** The loop goes on with the buffer found at slot `last`. */
  lemma StateAfterBuffer(slots: seq<Slot>, mid: seq<Slot>, after: seq<Slot>, views: seq<View>, from: nat, last: nat,
                         view: View, c: Component, dead: u32, now: u64, capacity: u32, faulty: set<nat>)
    requires dead + 1 < U32 && AdoptState(slots, mid, from, Ok, views, c, dead, now, capacity, faulty)
    requires NextResult(mid, after, from, last, Ok, view, c, dead, now, capacity, faulty)
    ensures AdoptState(slots, after, last + 1, Ok, views + [view], c, dead, now, capacity, faulty)
  {
    NextExtends(slots, mid, after, views, from, last, Ok, view, c, dead, now, capacity, faulty);
  }

  /** The loop ends at slot `last`. */
  lemma StateAtEnd(slots: seq<Slot>, mid: seq<Slot>, after: seq<Slot>, views: seq<View>, from: nat, last: nat,
                   status: Status, view: View, c: Component, dead: u32, now: u64, capacity: u32, faulty: set<nat>)
    requires dead + 1 < U32 && AdoptState(slots, mid, from, Ok, views, c, dead, now, capacity, faulty)
    requires status != Ok && NextResult(mid, after, from, last, status, view, c, dead, now, capacity, faulty)
    ensures AdoptState(slots, after, last, status, views, c, dead, now, capacity, faulty)
  {
    NextExtends(slots, mid, after, views, from, last, status, view, c, dead, now, capacity, faulty);
  }

  /** Without failing protections the loop ends at the end if and only if all windows fit. */
  lemma EndsIff(slots: seq<Slot>, after: seq<Slot>, n: nat, status: Status, views: seq<View>,
                c: Component, dead: u32, now: u64, capacity: u32, faulty: set<nat>)
    requires dead + 1 < U32 && AdoptState(slots, after, n, status, views, c, dead, now, capacity, faulty) && status != Ok
    ensures faulty == {} ==> (status == NoBuffer <==> WindowsFit(slots, c, dead, capacity))
  {
    if status == NoBuffer {
      assert slots[..n] == slots;
    }
  }

  lemma AdoptsMore(views: seq<View>, slots: seq<Slot>, n: nat, m: nat, c: Component, dead: u32)
    requires n <= m <= |slots| && dead + 1 < U32 && AdoptsExactly(views, slots, n, c, dead)
    requires forall i :: n <= i < m ==> !Adoptable(ScanRepair(slots[i], c, dead), c, dead)
    ensures AdoptsExactly(views, slots, m, c, dead)
    ensures m < |slots| && Adoptable(ScanRepair(slots[m], c, dead), c, dead) ==>
              AdoptsExactly(views + [AdoptedView(slots, m, c, dead)], slots, m + 1, c, dead)
  {
    if m < |slots| && Adoptable(ScanRepair(slots[m], c, dead), c, dead) {
      var views' := views + [AdoptedView(slots, m, c, dead)];
      forall i | 0 <= i < m + 1 && Adoptable(ScanRepair(slots[i], c, dead), c, dead)
        ensures Listed(views', AdoptedView(slots, i, c, dead))
      {
        assert i < m ==> Listed(views, AdoptedView(slots, i, c, dead));
        assert views'[|views|] == AdoptedView(slots, m, c, dead);
      }
    }
  }

  /** The slots from `first` to `i` are repaired, and no other slot is touched. */
  ghost predicate PassedTo(slots: seq<Slot>, after: seq<Slot>, first: nat, i: nat, c: Component, dead: u32) {
    && Repaired(slots, after, first, i, c, dead)
    && (forall j :: 0 <= j < |slots| && (j < first || j >= i) ==> after[j] == slots[j])
  }

  lemma PassNext(slots: seq<Slot>, mid: seq<Slot>, after: seq<Slot>, first: nat, i: nat, c: Component, dead: u32)
    requires PassedTo(slots, mid, first, i, c, dead) && i < |slots|
    requires Only(mid, after, i, ScanRepair(mid[i], c, dead)) && !Adoptable(after[i], c, dead)
    ensures PassedTo(slots, after, first, i + 1, c, dead)
  {
    assert mid[i] == slots[i];
  }

  /** What one turn of the scan makes of a slot. */
  ghost predicate VisitResult(s: Slot, t: Slot, outcome: Status, c: Component, dead: u32, now: u64, capacity: u32, fault: bool)
    requires dead + 1 < U32
  {
    var r := ScanRepair(s, c, dead);
    && outcome in {Ok, NoBuffer, Platform, RegionOverflow}
    && (outcome == Ok ==> Adoptable(r, c, dead) && Fits(r.region, capacity) && t == Adopt(r, dead + 1, now))
    && (outcome == NoBuffer ==> !Adoptable(r, c, dead) && t == r)
    && (outcome == Platform ==> fault && (t == s || t == r))
    && (outcome == RegionOverflow ==> Adoptable(r, c, dead) && !Fits(r.region, capacity) && t == r.(acquired := now))
  }

  lemma StopHere(slots: seq<Slot>, mid: seq<Slot>, after: seq<Slot>, first: nat, i: nat, status: Status,
                 c: Component, dead: u32, now: u64, capacity: u32, faulty: set<nat>)
    requires dead + 1 < U32 && PassedTo(slots, mid, first, i, c, dead) && i < |slots|
    requires i < |after| && Only(mid, after, i, after[i]) && status != NoBuffer
    requires VisitResult(mid[i], after[i], status, c, dead, now, capacity, i in faulty)
    ensures NextResult(slots, after, first, i, status,
                       if status == Ok then AdoptedView(slots, i, c, dead) else NoView, c, dead, now, capacity, faulty)
  {
    assert mid[i] == slots[i];
  }

  lemma EndHere(slots: seq<Slot>, after: seq<Slot>, first: nat, c: Component, dead: u32, now: u64, capacity: u32, faulty: set<nat>)
    requires dead + 1 < U32 && PassedTo(slots, after, first, |slots|, c, dead)
    ensures NextResult(slots, after, first, |slots|, NoBuffer, NoView, c, dead, now, capacity, faulty)
  {
  }

  class RestartScan {
    const pool: Pool
    const component: Component
    const dead: u32
    var cursor: nat
    var complete: bool

    constructor (pool: Pool, component: Component, dead: u32)
      ensures this.pool == pool && this.component == component && this.dead == dead
      ensures cursor == 0 && !complete
    {
      this.pool, this.component, this.dead := pool, component, dead;
      cursor, complete := 0, false;
    }

    ghost predicate Valid()
      reads this, pool
    {
      pool.Valid() && ValidComponent(component) && dead + 1 < U32 && cursor <= pool.controls.Length
    }

    predicate Current()
      requires Valid()
      reads this, pool, pool.components
    {
      EpochRecovering(pool.components[component], dead + 1)
    }

    /**
     Repairs the slot at the cursor. A slot whose protection fails is put back
     as it was; only a slot left OWNED is looked at for adoption.
     */
    method RepairSlot(i: nat, fault: bool) returns (blocked: bool, owned: bool)
      requires Valid() && i < pool.controls.Length
      modifies pool.controls
      ensures blocked == (fault && Blocked(old(pool.controls[i]), component, dead))
      ensures Only(old(pool.controls[..]), pool.controls[..], i,
                   if blocked then old(pool.controls[i]) else ScanRepair(old(pool.controls[i]), component, dead))
      ensures owned ==> !blocked
      ensures !blocked ==> owned == (pool.controls[i].state == Owned)
    {
      var controls, c := pool.controls, component;
      ghost var s := controls[i];
      var state, token := controls[i].state, controls[i].token;
      if state == Free && TokenOf(token, c, dead) {
        controls[i] := controls[i].(token := NoToken);
        return false, false;
      }
      if state == Transfer && TokenOf(token, c, dead) && token.kind == Receive {
        controls[i] := controls[i].(token := NoToken);
        return false, false;
      }
      if state == Claiming {
        if !TokenOf(token, c, dead) {
          return false, false;
        }
        controls[i] := controls[i].(state := Error);
        if token.kind == Receive {
          if fault {
            controls[i] := controls[i].(state := Claiming);
            return true, false;
          }
          controls[i] := controls[i].(owner := controls[i].sourceId);
          controls[i] := controls[i].(nextOwner := c);
          controls[i] := controls[i].(ownerEpoch := controls[i].sourceEpoch);
          controls[i] := controls[i].(hopCount := controls[i].sourceHops);
          controls[i] := controls[i].(acquired := controls[i].sourceAcquired);
          controls[i] := controls[i].(visited := controls[i].sourceVisited);
          controls[i] := controls[i].(token := NoToken);
          controls[i] := controls[i].(state := Transfer);
          return false, false;
        }
        if token.kind == Allocate {
          if fault {
            controls[i] := controls[i].(state := Claiming);
            return true, false;
          }
          pool.FreeClaimed(i, FREE_STEPS);
          return false, false;
        }
        if token.kind == Send || token.kind == Rollback {
          controls[i] := controls[i].(sequence := controls[i].prevSequence);
        }
        if token.kind == Release {
          controls[i] := controls[i].(owner := controls[i].prevOwner);
          controls[i] := controls[i].(ownerEpoch := controls[i].prevEpoch);
          controls[i] := controls[i].(region := controls[i].prevRegion);
        }
        controls[i] := controls[i].(nextOwner := NO_COMPONENT);
        controls[i] := controls[i].(token := NoToken);
        controls[i] := controls[i].(state := Owned);
        return false, true;
      }
      if state != Owned {
        return false, false;
      }
      if TokenOf(token, c, dead) {
        controls[i] := controls[i].(token := NoToken);
      }
      return false, true;
    }

    /** Adopts an owned slot of the dead epoch; any other slot is put back. */
    method AdoptSlot(i: nat, fault: bool, now: u64) returns (found: bool, status: Status)
      requires Valid() && i < pool.controls.Length && pool.controls[i].state == Owned
      modifies pool.controls
      ensures var s := old(pool.controls[i]);
              && found == Adoptable(s, component, dead)
              && status == (if !found then NoBuffer else if fault then Platform
                            else if !Fits(s.region, pool.capacity) then RegionOverflow else Ok)
              && Only(old(pool.controls[..]), pool.controls[..], i,
                      if status == Ok then Adopt(s, dead + 1, now)
                      else if status == RegionOverflow then s.(acquired := now) else s)
    {
      var controls := pool.controls;
      controls[i] := controls[i].(state := Error);
      if controls[i].owner != component || controls[i].ownerEpoch != dead {
        controls[i] := controls[i].(state := Owned);
        return false, NoBuffer;
      }
      if fault {
        controls[i] := controls[i].(state := Owned);
        return true, Platform;
      }
      var generation := controls[i].generation;
      controls[i] := controls[i].(generation := NextGeneration(generation));
      controls[i] := controls[i].(ownerEpoch := dead + 1);
      controls[i] := controls[i].(acquired := now);
      if !Fits(controls[i].region, pool.capacity) {
        controls[i] := controls[i].(ownerEpoch := dead);
        controls[i] := controls[i].(generation := generation);
        controls[i] := controls[i].(state := Owned);
        return true, RegionOverflow;
      }
      controls[i] := controls[i].(state := Owned);
      return true, Ok;
    }

    /** One turn of the scan: NO_BUFFER stands for a slot with nothing to adopt. */
    method VisitSlot(i: nat, fault: bool, now: u64) returns (outcome: Status)
      requires Valid() && i < pool.controls.Length
      modifies pool.controls
      ensures Only(old(pool.controls[..]), pool.controls[..], i, pool.controls[i])
      ensures VisitResult(old(pool.controls[i]), pool.controls[i], outcome, component, dead, now, pool.capacity, fault)
    {
      var blocked, owned := RepairSlot(i, fault);
      if blocked {
        return Platform;
      }
      if !owned {
        return NoBuffer;
      }
      var found;
      found, outcome := AdoptSlot(i, fault, now);
    }

    /** The loop of the scan, from the cursor to the next slot that ends it. */
    method ScanOn(faulty: set<nat>, now: u64) returns (status: Status, ghost last: nat)
      requires Valid()
      modifies this`cursor, pool.controls
      ensures Valid() && old(cursor) <= last <= pool.controls.Length
      ensures cursor == if status == Ok then last + 1 else last
      ensures NextResult(old(pool.controls[..]), pool.controls[..], old(cursor), last, status,
                         if status == Ok then AdoptedView(old(pool.controls[..]), last, component, dead) else NoView,
                         component, dead, now, pool.capacity, faulty)
    {
      ghost var slots, first := pool.controls[..], cursor;
      while cursor < pool.controls.Length
        invariant first <= cursor <= pool.controls.Length && Valid()
        invariant PassedTo(slots, pool.controls[..], first, cursor, component, dead)
        decreases pool.controls.Length - cursor
      {
        ghost var mid := pool.controls[..];
        last := cursor;
        status := VisitSlot(cursor, cursor in faulty, now);
        if status != NoBuffer {
          StopHere(slots, mid, pool.controls[..], first, cursor, status, component, dead, now, pool.capacity, faulty);
          if status == Ok {
            cursor := cursor + 1;
          }
          return;
        }
        PassNext(slots, mid, pool.controls[..], first, cursor, component, dead);
        cursor := cursor + 1;
      }
      EndHere(slots, pool.controls[..], first, component, dead, now, pool.capacity, faulty);
      return NoBuffer, cursor;
    }

    /**
     The next adopted buffer. Every slot passed on the way is repaired and was
     not the dead epoch's; a slot that fails is the cursor's, to be tried again.
     */
    method Next(faulty: set<nat>, now: u64) returns (status: Status, view: View)
      requires Valid()
      modifies this`cursor, this`complete, pool.controls
      ensures Valid() && old(cursor) <= cursor && (status == Ok ==> old(cursor) < cursor)
      ensures !Current() ==>
                status == InvalidArgument && pool.controls[..] == old(pool.controls[..]) &&
                cursor == old(cursor) && complete == old(complete)
      ensures Current() ==>
                && NextResult(old(pool.controls[..]), pool.controls[..], old(cursor),
                              if status == Ok then cursor - 1 else cursor, status, view,
                              component, dead, now, pool.capacity, faulty)
                && complete == (old(complete) || status == NoBuffer)
                && (status == Ok ==> pool.Owns(view))
    {
      if !Current() {
        return InvalidArgument, NoView;
      }
      ghost var last;
      status, last := ScanOn(faulty, now);
      if status == NoBuffer {
        complete := true;
      }
      if status != Ok {
        return status, NoView;
      }
      view := View(cursor - 1, pool.controls[cursor - 1].generation, component, dead + 1);
      assert pool.Owns(view);
    }

    /** The restart ends only after a scan that ran to its end, and only once. */
    method Finish() returns (status: Status)
      requires Valid()
      modifies pool.components, this`complete
      ensures old(complete && Current()) ==>
                status == Ok && !complete &&
                pool.components[..] == old(pool.components[..])[component := Word(dead + 1, Active)]
      ensures !old(complete && Current()) ==>
                status == InvalidArgument && pool.components[..] == old(pool.components[..]) && complete == old(complete)
    {
      if !complete || !Current() {
        return InvalidArgument;
      }
      pool.components[component] := Word(dead + 1, Active);
      complete := false;
      return Ok;
    }

    /** One turn of the loop below: the next buffer, if there is one, is added. */
    method AdoptNext(ghost slots: seq<Slot>, views: seq<View>, faulty: set<nat>, now: u64)
      returns (status: Status, more: seq<View>)
      requires Valid() && Current() && |views| <= cursor
      requires AdoptState(slots, pool.controls[..], cursor, Ok, views, component, dead, now, pool.capacity, faulty)
      modifies this`cursor, this`complete, pool.controls
      ensures Valid() && Current() && old(cursor) <= cursor && (status == Ok ==> old(cursor) < cursor) && |more| <= cursor
      ensures status == NoBuffer ==> complete
      ensures AdoptState(slots, pool.controls[..], cursor, status, more, component, dead, now, pool.capacity, faulty)
    {
      ghost var from, mid := cursor, pool.controls[..];
      var view;
      status, view := Next(faulty, now);
      if status == Ok {
        more := views + [view];
        StateAfterBuffer(slots, mid, pool.controls[..], views, from, cursor - 1, view, component, dead, now, pool.capacity,
                         faulty);
      } else {
        more := views;
        StateAtEnd(slots, mid, pool.controls[..], views, from, cursor, status, view, component, dead, now, pool.capacity,
                   faulty);
      }
    }

    /**
     The documented loop over `Next`. It ends; up to where it ends it has scanned
     every slot and returned every buffer of the dead epoch once, at most one for
     each slot. It ends early only at a slot whose protection fails or whose window
     does not fit, and says so.
     */
    method AdoptAll(faulty: set<nat>, now: u64) returns (status: Status, views: seq<View>)
      requires Valid() && cursor == 0
      modifies this`cursor, this`complete, pool.controls
      ensures Valid() && |views| <= pool.controls.Length
      ensures !Current() ==> status == InvalidArgument && views == [] && pool.controls[..] == old(pool.controls[..])
      ensures Current() ==>
                && status != Ok && (status == NoBuffer ==> complete)
                && AdoptState(old(pool.controls[..]), pool.controls[..], cursor, status, views, component, dead, now,
                              pool.capacity, faulty)
      ensures Current() && faulty == {} ==>
                (status == NoBuffer <==> WindowsFit(old(pool.controls[..]), component, dead, pool.capacity))
    {
      views := [];
      if !Current() {
        return InvalidArgument, [];
      }
      ghost var slots := pool.controls[..];
      status := Ok;
      StartState(slots, component, dead, now, pool.capacity, faulty);
      while status == Ok
        invariant Valid() && Current() && |views| <= cursor && (status == NoBuffer ==> complete)
        invariant AdoptState(slots, pool.controls[..], cursor, status, views, component, dead, now, pool.capacity, faulty)
        decreases pool.controls.Length - cursor, if status == Ok then 1 else 0
      {
        status, views := AdoptNext(slots, views, faulty, now);
      }
      EndsIff(slots, pool.controls[..], cursor, status, views, component, dead, now, pool.capacity, faulty);
    }
  }

  /** Takes a component whose runtime is gone into recovery under a new epoch. */
  method BeginRestart(pool: Pool, c: Component, dead: u32) returns (status: Status, scan: RestartScan?)
    requires pool.Valid()
    modifies pool.components
    ensures !ValidComponent(c) || dead == 0 ==> status == InvalidArgument && scan == null
    ensures ValidComponent(c) && dead != 0 ==>
              var w := old(pool.components[c]);
              status == if w.epoch == dead && dead < 0xFFFF_FFFF && w.life != Recovering then Ok else ComponentStale
    ensures status == Ok ==>
              && pool.components[..] == old(pool.components[..])[c := Word(dead + 1, Recovering)]
              && scan != null && fresh(scan) && scan.pool == pool && scan.component == c && scan.dead == dead
              && scan.cursor == 0 && scan.Valid() && scan.Current()
    ensures status != Ok ==> scan == null && pool.components[..] == old(pool.components[..])
  {
    if !ValidComponent(c) || dead == 0 {
      return InvalidArgument, null;
    }
    if dead == 0xFFFF_FFFF || pool.components[c].epoch != dead || pool.components[c].life == Recovering {
      return ComponentStale, null;
    }
    pool.components[c] := Word(dead + 1, Recovering);
    scan := new RestartScan(pool, c, dead);
    status := Ok;
  }
}
