/**
 The data window of a buffer: a part of a slot's bytes that grows and shrinks at
 both ends in place.
 */
module Window {
  import opened Model
  import opened Protocol
  import opened SlotPool

  type byte = n: nat | n < 256

  // ----------------------------------------------------------- specification

  /** What a window is to its owner: the room before it, its bytes, the room after it. */
  datatype Bytes = Bytes(headroom: nat, data: seq<byte>, tailroom: nat)

  function Capacity(w: Bytes): nat {
    w.headroom + |w.data| + w.tailroom
  }

  /** A window operation answers with the new window, or refuses. */
  datatype Outcome = Done(window: Bytes) | Overflow

  function Append(w: Bytes, more: seq<byte>): Outcome {
    if |more| > w.tailroom then Overflow
    else Done(Bytes(w.headroom, w.data + more, w.tailroom - |more|))
  }

  function Prepend(w: Bytes, more: seq<byte>): Outcome {
    if |more| > w.headroom then Overflow
    else Done(Bytes(w.headroom - |more|, more + w.data, w.tailroom))
  }

  function TrimFront(w: Bytes, n: nat): Outcome {
    if n > |w.data| then Overflow
    else Done(Bytes(w.headroom + n, w.data[n..], w.tailroom))
  }

  function TrimBack(w: Bytes, n: nat): Outcome {
    if n > |w.data| then Overflow
    else Done(Bytes(w.headroom, w.data[..|w.data| - n], w.tailroom + n))
  }

  /** Room decides, and nothing else: bytes are added if and only if they fit before
      or after the data, and taken off if and only if there are as many. */
  lemma RoomDecides(w: Bytes, more: seq<byte>, n: nat)
    ensures Append(w, more).Done? <==> w.headroom + |w.data| + |more| <= Capacity(w)
    ensures Prepend(w, more).Done? <==> |more| + |w.data| + w.tailroom <= Capacity(w)
    ensures (TrimFront(w, n).Done? <==> n <= |w.data|) && (TrimBack(w, n).Done? <==> n <= |w.data|)
    ensures Append(w, more).Done? ==> Append(w, more).window.data == w.data + more
    ensures Prepend(w, more).Done? ==> Prepend(w, more).window.data == more + w.data
    ensures n <= |w.data| ==> w.data[..n] + TrimFront(w, n).window.data == w.data
    ensures n <= |w.data| ==> TrimBack(w, n).window.data + w.data[|w.data| - n..] == w.data
  {
    if n <= |w.data| {
      assert w.data[..n] + w.data[n..] == w.data;
      assert w.data[..|w.data| - n] + w.data[|w.data| - n..] == w.data;
    }
  }

  /** Trimming takes back exactly what appending or prepending added, and an
      append or prepend of the trimmed bytes takes back the trim. */
  lemma TrimUndoes(w: Bytes, more: seq<byte>, n: nat)
    ensures var r := Append(w, more); r.Done? ==> TrimBack(r.window, |more|) == Done(w)
    ensures var r := Prepend(w, more); r.Done? ==> TrimFront(r.window, |more|) == Done(w)
    ensures var r := TrimBack(w, n); r.Done? ==> Append(r.window, w.data[|w.data| - n..]) == Done(w)
    ensures var r := TrimFront(w, n); r.Done? ==> Prepend(r.window, w.data[..n]) == Done(w)
  {
    var a, p, b, f := Append(w, more), Prepend(w, more), TrimBack(w, n), TrimFront(w, n);
    if a.Done? { assert (w.data + more)[..|w.data|] == w.data; }
    if p.Done? { assert (more + w.data)[|more|..] == w.data; }
    if b.Done? { assert w.data[..|w.data| - n] + w.data[|w.data| - n..] == w.data; }
    if f.Done? { assert w.data[..n] + w.data[n..] == w.data; }
  }

  /** Work at one end does not disturb the other. */
  lemma EndsCommute(w: Bytes, front: seq<byte>, back: seq<byte>)
    requires |front| <= w.headroom && |back| <= w.tailroom
    ensures Append(Prepend(w, front).window, back) == Prepend(Append(w, back).window, front)
  {
    assert front + w.data + back == front + (w.data + back);
  }

  /** Headroom, data and tailroom always make up the capacity. */
  lemma CapacityKept(w: Bytes, more: seq<byte>, n: nat)
    ensures forall r | r in {Append(w, more), Prepend(w, more), TrimFront(w, n), TrimBack(w, n)} ::
              r.Done? ==> Capacity(r.window) == Capacity(w)
  {
  }

  /** What a kill between the two stores leaves of each operation: appending and
      trimming the back leave the old window; prepending leaves one that fits; and
      trimming `n` bytes off the front leaves one that fits if and only if `n` is
      not more than the tailroom. */
  lemma TornOperations(s: Slot, n: u32, capacity: u32)
    requires Fits(s.region, capacity)
    ensures s.region.length + n < U32 ==>
              RegionPrefix(s, 1, Region(s.region.offset, s.region.length + n)) == s
    ensures n <= s.region.length ==> RegionPrefix(s, 1, Region(s.region.offset, s.region.length - n)) == s
    ensures n <= s.region.offset && s.region.length + n < U32 ==>
              Fits(RegionPrefix(s, 1, Region(s.region.offset - n, s.region.length + n)).region, capacity)
    ensures n <= s.region.length ==>
              (Fits(RegionPrefix(s, 1, Region(s.region.offset + n, s.region.length - n)).region, capacity) <==>
                 n <= capacity - s.region.offset - s.region.length)
  {
  }

  // ---------------------------------------------------------- implementation

  /** The payload with `data` stored from `at` on. */
  function Stored(payload: seq<byte>, at: nat, data: seq<byte>): (r: seq<byte>)
    requires at + |data| <= |payload|
    ensures |r| == |payload|
  {
    payload[..at] + data + payload[at + |data|..]
  }

  lemma StoredNext(payload: seq<byte>, at: nat, data: seq<byte>, n: nat)
    requires n < |data| && at + |data| <= |payload|
    ensures Stored(payload, at, data[..n])[at + n := data[n]] == Stored(payload, at, data[..n + 1])
  {
    var s, t := Stored(payload, at, data[..n]), Stored(payload, at, data[..n + 1]);
    forall p | 0 <= p < |payload| ensures s[at + n := data[n]][p] == t[p] {
    }
  }

  /** A window that is cut at its front, and one that is cut at its back. */
  lemma CutSlice(payload: seq<byte>, from: nat, to: nat, n: nat)
    requires from + n <= to <= |payload|
    ensures payload[from..to][n..] == payload[from + n..to]
    ensures payload[from..to][..to - from - n] == payload[from..to - n]
  {
  }

  /** A window whose tail is stored over, and one whose head is. */
  lemma StoredSlice(payload: seq<byte>, from: nat, to: nat, data: seq<byte>)
    requires from <= to && to + |data| <= |payload|
    ensures Stored(payload, to, data)[from..to + |data|] == payload[from..to] + data
  {
  }

  lemma StoredHead(payload: seq<byte>, from: nat, to: nat, data: seq<byte>)
    requires from + |data| <= to <= |payload|
    ensures Stored(payload, from, data)[from..to] == data + payload[from + |data|..to]
  {
  }

  /** A local view: the slot of a pool, its bytes, and the cached window. */
  class Buffer {
    const pool: Pool
    const payload: array<byte>
    const base: nat          // where the slot's bytes begin
    const view: View
    var start: u32           // where the data pointer stands in the slot
    var length: u32

    /** The cached window is the one in the slot record while the view stands. */
    ghost predicate Valid()
      reads this, pool, pool.controls, pool.components
    {
      && pool.Valid() && view.View? && view.slot < pool.controls.Length
      && base + pool.capacity <= payload.Length
      && (pool.Owns(view) ==>
            pool.controls[view.slot].region == Region(start, length) && start + length <= pool.capacity)
    }

    /** What the owner sees. */
    ghost function Window(): Bytes
      requires Valid() && pool.Owns(view)
      reads this, pool, pool.controls, pool.components, payload
    {
      Bytes(start, payload[..][base + start..base + start + length], pool.capacity - start - length)
    }

    constructor (pool: Pool, payload: array<byte>, base: nat, view: View)
      requires pool.Valid() && view.View? && pool.Owns(view) && base + pool.capacity <= payload.Length
      requires Fits(pool.controls[view.slot].region, pool.capacity)
      ensures Valid() && this.pool == pool && this.payload == payload && this.base == base && this.view == view
      ensures Window().headroom == pool.controls[view.slot].region.offset
    {
      this.pool, this.payload, this.base, this.view := pool, payload, base, view;
      start, length := pool.controls[view.slot].region.offset, pool.controls[view.slot].region.length;
    }

    function Headroom(): nat
      requires Valid()
      reads this, pool, pool.controls, pool.components
    {
      if pool.Owns(view) then pool.controls[view.slot].region.offset else 0
    }

    function Tailroom(): nat
      requires Valid()
      reads this, pool, pool.controls, pool.components
    {
      if pool.Owns(view) then pool.capacity - pool.controls[view.slot].region.offset - length else 0
    }

    function Size(): nat
      requires Valid()
      reads this, pool, pool.controls, pool.components
    {
      if pool.Owns(view) then length else 0
    }

    /** The three accessors read off the window, whose capacity is the slot's. */
    lemma RoomsAddUp()
      requires Valid() && pool.Owns(view)
      ensures Headroom() == Window().headroom && Size() == |Window().data| && Tailroom() == Window().tailroom
      ensures Headroom() + Size() + Tailroom() == pool.capacity == Capacity(Window())
    {
    }

    /** Moves the window; the bytes stay where they are. Killed after `life` of its
        two stores it leaves their prefix in the record. */
    method SetRegion(offset: u32, size: u32, life: nat) returns (alive: bool, status: Status)
      requires Valid()
      modifies pool.controls, this`start, this`length
      ensures alive ==> Valid()
      ensures !old(pool.Owns(view)) ==> alive && status == InvalidBuffer
      ensures old(pool.Owns(view)) && offset + size > pool.capacity ==> alive && status == RegionOverflow
      ensures alive && status != Ok ==>
                pool.controls[..] == old(pool.controls[..]) && start == old(start) && length == old(length)
      ensures old(pool.Owns(view)) && offset + size <= pool.capacity ==>
                && alive == (life >= REGION_STEPS) && (alive ==> status == Ok && start == offset && length == size)
                && Only(old(pool.controls[..]), pool.controls[..], view.slot,
                        RegionPrefix(old(pool.controls[view.slot]), life, Region(offset, size)))
                && pool.Owns(view)
    {
      if !pool.Owns(view) {
        return true, InvalidBuffer;
      }
      if offset > pool.capacity || size > pool.capacity - offset {
        return true, RegionOverflow;
      }
      var controls, i := pool.controls, view.slot;
      if life > 0 { controls[i] := controls[i].(region := controls[i].region.(offset := offset)); }
      if life > 1 { controls[i] := controls[i].(region := controls[i].region.(length := size)); }
      if life < REGION_STEPS {
        return false, Ok;
      }
      start, length := offset, size;
      return true, Ok;
    }

    /** Edits hop limit and deadline; zero stands for none. */
    method SetLimits(limit: u32, deadline: u64, life: nat) returns (alive: bool, status: Status)
      requires Valid()
      modifies pool.controls
      ensures Valid()
      ensures !old(pool.Owns(view)) ==> alive && status == InvalidBuffer && pool.controls[..] == old(pool.controls[..])
      ensures old(pool.Owns(view)) ==>
                && alive == (life >= LIMITS_STEPS) && (alive ==> status == Ok) && pool.Owns(view)
                && Only(old(pool.controls[..]), pool.controls[..], view.slot,
                        LimitsPrefix(old(pool.controls[view.slot]), life, limit, deadline))
    {
      if !pool.Owns(view) {
        return true, InvalidBuffer;
      }
      var controls, i := pool.controls, view.slot;
      if life > 0 { controls[i] := controls[i].(hopLimit := EffectiveHopLimit(limit)); }
      if life > 1 { controls[i] := controls[i].(deadline := if deadline != 0 then deadline else DEADLINE_NONE); }
      return life >= LIMITS_STEPS, Ok;
    }

    /** The bytes of `data` stored from `at` on; no other byte changes. */
    method Store(at: nat, data: seq<byte>)
      requires at + |data| <= payload.Length
      modifies payload
      ensures payload[..] == Stored(old(payload[..]), at, data)
    {
      ghost var was := payload[..];
      var n := 0;
      assert Stored(was, at, data[..0]) == was;
      while n < |data|
        invariant 0 <= n <= |data|
        invariant payload[..] == Stored(was, at, data[..n])
      {
        StoredNext(was, at, data, n);
        ghost var before := payload[..];
        payload[at + n] := data[n];
        assert payload[..] == before[at + n := data[n]];
        n := n + 1;
      }
      assert data[..n] == data;
    }

    /** The record of the slot but for its window. */
    twostate predicate OnlyWindowChanged()
      reads pool, pool.controls
    {
      && view.View? && view.slot < pool.controls.Length
      && Only(old(pool.controls[..]), pool.controls[..], view.slot,
              old(pool.controls[view.slot]).(region := pool.controls[view.slot].region))
    }

    /** Appends in place: the window is the specification's, and of the payload
        only the bytes right behind the window change. */
    method AppendBytes(data: seq<byte>) returns (status: Status)
      requires Valid()
      modifies payload, pool.controls, this`start, this`length
      ensures Valid() && OnlyWindowChanged()
      ensures !old(pool.Owns(view)) ==> status == InvalidBuffer
      ensures old(pool.Owns(view)) ==>
                && pool.Owns(view)
                && var r := Append(old(Window()), data);
                && status == (if r.Done? then Ok else RegionOverflow)
                && Window() == (if r.Done? then r.window else old(Window()))
      ensures status != Ok ==> payload[..] == old(payload[..])
      ensures status == Ok ==>
                base + old(start) + old(length) + |data| <= payload.Length &&
                payload[..] == Stored(old(payload[..]), base + old(start) + old(length), data)
    {
      if !pool.Owns(view) {
        return InvalidBuffer;
      }
      if |data| > Tailroom() {
        return RegionOverflow;
      }
      StoredSlice(payload[..], base + start, base + start + length, data);
      Store(base + start + length, data);
      var _, answer := SetRegion(pool.controls[view.slot].region.offset, length + |data|, REGION_STEPS);
      status := answer;
    }

    /** Prepends in place: of the payload only the bytes right before the window change. */
    method PrependBytes(data: seq<byte>) returns (status: Status)
      requires Valid()
      modifies payload, pool.controls, this`start, this`length
      ensures Valid() && OnlyWindowChanged()
      ensures !old(pool.Owns(view)) ==> status == InvalidBuffer
      ensures old(pool.Owns(view)) ==>
                && pool.Owns(view)
                && var r := Prepend(old(Window()), data);
                && status == (if r.Done? then Ok else RegionOverflow)
                && Window() == (if r.Done? then r.window else old(Window()))
      ensures status != Ok ==> payload[..] == old(payload[..])
      ensures status == Ok ==>
                start + |data| == old(start) && base + old(start) <= payload.Length &&
                payload[..] == Stored(old(payload[..]), base + start, data)
    {
      if !pool.Owns(view) {
        return InvalidBuffer;
      }
      if |data| > Headroom() {
        return RegionOverflow;
      }
      var offset := pool.controls[view.slot].region.offset - |data|;
      ghost var was, bytes, from, to := Window(), payload[..], base + offset, base + start + length;
      assert was.data == bytes[from + |data|..to];
      StoredHead(bytes, from, to, data);
      Store(base + offset, data);
      var _, answer := SetRegion(offset, length + |data|, REGION_STEPS);
      status := answer;
      assert base + start == from && base + start + length == to;
      assert Window().data == data + was.data;
    }

    method TrimFrontBytes(n: u32) returns (status: Status)
      requires Valid()
      modifies pool.controls, this`start, this`length
      ensures Valid() && OnlyWindowChanged()
      ensures !old(pool.Owns(view)) ==> status == InvalidBuffer
      ensures old(pool.Owns(view)) ==>
                && pool.Owns(view)
                && var r := TrimFront(old(Window()), n);
                && status == (if r.Done? then Ok else RegionOverflow)
                && Window() == (if r.Done? then r.window else old(Window()))
    {
      if !pool.Owns(view) {
        return InvalidBuffer;
      }
      if n > length {
        return RegionOverflow;
      }
      CutSlice(payload[..], base + start, base + start + length, n);
      var _, answer := SetRegion(pool.controls[view.slot].region.offset + n, length - n, REGION_STEPS);
      status := answer;
    }

    method TrimBackBytes(n: u32) returns (status: Status)
      requires Valid()
      modifies pool.controls, this`start, this`length
      ensures Valid() && OnlyWindowChanged()
      ensures !old(pool.Owns(view)) ==> status == InvalidBuffer
      ensures old(pool.Owns(view)) ==>
                && pool.Owns(view)
                && var r := TrimBack(old(Window()), n);
                && status == (if r.Done? then Ok else RegionOverflow)
                && Window() == (if r.Done? then r.window else old(Window()))
    {
      if !pool.Owns(view) {
        return InvalidBuffer;
      }
      if n > length {
        return RegionOverflow;
      }
      CutSlice(payload[..], base + start, base + start + length, n);
      var _, answer := SetRegion(pool.controls[view.slot].region.offset, length - n, REGION_STEPS);
      status := answer;
    }
  }
}
