/**
 The geometry of a pool: which configurations are accepted, and where their
 header, slot controls, slots and guard pages lie.
 */
module Geometry {
  import opened Model
  import VisitedSet
  import Ring

  const SIZE_MAX := 0xFFFF_FFFF_FFFF_FFFF
  const UINT32_MAX := 0xFFFF_FFFF

  /** The sizes and alignments the compiler gave the two shared records. */
  datatype Layout = Layout(headerSize: nat, headerAlign: nat, slotSize: nat, slotAlign: nat)

  /** A mapped memory, as the platform describes it. */
  datatype Memory = Memory(id: nat, base: u64, size: u64, page: u64, readWrite: bool, atomics: bool, protects: bool)

  datatype Option<T> = None | Some(value: T)

  datatype Config = Config(
    control: Option<Memory>, payload: Option<Memory>, controlOffset: u64, payloadOffset: u64,
    slotCount: u32, capacity: u32, stride: u32, alignment: u32, guard: bool, strict: bool, otherFlags: bool)

  // -------------------------------------------------------------- arithmetic

  predicate IsPowerOfTwo(n: nat) {
    n != 0 && VisitedSet.And(n, n - 1) == 0
  }

  ghost predicate PowerOfTwo(n: nat) {
    exists k: nat :: n == VisitedSet.Mask(k)
  }

  lemma OddKeepsBits(n: nat)
    requires n % 2 == 1
    ensures VisitedSet.And(n, n - 1) == n - 1
  {
    VisitedSet.AndSelf(n / 2);
    assert (n - 1) / 2 == n / 2;
  }

  /** The bit test accepts only the powers of two. */
  lemma {:induction false} PowerOfTwoExact(n: nat)
    requires IsPowerOfTwo(n)
    ensures exists k: nat :: n == VisitedSet.Mask(k)
  {
    if n == 1 {
      assert n == VisitedSet.Mask(0);
    } else {
      if n % 2 == 1 {
        OddKeepsBits(n);
        assert false;
      }
      assert (n - 1) / 2 == n / 2 - 1;
      assert n - 1 != 0 && VisitedSet.And(n, n - 1) == 2 * VisitedSet.And(n / 2, n / 2 - 1);
      PowerOfTwoExact(n / 2);
      var k: nat :| n / 2 == VisitedSet.Mask(k);
      assert n == VisitedSet.Mask(k + 1);
    }
  }

  /** The bit test accepts exactly the powers of two. */
  lemma PowerOfTwoIff(n: nat)
    ensures IsPowerOfTwo(n) <==> PowerOfTwo(n)
  {
    if IsPowerOfTwo(n) {
      PowerOfTwoExact(n);
    }
    forall k: nat | n == VisitedSet.Mask(k) ensures IsPowerOfTwo(n) {
      MaskIsRemainder(n, k);
      Ring.RemainderUnique(n, n, 1, 0);
    }
  }

  /** Masking with a power of two less one is the remainder. */
  lemma {:induction false} MaskIsRemainder(x: nat, k: nat)
    ensures VisitedSet.Mask(k) > 0 && VisitedSet.And(x, VisitedSet.Mask(k) - 1) == x % VisitedSet.Mask(k)
  {
    VisitedSet.MaskDigit(k, 0);
    if k == 0 {
      assert VisitedSet.And(x, 0) == 0;
    } else {
      var m := VisitedSet.Mask(k - 1);
      MaskIsRemainder(x / 2, k - 1);
      assert (2 * m - 1) / 2 == m - 1 && (2 * m - 1) % 2 == 1;
      HalfRemainder(x, m);
    }
  }

  lemma HalfRemainder(x: nat, m: nat)
    requires m > 0
    ensures x % (2 * m) == 2 * (x / 2 % m) + x % 2
  {
    var q, r := x / 2 / m, x / 2 % m;
    assert x / 2 == m * q + r;
    assert x == 2 * m * q + (2 * r + x % 2) by {
      assert x == 2 * (m * q + r) + x % 2;
    }
    Ring.RemainderUnique(x, 2 * m, q, 2 * r + x % 2);
  }

  predicate Aligned(x: nat, a: nat)
    requires a > 0
  {
    x % a == 0
  }

  lemma MaskTest(x: nat, a: nat)
    requires IsPowerOfTwo(a)
    ensures VisitedSet.And(x, a - 1) == 0 <==> Aligned(x, a)
    ensures VisitedSet.And(x, a - 1) == x % a
  {
    PowerOfTwoExact(a);
    var k: nat :| a == VisitedSet.Mask(k);
    MaskIsRemainder(x, k);
  }

  /** Rounds up to an alignment, or reports that the sum does not fit. */
  function AlignUp(value: nat, a: nat): Option<nat> {
    if !IsPowerOfTwo(a) || value > SIZE_MAX - (a - 1) then None
    else Some(value + a - 1 - VisitedSet.And(value + a - 1, a - 1))
  }

  lemma RoundedDown(x: nat, a: nat)
    requires a > 0
    ensures 0 <= x % a < a && x % a <= x && Aligned(x - x % a, a)
  {
    assert x == a * (x / a) + x % a;
    assert a * (x / a) >= 0;
    Ring.RemainderUnique(x - x % a, a, x / a, 0);
  }

  /** The result is the least aligned value that is not below. */
  lemma AlignUpExact(value: nat, a: nat)
    requires AlignUp(value, a).Some?
    ensures var r := AlignUp(value, a).value;
            a > 0 && Aligned(r, a) && value <= r < value + a && r <= SIZE_MAX
  {
    var x := value + a - 1;
    MaskTest(x, a);
    RoundedDown(x, a);
    assert AlignUp(value, a).value == x - x % a;
  }

  predicate AddressAligned(m: Memory, offset: nat, a: nat) {
    m.base != 0 && IsPowerOfTwo(a) && offset <= SIZE_MAX - m.base && VisitedSet.And(m.base + offset, a - 1) == 0
  }

  predicate RangeFits(m: Memory, offset: nat, length: nat) {
    m.base != 0 && offset <= m.size && length <= m.size - offset &&
    offset <= SIZE_MAX - m.base && length <= SIZE_MAX - (m.base + offset)
  }

  // --------------------------------------------------------------- normalize

  datatype Normalized = Refused(status: Status) | Normal(payload: Memory, stride: u32)

  /** The tests that a pool with page protection adds. */
  predicate PagesUsable(c: Config, m: Memory) {
    m.page != 0 && m.page <= UINT32_MAX && m.protects && c.payloadOffset % m.page == 0 &&
    AddressAligned(m, c.payloadOffset, m.page) && c.capacity % m.page == 0
  }

  /** The distance between slots, when there is one. */
  function StrideOf(c: Config, m: Memory): Normalized {
    if c.guard then
      if !PagesUsable(c, m) || c.capacity > UINT32_MAX - m.page then Refused(UnsupportedMemory)
      else if c.stride != 0 && c.stride != c.capacity + m.page then Refused(InvalidArgument)
      else Normal(m, c.capacity + m.page)
    else if c.stride != 0 then Normal(m, c.stride)
    else
      var a := AlignUp(c.capacity, c.alignment);
      if a.None? || a.value > UINT32_MAX then Refused(InvalidArgument) else Normal(m, a.value)
  }

  function Normalize(c: Config, l: Layout): Normalized
    requires l.headerAlign > 0
  {
    if c.control.None? || c.slotCount == 0 || c.capacity == 0 || !IsPowerOfTwo(c.alignment) || c.otherFlags
    then Refused(InvalidArgument)
    else
      var m := if c.payload.Some? then c.payload.value else c.control.value;
      if c.controlOffset % l.headerAlign != 0 || !AddressAligned(c.control.value, c.controlOffset, l.headerAlign) ||
         c.payloadOffset % c.alignment != 0 || !AddressAligned(m, c.payloadOffset, c.alignment)
      then Refused(InvalidArgument)
      else if c.strict && !PagesUsable(c, m) then Refused(UnsupportedMemory)
      else if StrideOf(c, m).Refused? then StrideOf(c, m)
      else
        var stride := StrideOf(c, m).stride;
        if stride < c.capacity || stride % c.alignment != 0 then Refused(InvalidArgument)
        else if !(c.control.value.readWrite && c.control.value.atomics) then Refused(UnsupportedMemory)
        else if !m.readWrite then Refused(UnsupportedMemory)
        else Normal(m, stride)
  }

  // ----------------------------------------------------------- required sizes

  /** The bytes of header and slot controls; zero if they cannot be had. */
  function ControlSize(count: nat, l: Layout): nat
    requires l.slotSize > 0
  {
    var o := AlignUp(l.headerSize, l.slotAlign);
    if count == 0 || o.None? || count > (SIZE_MAX - o.value) / l.slotSize then 0
    else o.value + count * l.slotSize
  }

  /** The bytes of all slots; zero if they cannot be had. */
  function PayloadSize(count: nat, capacity: nat, stride: nat, alignment: nat): nat {
    if count == 0 || capacity == 0 || !IsPowerOfTwo(alignment) then 0
    else
      var a := AlignUp(capacity, alignment);
      if stride == 0 && (a.None? || a.value > UINT32_MAX) then 0
      else
        var s := if stride != 0 then stride else a.value;
        if s < capacity || s % alignment != 0 || count > SIZE_MAX / s then 0 else count * s
  }

  predicate RangesValid(c: Config, m: Memory, controlSize: nat, payloadSize: nat)
    requires c.control.Some?
  {
    && RangeFits(c.control.value, c.controlOffset, controlSize) && RangeFits(m, c.payloadOffset, payloadSize)
    && (c.control.value == m ==>
          !(c.controlOffset < c.payloadOffset + payloadSize && c.payloadOffset < c.controlOffset + controlSize))
  }

  // --------------------------------------------------------- format and attach

  /** What format leaves in the header for attach to compare. */
  datatype Header = Header(slotCount: u32, capacity: u32, stride: u32, controlsOffset: nat, alignment: u32)

  datatype Formatted = Failed(status: Status) | Formatted(header: Header)

  /** Format, when the protection of guard pages succeeds. */
  function Format(c: Config, l: Layout): Formatted
    requires l.headerAlign > 0 && l.slotSize > 0
  {
    var n := Normalize(c, l);
    if n.Refused? then Failed(n.status)
    else
      var control := ControlSize(c.slotCount, l);
      var payload := PayloadSize(c.slotCount, c.capacity, n.stride, c.alignment);
      if control == 0 || payload == 0 || !RangesValid(c, n.payload, control, payload) then Failed(InvalidArgument)
      else
        var o := AlignUp(l.headerSize, l.slotAlign);
        if o.None? || o.value > UINT32_MAX || c.controlOffset > SIZE_MAX - o.value ||
           !AddressAligned(c.control.value, c.controlOffset + o.value, l.slotAlign)
        then Failed(InvalidArgument)
        else Formatted(Header(c.slotCount, c.capacity, n.stride, o.value, c.alignment))
  }

  /** Attach to a pool whose header is `h`, when page protection succeeds. */
  function Attach(c: Config, l: Layout, h: Header): Status
    requires l.headerAlign > 0 && l.slotSize > 0
  {
    var n := Normalize(c, l);
    if n.Refused? then n.status
    else if c.controlOffset > c.control.value.size || l.headerSize > c.control.value.size - c.controlOffset then InvalidPool
    else if h.slotCount != c.slotCount || h.capacity != c.capacity || h.stride != n.stride || h.alignment != c.alignment
    then InvalidPool
    else
      var o := AlignUp(l.headerSize, l.slotAlign);
      if o.None? || o.value > UINT32_MAX || h.controlsOffset != o.value || c.controlOffset > SIZE_MAX - h.controlsOffset ||
         !AddressAligned(c.control.value, c.controlOffset + h.controlsOffset, l.slotAlign)
      then InvalidPool
      else
        var control := ControlSize(h.slotCount, l);
        var payload := PayloadSize(h.slotCount, h.capacity, h.stride, h.alignment);
        if control == 0 || payload == 0 || h.controlsOffset > control ||
           h.slotCount > (control - h.controlsOffset) / l.slotSize || !RangesValid(c, n.payload, control, payload)
        then InvalidPool
        else Ok
  }

  // ---------------------------------------------------------------- theorems

  /** Where slot `i` begins, as an offset in the payload memory. */
  function SlotOffset(c: Config, stride: nat, i: nat): nat {
    c.payloadOffset + i * stride
  }

  lemma ControlSizeExact(count: nat, l: Layout)
    requires l.slotSize > 0 && ControlSize(count, l) != 0
    ensures var o := AlignUp(l.headerSize, l.slotAlign);
            o.Some? && l.headerSize <= o.value && ControlSize(count, l) == o.value + count * l.slotSize <= SIZE_MAX
  {
    AlignUpExact(l.headerSize, l.slotAlign);
    ProductFits(count, l.slotSize, SIZE_MAX - AlignUp(l.headerSize, l.slotAlign).value);
  }

  lemma ProductFits(n: nat, d: nat, max: nat)
    requires d > 0 && n <= max / d
    ensures n * d <= max
  {
    assert n * d <= max / d * d;
  }

  lemma PayloadSizeExact(count: nat, capacity: nat, stride: nat, alignment: nat)
    requires stride > 0 && PayloadSize(count, capacity, stride, alignment) != 0
    ensures PayloadSize(count, capacity, stride, alignment) == count * stride <= SIZE_MAX
    ensures stride >= capacity
  {
    ProductFits(count, stride, SIZE_MAX);
  }

  /** Without a stride of its own a configuration gets the least aligned one. */
  lemma DefaultPayloadSize(count: nat, capacity: nat, alignment: nat)
    requires PayloadSize(count, capacity, 0, alignment) != 0
    ensures var s := AlignUp(capacity, alignment);
            && s.Some? && alignment > 0 && Aligned(s.value, alignment) && capacity <= s.value < capacity + alignment
            && PayloadSize(count, capacity, 0, alignment) == count * s.value <= SIZE_MAX
  {
    AlignUpExact(capacity, alignment);
    ProductFits(count, AlignUp(capacity, alignment).value, SIZE_MAX);
  }

  lemma SlotsInOrder(c: Config, stride: nat, i: nat, j: nat, count: nat)
    requires i < j <= count
    ensures c.payloadOffset <= SlotOffset(c, stride, i)
    ensures SlotOffset(c, stride, i) + stride <= SlotOffset(c, stride, j) <= c.payloadOffset + count * stride
  {
    assert (i + 1) * stride == i * stride + stride;
    assert (i + 1) * stride <= j * stride <= count * stride;
  }

  lemma {:induction false} MultipleAligned(i: nat, stride: nat, a: nat, x: nat)
    requires a > 0 && Aligned(stride, a) && Aligned(x, a)
    ensures Aligned(x + i * stride, a)
  {
    if i > 0 {
      MultipleAligned(i - 1, stride, a, x);
      assert x + i * stride == x + (i - 1) * stride + stride;
      SumAligned(x + (i - 1) * stride, stride, a);
    }
  }

  lemma SumAligned(x: nat, y: nat, a: nat)
    requires a > 0 && Aligned(x, a) && Aligned(y, a)
    ensures Aligned(x + y, a)
  {
    assert x == a * (x / a) && y == a * (y / a);
    assert x + y == a * (x / a + y / a);
    Ring.RemainderUnique(x + y, a, x / a + y / a, 0);
  }

  /** What an accepted configuration comes to. */
  lemma AcceptedFacts(c: Config, l: Layout)
    requires l.headerAlign > 0 && l.slotSize > 0 && Format(c, l).Formatted?
    ensures var n, h := Normalize(c, l), Format(c, l).header;
            && n.Normal? && h.stride == n.stride >= c.capacity > 0 && c.slotCount > 0
            && c.alignment > 0 && Aligned(n.stride, c.alignment)
            && Aligned(c.payloadOffset, c.alignment) && Aligned(n.payload.base + c.payloadOffset, c.alignment)
            && PayloadSize(c.slotCount, c.capacity, n.stride, c.alignment) == c.slotCount * n.stride
            && RangeFits(n.payload, c.payloadOffset, c.slotCount * n.stride)
            && RangesValid(c, n.payload, ControlSize(c.slotCount, l), c.slotCount * n.stride)
            && ControlSize(c.slotCount, l) == h.controlsOffset + c.slotCount * l.slotSize
            && l.headerSize <= h.controlsOffset
  {
    var n := Normalize(c, l);
    PayloadSizeExact(c.slotCount, c.capacity, n.stride, c.alignment);
    ControlSizeExact(c.slotCount, l);
    MaskTest(n.payload.base + c.payloadOffset, c.alignment);
  }

  lemma SlotBounds(c: Config, l: Layout, i: nat, j: nat)
    requires l.headerAlign > 0 && l.slotSize > 0 && Format(c, l).Formatted?
    requires i < c.slotCount && i < j
    ensures var n := Normalize(c, l);
            var at := SlotOffset(c, n.stride, i);
            && c.payloadOffset <= at && at + c.capacity <= at + n.stride <= SlotOffset(c, n.stride, j)
            && at + n.stride <= n.payload.size && n.payload.base + at + n.stride <= SIZE_MAX
  {
    AcceptedFacts(c, l);
    var n := Normalize(c, l);
    SlotsInOrder(c, n.stride, i, j, j);
    SlotsInOrder(c, n.stride, i, c.slotCount, c.slotCount);
  }

  lemma SlotAlignment(c: Config, l: Layout, i: nat)
    requires l.headerAlign > 0 && l.slotSize > 0 && Format(c, l).Formatted? && i < c.slotCount
    ensures var n := Normalize(c, l);
            var at := SlotOffset(c, n.stride, i);
            c.alignment > 0 && Aligned(at, c.alignment) && Aligned(n.payload.base + at, c.alignment)
  {
    AcceptedFacts(c, l);
    var n := Normalize(c, l);
    MultipleAligned(i, n.stride, c.alignment, c.payloadOffset);
    MultipleAligned(i, n.stride, c.alignment, n.payload.base + c.payloadOffset);
  }

  /**
   In an accepted pool every slot lies inside its memory and its address does not
   overflow, is aligned, and ends before the next slot begins.
   */
  lemma SlotsAreSound(c: Config, l: Layout, i: nat, j: nat)
    requires l.headerAlign > 0 && l.slotSize > 0 && Format(c, l).Formatted?
    requires i < c.slotCount && i < j
    ensures var n := Normalize(c, l);
            var at := SlotOffset(c, n.stride, i);
            && c.payloadOffset <= at && at + c.capacity <= at + n.stride <= SlotOffset(c, n.stride, j)
            && at + n.stride <= n.payload.size && n.payload.base + at + n.stride <= SIZE_MAX
            && c.alignment > 0 && Aligned(at, c.alignment) && Aligned(n.payload.base + at, c.alignment)
  {
    SlotBounds(c, l, i, j);
    SlotAlignment(c, l, i);
  }

  /** Two slots never share a byte. */
  lemma SlotsDisjoint(c: Config, l: Layout, i: nat, j: nat, p: nat)
    requires l.headerAlign > 0 && l.slotSize > 0 && Format(c, l).Formatted?
    requires i < c.slotCount && j < c.slotCount && i != j
    requires var n := Normalize(c, l); SlotOffset(c, n.stride, i) <= p < SlotOffset(c, n.stride, i) + c.capacity
    ensures var n := Normalize(c, l); !(SlotOffset(c, n.stride, j) <= p < SlotOffset(c, n.stride, j) + c.capacity)
  {
    if i < j { SlotBounds(c, l, i, j); } else { SlotBounds(c, l, j, i); }
  }

  /** Neither do a slot and the header or the slot controls when both lie in one memory. */
  lemma SlotApartFromControls(c: Config, l: Layout, i: nat, p: nat)
    requires l.headerAlign > 0 && l.slotSize > 0 && Format(c, l).Formatted? && i < c.slotCount
    requires c.control.value == Normalize(c, l).payload
    requires var n := Normalize(c, l); SlotOffset(c, n.stride, i) <= p < SlotOffset(c, n.stride, i) + c.capacity
    ensures !(c.controlOffset <= p < c.controlOffset + ControlSize(c.slotCount, l))
  {
    ControlsApart(c, l);
    SlotBounds(c, l, i, c.slotCount);
    var n := Normalize(c, l);
    OutsideRange(c.payloadOffset, SlotOffset(c, n.stride, i), c.capacity, SlotOffset(c, n.stride, c.slotCount),
                 c.controlOffset, ControlSize(c.slotCount, l), p);
  }

  /** A point of a part of one range lies outside a range that does not meet it. */
  lemma OutsideRange(from: nat, at: nat, size: nat, to: nat, start: nat, length: nat, p: nat)
    requires from <= at && at + size <= to && !(start < to && from < start + length) && at <= p < at + size
    ensures !(start <= p < start + length)
  {
  }

  lemma ControlsApart(c: Config, l: Layout)
    requires l.headerAlign > 0 && l.slotSize > 0 && Format(c, l).Formatted?
    requires c.control.value == Normalize(c, l).payload
    ensures var end := SlotOffset(c, Normalize(c, l).stride, c.slotCount);
            !(c.controlOffset < end && c.payloadOffset < c.controlOffset + ControlSize(c.slotCount, l))
  {
    AcceptedFacts(c, l);
  }

  /** Every guard page is a whole page between its slot and the next one. */
  lemma GuardPagesBetween(c: Config, l: Layout, i: nat)
    requires l.headerAlign > 0 && l.slotSize > 0 && Format(c, l).Formatted? && c.guard && i < c.slotCount
    ensures var n := Normalize(c, l);
            var page, at := n.payload.page, SlotOffset(c, n.stride, i) + c.capacity;
            && page > 0 && Aligned(at, page) && at + page == SlotOffset(c, n.stride, i + 1)
            && at + page <= n.payload.size
  {
    AcceptedFacts(c, l);
    var n := Normalize(c, l);
    var page := n.payload.page;
    SlotsInOrder(c, n.stride, i, i + 1, c.slotCount);
    assert SlotOffset(c, n.stride, i + 1) == SlotOffset(c, n.stride, i) + n.stride by {
      assert (i + 1) * n.stride == i * n.stride + n.stride;
    }
    assert Aligned(n.stride, page) by {
      assert Aligned(page, page) by { Ring.RemainderUnique(page, page, 1, 0); }
      SumAligned(c.capacity, page, page);
    }
    MultipleAligned(i, n.stride, page, c.payloadOffset);
    SumAligned(SlotOffset(c, n.stride, i), c.capacity, page);
  }

  /** Header and slot controls lie inside the control memory, one after the
      other, and every control is aligned. */
  lemma ControlsAreSound(c: Config, l: Layout, i: nat)
    requires l.headerAlign > 0 && l.slotSize > 0 && Format(c, l).Formatted? && i < c.slotCount
    requires l.slotAlign > 0 && Aligned(l.slotSize, l.slotAlign)
    ensures var h, m := Format(c, l).header, c.control.value;
            var at := c.controlOffset + h.controlsOffset + i * l.slotSize;
            && c.controlOffset + l.headerSize <= c.controlOffset + h.controlsOffset <= at
            && at + l.slotSize <= m.size && m.base + at + l.slotSize <= SIZE_MAX
            && Aligned(m.base + at, l.slotAlign)
  {
    var h, m := Format(c, l).header, c.control.value;
    ControlsPlaced(c, l);
    ControlInside(m.size, m.base, c.controlOffset, h.controlsOffset, l.slotSize, c.slotCount, i);
    MultipleAligned(i, l.slotSize, l.slotAlign, m.base + (c.controlOffset + h.controlsOffset));
  }

  lemma ControlsPlaced(c: Config, l: Layout)
    requires l.headerAlign > 0 && l.slotSize > 0 && l.slotAlign > 0 && Format(c, l).Formatted?
    ensures var h, m := Format(c, l).header, c.control.value;
            var size := h.controlsOffset + c.slotCount * l.slotSize;
            && l.headerSize <= h.controlsOffset && c.controlOffset + size <= m.size
            && m.base + c.controlOffset + size <= SIZE_MAX
            && Aligned(m.base + (c.controlOffset + h.controlsOffset), l.slotAlign)
  {
    FormatFacts(c, l);
    ControlSizeExact(c.slotCount, l);
    var h, m := Format(c, l).header, c.control.value;
    MaskTest(m.base + (c.controlOffset + h.controlsOffset), l.slotAlign);
  }

  lemma ControlInside(memory: nat, base: nat, from: nat, offset: nat, size: nat, count: nat, i: nat)
    requires i < count && from + (offset + count * size) <= memory && base + from + (offset + count * size) <= SIZE_MAX
    ensures var at := from + offset + i * size;
            from + offset <= at && at + size <= memory && base + at + size <= SIZE_MAX
  {
    RowsInOrder(i, count, size);
  }

  lemma RowsInOrder(i: nat, count: nat, size: nat)
    requires i < count
    ensures 0 <= i * size && i * size + size <= count * size
  {
    assert (i + 1) * size == i * size + size;
    assert (i + 1) * size <= count * size;
  }

  lemma CountFits(offset: nat, count: nat, size: nat)
    requires size > 0
    ensures (offset + count * size - offset) / size == count
  {
    Ring.RemainderUnique(count * size, size, count, 0);
  }

  /** The three tests that attach adds to those of format. */
  lemma AttachExtras(offset: nat, count: nat, size: nat, header: nat, control: nat, at: nat, memory: nat)
    requires size > 0 && control == offset + count * size && header <= offset && at <= memory && control <= memory - at
    ensures header <= memory - at && offset <= control && (control - offset) / size == count
  {
    CountFits(offset, count, size);
    assert count * size >= 0;
  }

  lemma FormatFacts(c: Config, l: Layout)
    requires l.headerAlign > 0 && l.slotSize > 0 && Format(c, l).Formatted?
    ensures var h := Format(c, l).header;
            && AlignUp(l.headerSize, l.slotAlign) == Some(h.controlsOffset) && ControlSize(c.slotCount, l) != 0
            && c.control.Some? && RangeFits(c.control.value, c.controlOffset, ControlSize(c.slotCount, l))
  {
  }

  lemma AttachTests(c: Config, l: Layout)
    requires l.headerAlign > 0 && l.slotSize > 0 && Format(c, l).Formatted?
    ensures var h, control, m := Format(c, l).header, ControlSize(c.slotCount, l), c.control.value;
            && c.controlOffset <= m.size && l.headerSize <= m.size - c.controlOffset
            && h.controlsOffset <= control && (control - h.controlsOffset) / l.slotSize == c.slotCount
  {
    FormatFacts(c, l);
    ControlSizeExact(c.slotCount, l);
    AttachExtras(Format(c, l).header.controlsOffset, c.slotCount, l.slotSize, l.headerSize, ControlSize(c.slotCount, l),
                 c.controlOffset, c.control.value.size);
  }

  lemma AttachSame(c: Config, l: Layout)
    requires l.headerAlign > 0 && l.slotSize > 0 && Format(c, l).Formatted?
    ensures Attach(c, l, Format(c, l).header) == Ok
  {
    AttachTests(c, l);
  }

  lemma AttachMatches(d: Config, l: Layout, h: Header)
    requires l.headerAlign > 0 && l.slotSize > 0 && Attach(d, l, h) == Ok
    ensures d.slotCount == h.slotCount && d.capacity == h.capacity && d.alignment == h.alignment
    ensures Normalize(d, l).Normal? && Normalize(d, l).stride == h.stride
  {
  }

  /** A pool can be attached with the configuration it was formatted with, and
      with no other count, capacity, stride or alignment. */
  lemma AttachAfterFormat(c: Config, d: Config, l: Layout)
    requires l.headerAlign > 0 && l.slotSize > 0 && Format(c, l).Formatted?
    ensures Attach(c, l, Format(c, l).header) == Ok
    ensures Attach(d, l, Format(c, l).header) == Ok ==>
              d.slotCount == c.slotCount && d.capacity == c.capacity && d.alignment == c.alignment &&
              Normalize(d, l).stride == Normalize(c, l).stride
  {
    AttachSame(c, l);
    if Attach(d, l, Format(c, l).header) == Ok {
      AttachMatches(d, l, Format(c, l).header);
    }
  }

  // -------------------------------------------------- which are accepted

  /** The address of `offset` is a multiple of `a` and can be formed. */
  ghost predicate AddressAt(m: Memory, offset: nat, a: nat) {
    m.base != 0 && a > 0 && PowerOfTwo(a) && m.base + offset <= SIZE_MAX && Aligned(m.base + offset, a)
  }

  ghost predicate LiesInside(m: Memory, offset: nat, length: nat) {
    m.base != 0 && offset + length <= m.size && m.base + offset + length <= SIZE_MAX
  }

  ghost predicate WholePages(c: Config, m: Memory) {
    && 0 < m.page <= UINT32_MAX && m.protects && Aligned(c.payloadOffset, m.page) && Aligned(c.capacity, m.page)
    && AddressAt(m, c.payloadOffset, m.page)
  }

  /** The stride a configuration comes to. */
  ghost predicate StrideIs(c: Config, m: Memory, s: u32)
    requires c.alignment > 0
  {
    if c.guard then WholePages(c, m) && s == c.capacity + m.page && (c.stride == 0 || c.stride == s)
    else if c.stride != 0 then s == c.stride
    else Aligned(s, c.alignment) && c.capacity <= s < c.capacity + c.alignment
  }

  function PayloadOf(c: Config): Memory
    requires c.control.Some?
  {
    if c.payload.Some? then c.payload.value else c.control.value
  }

  /** The tests of the configuration alone: stride `s` is the one it comes to. */
  ghost predicate WellShaped(c: Config, l: Layout, s: u32) {
    && c.control.Some? && c.slotCount > 0 && c.capacity > 0 && c.alignment > 0 && PowerOfTwo(c.alignment) && !c.otherFlags
    && l.headerAlign > 0 && Aligned(c.controlOffset, l.headerAlign)
    && AddressAt(c.control.value, c.controlOffset, l.headerAlign)
    && Aligned(c.payloadOffset, c.alignment) && AddressAt(PayloadOf(c), c.payloadOffset, c.alignment)
    && (c.strict ==> WholePages(c, PayloadOf(c)))
    && StrideIs(c, PayloadOf(c), s) && s >= c.capacity && Aligned(s, c.alignment)
    && c.control.value.readWrite && c.control.value.atomics && PayloadOf(c).readWrite
  }

  /** The tests against the memories: the controls begin at `o`. */
  ghost predicate WellPlaced(c: Config, l: Layout, s: u32, o: nat)
    requires c.control.Some? && l.slotAlign > 0
  {
    && Aligned(o, l.slotAlign) && l.headerSize <= o < l.headerSize + l.slotAlign && o <= UINT32_MAX
    && AddressAt(c.control.value, c.controlOffset + o, l.slotAlign)
    && LiesInside(c.control.value, c.controlOffset, o + c.slotCount * l.slotSize)
    && LiesInside(PayloadOf(c), c.payloadOffset, c.slotCount * s)
    && (c.control.value == PayloadOf(c) ==>
          || c.payloadOffset + c.slotCount * s <= c.controlOffset
          || c.controlOffset + (o + c.slotCount * l.slotSize) <= c.payloadOffset)
  }

  lemma AddressTest(m: Memory, offset: nat, a: nat)
    ensures AddressAligned(m, offset, a) <==> AddressAt(m, offset, a)
  {
    PowerOfTwoIff(a);
    if IsPowerOfTwo(a) {
      MaskTest(m.base + offset, a);
    }
  }

  lemma RangeTest(m: Memory, offset: nat, length: nat)
    ensures RangeFits(m, offset, length) <==> LiesInside(m, offset, length)
  {
  }

  lemma PageTest(c: Config, m: Memory)
    ensures PagesUsable(c, m) <==> WholePages(c, m)
  {
    AddressTest(m, c.payloadOffset, m.page);
  }

  /** Only one multiple lies within one alignment of a value. */
  lemma OneMultiple(value: nat, a: nat, x: nat, y: nat)
    requires a > 0 && Aligned(x, a) && Aligned(y, a) && value <= x < value + a && value <= y < value + a
    ensures x == y
  {
    assert x == a * (x / a) && y == a * (y / a);
    assert x - y == a * (x / a - y / a);
    Ring.MultipleIsFar(a, x / a - y / a);
  }

  lemma AlignUpIs(value: nat, a: nat, x: nat)
    requires IsPowerOfTwo(a) && value + a - 1 <= SIZE_MAX && Aligned(x, a) && value <= x < value + a
    ensures AlignUp(value, a) == Some(x)
  {
    AlignUpExact(value, a);
    OneMultiple(value, a, x, AlignUp(value, a).value);
  }

  lemma QuotientFits(n: nat, d: nat, max: nat)
    requires d > 0
    ensures n <= max / d <==> n * d <= max
  {
    if n <= max / d {
      ProductFits(n, d, max);
    } else {
      assert max < d * (max / d) + d;
      assert n * d >= (max / d + 1) * d;
    }
  }

  lemma PowerIsSmall(a: u32)
    requires PowerOfTwo(a)
    ensures IsPowerOfTwo(a)
  {
    PowerOfTwoIff(a);
  }

  lemma StrideTest(c: Config, m: Memory, s: u32)
    requires c.alignment > 0 && PowerOfTwo(c.alignment) && c.capacity > 0
    ensures StrideOf(c, m) == Normal(m, s) <==> StrideIs(c, m, s)
  {
    PageTest(c, m);
    PowerIsSmall(c.alignment);
    if !c.guard && c.stride == 0 {
      AlignUpExact(c.capacity, c.alignment);
      if StrideIs(c, m, s) {
        AlignUpIs(c.capacity, c.alignment, s);
      }
    }
  }

  /** Normalization accepts exactly the well shaped configurations, with the stride
      that they come to. */
  lemma NormalizeExact(c: Config, l: Layout, s: u32)
    requires l.headerAlign > 0
    ensures (c.control.Some? && Normalize(c, l) == Normal(PayloadOf(c), s)) <==> WellShaped(c, l, s)
  {
    PowerOfTwoIff(c.alignment);
    if c.control.Some? && c.slotCount > 0 && c.capacity > 0 && IsPowerOfTwo(c.alignment) {
      NormalizeFrom(c, l, s, PayloadOf(c));
    }
  }

  lemma NormalizeFrom(c: Config, l: Layout, s: u32, m: Memory)
    requires l.headerAlign > 0 && c.control.Some? && m == PayloadOf(c) && c.slotCount > 0 && c.capacity > 0
    requires IsPowerOfTwo(c.alignment) && PowerOfTwo(c.alignment)
    ensures Normalize(c, l) == Normal(m, s) <==> WellShaped(c, l, s)
  {
    AddressTest(c.control.value, c.controlOffset, l.headerAlign);
    AddressTest(m, c.payloadOffset, c.alignment);
    PageTest(c, m);
    StrideTest(c, m, s);
    StrideKnown(c, m, s);
  }

  lemma StrideKnown(c: Config, m: Memory, s: u32)
    requires c.alignment > 0
    ensures StrideOf(c, m) == Normal(m, s) <==> StrideOf(c, m).Normal? && StrideOf(c, m).stride == s
  {
  }

  lemma ControlSizeIs(count: nat, l: Layout, o: nat)
    requires l.slotSize > 0 && count > 0 && AlignUp(l.headerSize, l.slotAlign) == Some(o)
    requires o + count * l.slotSize <= SIZE_MAX
    ensures ControlSize(count, l) == o + count * l.slotSize
  {
    QuotientFits(count, l.slotSize, SIZE_MAX - o);
  }

  lemma PayloadSizeIs(count: nat, capacity: nat, s: nat, alignment: nat)
    requires count > 0 && capacity > 0 && IsPowerOfTwo(alignment) && alignment > 0
    requires s >= capacity && Aligned(s, alignment) && count * s <= SIZE_MAX
    ensures PayloadSize(count, capacity, s, alignment) == count * s
  {
    QuotientFits(count, s, SIZE_MAX);
  }

  lemma SizesAre(c: Config, l: Layout, s: u32, o: nat)
    requires l.slotSize > 0 && l.slotAlign > 0 && WellShaped(c, l, s) && WellPlaced(c, l, s, o) && l.headerSize + l.slotAlign <= U32
    ensures AlignUp(l.headerSize, l.slotAlign) == Some(o)
    ensures ControlSize(c.slotCount, l) == o + c.slotCount * l.slotSize
    ensures PayloadSize(c.slotCount, c.capacity, s, c.alignment) == c.slotCount * s
  {
    PowerOfTwoIff(l.slotAlign);
    PowerOfTwoIff(c.alignment);
    AlignUpIs(l.headerSize, l.slotAlign, o);
    ControlSizeIs(c.slotCount, l, o);
    PayloadSizeIs(c.slotCount, c.capacity, s, c.alignment);
  }

  /** A configuration that is well shaped and well placed is accepted, with that
      stride and those controls. */
  lemma FormatAccepts(c: Config, l: Layout, s: u32, o: nat)
    requires l.headerAlign > 0 && l.slotSize > 0 && l.slotAlign > 0 && l.headerSize + l.slotAlign <= U32
    requires WellShaped(c, l, s) && WellPlaced(c, l, s, o)
    ensures Format(c, l) == Formatted(Header(c.slotCount, c.capacity, s, o, c.alignment))
  {
    NormalizeExact(c, l, s);
    SizesAre(c, l, s, o);
    PlacedRanges(c, l, s, o, o + c.slotCount * l.slotSize, c.slotCount * s);
    FormatFrom(c, l, s, o, o + c.slotCount * l.slotSize, c.slotCount * s);
  }

  /** The same tests on given sizes. */
  lemma PlacedRanges(c: Config, l: Layout, s: u32, o: nat, control: nat, payload: nat)
    requires l.slotSize > 0 && l.slotAlign > 0 && c.control.Some? && WellPlaced(c, l, s, o) && c.slotCount > 0 && s > 0
    requires control == o + c.slotCount * l.slotSize && payload == c.slotCount * s
    ensures control > 0 && payload > 0 && RangesValid(c, PayloadOf(c), control, payload)
    ensures c.controlOffset <= SIZE_MAX - o && AddressAligned(c.control.value, c.controlOffset + o, l.slotAlign)
  {
    RangeTest(c.control.value, c.controlOffset, control);
    RangeTest(PayloadOf(c), c.payloadOffset, payload);
    AddressTest(c.control.value, c.controlOffset + o, l.slotAlign);
    Ring.MultipleIsFar(c.slotCount, s);
    Ring.MultipleIsFar(c.slotCount, l.slotSize);
  }

  lemma FormatFrom(c: Config, l: Layout, s: u32, o: nat, control: nat, payload: nat)
    requires l.headerAlign > 0 && l.slotSize > 0 && c.control.Some?
    requires Normalize(c, l) == Normal(PayloadOf(c), s) && AlignUp(l.headerSize, l.slotAlign) == Some(o) && o <= UINT32_MAX
    requires ControlSize(c.slotCount, l) == control > 0
    requires PayloadSize(c.slotCount, c.capacity, s, c.alignment) == payload > 0
    requires RangesValid(c, PayloadOf(c), control, payload) && c.controlOffset <= SIZE_MAX - o
    requires AddressAligned(c.control.value, c.controlOffset + o, l.slotAlign)
    ensures Format(c, l) == Formatted(Header(c.slotCount, c.capacity, s, o, c.alignment))
  {
  }

  /** Whatever is accepted is well shaped and well placed. */
  lemma FormatDemands(c: Config, l: Layout)
    requires l.headerAlign > 0 && l.slotSize > 0 && l.slotAlign > 0 && Format(c, l).Formatted?
    ensures var h := Format(c, l).header; WellShaped(c, l, h.stride) && WellPlaced(c, l, h.stride, h.controlsOffset)
  {
    var h := Format(c, l).header;
    NormalizedPayload(c, l);
    NormalizeExact(c, l, h.stride);
    AcceptedFacts(c, l);
    FormatFacts(c, l);
    AlignUpExact(l.headerSize, l.slotAlign);
    RangeTest(c.control.value, c.controlOffset, h.controlsOffset + c.slotCount * l.slotSize);
    RangeTest(PayloadOf(c), c.payloadOffset, c.slotCount * h.stride);
    AddressTest(c.control.value, c.controlOffset + h.controlsOffset, l.slotAlign);
  }

  lemma NormalizedPayload(c: Config, l: Layout)
    requires l.headerAlign > 0 && Normalize(c, l).Normal?
    ensures c.control.Some? && Normalize(c, l).payload == PayloadOf(c)
  {
  }

  /** An ordinary pool: four slots of a page behind the controls in one memory. */
  lemma OrdinaryPool()
    ensures var m := Memory(1, 0x1_0000, 0x10_0000, 0x1000, true, true, false);
            var c := Config(Some(m), None, 0, 0x1_0000, 4, 0x1000, 0, 64, false, false, false);
            Format(c, Layout(8192, 64, 512, 64)) == Formatted(Header(4, 0x1000, 0x1000, 8192, 64))
  {
    var m := Memory(1, 0x1_0000, 0x10_0000, 0x1000, true, true, false);
    var c := Config(Some(m), None, 0, 0x1_0000, 4, 0x1000, 0, 64, false, false, false);
    assert 64 == VisitedSet.Mask(6);
    assert PowerOfTwo(64);
    FormatAccepts(c, Layout(8192, 64, 512, 64), 0x1000, 8192);
  }

  /** Protects one guard page after each slot; stops at the first failure. */
  method ApplyGuardPages(c: Config, m: Memory, stride: u32, faulty: set<nat>) returns (status: Status, pages: seq<nat>)
    ensures !c.guard ==> status == Ok && pages == []
    ensures c.guard && m.page != 0 ==>
              && |pages| <= c.slotCount
              && (forall i :: 0 <= i < |pages| ==> i !in faulty && pages[i] == SlotOffset(c, stride, i) + c.capacity)
              && status == (if |pages| == c.slotCount then Ok else Platform)
              && (|pages| < c.slotCount ==> |pages| in faulty)
    ensures c.guard && m.page == 0 ==> status == UnsupportedMemory && pages == []
  {
    pages := [];
    if !c.guard {
      return Ok, pages;
    }
    if m.page == 0 {
      return UnsupportedMemory, pages;
    }
    var i := 0;
    while i < c.slotCount
      invariant 0 <= i == |pages| <= c.slotCount
      invariant forall j :: 0 <= j < i ==> j !in faulty && pages[j] == SlotOffset(c, stride, j) + c.capacity
    {
      if i in faulty {
        return Platform, pages;
      }
      pages := pages + [c.payloadOffset + i * stride + c.capacity];
      i := i + 1;
    }
    return Ok, pages;
  }
}
