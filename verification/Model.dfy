/**
 The vocabulary of the zIPC shared pool: widths, component identities, slot
 states, claim tokens, descriptors and the slot control record.

 Machine integers are modelled as bounded naturals; every addition that may
 wrap is written through `Inc32` or `Dec32`.
 */
module Model {

  const U16 := 0x1_0000
  const U32 := 0x1_0000_0000
  const U64 := 0x1_0000_0000_0000_0000

  type u32 = n: nat | n < 0x1_0000_0000
  type u64 = n: nat | n < 0x1_0000_0000_0000_0000

  const HOP_LIMIT_UNLIMITED: u32 := 0xFFFF_FFFF
  const DEADLINE_NONE: u64 := 0xFFFF_FFFF_FFFF_FFFF
  const COMPONENT_ID_MIN := 1
  const COMPONENT_ID_MAX := 254
  const NO_COMPONENT := 0xFFFF

  /** A 16-bit component identifier; only 1..254 name a component. */
  type Component = n: nat | n < 0x1_0000

  predicate ValidComponent(c: Component) {
    COMPONENT_ID_MIN <= c <= COMPONENT_ID_MAX
  }

  /** 32-bit increment. */
  function Inc32(x: u32): u32 { (x + 1) % U32 }

  /** 32-bit decrement. */
  function Dec32(x: u32): u32 { (x + U32 - 1) % U32 }

  /** The generation that follows `g`: zero is skipped on wrap-around. */
  function NextGeneration(g: u32): u32 {
    if Inc32(g) == 0 then 1 else Inc32(g)
  }

  datatype Status =
    | Ok
    | InvalidArgument | InvalidPool | NoBuffer | InvalidHandle | StaleHandle
    | InvalidState | NotOwner | InvalidReceiver | SequenceMismatch
    | RegionOverflow | UnsupportedMemory | Transport | Platform | Timeout
    | HopLimit | Deadline | ComponentStale | RecoveryRequired | InvalidBuffer
    | BufferTooSmall | EntropyUnavailable | TransportPublished
    | RecoveryUnsupported

  datatype SlotState = Free | Claiming | Owned | Transfer | Error

  datatype ClaimKind = Allocate | Send | Receive | Release | Rollback

  /** The claim word of a slot: empty, or the operation and runtime holding it. */
  datatype Token =
    | NoToken
    | Token(kind: ClaimKind, component: Component, epoch: u32)

  predicate TokenOf(t: Token, c: Component, e: u32) {
    t.Token? && t.component == c && t.epoch == e
  }

  /** The logical data window of a slot. */
  datatype Region = Region(offset: u32, length: u32)

  const EMPTY_REGION := Region(0, 0)

  predicate Fits(r: Region, capacity: u32) {
    r.offset + r.length <= capacity
  }

  /** A transfer descriptor; the handle is the pair (slot, generation). */
  datatype Message = Message(
    slot: nat,
    generation: u32,
    poolId: u32,
    source: Component,
    destination: Component,
    sequence: u32)

  /** The owner-protected control record of one slot. */
  datatype Slot = Slot(
    state: SlotState,
    generation: u32,
    owner: Component,
    nextOwner: Component,
    ownerEpoch: u32,
    hopCount: u32,
    hopLimit: u32,
    visited: set<Component>,
    id: u64,
    parent: u64,
    region: Region,
    sequence: u32,
    acquired: u64,
    deadline: u64,
    token: Token,
    // what send and release save before they take the claim
    prevSequence: u32,
    prevRegion: Region,
    prevOwner: Component,
    prevEpoch: u32,
    // what send saves for the undo of the receiver's claim
    linkId: u64,
    sourceId: Component,
    sourceEpoch: u32,
    sourceHops: u32,
    sourceAcquired: u64,
    sourceVisited: set<Component>)
}
