/**
 The claim discipline of the slots, one shared access at a time, for any number
 of runtimes, any of which may be killed anywhere, and for any number of online
 restarts that run at the same time.

 A runtime is one (component, epoch) and one thread; it is named by its index.
 What an operation decides from the contents of a slot is left open, except for
 the owner test of send and release: whatever the tests say, claims exclude each
 other.
 */
module Exclusivity {
  import opened Model

  datatype Claim = NoClaim | Claim(kind: ClaimKind, who: nat)

  datatype Cell = Cell(
    state: SlotState,
    claim: Claim,       // the claim token
    owner: int,         // the runtime in the owner field, or -1
    was: SlotState,     // bookkeeping: the state before ERROR
    locker: nat)        // bookkeeping: the restart that wrote ERROR

  datatype Pc =
    | Idle
    | Seen(kind: ClaimKind, i: nat)     // read the state the operation starts from
    | Want(kind: ClaimKind, i: nat)     // passed the tests before the claim
    | Hold(kind: ClaimKind, i: nat)     // took the token
    | Drop(kind: ClaimKind, i: nat)     // lost the state, will clear the token
    | Crit(kind: ClaimKind, i: nat)     // won the state: inside the claim
    | Done(kind: ClaimKind, i: nat)     // published, will clear the token
    | Taken(kind: ClaimKind, i: nat)    // killed inside the claim, under repair
    // the restart of the killed runtime `dead`
    | RNext(dead: nat)
    | RState(dead: nat, i: nat, seen: SlotState)
    | RToken(dead: nat, i: nat, kind: ClaimKind, seen: SlotState)
    | RClaim(dead: nat, i: nat, kind: ClaimKind)
    | RRepair(dead: nat, i: nat, kind: ClaimKind)
    | RCleared(dead: nat, i: nat, to: SlotState)
    | RProbe(dead: nat, i: nat, seen: SlotState)
    | RHeld(dead: nat, i: nat, seen: SlotState)

  datatype State = State(cells: seq<Cell>, alive: seq<bool>, pcs: seq<Pc>)

  function From(kind: ClaimKind): SlotState {
    match kind
    case Allocate => Free
    case Send => Owned
    case Release => Owned
    case Receive => Transfer
    case Rollback => Transfer
  }

  predicate OwnerTest(kind: ClaimKind) {
    kind == Send || kind == Release
  }

  /** What an operation may publish when it leaves its claim. */
  predicate MayPublish(kind: ClaimKind, to: SlotState) {
    match kind
    case Allocate => to == Owned || to == Free
    case Send => to == Transfer || to == Owned
    case Receive => to == Owned || to == Transfer || to == Free
    case Release => to == Free || to == Owned
    case Rollback => to == Owned || to == Transfer
  }

  /** The open decisions of one step. */
  datatype Choice =
    | Kill
    | Begin(kind: ClaimKind, i: nat)
    | Restart(dead: nat)
    | Look(i: nat)
    | Finish
    | Go(pass: bool, to: SlotState)

  predicate Restarting(p: Pc) {
    p.RNext? || p.RState? || p.RToken? || p.RClaim? || p.RRepair? || p.RCleared? || p.RProbe? || p.RHeld?
  }

  predicate Tokened(p: Pc) {
    p.Hold? || p.Drop? || p.Crit? || p.Done?
  }

  predicate Working(p: Pc) {
    p.Seen? || p.Want? || Tokened(p) || p.Taken?
  }

  predicate Enabled(s: State, a: nat, ch: Choice) {
    && a < |s.pcs| == |s.alive| && s.alive[a]
    && match ch
       case Kill => !Restarting(s.pcs[a])
       case Begin(kind, i) => s.pcs[a].Idle? && i < |s.cells|
       case Restart(d) =>
         s.pcs[a].Idle? && d < |s.pcs| && !s.alive[d] &&
         forall b :: 0 <= b < |s.pcs| && Restarting(s.pcs[b]) ==> s.pcs[b].dead != d
       case Look(i) => s.pcs[a].RNext? && i < |s.cells|
       case Finish => s.pcs[a].RNext?
       case Go(pass, to) =>
         (match s.pcs[a]
          case Idle => false
          case Taken(_, _) => false
          case RNext(_) => false
          case Crit(kind, _) => MayPublish(kind, to)
          case _ => true) &&
         (Working(s.pcs[a]) ==> s.pcs[a].i < |s.cells|) &&
         (Restarting(s.pcs[a]) && !s.pcs[a].RNext? ==> s.pcs[a].i < |s.cells| && s.pcs[a].dead < |s.pcs|)
  }

  function SetPc(s: State, a: nat, p: Pc): State
    requires a < |s.pcs|
  {
    s.(pcs := s.pcs[a := p])
  }

  function SetCell(s: State, i: nat, c: Cell): State
    requires i < |s.cells|
  {
    s.(cells := s.cells[i := c])
  }

  /** The owner field after the writes of an operation that publishes `to`. */
  function OwnerAfter(kind: ClaimKind, to: SlotState, c: Cell, a: nat): int {
    match kind
    case Allocate => if to == Owned then a else -1
    case Send => c.owner
    case Receive => if to == Owned then a else if to == Free then -1 else c.owner
    case Release => if to == Free then -1 else c.owner
    case Rollback => if to == Owned then a else c.owner
  }

  /** The token is cleared only if it is still the given one. */
  function Cleared(s: State, a: nat, i: nat, claim: Claim): State
    requires a < |s.pcs| && i < |s.cells|
  {
    if s.cells[i].claim == claim then SetPc(SetCell(s, i, s.cells[i].(claim := NoClaim)), a, Idle)
    else SetPc(s, a, Idle)
  }

  /** One shared access of a protocol operation. */
  function NextWork(s: State, a: nat, pass: bool, to: SlotState): State
    requires a < |s.pcs| && Working(s.pcs[a]) && !s.pcs[a].Taken? && s.pcs[a].i < |s.cells|
  {
    var i, kind := s.pcs[a].i, s.pcs[a].kind;
    var c := s.cells[i];
    match s.pcs[a]
    case Seen(_, _) =>
      if pass && (OwnerTest(kind) ==> c.owner == a) then SetPc(s, a, Want(kind, i)) else SetPc(s, a, Idle)
    case Want(_, _) =>
      if c.claim.NoClaim? || (kind == Receive && c.claim.kind == Send && c.state == Transfer)
      then SetPc(SetCell(s, i, c.(claim := Claim(kind, a))), a, Hold(kind, i))
      else SetPc(s, a, Idle)
    case Hold(_, _) =>
      if c.state == From(kind) then SetPc(SetCell(s, i, c.(state := Claiming)), a, Crit(kind, i))
      else SetPc(s, a, Drop(kind, i))
    case Crit(_, _) =>
      SetPc(SetCell(s, i, c.(state := to, owner := OwnerAfter(kind, to, c, a))), a, Done(kind, i))
    case Drop(_, _) => Cleared(s, a, i, Claim(kind, a))
    case Done(_, _) => Cleared(s, a, i, Claim(kind, a))
  }

  /** What a restart does after it has read the state and then the token. */
  function AfterLook(c: Cell, d: nat, i: nat, seen: SlotState, pass: bool): Pc {
    if c.claim.Claim? && c.claim.who == d then
      match seen
      case Claiming => if pass then RClaim(d, i, c.claim.kind) else RNext(d)
      case Free => RToken(d, i, c.claim.kind, seen)
      case Owned => RToken(d, i, c.claim.kind, seen)
      case Transfer => if c.claim.kind != Send then RToken(d, i, c.claim.kind, seen)
                       else if pass then RProbe(d, i, seen) else RNext(d)
      case Error => RNext(d)
    else if seen == Owned || (seen == Transfer && pass) then RProbe(d, i, seen)
    else RNext(d)
  }

  /** One shared access of a restart. A repair moves the record of the killed
      runtime along with the slot. */
  function NextRestart(s: State, a: nat, pass: bool): State
    requires a < |s.pcs| && Restarting(s.pcs[a]) && !s.pcs[a].RNext?
    requires s.pcs[a].i < |s.cells| && s.pcs[a].dead < |s.pcs|
  {
    var d, i := s.pcs[a].dead, s.pcs[a].i;
    var c := s.cells[i];
    match s.pcs[a]
    case RState(_, _, seen) => SetPc(s, a, AfterLook(c, d, i, seen, pass))
    case RToken(_, _, kind, seen) =>
      var p := if seen == Owned || (seen == Transfer && pass) then RProbe(d, i, seen) else RNext(d);
      if c.claim == Claim(kind, d) then
        SetPc(SetPc(SetCell(s, i, c.(claim := NoClaim)), d, Idle), a, p)
      else SetPc(s, a, p)
    case RClaim(_, _, kind) =>
      if c.state == Claiming then
        SetPc(SetPc(SetCell(s, i, c.(state := Error, was := Claiming, locker := a)), d, Taken(kind, i)),
              a, RRepair(d, i, kind))
      else SetPc(s, a, RNext(d))
    case RRepair(_, _, kind) =>
      if kind == Allocate then
        SetPc(SetPc(SetCell(s, i, c.(state := Free, owner := -1)), d, Done(kind, i)), a, RToken(d, i, kind, Free))
      else
        var owner := if kind == Release then d else c.owner;
        SetPc(SetPc(SetCell(s, i, c.(claim := NoClaim, owner := owner)), d, Idle),
              a, RCleared(d, i, if kind == Receive then Transfer else Owned))
    case RCleared(_, _, to) =>
      SetPc(SetCell(s, i, c.(state := to)), a, if to == Owned then RProbe(d, i, Owned) else RNext(d))
    case RProbe(_, _, seen) =>
      if c.state == seen then
        SetPc(SetCell(s, i, c.(state := Error, was := seen, locker := a)), a, RHeld(d, i, seen))
      else SetPc(s, a, RNext(d))
    case RHeld(_, _, seen) =>
      var owner := if seen == Owned && c.owner == d then a else c.owner;
      SetPc(SetCell(s, i, c.(state := seen, owner := owner)), a, RNext(d))
  }

  function Next(s: State, a: nat, ch: Choice): State
    requires Enabled(s, a, ch)
  {
    match ch
    case Kill => SetPc(s, a, if Tokened(s.pcs[a]) then s.pcs[a] else Idle).(alive := s.alive[a := false])
    case Begin(kind, i) =>
      if s.cells[i].state == From(kind) then SetPc(s, a, Seen(kind, i)) else s
    case Restart(d) => SetPc(s, a, RNext(d))
    case Look(i) => SetPc(s, a, RState(s.pcs[a].dead, i, s.cells[i].state))
    case Finish => SetPc(s, a, Idle)
    case Go(pass, to) =>
      if Working(s.pcs[a]) then NextWork(s, a, pass, to) else NextRestart(s, a, pass)
  }

  ghost predicate Init(s: State) {
    && |s.pcs| == |s.alive|
    && (forall a :: 0 <= a < |s.pcs| ==> s.pcs[a].Idle? && s.alive[a])
    && (forall i :: 0 <= i < |s.cells| ==>
          s.cells[i].state == Free && s.cells[i].claim.NoClaim? && s.cells[i].owner == -1)
  }

  // --------------------------------------------------------------- invariant

  /** The slot is owned by `a`, possibly under the probe of a restart. */
  predicate Mine(c: Cell, a: nat) {
    c.owner == a && (c.state == Owned || (c.state == Error && c.was == Owned))
  }

  /** A restart inside the exclusive ERROR state of slot `i`. */
  predicate Locks(p: Pc, i: nat) {
    (p.RRepair? || p.RCleared? || p.RHeld?) && p.i == i
  }

  predicate HasClaim(p: Pc, kind: ClaimKind, i: nat) {
    (Tokened(p) || p.Taken?) && p.kind == kind && p.i == i
  }

  ghost predicate WorkerOk(s: State, a: nat)
    requires a < |s.pcs| && Working(s.pcs[a]) && s.pcs[a].i < |s.cells|
  {
    var p := s.pcs[a];
    var c := s.cells[p.i];
    && (p.Hold? || p.Drop? || p.Crit? || p.Taken? || (p.Done? && p.kind != Send) ==> c.claim == Claim(p.kind, a))
    && (p.Crit? ==> c.state == Claiming)
    && (p.Taken? ==> c.state == Error && c.locker < |s.pcs| && s.pcs[c.locker] == RRepair(a, p.i, p.kind))
    && (OwnerTest(p.kind) && p.Seen? && c.owner == a ==> Mine(c, a))
    && (OwnerTest(p.kind) && (p.Want? || p.Hold? || p.Drop?) ==> Mine(c, a))
    && (OwnerTest(p.kind) && p.Crit? ==> c.owner == a)
  }

  /** The slot is in the state a restart has read, up to the probe of another one. */
  predicate Still(c: Cell, seen: SlotState) {
    c.state == seen || (c.state == Error && c.was == seen && seen != Claiming)
  }

  ghost predicate RestartOk(s: State, a: nat)
    requires a < |s.pcs| == |s.alive| && Restarting(s.pcs[a])
  {
    var p := s.pcs[a];
    && s.alive[a] && p.dead < |s.pcs| && !s.alive[p.dead]
    && (!p.RNext? ==> p.i < |s.cells|)
    && (!p.RNext? ==>
          var c, q := s.cells[p.i], s.pcs[p.dead];
          match p
          case RNext(_) => true
          case RState(d, i, seen) =>
            c.claim.Claim? && c.claim.who == d && seen != Error ==> Still(c, seen)
          case RToken(d, i, kind, seen) =>
            c.claim == Claim(kind, d) && Still(c, seen) && seen != Claiming && seen != Error &&
            (kind == Send ==> seen != Transfer)
          case RClaim(d, i, kind) => c.claim == Claim(kind, d) && c.state == Claiming
          case RRepair(d, i, kind) => c.state == Error && c.was == Claiming && c.locker == a && q == Taken(kind, i)
          case RCleared(d, i, to) =>
            c.state == Error && c.was == Claiming && c.locker == a && (to == Owned || to == Transfer) && q.Idle?
          case RProbe(d, i, seen) =>
            (seen == Owned || seen == Transfer) && (seen == Owned ==> !((q.Hold? || q.Drop?) && q.i == i))
          case RHeld(d, i, seen) =>
            (seen == Owned || seen == Transfer) && c.state == Error && c.was == seen && c.locker == a &&
            (seen == Owned ==> !((q.Hold? || q.Drop?) && q.i == i)))
  }

  ghost predicate ActorOk(s: State, a: nat)
    requires a < |s.pcs| == |s.alive|
  {
    && (Working(s.pcs[a]) ==> s.pcs[a].i < |s.cells| && WorkerOk(s, a))
    && (Restarting(s.pcs[a]) ==> RestartOk(s, a))
    && (s.alive[a] ==> !s.pcs[a].Taken?)
    && (!s.alive[a] ==> s.pcs[a].Idle? || Tokened(s.pcs[a]) || s.pcs[a].Taken?)
  }

  ghost predicate CellOk(s: State, i: nat)
    requires i < |s.cells|
  {
    var c := s.cells[i];
    && (c.claim.Claim? ==> c.claim.who < |s.pcs| && HasClaim(s.pcs[c.claim.who], c.claim.kind, i))
    && (c.state == Claiming ==> c.claim.Claim? && s.pcs[c.claim.who].Crit?)
    && (c.state == Error ==> c.locker < |s.pcs| && Locks(s.pcs[c.locker], i))
  }

  ghost predicate Inv(s: State) {
    && |s.pcs| == |s.alive|
    && (forall a :: 0 <= a < |s.pcs| ==> ActorOk(s, a))
    && (forall i :: 0 <= i < |s.cells| ==> CellOk(s, i))
    && (forall a, b | 0 <= a < |s.pcs| && 0 <= b < |s.pcs| && a != b ::
          Restarting(s.pcs[a]) && Restarting(s.pcs[b]) ==> s.pcs[a].dead != s.pcs[b].dead)
  }

  // ------------------------------------------------------------ preservation

  lemma KillKeepsInv(s: State, a: nat)
    requires Inv(s) && Enabled(s, a, Kill)
    ensures Inv(Next(s, a, Kill))
  {
    var s' := Next(s, a, Kill);
    assert ActorOk(s, a);
    forall b | 0 <= b < |s'.pcs| ensures ActorOk(s', b) {
      assert ActorOk(s, b);
    }
    forall i | 0 <= i < |s'.cells| ensures CellOk(s', i) {
      assert CellOk(s, i);
    }
  }

  /** A step of `a` that touches no slot and gives up no token. */
  lemma MoveKeepsInv(s: State, a: nat, p: Pc)
    requires Inv(s) && a < |s.pcs| && s.alive[a]
    requires !Tokened(s.pcs[a]) && !Tokened(p) && !p.Taken?
    requires forall i :: Locks(s.pcs[a], i) <==> Locks(p, i)
    requires !s.pcs[a].RRepair? && !p.RRepair?
    requires Restarting(p) && !Restarting(s.pcs[a]) ==>
               forall b :: 0 <= b < |s.pcs| && Restarting(s.pcs[b]) ==> s.pcs[b].dead != p.dead
    requires Restarting(p) && Restarting(s.pcs[a]) ==> s.pcs[a].dead == p.dead
    requires ActorOk(SetPc(s, a, p), a)
    ensures Inv(SetPc(s, a, p))
  {
    var s' := SetPc(s, a, p);
    assert ActorOk(s, a);
    forall b | 0 <= b < |s'.pcs| ensures ActorOk(s', b) {
      assert ActorOk(s, b);
    }
    forall i | 0 <= i < |s'.cells| ensures CellOk(s', i) {
      assert CellOk(s, i);
    }
  }

  /** What a step of `a` needs to know of another record `b`. */
  ghost predicate Beside(s: State, a: nat, b: nat) {
    && |s.pcs| == |s.alive| && a < |s.pcs| && b < |s.pcs| && b != a
    && s.alive[a] && ActorOk(s, a) && ActorOk(s, b)
    && (Working(s.pcs[a]) || (Restarting(s.pcs[a]) && !s.pcs[a].RNext?))
    && CellOk(s, s.pcs[a].i)
    && (Restarting(s.pcs[a]) ==> ActorOk(s, s.pcs[a].dead))
    && (Restarting(s.pcs[a]) && Restarting(s.pcs[b]) ==> s.pcs[a].dead != s.pcs[b].dead)
  }

  lemma InvBeside(s: State, a: nat, b: nat)
    requires Inv(s) && a < |s.pcs| && b < |s.pcs| && b != a && s.alive[a]
    requires Working(s.pcs[a]) || (Restarting(s.pcs[a]) && !s.pcs[a].RNext?)
    ensures Beside(s, a, b)
  {
    assert ActorOk(s, a);
  }

  lemma TakeTokenOther(s: State, a: nat, b: nat)
    requires Beside(s, a, b) && s.pcs[a].Want?
    ensures ActorOk(NextWork(s, a, true, Free), b)
  {
    var s' := NextWork(s, a, true, Free);
    assert Working(s.pcs[b]) ==> WorkerOk(s', b);
    assert Restarting(s.pcs[b]) ==> RestartOk(s', b);
  }

  lemma TakeStateOther(s: State, a: nat, b: nat)
    requires Beside(s, a, b) && s.pcs[a].Hold?
    ensures ActorOk(NextWork(s, a, true, Free), b)
  {
    var s' := NextWork(s, a, true, Free);
    assert Working(s.pcs[b]) ==> WorkerOk(s', b);
    assert Restarting(s.pcs[b]) ==> RestartOk(s', b);
  }

  lemma PublishOther(s: State, a: nat, b: nat, to: SlotState)
    requires Beside(s, a, b) && s.pcs[a].Crit? && MayPublish(s.pcs[a].kind, to)
    ensures ActorOk(NextWork(s, a, true, to), b)
  {
    var s' := NextWork(s, a, true, to);
    assert Working(s.pcs[b]) ==> WorkerOk(s', b);
    assert Restarting(s.pcs[b]) ==> RestartOk(s', b);
  }

  lemma ClearOther(s: State, a: nat, b: nat)
    requires Beside(s, a, b) && (s.pcs[a].Drop? || s.pcs[a].Done?)
    ensures ActorOk(NextWork(s, a, true, Free), b)
  {
    var s' := NextWork(s, a, true, Free);
    assert Working(s.pcs[b]) ==> WorkerOk(s', b);
    assert Restarting(s.pcs[b]) ==> RestartOk(s', b);
  }

  lemma WorkOther(s: State, a: nat, b: nat, pass: bool, to: SlotState)
    requires Beside(s, a, b) && (s.pcs[a].Want? || Tokened(s.pcs[a]))
    requires s.pcs[a].Crit? ==> MayPublish(s.pcs[a].kind, to)
    ensures ActorOk(NextWork(s, a, pass, to), b)
  {
    match s.pcs[a]
    case Want(_, _) => TakeTokenOther(s, a, b);
    case Hold(_, _) => TakeStateOther(s, a, b);
    case Crit(_, _) => PublishOther(s, a, b, to);
    case Drop(_, _) => ClearOther(s, a, b);
    case Done(_, _) => ClearOther(s, a, b);
  }

  /** A step of a runtime inside an operation that touches the slot. */
  lemma WorkKeepsInv(s: State, a: nat, pass: bool, to: SlotState)
    requires Inv(s) && a < |s.pcs| && s.alive[a] && (s.pcs[a].Want? || Tokened(s.pcs[a])) && s.pcs[a].i < |s.cells|
    requires s.pcs[a].Crit? ==> MayPublish(s.pcs[a].kind, to)
    ensures Inv(NextWork(s, a, pass, to))
  {
    var s' := NextWork(s, a, pass, to);
    forall b | 0 <= b < |s'.pcs| && b != a ensures ActorOk(s', b) {
      InvBeside(s, a, b);
      WorkOther(s, a, b, pass, to);
    }
    WorkSelf(s, a, pass, to);
    forall j | 0 <= j < |s'.cells| ensures CellOk(s', j) {
      WorkCell(s, a, pass, to, j);
    }
  }

  lemma WorkSelf(s: State, a: nat, pass: bool, to: SlotState)
    requires |s.pcs| == |s.alive| && a < |s.pcs| && s.alive[a] && (s.pcs[a].Want? || Tokened(s.pcs[a]))
    requires ActorOk(s, a) && CellOk(s, s.pcs[a].i)
    requires s.pcs[a].Crit? ==> MayPublish(s.pcs[a].kind, to)
    ensures ActorOk(NextWork(s, a, pass, to), a)
  {
  }

  lemma WorkCell(s: State, a: nat, pass: bool, to: SlotState, j: nat)
    requires |s.pcs| == |s.alive| && a < |s.pcs| && s.alive[a] && (s.pcs[a].Want? || Tokened(s.pcs[a]))
    requires ActorOk(s, a) && CellOk(s, s.pcs[a].i) && j < |s.cells| && CellOk(s, j)
    requires s.pcs[a].Crit? ==> MayPublish(s.pcs[a].kind, to)
    ensures CellOk(NextWork(s, a, pass, to), j)
  {
  }

  /** What is left of another record when a restart clears a leftover token. */
  lemma ClearLeftoverOther(s: State, a: nat, b: nat, pass: bool)
    requires Beside(s, a, b) && s.pcs[a].RToken?
    ensures ActorOk(NextRestart(s, a, pass), b)
  {
    var s' := NextRestart(s, a, pass);
    assert Working(s'.pcs[b]) ==> WorkerOk(s', b);
    assert Restarting(s'.pcs[b]) ==> RestartOk(s', b);
  }

  lemma LockClaimOther(s: State, a: nat, b: nat, pass: bool)
    requires Beside(s, a, b) && s.pcs[a].RClaim?
    ensures ActorOk(NextRestart(s, a, pass), b)
  {
    var s' := NextRestart(s, a, pass);
    assert Working(s'.pcs[b]) ==> WorkerOk(s', b);
    assert Restarting(s'.pcs[b]) ==> RestartOk(s', b);
  }

  lemma RepairDead(s: State, a: nat, pass: bool)
    requires a < |s.pcs| && Restarting(s.pcs[a]) && Beside(s, a, s.pcs[a].dead) && s.pcs[a].RRepair?
    ensures ActorOk(NextRestart(s, a, pass), s.pcs[a].dead)
  {
  }

  lemma RepairWorker(s: State, a: nat, b: nat, pass: bool)
    requires Beside(s, a, b) && s.pcs[a].RRepair? && s.pcs[a].dead != b && Working(s.pcs[b])
    ensures ActorOk(NextRestart(s, a, pass), b)
  {
    var s' := NextRestart(s, a, pass);
    assert s'.pcs[b] == s.pcs[b];
    assert s.pcs[b].i != s.pcs[a].i ==> s'.cells[s.pcs[b].i] == s.cells[s.pcs[b].i];
    assert WorkerOk(s', b);
  }

  lemma RepairRestart(s: State, a: nat, b: nat, pass: bool)
    requires Beside(s, a, b) && s.pcs[a].RRepair? && s.pcs[a].dead != b && Restarting(s.pcs[b])
    ensures ActorOk(NextRestart(s, a, pass), b)
  {
    var s' := NextRestart(s, a, pass);
    assert s'.pcs[b] == s.pcs[b] && s'.pcs[s.pcs[b].dead] == s.pcs[s.pcs[b].dead];
    assert RestartOk(s', b);
  }

  lemma RepairOther(s: State, a: nat, b: nat, pass: bool)
    requires Beside(s, a, b) && s.pcs[a].RRepair?
    ensures ActorOk(NextRestart(s, a, pass), b)
  {
    if b == s.pcs[a].dead {
      RepairDead(s, a, pass);
    } else if Working(s.pcs[b]) {
      RepairWorker(s, a, b, pass);
    } else if Restarting(s.pcs[b]) {
      RepairRestart(s, a, b, pass);
    }
  }

  lemma UnlockOther(s: State, a: nat, b: nat, pass: bool)
    requires Beside(s, a, b) && (s.pcs[a].RCleared? || s.pcs[a].RHeld?)
    ensures ActorOk(NextRestart(s, a, pass), b)
  {
    var s' := NextRestart(s, a, pass);
    assert Working(s'.pcs[b]) ==> WorkerOk(s', b);
    assert Restarting(s'.pcs[b]) ==> RestartOk(s', b);
  }

  lemma ProbeWorker(s: State, a: nat, b: nat, pass: bool)
    requires Beside(s, a, b) && s.pcs[a].RProbe? && Working(s.pcs[b])
    ensures ActorOk(NextRestart(s, a, pass), b)
  {
    assert WorkerOk(NextRestart(s, a, pass), b);
  }

  lemma ProbeRestart(s: State, a: nat, b: nat, pass: bool)
    requires Beside(s, a, b) && s.pcs[a].RProbe? && Restarting(s.pcs[b])
    ensures ActorOk(NextRestart(s, a, pass), b)
  {
    assert RestartOk(NextRestart(s, a, pass), b);
  }

  lemma ProbeOther(s: State, a: nat, b: nat, pass: bool)
    requires Beside(s, a, b) && s.pcs[a].RProbe?
    ensures ActorOk(NextRestart(s, a, pass), b)
  {
    if Working(s.pcs[b]) {
      ProbeWorker(s, a, b, pass);
    } else if Restarting(s.pcs[b]) {
      ProbeRestart(s, a, b, pass);
    }
  }

  lemma LookSelf(s: State, a: nat, pass: bool)
    requires |s.pcs| == |s.alive| && a < |s.pcs| && ActorOk(s, a) && s.pcs[a].RState?
    requires ActorOk(s, s.pcs[a].dead) && CellOk(s, s.pcs[a].i)
    ensures ActorOk(NextRestart(s, a, pass), a)
  {
    var p := AfterLook(s.cells[s.pcs[a].i], s.pcs[a].dead, s.pcs[a].i, s.pcs[a].seen, pass);
    assert NextRestart(s, a, pass).pcs[a] == p;
  }

  lemma RestartSelf(s: State, a: nat, pass: bool)
    requires |s.pcs| == |s.alive| && a < |s.pcs| && ActorOk(s, a) && Restarting(s.pcs[a])
    requires !s.pcs[a].RNext? && !s.pcs[a].RState?
    requires ActorOk(s, s.pcs[a].dead) && CellOk(s, s.pcs[a].i)
    ensures ActorOk(NextRestart(s, a, pass), a)
  {
  }

  lemma RestartOwnCell(s: State, a: nat, pass: bool)
    requires |s.pcs| == |s.alive| && a < |s.pcs| && ActorOk(s, a) && Restarting(s.pcs[a]) && !s.pcs[a].RNext?
    requires ActorOk(s, s.pcs[a].dead) && CellOk(s, s.pcs[a].i)
    ensures CellOk(NextRestart(s, a, pass), s.pcs[a].i)
  {
  }

  lemma RestartCell(s: State, a: nat, pass: bool, j: nat)
    requires |s.pcs| == |s.alive| && a < |s.pcs| && ActorOk(s, a) && Restarting(s.pcs[a]) && !s.pcs[a].RNext?
    requires ActorOk(s, s.pcs[a].dead) && CellOk(s, s.pcs[a].i) && j < |s.cells| && CellOk(s, j)
    ensures CellOk(NextRestart(s, a, pass), j)
  {
    if j == s.pcs[a].i {
      RestartOwnCell(s, a, pass);
    } else {
      assert NextRestart(s, a, pass).cells[j] == s.cells[j];
    }
  }

  lemma LookKeepsInv(s: State, a: nat, pass: bool)
    requires Inv(s) && a < |s.pcs| && s.pcs[a].RState? && s.pcs[a].i < |s.cells| && s.pcs[a].dead < |s.pcs|
    ensures Inv(NextRestart(s, a, pass))
  {
    assert ActorOk(s, a) && ActorOk(s, s.pcs[a].dead) && CellOk(s, s.pcs[a].i);
    var p := AfterLook(s.cells[s.pcs[a].i], s.pcs[a].dead, s.pcs[a].i, s.pcs[a].seen, pass);
    LookSelf(s, a, pass);
    MoveKeepsInv(s, a, p);
  }

  lemma RestartKeepsInv(s: State, a: nat, pass: bool)
    requires Inv(s) && a < |s.pcs| && s.alive[a] && Restarting(s.pcs[a]) && !s.pcs[a].RNext?
    requires s.pcs[a].i < |s.cells| && s.pcs[a].dead < |s.pcs|
    ensures Inv(NextRestart(s, a, pass))
  {
    var s' := NextRestart(s, a, pass);
    assert ActorOk(s, a) && ActorOk(s, s.pcs[a].dead) && CellOk(s, s.pcs[a].i);
    if s.pcs[a].RState? {
      LookKeepsInv(s, a, pass);
    } else {
      forall b | 0 <= b < |s'.pcs| && b != a ensures ActorOk(s', b) {
        InvBeside(s, a, b);
        match s.pcs[a]
        case RToken(_, _, _, _) => ClearLeftoverOther(s, a, b, pass);
        case RClaim(_, _, _) => LockClaimOther(s, a, b, pass);
        case RRepair(_, _, _) => RepairOther(s, a, b, pass);
        case RCleared(_, _, _) => UnlockOther(s, a, b, pass);
        case RHeld(_, _, _) => UnlockOther(s, a, b, pass);
        case RProbe(_, _, _) => ProbeOther(s, a, b, pass);
      }
      RestartSelf(s, a, pass);
      forall j | 0 <= j < |s'.cells| ensures CellOk(s', j) {
        RestartCell(s, a, pass, j);
      }
      SameRestarts(s, a, pass);
    }
  }

  /** A step of a restart begins no restart and ends none. */
  lemma SameRestarts(s: State, a: nat, pass: bool)
    requires Inv(s) && a < |s.pcs| && Restarting(s.pcs[a]) && !s.pcs[a].RNext?
    requires s.pcs[a].i < |s.cells| && s.pcs[a].dead < |s.pcs|
    ensures var s' := NextRestart(s, a, pass);
            |s'.pcs| == |s.pcs| && s'.alive == s.alive &&
            forall b | 0 <= b < |s.pcs| && Restarting(s'.pcs[b]) ::
              Restarting(s.pcs[b]) && s.pcs[b].dead == s'.pcs[b].dead
  {
  }

  lemma StepKeepsInv(s: State, a: nat, ch: Choice)
    requires Inv(s) && Enabled(s, a, ch)
    ensures Inv(Next(s, a, ch))
  {
    assert ActorOk(s, a);
    match ch
    case Kill => KillKeepsInv(s, a);
    case Begin(kind, i) =>
      if s.cells[i].state == From(kind) { MoveKeepsInv(s, a, Seen(kind, i)); }
    case Restart(d) => MoveKeepsInv(s, a, RNext(d));
    case Look(i) => MoveKeepsInv(s, a, RState(s.pcs[a].dead, i, s.cells[i].state));
    case Finish => MoveKeepsInv(s, a, Idle);
    case Go(pass, to) =>
      if s.pcs[a].Seen? {
        var i, kind := s.pcs[a].i, s.pcs[a].kind;
        MoveKeepsInv(s, a, if pass && (OwnerTest(kind) ==> s.cells[i].owner == a) then Want(kind, i) else Idle);
      } else if Working(s.pcs[a]) {
        WorkKeepsInv(s, a, pass, to);
      } else {
        RestartKeepsInv(s, a, pass);
      }
  }

  // ------------------------------------------------------------------- runs

  ghost predicate IsRun(run: seq<State>, steps: seq<(nat, Choice)>) {
    && |run| == |steps| + 1 && Init(run[0])
    && forall n :: 0 <= n < |steps| ==>
         Enabled(run[n], steps[n].0, steps[n].1) && run[n + 1] == Next(run[n], steps[n].0, steps[n].1)
  }

  lemma {:induction false} RunKeepsInv(run: seq<State>, steps: seq<(nat, Choice)>, n: nat)
    requires IsRun(run, steps) && n < |run|
    ensures Inv(run[n])
  {
    if n > 0 {
      RunKeepsInv(run, steps, n - 1);
      StepKeepsInv(run[n - 1], steps[n - 1].0, steps[n - 1].1);
    }
  }

  /** Runtime `a` is between its winning state exchange and its publishing store. */
  predicate InsideClaim(s: State, a: nat, i: nat) {
    a < |s.pcs| && s.pcs[a].Crit? && s.pcs[a].i == i
  }

  /**
   In every interleaving a slot is CLAIMING exactly while one runtime, living or
   killed, is inside its claim, and for all that time the token names the kind
   of its operation and the runtime itself.
   */
  lemma ClaimingIsExclusive(run: seq<State>, steps: seq<(nat, Choice)>, n: nat, i: nat)
    requires IsRun(run, steps) && n < |run| && i < |run[n].cells|
    ensures var s := run[n];
            && (s.cells[i].state == Claiming <==> exists a: nat :: InsideClaim(s, a, i))
            && (forall a: nat, b: nat :: InsideClaim(s, a, i) && InsideClaim(s, b, i) ==> a == b)
            && (forall a: nat :: InsideClaim(s, a, i) ==> s.cells[i].claim == Claim(s.pcs[a].kind, a))
  {
    RunKeepsInv(run, steps, n);
    var s := run[n];
    assert CellOk(s, i);
    if s.cells[i].state == Claiming {
      assert InsideClaim(s, s.cells[i].claim.who, i);
    }
    forall a: nat | InsideClaim(s, a, i) ensures s.cells[i].state == Claiming && s.cells[i].claim == Claim(s.pcs[a].kind, a) {
      assert ActorOk(s, a);
    }
  }

  /** A slot is in ERROR exactly while one restart has locked it. */
  lemma ErrorIsExclusive(run: seq<State>, steps: seq<(nat, Choice)>, n: nat, i: nat)
    requires IsRun(run, steps) && n < |run| && i < |run[n].cells|
    ensures var s := run[n];
            && (s.cells[i].state == Error <==> exists a :: 0 <= a < |s.pcs| && Locks(s.pcs[a], i))
            && (forall a, b | 0 <= a < |s.pcs| && 0 <= b < |s.pcs| ::
                  Locks(s.pcs[a], i) && Locks(s.pcs[b], i) ==> a == b)
  {
    RunKeepsInv(run, steps, n);
    var s := run[n];
    assert CellOk(s, i);
    forall a | 0 <= a < |s.pcs| && Locks(s.pcs[a], i)
      ensures s.cells[i].state == Error && s.cells[i].locker == a
    {
      assert ActorOk(s, a);
    }
  }

  /**
   A token a living runtime has taken stays its own until it clears it, but for
   the token of a completed send, which a receiver may take over; and a send or
   release that passed its owner test still owns the slot when it takes the state.
   */
  lemma TokenIsKept(run: seq<State>, steps: seq<(nat, Choice)>, n: nat, a: nat)
    requires IsRun(run, steps) && n < |run| && a < |run[n].pcs| && Tokened(run[n].pcs[a])
    ensures var s := run[n];
            && s.pcs[a].i < |s.cells|
            && ((s.pcs[a].Done? && s.pcs[a].kind == Send) || s.cells[s.pcs[a].i].claim == Claim(s.pcs[a].kind, a))
            && ((s.pcs[a].kind == Send || s.pcs[a].kind == Release) && s.pcs[a].Crit? ==> s.cells[s.pcs[a].i].owner == a)
  {
    RunKeepsInv(run, steps, n);
    assert ActorOk(run[n], a);
  }

  // ---------------------------------------------------------------- progress

  /** The state an operation starts from, and what it may publish. */
  predicate StartsIn(kind: ClaimKind, state: SlotState) {
    match kind
    case Allocate => state == Free
    case Send => state == Owned
    case Release => state == Owned
    case Receive => state == Transfer
    case Rollback => state == Transfer
  }

  predicate EndsIn(kind: ClaimKind, state: SlotState) {
    match kind
    case Allocate => state in {Owned, Free}
    case Send => state in {Transfer, Owned}
    case Receive => state in {Owned, Transfer, Free}
    case Release => state in {Free, Owned}
    case Rollback => state in {Owned, Transfer}
  }

  /** A runtime that executes and stands at `p`. */
  predicate At(s: State, a: nat, p: Pc) {
    a < |s.pcs| == |s.alive| && s.alive[a] && s.pcs[a] == p
  }

  lemma BeginsOperation(s: State, a: nat, kind: ClaimKind, i: nat) returns (s': State)
    requires At(s, a, Idle) && i < |s.cells| && StartsIn(kind, s.cells[i].state)
    ensures Enabled(s, a, Begin(kind, i)) && s' == Next(s, a, Begin(kind, i))
    ensures At(s', a, Seen(kind, i)) && s'.cells == s.cells
  {
    s' := Next(s, a, Begin(kind, i));
  }

  lemma PassesTests(s: State, a: nat, kind: ClaimKind, i: nat, to: SlotState) returns (s': State)
    requires At(s, a, Seen(kind, i)) && i < |s.cells| && (kind == Send || kind == Release ==> s.cells[i].owner == a)
    ensures Enabled(s, a, Go(true, to)) && s' == Next(s, a, Go(true, to))
    ensures At(s', a, Want(kind, i)) && s'.cells == s.cells
  {
    s' := Next(s, a, Go(true, to));
  }

  lemma TakesToken(s: State, a: nat, kind: ClaimKind, i: nat, to: SlotState) returns (s': State)
    requires At(s, a, Want(kind, i)) && i < |s.cells|
    requires s.cells[i].claim == NoClaim || (kind == Receive && s.cells[i].claim.kind == Send && s.cells[i].state == Transfer)
    ensures Enabled(s, a, Go(true, to)) && s' == Next(s, a, Go(true, to))
    ensures At(s', a, Hold(kind, i)) && s'.cells == s.cells[i := s.cells[i].(claim := Claim(kind, a))]
  {
    s' := Next(s, a, Go(true, to));
  }

  lemma TakesState(s: State, a: nat, kind: ClaimKind, i: nat, to: SlotState) returns (s': State)
    requires At(s, a, Hold(kind, i)) && i < |s.cells| && StartsIn(kind, s.cells[i].state)
    ensures Enabled(s, a, Go(true, to)) && s' == Next(s, a, Go(true, to))
    ensures At(s', a, Crit(kind, i)) && s'.cells == s.cells[i := s.cells[i].(state := Claiming)]
  {
    s' := Next(s, a, Go(true, to));
  }

  lemma PublishesState(s: State, a: nat, kind: ClaimKind, i: nat, to: SlotState) returns (s': State)
    requires At(s, a, Crit(kind, i)) && i < |s.cells| && EndsIn(kind, to)
    ensures Enabled(s, a, Go(true, to)) && s' == Next(s, a, Go(true, to))
    ensures At(s', a, Done(kind, i)) && |s'.cells| == |s.cells|
    ensures s'.cells[i] == s.cells[i].(state := to, owner := s'.cells[i].owner)
    ensures to == Owned && kind in {Allocate, Receive, Rollback} ==> s'.cells[i].owner == a
    ensures to == Free ==> s'.cells[i].owner == -1
  {
    s' := Next(s, a, Go(true, to));
  }

  lemma ClearsToken(s: State, a: nat, kind: ClaimKind, i: nat, to: SlotState) returns (s': State)
    requires At(s, a, Done(kind, i)) && i < |s.cells| && s.cells[i].claim == Claim(kind, a)
    ensures Enabled(s, a, Go(true, to)) && s' == Next(s, a, Go(true, to))
    ensures At(s', a, Idle) && s'.cells == s.cells[i := s.cells[i].(claim := NoClaim)]
  {
    s' := Next(s, a, Go(true, to));
  }

  /**
   An operation that is not disturbed, on a slot in the state it starts from, with
   no token and, for send and release, of its own, goes through: it takes the
   token, then the state, publishes what it may publish and clears the token.
   */
  lemma OperationGoesThrough(s: State, a: nat, kind: ClaimKind, i: nat, to: SlotState) returns (run: seq<State>)
    requires At(s, a, Idle) && i < |s.cells| && StartsIn(kind, s.cells[i].state) && EndsIn(kind, to)
    requires s.cells[i].claim == NoClaim && (kind == Send || kind == Release ==> s.cells[i].owner == a)
    ensures |run| == 7 && run[0] == s && Enabled(s, a, Begin(kind, i)) && run[1] == Next(s, a, Begin(kind, i))
    ensures forall n :: 1 <= n < 6 ==> Enabled(run[n], a, Go(true, to)) && run[n + 1] == Next(run[n], a, Go(true, to))
    ensures InsideClaim(run[4], a, i) && i < |run[4].cells| && run[4].cells[i].state == Claiming
    ensures At(run[6], a, Idle) && i < |run[6].cells| && run[6].cells[i].state == to && run[6].cells[i].claim == NoClaim
    ensures to == Owned && kind in {Allocate, Receive, Rollback} ==> run[6].cells[i].owner == a
  {
    var s1 := BeginsOperation(s, a, kind, i);
    var s2 := PassesTests(s1, a, kind, i, to);
    var s3 := TakesToken(s2, a, kind, i, to);
    var s4 := TakesState(s3, a, kind, i, to);
    var s5 := PublishesState(s4, a, kind, i, to);
    var s6 := ClearsToken(s5, a, kind, i, to);
    run := [s, s1, s2, s3, s4, s5, s6];
  }
}
