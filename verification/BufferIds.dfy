/**
 The lock-free buffer-ID generator of one component, used by any number of
 threads, one shared access at a time.

 A thread enters a gate counted by `active`, re-reads the session word, reserves
 a sequence number and leaves; a thread that finds the sequence exhausted marks
 the session word, waits for the gate to empty and installs a new session.
 */
module BufferIds {
  import opened Model

  const SESSIONS := 0x100_0000
  const EXHAUSTED: u32 := 0xFFFF_FFFF

  /** The session word: a 24-bit session and the rotation mark. */
  datatype Word = Word(session: nat, rotating: bool)

  datatype Pc =
    | Start                                // about to read the session word
    | Loaded(session: nat)                 // read an unmarked, nonzero session
    | CountRead(session: nat, count: u32)  // read the gate count
    | Entered(session: nat)                // counted, session word not re-read
    | Inside(session: nat)                 // the re-read found the same session
    | Reserving(session: nat, seen: u32)   // read the sequence
    | Full(session: nat)                   // the sequence is exhausted, still counted
    | Refused(session: nat)                // the re-read found another session, still counted
    | Lost(session: nat)                   // lost the reservation, still counted
    | Issued(session: nat, seqno: u32)     // reserved a number, still counted
    | Marking(session: nat)                // about to mark the session word
    | Waiting(session: nat)                // marked it, waits for the gate to empty
    | Drawing(session: nat)                // found the gate empty
    | Drawn(session: nat, drawn: nat)      // drew a session
    | Reset(session: nat, drawn: nat)      // cleared the sequence
    | Failed(session: nat)                 // entropy failed

  /** One number handed out: which installation of a session it belongs to. */
  datatype Issue = Issue(rotation: nat, session: nat, seqno: u32)

  datatype State = State(
    word: Word, sequence: u32, active: u32,
    pcs: seq<Pc>,            // one per thread
    sessions: seq<nat>,      // the sessions installed so far
    issues: seq<Issue>)

  predicate InGate(p: Pc) {
    p.Entered? || p.Inside? || p.Reserving? || p.Full? || p.Refused? || p.Lost? || p.Issued?
  }

  /** Past the re-read and not yet out of the gate. */
  predicate PastRecheck(p: Pc) {
    p.Inside? || p.Reserving? || p.Full? || p.Lost? || p.Issued?
  }

  predicate Rotator(p: Pc) {
    p.Waiting? || p.Drawing? || p.Drawn? || p.Reset? || p.Failed?
  }

  /** The rotator has seen the gate empty. */
  predicate Alone(p: Pc) {
    Rotator(p) && !p.Waiting?
  }

  /** What the environment decides in one step. */
  datatype Choice = Choice(spurious: bool, draw: nat, entropy: bool)

  predicate GoodDraw(old_: nat, draw: nat) {
    0 < draw < SESSIONS && draw != old_
  }

  predicate Enabled(s: State, t: nat, ch: Choice) {
    t < |s.pcs| && (s.pcs[t].Drawing? && ch.entropy ==> GoodDraw(s.pcs[t].session, ch.draw)) &&
    (InGate(s.pcs[t]) ==> s.active > 0)
  }

  function SetPc(s: State, t: nat, p: Pc): State
    requires t < |s.pcs|
  {
    s.(pcs := s.pcs[t := p])
  }

  /** One shared access of thread `t`. */
  function Next(s: State, t: nat, ch: Choice): State
    requires Enabled(s, t, ch)
  {
    match s.pcs[t]
    case Start =>
      if s.word.rotating then s
      else if s.word.session == 0 then SetPc(s, t, Marking(0))
      else SetPc(s, t, Loaded(s.word.session))
    case Loaded(x) =>
      if s.active == 0xFFFF_FFFF then SetPc(s, t, Start) else SetPc(s, t, CountRead(x, s.active))
    case CountRead(x, n) =>
      if ch.spurious || s.active != n || n == 0xFFFF_FFFF then SetPc(s, t, Start)
      else SetPc(s.(active := n + 1), t, Entered(x))
    case Entered(x) =>
      if s.word != Word(x, false) then SetPc(s, t, Refused(x)) else SetPc(s, t, Inside(x))
    case Inside(x) =>
      if s.sequence == EXHAUSTED then SetPc(s, t, Full(x)) else SetPc(s, t, Reserving(x, s.sequence))
    case Reserving(x, n) =>
      if ch.spurious || s.sequence != n then SetPc(s, t, Lost(x))
      else SetPc(s.(sequence := Inc32(n), issues := s.issues + [Issue(|s.sessions|, x, n)]), t, Issued(x, n))
    case Full(x) => SetPc(s.(active := s.active - 1), t, Marking(x))
    case Refused(x) => SetPc(s.(active := s.active - 1), t, Start)
    case Lost(x) => SetPc(s.(active := s.active - 1), t, Start)
    case Issued(x, n) => SetPc(s.(active := s.active - 1), t, Start)
    case Marking(x) =>
      if ch.spurious || s.word != Word(x, false) then SetPc(s, t, Start)
      else SetPc(s.(word := Word(x, true)), t, Waiting(x))
    case Waiting(x) => if s.active != 0 then s else SetPc(s, t, Drawing(x))
    case Drawing(x) => if ch.entropy then SetPc(s, t, Drawn(x, ch.draw)) else SetPc(s, t, Failed(x))
    case Drawn(x, y) => SetPc(s.(sequence := 0), t, Reset(x, y))
    case Reset(x, y) => SetPc(s.(word := Word(y, false), sessions := s.sessions + [y]), t, Start)
    case Failed(x) => SetPc(s.(word := Word(x, false)), t, Start)
  }

  ghost predicate Init(s: State) {
    && s.word == Word(0, false) && s.sequence == 0 && s.active == 0
    && s.sessions == [] && s.issues == [] && forall t :: 0 <= t < |s.pcs| ==> s.pcs[t].Start?
  }

  // --------------------------------------------------------------- invariant

  function GateCount(pcs: seq<Pc>): nat {
    if pcs == [] then 0
    else GateCount(pcs[..|pcs| - 1]) + (if InGate(pcs[|pcs| - 1]) then 1 else 0)
  }

  lemma {:induction false} GateCountUpdate(pcs: seq<Pc>, t: nat, p: Pc)
    requires t < |pcs|
    ensures GateCount(pcs[t := p]) + (if InGate(pcs[t]) then 1 else 0) ==
            GateCount(pcs) + (if InGate(p) then 1 else 0)
  {
    var n := |pcs| - 1;
    if t == n {
      assert pcs[t := p][..n] == pcs[..n];
    } else {
      assert pcs[t := p][..n] == pcs[..n][t := p];
      GateCountUpdate(pcs[..n], t, p);
    }
  }

  lemma {:induction false} GateCountPositive(pcs: seq<Pc>, t: nat)
    requires t < |pcs| && InGate(pcs[t])
    ensures GateCount(pcs) > 0
  {
    if t < |pcs| - 1 {
      GateCountPositive(pcs[..|pcs| - 1], t);
    }
  }

  lemma {:induction false} GateCountZero(pcs: seq<Pc>)
    requires forall t :: 0 <= t < |pcs| ==> !InGate(pcs[t])
    ensures GateCount(pcs) == 0
  {
    if pcs != [] {
      GateCountZero(pcs[..|pcs| - 1]);
    }
  }

  /** What one thread's position says about the shared words. */
  predicate ThreadOk(s: State, p: Pc) {
    && (p.Loaded? || p.CountRead? || p.Entered? ==> p.session != 0)
    && (PastRecheck(p) ==> p.session == s.word.session && p.session != 0)
    && (p.Reserving? ==> p.seen != EXHAUSTED && p.seen <= s.sequence)
    && (Rotator(p) ==> s.word == Word(p.session, true))
    && (p.Drawn? || p.Reset? ==> GoodDraw(p.session, p.drawn))
    && (p.Reset? ==> s.sequence == 0)
  }

  ghost predicate GateOk(s: State) {
    && s.active == GateCount(s.pcs)
    && (forall t :: 0 <= t < |s.pcs| ==> ThreadOk(s, s.pcs[t]))
    && (forall t, u :: 0 <= t < |s.pcs| && 0 <= u < |s.pcs| && t != u ==>
          !(Rotator(s.pcs[t]) && Rotator(s.pcs[u])))
    && (s.word.rotating ==> exists t :: 0 <= t < |s.pcs| && Rotator(s.pcs[t]))
    && (forall t, u :: 0 <= t < |s.pcs| && 0 <= u < |s.pcs| && Alone(s.pcs[t]) ==> !PastRecheck(s.pcs[u]))
  }

  ghost predicate SessionsOk(s: State) {
    && (forall r :: 0 <= r < |s.sessions| ==> 0 < s.sessions[r] < SESSIONS)
    && (forall r :: 0 < r < |s.sessions| ==> s.sessions[r] != s.sessions[r - 1])
    && s.word.session == (if s.sessions == [] then 0 else s.sessions[|s.sessions| - 1])
  }

  predicate Resetting(s: State) {
    exists t :: 0 <= t < |s.pcs| && s.pcs[t].Reset?
  }

  ghost predicate IssuesOk(s: State) {
    && (forall j :: 0 <= j < |s.issues| ==>
          var x := s.issues[j];
          0 < x.rotation <= |s.sessions| && x.session == s.sessions[x.rotation - 1] && x.seqno != EXHAUSTED)
    && (forall j, k :: 0 <= j < k < |s.issues| ==>
          (s.issues[j].rotation, s.issues[j].seqno) != (s.issues[k].rotation, s.issues[k].seqno))
    && (!Resetting(s) ==>
          forall j :: 0 <= j < |s.issues| && s.issues[j].rotation == |s.sessions| ==> s.issues[j].seqno < s.sequence)
  }

  ghost predicate Inv(s: State) {
    GateOk(s) && SessionsOk(s) && IssuesOk(s)
  }

  lemma InitInv(s: State)
    requires Init(s)
    ensures Inv(s)
  {
    GateCountZero(s.pcs);
  }

  // ------------------------------------------------------------ preservation

  /** A step that moves one thread and leaves the shared words alone. */
  lemma MoveKeepsInv(s: State, t: nat, p: Pc)
    requires Inv(s) && t < |s.pcs| && InGate(p) == InGate(s.pcs[t]) && ThreadOk(s, p)
    requires Rotator(p) == Rotator(s.pcs[t]) && p.Reset? == s.pcs[t].Reset?
    requires Alone(p) && !Alone(s.pcs[t]) ==> forall u :: 0 <= u < |s.pcs| ==> !PastRecheck(s.pcs[u])
    requires PastRecheck(p) && !PastRecheck(s.pcs[t]) ==> !s.word.rotating
    ensures Inv(SetPc(s, t, p))
  {
    MoveKeepsGate(s, t, p);
    SameBooksMoved(s, t, p, s.active);
  }

  /** A thread that moves in or out of the gate, but not by a reset of the sequence. */
  lemma SameBooksMoved(s: State, t: nat, p: Pc, active: u32)
    requires SessionsOk(s) && IssuesOk(s) && t < |s.pcs| && p.Reset? == s.pcs[t].Reset?
    ensures var s' := SetPc(s.(active := active), t, p); SessionsOk(s') && IssuesOk(s')
  {
    var s' := SetPc(s.(active := active), t, p);
    if u :| 0 <= u < |s.pcs| && s.pcs[u].Reset? {
      assert s'.pcs[u].Reset?;
    }
  }

  lemma MoveKeepsGate(s: State, t: nat, p: Pc)
    requires GateOk(s) && t < |s.pcs| && InGate(p) == InGate(s.pcs[t]) && ThreadOk(s, p)
    requires Rotator(p) == Rotator(s.pcs[t])
    requires Alone(p) && !Alone(s.pcs[t]) ==> forall u :: 0 <= u < |s.pcs| ==> !PastRecheck(s.pcs[u])
    requires PastRecheck(p) && !PastRecheck(s.pcs[t]) ==> !s.word.rotating
    ensures GateOk(SetPc(s, t, p))
  {
    GateCountUpdate(s.pcs, t, p);
    var s' := SetPc(s, t, p);
    if s.word.rotating {
      var u :| 0 <= u < |s.pcs| && Rotator(s.pcs[u]);
      assert Rotator(s'.pcs[u]);
    }
    forall u | 0 <= u < |s'.pcs| ensures ThreadOk(s', s'.pcs[u]) {
      assert u != t ==> ThreadOk(s, s.pcs[u]);
    }
  }

  lemma {:induction false} GateEmpty(pcs: seq<Pc>)
    requires GateCount(pcs) == 0
    ensures forall t :: 0 <= t < |pcs| ==> !InGate(pcs[t])
  {
    forall t | 0 <= t < |pcs| ensures !InGate(pcs[t]) {
      if InGate(pcs[t]) {
        GateCountPositive(pcs, t);
      }
    }
  }

  /** A thread enters or leaves the gate. */
  lemma CountKeepsInv(s: State, t: nat, p: Pc, active: u32)
    requires Inv(s) && t < |s.pcs| && !Rotator(p) && !Rotator(s.pcs[t]) && !PastRecheck(p) && ThreadOk(s, p)
    requires active + (if InGate(s.pcs[t]) then 1 else 0) == s.active + (if InGate(p) then 1 else 0)
    ensures Inv(SetPc(s.(active := active), t, p))
  {
    CountKeepsGate(s, t, p, active);
    SameBooksMoved(s, t, p, active);
  }

  lemma CountKeepsGate(s: State, t: nat, p: Pc, active: u32)
    requires GateOk(s) && t < |s.pcs| && !Rotator(p) && !Rotator(s.pcs[t]) && !PastRecheck(p) && ThreadOk(s, p)
    requires active + (if InGate(s.pcs[t]) then 1 else 0) == s.active + (if InGate(p) then 1 else 0)
    ensures GateOk(SetPc(s.(active := active), t, p))
  {
    GateCountUpdate(s.pcs, t, p);
    var s' := SetPc(s.(active := active), t, p);
    if s.word.rotating {
      var u :| 0 <= u < |s.pcs| && Rotator(s.pcs[u]);
      assert Rotator(s'.pcs[u]);
    }
    forall u | 0 <= u < |s'.pcs| ensures ThreadOk(s', s'.pcs[u]) {
      assert u != t ==> ThreadOk(s, s.pcs[u]);
    }
  }

  /** While a thread is past its re-read, nobody is about to install a session. */
  lemma NotResetting(s: State, t: nat)
    requires GateOk(s) && t < |s.pcs| && PastRecheck(s.pcs[t])
    ensures !Resetting(s)
  {
    forall u | 0 <= u < |s.pcs| ensures !s.pcs[u].Reset? {
      assert !Alone(s.pcs[u]);
    }
  }

  lemma ReserveKeepsGate(s: State, t: nat, ch: Choice)
    requires GateOk(s) && Enabled(s, t, ch) && s.pcs[t].Reserving?
    requires !ch.spurious && s.sequence == s.pcs[t].seen
    ensures GateOk(Next(s, t, ch)) && !Resetting(Next(s, t, ch)) && Next(s, t, ch).sequence == s.sequence + 1
  {
    var p, s' := s.pcs[t], Next(s, t, ch);
    NotResetting(s, t);
    GateCountUpdate(s.pcs, t, s'.pcs[t]);
    assert ThreadOk(s, p);
    forall u | 0 <= u < |s'.pcs| ensures ThreadOk(s', s'.pcs[u]) && !s'.pcs[u].Reset? {
      assert ThreadOk(s, s.pcs[u]);
    }
    if s.word.rotating {
      var u :| 0 <= u < |s.pcs| && Rotator(s.pcs[u]);
      assert Rotator(s'.pcs[u]);
    }
  }

  lemma ReserveKeepsIssues(s: State, t: nat, ch: Choice)
    requires Inv(s) && Enabled(s, t, ch) && s.pcs[t].Reserving?
    requires !ch.spurious && s.sequence == s.pcs[t].seen
    requires !Resetting(s) && Next(s, t, ch).sequence == s.sequence + 1 && s.sessions != []
    requires ThreadOk(s, s.pcs[t])
    ensures IssuesOk(Next(s, t, ch))
  {
    var s' := Next(s, t, ch);
    var x := s'.issues[|s.issues|];
    assert x == Issue(|s.sessions|, s.pcs[t].session, s.sequence);
    forall j | 0 <= j < |s.issues|
      ensures s'.issues[j] == s.issues[j] && (s.issues[j].rotation, s.issues[j].seqno) != (x.rotation, x.seqno)
    {
    }
  }

  /** The reservation of a number hands it out for the first time. */
  lemma ReserveKeepsInv(s: State, t: nat, ch: Choice)
    requires Inv(s) && Enabled(s, t, ch) && s.pcs[t].Reserving?
    requires !ch.spurious && s.sequence == s.pcs[t].seen
    ensures Inv(Next(s, t, ch))
  {
    ReserveKeepsGate(s, t, ch);
    NotResetting(s, t);
    assert ThreadOk(s, s.pcs[t]);
    ReserveKeepsIssues(s, t, ch);
  }

  /** A step that installs no session and hands out no number. */
  lemma SameBooks(s: State, s': State)
    requires SessionsOk(s) && IssuesOk(s) && s'.sessions == s.sessions && s'.issues == s.issues
    requires s'.word.session == s.word.session
    requires Resetting(s') || (!Resetting(s) && s'.sequence == s.sequence)
    ensures SessionsOk(s') && IssuesOk(s')
  {
  }

  lemma MarkKeepsGate(s: State, t: nat, ch: Choice)
    requires GateOk(s) && Enabled(s, t, ch) && s.pcs[t].Marking?
    requires !ch.spurious && s.word == Word(s.pcs[t].session, false)
    ensures GateOk(Next(s, t, ch)) && !Resetting(s)
  {
    var s' := Next(s, t, ch);
    GateCountUpdate(s.pcs, t, s'.pcs[t]);
    forall u | 0 <= u < |s.pcs| ensures !Rotator(s.pcs[u]) && (u != t ==> ThreadOk(s', s'.pcs[u])) {
      assert ThreadOk(s, s.pcs[u]);
    }
    assert Rotator(s'.pcs[t]);
  }

  lemma MarkKeepsInv(s: State, t: nat, ch: Choice)
    requires Inv(s) && Enabled(s, t, ch) && s.pcs[t].Marking?
    requires !ch.spurious && s.word == Word(s.pcs[t].session, false)
    ensures Inv(Next(s, t, ch))
  {
    MarkKeepsGate(s, t, ch);
    SameBooks(s, Next(s, t, ch));
  }

  lemma ClearKeepsGate(s: State, t: nat, ch: Choice)
    requires GateOk(s) && Enabled(s, t, ch) && s.pcs[t].Drawn?
    ensures GateOk(Next(s, t, ch)) && Resetting(Next(s, t, ch))
    ensures forall u :: 0 <= u < |s.pcs| ==> !PastRecheck(s.pcs[u])
  {
    var s' := Next(s, t, ch);
    GateCountUpdate(s.pcs, t, s'.pcs[t]);
    assert Alone(s.pcs[t]) && ThreadOk(s, s.pcs[t]);
    forall u | 0 <= u < |s.pcs| ensures !PastRecheck(s.pcs[u]) && ThreadOk(s', s'.pcs[u]) {
      assert ThreadOk(s, s.pcs[u]);
    }
    assert Rotator(s'.pcs[t]) && s'.pcs[t].Reset?;
  }

  /** Clearing the sequence: no thread is between its re-read and its leave. */
  lemma ClearKeepsInv(s: State, t: nat, ch: Choice)
    requires Inv(s) && Enabled(s, t, ch) && s.pcs[t].Drawn?
    ensures Inv(Next(s, t, ch))
    ensures forall u :: 0 <= u < |s.pcs| ==> !PastRecheck(s.pcs[u])
  {
    ClearKeepsGate(s, t, ch);
    SameBooks(s, Next(s, t, ch));
  }

  /** The rotator ends its rotation: it installs a session or gives up. */
  lemma EndKeepsGate(s: State, t: nat, ch: Choice)
    requires GateOk(s) && Enabled(s, t, ch) && (s.pcs[t].Reset? || s.pcs[t].Failed?)
    ensures GateOk(Next(s, t, ch)) && !Resetting(Next(s, t, ch)) && (s.pcs[t].Failed? ==> !Resetting(s))
    ensures ThreadOk(s, s.pcs[t])
  {
    var s' := Next(s, t, ch);
    GateCountUpdate(s.pcs, t, s'.pcs[t]);
    assert Alone(s.pcs[t]) && ThreadOk(s, s.pcs[t]);
    forall u | 0 <= u < |s.pcs|
      ensures u != t ==> !Rotator(s.pcs[u]) && !Rotator(s'.pcs[u]) && ThreadOk(s', s'.pcs[u])
    {
      assert ThreadOk(s, s.pcs[u]);
    }
  }

  lemma InstallKeepsBooks(s: State, s': State, y: nat)
    requires SessionsOk(s) && IssuesOk(s) && GoodDraw(s.word.session, y)
    requires s'.sessions == s.sessions + [y] && s'.issues == s.issues && s'.word.session == y && s'.sequence == 0
    ensures SessionsOk(s') && IssuesOk(s')
  {
    forall j | 0 <= j < |s'.issues|
      ensures 0 < s'.issues[j].rotation < |s'.sessions| && s'.issues[j].session == s'.sessions[s'.issues[j].rotation - 1]
    {
      assert s.issues[j].rotation <= |s.sessions|;
    }
  }

  lemma InstallKeepsInv(s: State, t: nat, ch: Choice)
    requires Inv(s) && Enabled(s, t, ch) && s.pcs[t].Reset?
    ensures Inv(Next(s, t, ch))
  {
    EndKeepsGate(s, t, ch);
    InstallKeepsBooks(s, Next(s, t, ch), s.pcs[t].drawn);
  }

  lemma GiveUpKeepsInv(s: State, t: nat, ch: Choice)
    requires Inv(s) && Enabled(s, t, ch) && s.pcs[t].Failed?
    ensures Inv(Next(s, t, ch))
  {
    EndKeepsGate(s, t, ch);
    SameBooks(s, Next(s, t, ch));
  }

  /** The steps of a thread that rotates the session. */
  lemma RotationKeepsInv(s: State, t: nat, ch: Choice)
    requires Inv(s) && Enabled(s, t, ch) && (Rotator(s.pcs[t]) || s.pcs[t].Marking?)
    ensures Inv(Next(s, t, ch))
  {
    var p, s' := s.pcs[t], Next(s, t, ch);
    assert ThreadOk(s, p);
    match p
    case Marking(x) =>
      if s'.pcs[t].Waiting? { MarkKeepsInv(s, t, ch); } else { MoveKeepsInv(s, t, Start); }
    case Waiting(x) =>
      if s.active == 0 { GateEmpty(s.pcs); MoveKeepsInv(s, t, Drawing(x)); }
    case Drawing(x) => MoveKeepsInv(s, t, s'.pcs[t]);
    case Drawn(x, y) => ClearKeepsInv(s, t, ch);
    case Reset(x, y) => InstallKeepsInv(s, t, ch);
    case Failed(x) => GiveUpKeepsInv(s, t, ch);
  }

  /** The next access of the thread takes it out of the gate. */
  predicate Leaving(p: Pc) {
    p.Full? || p.Refused? || p.Lost? || p.Issued?
  }

  lemma LeaveKeepsInv(s: State, t: nat, ch: Choice)
    requires Inv(s) && Enabled(s, t, ch) && Leaving(s.pcs[t])
    ensures Inv(Next(s, t, ch))
  {
    CountKeepsInv(s, t, Next(s, t, ch).pcs[t], s.active - 1);
  }

  /** The steps of a thread that asks for a number. */
  lemma RequestKeepsInv(s: State, t: nat, ch: Choice)
    requires Inv(s) && Enabled(s, t, ch) && !Rotator(s.pcs[t]) && !s.pcs[t].Marking?
    requires !Leaving(s.pcs[t])
    ensures Inv(Next(s, t, ch))
  {
    var p, s' := s.pcs[t], Next(s, t, ch);
    assert ThreadOk(s, p);
    match p
    case Start => if !s.word.rotating { MoveKeepsInv(s, t, s'.pcs[t]); }
    case Loaded(x) => MoveKeepsInv(s, t, s'.pcs[t]);
    case CountRead(x, n) =>
      if s'.pcs[t].Entered? { CountKeepsInv(s, t, Entered(x), n + 1); } else { MoveKeepsInv(s, t, Start); }
    case Entered(x) => MoveKeepsInv(s, t, s'.pcs[t]);
    case Inside(x) => MoveKeepsInv(s, t, s'.pcs[t]);
    case Reserving(x, n) =>
      if s'.pcs[t].Issued? { ReserveKeepsInv(s, t, ch); } else { MoveKeepsInv(s, t, Lost(x)); }
  }

  lemma StepKeepsInv(s: State, t: nat, ch: Choice)
    requires Inv(s) && Enabled(s, t, ch)
    ensures Inv(Next(s, t, ch))
  {
    if Rotator(s.pcs[t]) || s.pcs[t].Marking? {
      RotationKeepsInv(s, t, ch);
    } else if Leaving(s.pcs[t]) {
      LeaveKeepsInv(s, t, ch);
    } else {
      RequestKeepsInv(s, t, ch);
    }
  }

  // -------------------------------------------------------------------- runs

  ghost predicate IsRun(trace: seq<State>, threads: seq<nat>, choices: seq<Choice>) {
    |trace| == |threads| + 1 == |choices| + 1 && Init(trace[0]) &&
    forall n :: 0 <= n < |threads| ==>
      Enabled(trace[n], threads[n], choices[n]) && trace[n + 1] == Next(trace[n], threads[n], choices[n])
  }

  lemma {:induction false} RunKeepsInv(trace: seq<State>, threads: seq<nat>, choices: seq<Choice>, n: nat)
    requires IsRun(trace, threads, choices) && n < |trace|
    ensures Inv(trace[n])
  {
    if n == 0 {
      InitInv(trace[0]);
    } else {
      RunKeepsInv(trace, threads, choices, n - 1);
      StepKeepsInv(trace[n - 1], threads[n - 1], choices[n - 1]);
    }
  }

  /** `active` counts exactly the threads inside the gate. */
  lemma ActiveCountsGate(trace: seq<State>, threads: seq<nat>, choices: seq<Choice>, n: nat)
    requires IsRun(trace, threads, choices) && n < |trace|
    ensures trace[n].active == GateCount(trace[n].pcs)
  {
    RunKeepsInv(trace, threads, choices, n);
  }

  /** The sequence is cleared only while no thread is between its re-read and its
      leave, a number just reserved or lost included. */
  lemma ClearedOnlyWhenEmpty(trace: seq<State>, threads: seq<nat>, choices: seq<Choice>, n: nat)
    requires IsRun(trace, threads, choices) && n < |threads|
    requires trace[n].sequence > 0 && trace[n + 1].sequence == 0
    ensures forall u :: 0 <= u < |trace[n].pcs| ==> !PastRecheck(trace[n].pcs[u])
  {
    RunKeepsInv(trace, threads, choices, n);
    var s, t := trace[n], threads[n];
    assert ThreadOk(s, s.pcs[t]);
    ClearKeepsInv(s, t, choices[n]);
  }

  // ---------------------------------------------------------------- progress

  /** `n` accesses in a row of thread `t`, with the same luck at each. */
  function Steps(s: State, t: nat, n: nat, ch: Choice): State {
    if n == 0 then s
    else
      var r := Steps(s, t, n - 1, ch);
      if Enabled(r, t, ch) then Next(r, t, ch) else r
  }

  /** One more access: from position `p` the thread comes to position `q` and the
      shared words from `r` to `r'`. */
  lemma OneMore(s: State, t: nat, n: nat, ch: Choice, r: State, p: Pc, r': State, q: Pc)
    requires t < |r.pcs| && Steps(s, t, n, ch) == SetPc(r, t, p) && Enabled(SetPc(r, t, p), t, ch)
    requires r'.pcs == r.pcs && Next(SetPc(r, t, p), t, ch) == SetPc(r', t, q)
    ensures Steps(s, t, n + 1, ch) == SetPc(r', t, q)
  {
  }

  lemma SetTwice(r: State, t: nat, p: Pc, q: Pc)
    requires t < |r.pcs|
    ensures r.pcs[t := p][t := q] == r.pcs[t := q]
  {
  }

  /** The accesses of a thread that asks for a number and is not disturbed. */
  lemma RequestAccesses(r: State, t: nat, ch: Choice)
    requires t < |r.pcs| && !r.word.rotating && r.word.session != 0 && r.active < 0xFFFF_FFFF && !ch.spurious
    ensures var x := r.word.session;
            && Next(SetPc(r, t, Start), t, ch) == SetPc(r, t, Loaded(x))
            && Next(SetPc(r, t, Loaded(x)), t, ch) == SetPc(r, t, CountRead(x, r.active))
            && Next(SetPc(r, t, CountRead(x, r.active)), t, ch) == SetPc(r.(active := r.active + 1), t, Entered(x))
  {
    var x := r.word.session;
    SetTwice(r, t, Start, Loaded(x));
    SetTwice(r, t, Loaded(x), CountRead(x, r.active));
    SetTwice(r, t, CountRead(x, r.active), Entered(x));
  }

  lemma GateAccesses(r: State, t: nat, ch: Choice)
    requires t < |r.pcs| && !r.word.rotating && r.word.session != 0 && r.active > 0 && !ch.spurious
    ensures var x, n := r.word.session, r.sequence;
            && Next(SetPc(r, t, Entered(x)), t, ch) == SetPc(r, t, Inside(x))
            && (n < EXHAUSTED ==>
                  && Next(SetPc(r, t, Inside(x)), t, ch) == SetPc(r, t, Reserving(x, n))
                  && Next(SetPc(r, t, Reserving(x, n)), t, ch) ==
                       SetPc(r.(sequence := n + 1, issues := r.issues + [Issue(|r.sessions|, x, n)]), t, Issued(x, n)))
            && Next(SetPc(r, t, Issued(x, n)), t, ch) == SetPc(r.(active := r.active - 1), t, Start)
            && (n == EXHAUSTED ==> Next(SetPc(r, t, Inside(x)), t, ch) == SetPc(r, t, Full(x)))
            && Next(SetPc(r, t, Full(x)), t, ch) == SetPc(r.(active := r.active - 1), t, Marking(x))
  {
    var x, n := r.word.session, r.sequence;
    SetTwice(r, t, Entered(x), Inside(x));
    SetTwice(r, t, Inside(x), Reserving(x, n));
    SetTwice(r, t, Reserving(x, n), Issued(x, n));
    SetTwice(r, t, Issued(x, n), Start);
    SetTwice(r, t, Inside(x), Full(x));
    SetTwice(r, t, Full(x), Marking(x));
  }

  lemma RotationAccesses(r: State, t: nat, ch: Choice, x: nat)
    requires t < |r.pcs| && r.active == 0 && !ch.spurious && ch.entropy && GoodDraw(x, ch.draw)
    ensures r.word == Word(x, false) ==>
              Next(SetPc(r, t, Marking(x)), t, ch) == SetPc(r.(word := Word(x, true)), t, Waiting(x))
    ensures Next(SetPc(r, t, Waiting(x)), t, ch) == SetPc(r, t, Drawing(x))
    ensures Next(SetPc(r, t, Drawing(x)), t, ch) == SetPc(r, t, Drawn(x, ch.draw))
    ensures Next(SetPc(r, t, Drawn(x, ch.draw)), t, ch) == SetPc(r.(sequence := 0), t, Reset(x, ch.draw))
    ensures Next(SetPc(r, t, Reset(x, ch.draw)), t, ch) ==
              SetPc(r.(word := Word(ch.draw, false), sessions := r.sessions + [ch.draw]), t, Start)
  {
    var y := ch.draw;
    SetTwice(r, t, Marking(x), Waiting(x));
    SetTwice(r, t, Waiting(x), Drawing(x));
    SetTwice(r, t, Drawing(x), Drawn(x, y));
    SetTwice(r, t, Drawn(x, y), Reset(x, y));
    SetTwice(r, t, Reset(x, y), Start);
  }

  /** Three accesses take an undisturbed thread into the gate. */
  lemma EntersAlone(s: State, t: nat, ch: Choice)
    requires t < |s.pcs| && s.pcs[t] == Start && !s.word.rotating && s.word.session != 0
    requires s.active < 0xFFFF_FFFF && !ch.spurious
    ensures Steps(s, t, 3, ch) == SetPc(s.(active := s.active + 1), t, Entered(s.word.session))
  {
    var x := s.word.session;
    RequestAccesses(s, t, ch);
    assert SetPc(s, t, Start) == s;
    assert Steps(s, t, 0, ch) == SetPc(s, t, Start);
    OneMore(s, t, 0, ch, s, Start, s, Loaded(x));
    OneMore(s, t, 1, ch, s, Loaded(x), s, CountRead(x, s.active));
    OneMore(s, t, 2, ch, s, CountRead(x, s.active), s.(active := s.active + 1), Entered(x));
  }

  /** A thread that is not disturbed in a session with room issues the next number
      of the sequence and leaves all else as it was. */
  lemma AloneIssues(s: State, t: nat, ch: Choice)
    requires t < |s.pcs| && s.pcs[t] == Start && !s.word.rotating && s.word.session != 0
    requires s.active < 0xFFFF_FFFF && s.sequence < EXHAUSTED && !ch.spurious
    ensures Steps(s, t, 7, ch) ==
              s.(sequence := s.sequence + 1, issues := s.issues + [Issue(|s.sessions|, s.word.session, s.sequence)])
  {
    var x, n, r := s.word.session, s.sequence, s.(active := s.active + 1);
    EntersAlone(s, t, ch);
    GateAccesses(r, t, ch);
    OneMore(s, t, 3, ch, r, Entered(x), r, Inside(x));
    OneMore(s, t, 4, ch, r, Inside(x), r, Reserving(x, n));
    var r' := r.(sequence := n + 1, issues := s.issues + [Issue(|s.sessions|, x, n)]);
    OneMore(s, t, 5, ch, r, Reserving(x, n), r', Issued(x, n));
    LeavesAlone(r', t, ch, x, n);
    OneMore(s, t, 6, ch, r', Issued(x, n), r'.(active := s.active), Start);
    assert s.pcs[t := Start] == s.pcs;
  }

  lemma LeavesAlone(r: State, t: nat, ch: Choice, x: nat, n: u32)
    requires t < |r.pcs| && r.active > 0
    ensures Enabled(SetPc(r, t, Issued(x, n)), t, ch)
    ensures Next(SetPc(r, t, Issued(x, n)), t, ch) == SetPc(r.(active := r.active - 1), t, Start)
  {
    assert r.pcs[t := Issued(x, n)][t := Start] == r.pcs[t := Start];
  }

  /** A thread that is not disturbed and finds the sequence exhausted installs the
      session it draws, from which the numbers begin anew. */
  lemma AloneRotates(s: State, t: nat, ch: Choice)
    requires t < |s.pcs| && s.pcs[t] == Start && !s.word.rotating && s.word.session != 0
    requires s.active == 0 && s.sequence == EXHAUSTED && !ch.spurious && ch.entropy && GoodDraw(s.word.session, ch.draw)
    ensures Steps(s, t, 11, ch) == s.(word := Word(ch.draw, false), sequence := 0, sessions := s.sessions + [ch.draw])
  {
    ExhaustedAlone(s, t, ch);
    RotatesFrom(s, t, 6, ch, s.word.session);
  }

  lemma ExhaustedAlone(s: State, t: nat, ch: Choice)
    requires t < |s.pcs| && s.pcs[t] == Start && !s.word.rotating && s.word.session != 0
    requires s.active == 0 && s.sequence == EXHAUSTED && !ch.spurious
    ensures Steps(s, t, 6, ch) == SetPc(s, t, Marking(s.word.session))
  {
    var x, r := s.word.session, s.(active := 1);
    EntersAlone(s, t, ch);
    GateAccesses(r, t, ch);
    OneMore(s, t, 3, ch, r, Entered(x), r, Inside(x));
    OneMore(s, t, 4, ch, r, Inside(x), r, Full(x));
    OneMore(s, t, 5, ch, r, Full(x), s, Marking(x));
  }

  /** The first thread of a component installs the session it draws. */
  lemma AloneBegins(s: State, t: nat, ch: Choice)
    requires t < |s.pcs| && s.pcs[t] == Start && s.word == Word(0, false)
    requires s.active == 0 && !ch.spurious && ch.entropy && GoodDraw(0, ch.draw)
    ensures Steps(s, t, 6, ch) == s.(word := Word(ch.draw, false), sequence := 0, sessions := s.sessions + [ch.draw])
  {
    assert SetPc(s, t, Start) == s;
    OneMore(s, t, 0, ch, s, Start, s, Marking(0));
    RotatesFrom(s, t, 1, ch, 0);
  }

  lemma RotatesFrom(s: State, t: nat, n: nat, ch: Choice, x: nat)
    requires t < |s.pcs| && s.pcs[t] == Start && s.word == Word(x, false) && s.active == 0
    requires Steps(s, t, n, ch) == SetPc(s, t, Marking(x)) && !ch.spurious && ch.entropy && GoodDraw(x, ch.draw)
    ensures Steps(s, t, n + 5, ch) == s.(word := Word(ch.draw, false), sequence := 0, sessions := s.sessions + [ch.draw])
  {
    var r := s.(word := Word(x, true));
    RotationAccesses(s, t, ch, x);
    OneMore(s, t, n, ch, s, Marking(x), r, Waiting(x));
    DrawsFrom(s, t, n + 1, ch, x, r);
    InstallsFrom(s, t, n + 3, ch, x, r);
    assert s.pcs[t := Start] == s.pcs;
  }

  lemma DrawsFrom(s: State, t: nat, n: nat, ch: Choice, x: nat, r: State)
    requires t < |r.pcs| && r.active == 0 && !ch.spurious && ch.entropy && GoodDraw(x, ch.draw)
    requires Steps(s, t, n, ch) == SetPc(r, t, Waiting(x))
    ensures Steps(s, t, n + 2, ch) == SetPc(r, t, Drawn(x, ch.draw))
  {
    RotationAccesses(r, t, ch, x);
    OneMore(s, t, n, ch, r, Waiting(x), r, Drawing(x));
    OneMore(s, t, n + 1, ch, r, Drawing(x), r, Drawn(x, ch.draw));
  }

  lemma InstallsFrom(s: State, t: nat, n: nat, ch: Choice, x: nat, r: State)
    requires t < |r.pcs| && r.active == 0 && !ch.spurious && ch.entropy && GoodDraw(x, ch.draw)
    requires Steps(s, t, n, ch) == SetPc(r, t, Drawn(x, ch.draw))
    ensures Steps(s, t, n + 2, ch) ==
              SetPc(r.(word := Word(ch.draw, false), sequence := 0, sessions := r.sessions + [ch.draw]), t, Start)
  {
    var r' := r.(sequence := 0);
    RotationAccesses(r, t, ch, x);
    OneMore(s, t, n, ch, r, Drawn(x, ch.draw), r', Reset(x, ch.draw));
    RotationAccesses(r', t, ch, x);
    OneMore(s, t, n + 1, ch, r', Reset(x, ch.draw), r'.(word := Word(ch.draw, false), sessions := r.sessions + [ch.draw]), Start);
  }

  // ------------------------------------------------------------- packed IDs

  /** The packed buffer ID: 8-bit component, 24-bit session, 32-bit sequence. */
  function IdMake(component: Component, session: nat, seqno: u32): u64
    requires component < 256 && session < SESSIONS
  {
    component * 0x100_0000_0000_0000 + session * U32 + seqno
  }

  function IdComponent(id: u64): nat { id / 0x100_0000_0000_0000 }
  function IdSession(id: u64): nat { id / U32 % SESSIONS }
  function IdSequence(id: u64): nat { id % U32 }

  predicate IdValid(id: u64) {
    COMPONENT_ID_MIN <= IdComponent(id) <= COMPONENT_ID_MAX && IdSession(id) != 0 && IdSequence(id) != EXHAUSTED
  }

  lemma IdRoundTrip(component: Component, session: nat, seqno: u32)
    requires component < 256 && session < SESSIONS
    ensures var id := IdMake(component, session, seqno);
            && IdComponent(id) == component && IdSession(id) == session && IdSequence(id) == seqno
            && (IdValid(id) <==> ValidComponent(component) && session != 0 && seqno != EXHAUSTED)
  {
    var id := IdMake(component, session, seqno);
    assert id == (component * SESSIONS + session) * U32 + seqno;
    assert id / U32 == component * SESSIONS + session;
  }

  /** The ID that an issue stands for. */
  function IdOf(component: Component, x: Issue): u64
    requires component < 256 && x.session < SESSIONS
  {
    IdMake(component, x.session, x.seqno)
  }

  /**
   Every ID handed out is valid, and two that are equal belong to different
   installations of one session value: the value was drawn again, and not in
   the next installation.
   */
  lemma IdsUnique(trace: seq<State>, threads: seq<nat>, choices: seq<Choice>, n: nat, component: Component, j: nat, k: nat)
    requires IsRun(trace, threads, choices) && n < |trace| && ValidComponent(component)
    requires j < k < |trace[n].issues|
    ensures var s := trace[n];
            var x, y := s.issues[j], s.issues[k];
            && x.session < SESSIONS && y.session < SESSIONS
            && IdValid(IdOf(component, x)) && IdValid(IdOf(component, y))
            && (IdOf(component, x) == IdOf(component, y) ==>
                  && 0 < x.rotation <= |s.sessions| && 0 < y.rotation <= |s.sessions|
                  && x.rotation != y.rotation && x.rotation + 1 != y.rotation && y.rotation + 1 != x.rotation
                  && s.sessions[x.rotation - 1] == s.sessions[y.rotation - 1])
  {
    RunKeepsInv(trace, threads, choices, n);
    var s := trace[n];
    var x, y := s.issues[j], s.issues[k];
    assert 0 < s.sessions[x.rotation - 1] < SESSIONS && 0 < s.sessions[y.rotation - 1] < SESSIONS;
    IdRoundTrip(component, x.session, x.seqno);
    IdRoundTrip(component, y.session, y.seqno);
    if x.rotation + 1 == y.rotation {
      assert s.sessions[y.rotation - 1] != s.sessions[y.rotation - 2];
    }
  }

  /** IDs of different components differ. */
  lemma ComponentsShareNoId(a: Component, b: Component, x: Issue, y: Issue)
    requires a < 256 && b < 256 && x.session < SESSIONS && y.session < SESSIONS && a != b
    ensures IdOf(a, x) != IdOf(b, y)
  {
    IdRoundTrip(a, x.session, x.seqno);
    IdRoundTrip(b, y.session, y.seqno);
  }

  // ------------------------------------------------------------------ entropy

  /** The draw of a session: at most sixteen attempts, zero and the old session
      are rejected; `None` stands for a failing entropy source. */
  datatype Sample = NoEntropy | Sample(bits: u32)

  predicate Usable(x: Sample, old_: nat) {
    x.Sample? && GoodDraw(old_, x.bits % SESSIONS)
  }

  /** Sample `n` is the first usable one, and the source has not failed before. */
  ghost predicate SucceedsAt(old_: nat, samples: seq<Sample>, n: int) {
    0 <= n < 16 && n < |samples| && Usable(samples[n], old_) &&
    forall j :: 0 <= j < n ==> samples[j].Sample? && !Usable(samples[j], old_)
  }

  /** No sample before `n` is usable, and the source fails there or all are used up. */
  ghost predicate FailsAt(old_: nat, samples: seq<Sample>, n: int) {
    0 <= n <= 16 && n <= |samples| && (n == 16 || (n < |samples| && samples[n].NoEntropy?)) &&
    forall j :: 0 <= j < n ==> !Usable(samples[j], old_)
  }

  /** The first usable sample wins unless the source fails before it. */
  method RandomSession(old_: nat, samples: seq<Sample>) returns (status: Status, session: nat)
    requires |samples| == 16
    ensures status in {Ok, EntropyUnavailable}
    ensures status == Ok ==> GoodDraw(old_, session)
    ensures status == Ok ==>
              exists n :: SucceedsAt(old_, samples, n) && session == samples[n].bits % SESSIONS
    ensures status == EntropyUnavailable <==> exists n :: FailsAt(old_, samples, n)
  {
    var attempt := 0;
    while attempt < 16
      invariant 0 <= attempt <= 16
      invariant forall j :: 0 <= j < attempt ==> samples[j].Sample? && !Usable(samples[j], old_)
    {
      if samples[attempt].NoEntropy? {
        assert FailsAt(old_, samples, attempt);
        return EntropyUnavailable, 0;
      }
      session := samples[attempt].bits % SESSIONS;
      if session != 0 && session != old_ {
        assert SucceedsAt(old_, samples, attempt);
        return Ok, session;
      }
      attempt := attempt + 1;
    }
    assert FailsAt(old_, samples, attempt);
    return EntropyUnavailable, 0;
  }
}
