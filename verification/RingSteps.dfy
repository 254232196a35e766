/**
 The ring under any interleaving of one producer and one consumer, one shared
 access at a time.
 */
module RingSteps {
  import opened Model
  import opened Ring

  /** Where the producer is inside a push. */
  datatype ProducerPc =
    | PIdle
    | PStarted(m: Message, p: u32)                      // has read its own index
    | PScanning(m: Message, p: u32, position: u32)      // looks for a duplicate
    | PWriting(m: Message, p: u32)                      // found none
    | PStored(m: Message, p: u32)                       // entry written, not published

  /** Where the consumer is inside a peek and its commit. */
  datatype ConsumerPc =
    | CIdle
    | CStarted(c: u32)                                  // has read its own index
    | CFound(c: u32)                                    // the ring is not empty
    | CPeeked(c: u32, m: Message)

  datatype State = State(
    cells: seq<Message>, producer: u32, consumer: u32,
    ppc: ProducerPc, cpc: ConsumerPc,
    accepted: seq<Message>,   // every descriptor published so far, in order
    taken: nat,               // how many of them have been consumed
    seen: nat)                // `taken` when the current push read the consumer index

  /** The accesses of a push and of a receive. A producer killed anywhere inside its
      push, and a consumer anywhere before its commit, is replaced by one that
      begins anew. */
  datatype Step =
    | PushStart(msg: Message) | PushLoad | PushScan | PushWrite | PushPublish | PushAbandon
    | PeekStart | PeekLoad | PeekRead | Commit | Abandon

  ghost predicate Init(s: State) {
    && 2 <= |s.cells| < U32 && s.producer == s.consumer == 0
    && s.ppc.PIdle? && s.cpc.CIdle? && s.accepted == [] && s.taken == s.seen == 0
  }

  predicate Enabled(s: State, a: Step) {
    match a
    case PushStart(_) => s.ppc.PIdle? && Seamless(|s.cells|, |s.accepted| + 1)
    case PushLoad => s.ppc.PStarted?
    case PushScan => s.ppc.PScanning?
    case PushWrite => s.ppc.PWriting?
    case PushPublish => s.ppc.PStored?
    case PeekStart => s.cpc.CIdle?
    case PeekLoad => s.cpc.CStarted?
    case PeekRead => s.cpc.CFound?
    case Commit => s.cpc.CPeeked?
    case PushAbandon => !s.ppc.PIdle?
    case Abandon => !s.cpc.CIdle?
  }

  function Next(s: State, a: Step): State
    requires Enabled(s, a) && |s.cells| > 0
  {
    var depth := |s.cells|;
    match a
    case PushStart(m) => s.(ppc := PStarted(m, s.producer))
    case PushLoad =>
      if (s.ppc.p + U32 - s.consumer) % U32 >= depth then s.(ppc := PIdle)
      else s.(ppc := PScanning(s.ppc.m, s.ppc.p, s.consumer), seen := s.taken)
    case PushScan =>
      if s.ppc.position == s.ppc.p then s.(ppc := PWriting(s.ppc.m, s.ppc.p))
      else if s.cells[s.ppc.position % depth] == s.ppc.m then s.(ppc := PIdle)
      else s.(ppc := s.ppc.(position := Inc32(s.ppc.position)))
    case PushWrite =>
      s.(cells := s.cells[s.ppc.p % depth := s.ppc.m], ppc := PStored(s.ppc.m, s.ppc.p))
    case PushPublish =>
      s.(producer := Inc32(s.ppc.p), ppc := PIdle, accepted := s.accepted + [s.ppc.m])
    case PeekStart => s.(cpc := CStarted(s.consumer))
    case PeekLoad =>
      if s.cpc.c == s.producer then s.(cpc := CIdle) else s.(cpc := CFound(s.cpc.c))
    case PeekRead => s.(cpc := CPeeked(s.cpc.c, s.cells[s.cpc.c % depth]))
    case Commit =>
      if s.consumer != s.cpc.c then s.(cpc := CIdle)
      else s.(consumer := Inc32(s.cpc.c), cpc := CIdle, taken := s.taken + 1)
    case PushAbandon => s.(ppc := PIdle)
    case Abandon => s.(cpc := CIdle)
  }

  /** What waits in the ring. */
  function Queue(s: State): seq<Message>
    requires s.taken <= |s.accepted|
  {
    s.accepted[s.taken..]
  }

  /** The scan of a push has come to position `at` and found no duplicate before it. */
  ghost predicate ScanStands(s: State, at: int) {
    && s.ppc.PScanning? && s.seen <= at <= |s.accepted| && s.ppc.position == at % U32
    && forall j :: s.seen <= j < at ==> s.accepted[j] != s.ppc.m
  }

  ghost predicate ProducerOk(s: State)
    requires |s.cells| > 0
  {
    var n := |s.accepted|;
    && (!s.ppc.PIdle? ==> s.ppc.p == s.producer && Seamless(|s.cells|, n + 1))
    && (s.ppc.PScanning? || s.ppc.PWriting? || s.ppc.PStored? ==> s.seen <= s.taken && n < s.seen + |s.cells|)
    && (s.ppc.PScanning? ==>
          exists at :: ScanStands(s, at))
    && (s.ppc.PWriting? || s.ppc.PStored? ==> forall j :: s.seen <= j < n ==> s.accepted[j] != s.ppc.m)
    && (s.ppc.PStored? ==> s.cells[Cell(n, |s.cells|)] == s.ppc.m)
  }

  ghost predicate ConsumerOk(s: State) {
    && (!s.cpc.CIdle? ==> s.cpc.c == s.consumer)
    && (s.cpc.CFound? || s.cpc.CPeeked? ==> s.taken < |s.accepted|)
    && (s.cpc.CPeeked? ==> s.taken < |s.accepted| && s.cpc.m == s.accepted[s.taken])
  }

  /** The oldest position whose cell must still be readable: the scan of a push
      also reads entries the consumer has taken since the push began. */
  function Base(s: State): nat {
    if s.ppc.PScanning? || s.ppc.PWriting? || s.ppc.PStored? then s.seen else s.taken
  }

  ghost predicate Inv(s: State) {
    && 2 <= |s.cells| < U32
    && s.taken <= |s.accepted| <= s.taken + |s.cells| && Seamless(|s.cells|, |s.accepted|)
    && s.producer == |s.accepted| % U32 && s.consumer == s.taken % U32
    && (forall j :: Base(s) <= j < |s.accepted| ==> s.cells[Cell(j, |s.cells|)] == s.accepted[j])
    && NoDuplicates(Queue(s))
    && ProducerOk(s) && ConsumerOk(s)
  }

  // ------------------------------------------------------------ preservation

  lemma PushLoadKeeps(s: State)
    requires Inv(s) && Enabled(s, PushLoad)
    ensures Inv(Next(s, PushLoad))
  {
    WrappedDistance(|s.accepted|, s.taken);
    var s' := Next(s, PushLoad);
    if s'.ppc.PScanning? {
      var at := s'.seen;
      assert ScanStands(s', at);
    }
  }

  /** One comparison of the duplicate scan: a match is an entry that was pending
      when the push read the consumer index. */
  lemma PushScanKeeps(s: State)
    requires Inv(s) && Enabled(s, PushScan)
    ensures Inv(Next(s, PushScan))
    ensures Next(s, PushScan).ppc.PIdle? ==> s.ppc.m in s.accepted[s.seen..]
  {
    var n := |s.accepted|;
    var s' := Next(s, PushScan);
    var at :| ScanStands(s, at);
    WrappedDistance(n, at);
    if at < n {
      assert s.cells[Cell(at, |s.cells|)] == s.accepted[at];
      NextWord(at);
      if s'.ppc.PScanning? {
        assert ScanStands(s', at + 1);
      } else {
        assert s.accepted[s.seen..][at - s.seen] == s.ppc.m;
      }
    }
  }

  lemma PushWriteKeeps(s: State)
    requires Inv(s) && Enabled(s, PushWrite)
    ensures Inv(Next(s, PushWrite))
  {
    var n, depth := |s.accepted|, |s.cells|;
    var s' := Next(s, PushWrite);
    forall j | s.seen <= j < n
      ensures s'.cells[Cell(j, depth)] == s.accepted[j]
    {
      CellsDistinct(j, n, depth);
    }
  }

  lemma PushPublishKeeps(s: State)
    requires Inv(s) && Enabled(s, PushPublish)
    ensures Inv(Next(s, PushPublish))
  {
    var n := |s.accepted|;
    var s' := Next(s, PushPublish);
    NextWord(n);
    assert Queue(s') == Queue(s) + [s.ppc.m];
    forall j | 0 <= j < |Queue(s)| ensures Queue(s)[j] != s.ppc.m {
      assert Queue(s)[j] == s.accepted[s.taken + j];
    }
  }

  lemma CommitKeeps(s: State)
    requires Inv(s) && Enabled(s, Commit)
    ensures Inv(Next(s, Commit))
    ensures Next(s, Commit).taken == s.taken + 1 && s.cpc.m == Queue(s)[0] && Queue(Next(s, Commit)) == Queue(s)[1..]
  {
    var s' := Next(s, Commit);
    NextWord(s.taken);
    assert Queue(s') == Queue(s)[1..];
    ScanSurvives(s, s');
  }

  /** The scan witness does not depend on the consumer. */
  lemma ScanSurvives(s: State, s': State)
    requires Inv(s) && s'.ppc == s.ppc && s'.accepted == s.accepted && s'.seen == s.seen
    requires s'.cells == s.cells && s'.producer == s.producer && s.taken <= s'.taken
    ensures ProducerOk(s')
  {
    if s.ppc.PScanning? {
      var at :| ScanStands(s, at);
      assert ScanStands(s', at);
    }
  }

  lemma PeekKeeps(s: State, a: Step)
    requires Inv(s) && Enabled(s, a) && a in {PeekStart, PeekLoad, PeekRead, Abandon}
    ensures Inv(Next(s, a))
  {
    var s' := Next(s, a);
    WrappedDistance(|s.accepted|, s.taken);
    ScanSurvives(s, s');
    if a.PeekRead? {
      assert Base(s) <= s.taken;
      assert s.cells[Cell(s.taken, |s.cells|)] == s.accepted[s.taken];
    }
  }

  lemma StepKeepsInv(s: State, a: Step)
    requires Inv(s) && Enabled(s, a)
    ensures Inv(Next(s, a))
  {
    match a
    case PushStart(_) =>
    case PushAbandon =>
    case PushLoad => PushLoadKeeps(s);
    case PushScan => PushScanKeeps(s);
    case PushWrite => PushWriteKeeps(s);
    case PushPublish => PushPublishKeeps(s);
    case Commit => CommitKeeps(s);
    case _ => PeekKeeps(s, a);
  }

  // -------------------------------------------------------------------- runs

  ghost predicate IsRun(trace: seq<State>, steps: seq<Step>) {
    |trace| == |steps| + 1 && Init(trace[0]) &&
    (forall n :: 0 <= n < |trace| ==> |trace[n].cells| > 0) &&
    forall n :: 0 <= n < |steps| ==> Enabled(trace[n], steps[n]) && trace[n + 1] == Next(trace[n], steps[n])
  }

  lemma {:induction false} RunKeepsInv(trace: seq<State>, steps: seq<Step>, n: nat)
    requires IsRun(trace, steps) && n < |trace|
    ensures Inv(trace[n])
  {
    if n > 0 {
      RunKeepsInv(trace, steps, n - 1);
      StepKeepsInv(trace[n - 1], steps[n - 1]);
    }
  }

  /**
   Under every interleaving the ring is a bounded queue without duplicates: the
   consumed descriptors are a prefix of the accepted ones, what is pending is
   the rest of them and is stored intact, publishing appends, committing takes
   the oldest, and every other step leaves the queue alone.
   */
  lemma RefinesBoundedQueue(trace: seq<State>, steps: seq<Step>, n: nat)
    requires IsRun(trace, steps) && n < |steps|
    ensures var s, s' := trace[n], trace[n + 1];
            && s.taken <= |s.accepted| && s'.taken <= |s'.accepted|
            && Window(s.cells, s.taken, |s.accepted|) == Queue(s)
            && |Queue(s)| <= |s.cells| && NoDuplicates(Queue(s))
            && (steps[n].Commit? ==> Queue(s) != [] && s.cpc.m == Queue(s)[0])
            && Queue(s') == (match steps[n]
                             case PushPublish => Queue(s) + [s.ppc.m]
                             case Commit => Queue(s)[1..]
                             case _ => Queue(s))
  {
    RunKeepsInv(trace, steps, n);
    RunKeepsInv(trace, steps, n + 1);
    var s := trace[n];
    StoredIntact(s);
    if steps[n].Commit? {
      CommitKeeps(s);
    } else if steps[n].PushPublish? {
      assert Queue(trace[n + 1]) == Queue(s) + [s.ppc.m];
    }
  }

  /** How many comparisons the current scan may still make. */
  function ScanLeft(s: State): nat
    requires s.ppc.PScanning?
  {
    (s.ppc.p + U32 - s.ppc.position) % U32
  }

  /** The scan compares at most as many entries as were pending when it began, and
      suppresses a descriptor only if an equal one was among them. */
  lemma ScanTerminates(trace: seq<State>, steps: seq<Step>, n: nat)
    requires IsRun(trace, steps) && n < |steps| && trace[n].ppc.PScanning?
    ensures var s, s' := trace[n], trace[n + 1];
            && ScanLeft(s) <= |s.accepted| - s.seen < |s.cells|
            && (steps[n].PushScan? && s'.ppc.PScanning? ==> ScanLeft(s') == ScanLeft(s) - 1)
            && (steps[n].PushScan? && s'.ppc.PIdle? ==> s.ppc.m in s.accepted[s.seen..])
  {
    RunKeepsInv(trace, steps, n);
    ScanBound(trace[n]);
    if steps[n].PushScan? {
      PushScanKeeps(trace[n]);
      ScanShrinks(trace[n]);
    }
  }

  lemma ScanBound(s: State)
    requires Inv(s) && s.ppc.PScanning?
    ensures ScanLeft(s) <= |s.accepted| - s.seen < |s.cells|
  {
    var at :| ScanStands(s, at);
    WrappedDistance(|s.accepted|, at);
  }

  lemma ScanShrinks(s: State)
    requires Inv(s) && s.ppc.PScanning?
    ensures var s' := Next(s, PushScan); s'.ppc.PScanning? ==> ScanLeft(s') == ScanLeft(s) - 1
  {
    if s.ppc.p != s.ppc.position {
      WordDistanceStep(s.ppc.p, s.ppc.position);
    }
  }

  lemma WordDistanceStep(p: u32, position: u32)
    requires p != position
    ensures (p + U32 - Inc32(position)) % U32 == (p + U32 - position) % U32 - 1
  {
  }

  lemma StoredIntact(s: State)
    requires Inv(s)
    ensures Window(s.cells, s.taken, |s.accepted|) == Queue(s)
  {
    var w := Window(s.cells, s.taken, |s.accepted|);
    forall j | 0 <= j < |w| ensures w[j] == Queue(s)[j] {
      assert s.cells[Cell(s.taken + j, |s.cells|)] == s.accepted[s.taken + j];
    }
  }

  // ---------------------------------------------------------------- progress

  /** The steps lead from `s` to `s'`. */
  ghost predicate Leads(s: State, steps: seq<Step>, s': State)
    decreases |steps|
  {
    if steps == [] then s' == s
    else |s.cells| > 0 && Enabled(s, steps[0]) && Leads(Next(s, steps[0]), steps[1..], s')
  }

  lemma LeadsOne(s: State, a: Step, s': State, steps: seq<Step>, s'': State)
    requires |s.cells| > 0 && Enabled(s, a) && s' == Next(s, a) && Leads(s', steps, s'')
    ensures Leads(s, [a] + steps, s'')
  {
    assert ([a] + steps)[1..] == steps;
  }

  lemma LeadsLast(s: State, a: Step, s': State)
    requires |s.cells| > 0 && Enabled(s, a) && s' == Next(s, a)
    ensures Leads(s, [a], s')
  {
    assert [a][1..] == [];
  }

  lemma {:induction false} LeadsOn(s: State, steps: seq<Step>, s': State, more: seq<Step>, s'': State)
    requires Leads(s, steps, s') && Leads(s', more, s'')
    ensures Leads(s, steps + more, s'')
    decreases |steps|
  {
    if steps == [] {
      assert steps + more == more;
    } else {
      LeadsOn(Next(s, steps[0]), steps[1..], s', more, s'');
      assert (steps + more)[1..] == steps[1..] + more;
    }
  }

  /** A scan that is not disturbed and finds no duplicate comes to its end. */
  lemma {:induction false} ScanGoesThrough(s: State, at: nat) returns (steps: seq<Step>)
    requires Inv(s) && ScanStands(s, at) && forall j :: s.seen <= j < |s.accepted| ==> s.accepted[j] != s.ppc.m
    ensures Leads(s, steps, s.(ppc := PWriting(s.ppc.m, s.ppc.p)))
    decreases |s.accepted| - at
  {
    var s' := Next(s, PushScan);
    WrappedDistance(|s.accepted|, at);
    if at == |s.accepted| {
      steps := [PushScan];
      LeadsLast(s, PushScan, s');
    } else {
      assert s.cells[Cell(at, |s.cells|)] == s.accepted[at];
      NextWord(at);
      PushScanKeeps(s);
      assert ScanStands(s', at + 1);
      var more := ScanGoesThrough(s', at + 1);
      LeadsOne(s, PushScan, s', more, s.(ppc := PWriting(s.ppc.m, s.ppc.p)));
      steps := [PushScan] + more;
    }
  }

  /** A push that is not disturbed, of a descriptor that is not pending, on a ring
      with room, goes through: the descriptor is appended and nothing else changes
      for the consumer. */
  lemma PushGoesThrough(s: State, m: Message) returns (steps: seq<Step>, s': State)
    requires Inv(s) && s.ppc.PIdle? && Seamless(|s.cells|, |s.accepted| + 1)
    requires |s.accepted| - s.taken < |s.cells| && m !in Queue(s)
    ensures Leads(s, steps, s')
    ensures s'.accepted == s.accepted + [m] && s'.taken == s.taken && s'.consumer == s.consumer && s'.ppc.PIdle?
  {
    var s1 := Next(s, PushStart(m));
    WrappedDistance(|s.accepted|, s.taken);
    var s2 := Next(s1, PushLoad);
    StepKeepsInv(s, PushStart(m));
    StepKeepsInv(s1, PushLoad);
    assert ScanStands(s2, s2.seen);
    forall j | s2.seen <= j < |s2.accepted| ensures s2.accepted[j] != m {
      assert Queue(s)[j - s.taken] == s.accepted[j];
    }
    var scan := ScanGoesThrough(s2, s2.seen);
    var s3 := s2.(ppc := PWriting(m, s2.ppc.p));
    var s4 := Next(s3, PushWrite);
    s' := Next(s4, PushPublish);
    LeadsLast(s4, PushPublish, s');
    LeadsOne(s3, PushWrite, s4, [PushPublish], s');
    LeadsOn(s2, scan, s3, [PushWrite] + [PushPublish], s');
    LeadsOne(s1, PushLoad, s2, scan + ([PushWrite] + [PushPublish]), s');
    LeadsOne(s, PushStart(m), s1, [PushLoad] + (scan + ([PushWrite] + [PushPublish])), s');
    steps := [PushStart(m)] + ([PushLoad] + (scan + ([PushWrite] + [PushPublish])));
  }

  /** A receive that is not disturbed takes the oldest pending descriptor. */
  lemma TakeGoesThrough(s: State) returns (steps: seq<Step>, s': State)
    requires Inv(s) && s.cpc.CIdle? && s.taken < |s.accepted|
    ensures Leads(s, steps, s')
    ensures s'.taken == s.taken + 1 && s'.accepted == s.accepted && s'.producer == s.producer && s'.cpc.CIdle?
  {
    WrappedDistance(|s.accepted|, s.taken);
    var s1 := Next(s, PeekStart);
    var s2 := Next(s1, PeekLoad);
    var s3 := Next(s2, PeekRead);
    s' := Next(s3, Commit);
    LeadsLast(s3, Commit, s');
    LeadsOne(s2, PeekRead, s3, [Commit], s');
    LeadsOne(s1, PeekLoad, s2, [PeekRead] + [Commit], s');
    LeadsOne(s, PeekStart, s1, [PeekLoad] + ([PeekRead] + [Commit]), s');
    steps := [PeekStart] + ([PeekLoad] + ([PeekRead] + [Commit]));
  }
}
