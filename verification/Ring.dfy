/**
 The single-producer single-consumer descriptor ring with 32-bit wrapping
 indices and suppression of pending duplicates.
 */
module Ring {
  import opened Model

  /** The cell that position `p` of the descriptor stream is stored in. */
  function Cell(p: nat, depth: nat): nat
    requires depth > 0
  {
    p % U32 % depth
  }

  /** Indices may wrap only if the depth divides 2^32. */
  predicate Seamless(depth: nat, pushed: nat) {
    depth > 0 && (U32 % depth == 0 || pushed <= U32)
  }

  lemma {:induction false} ModPeriod(a: nat, d: nat, k: nat)
    requires d > 0
    ensures (a + k * d) % d == a % d
  {
    if k > 0 {
      ModPeriod(a, d, k - 1);
      ModStep(a + (k - 1) * d, d);
      assert a + k * d == a + (k - 1) * d + d;
    }
  }

  lemma ModStep(a: nat, d: nat)
    requires d > 0
    ensures (a + d) % d == a % d
  {
    var q, r := a / d, a % d;
    assert a == d * q + r;
    assert a + d == d * (q + 1) + r;
    RemainderUnique(a + d, d, q + 1, r);
  }

  lemma RemainderUnique(x: int, d: int, q: int, r: int)
    requires d > 0 && 0 <= r < d && x == d * q + r
    ensures x % d == r && x / d == q
  {
    var k := x / d - q;
    assert x == d * (x / d) + x % d;
    assert d * k == r - x % d by {
      assert d * k == d * (x / d) - d * q;
    }
    MultipleIsFar(d, k);
  }

  lemma MultipleIsFar(d: int, k: int)
    requires d > 0
    ensures k >= 1 ==> d * k >= d
    ensures k <= -1 ==> d * k <= -d
  {
  }

  lemma CellIsRemainder(p: nat, depth: nat)
    requires depth > 0 && U32 % depth == 0
    ensures Cell(p, depth) == p % depth
  {
    var k := U32 / depth;
    assert U32 == depth * k;
    var n := p / U32;
    assert p == U32 * n + p % U32;
    assert p == p % U32 + n * k * depth by {
      assert U32 * n == depth * k * n;
    }
    ModPeriod(p % U32, depth, n * k);
  }

  /** Two positions less than one depth apart use different cells. */
  lemma CellsDistinct(p: nat, q: nat, depth: nat)
    requires depth > 0 && p < q < p + depth
    requires U32 % depth == 0 || q < U32
    ensures Cell(p, depth) != Cell(q, depth)
  {
    if U32 % depth == 0 {
      CellIsRemainder(p, depth);
      CellIsRemainder(q, depth);
    }
    var a, r, x := p / depth, p % depth, q - p;
    assert p == depth * a + r;
    if r + x < depth {
      RemainderUnique(q, depth, a, r + x);
    } else {
      assert q == depth * (a + 1) + (r + x - depth);
      RemainderUnique(q, depth, a + 1, r + x - depth);
    }
  }

  /** A depth that does not divide 2^32 puts two pending positions into one cell
      when the index word wraps. */
  lemma WrapCollision(depth: nat)
    requires 2 <= depth < U32 && U32 % depth != 0
    ensures var p := U32 - U32 % depth;
            0 <= p < U32 < p + depth && Cell(p, depth) == Cell(U32, depth) == 0
  {
    var p := U32 - U32 % depth;
    assert p == depth * (U32 / depth);
    RemainderUnique(p, depth, U32 / depth, 0);
    assert p % U32 == p;
  }

  ghost predicate DistinctCells(depth: nat)
    requires depth > 0
  {
    forall p: nat, q: nat :: p < q < p + depth ==> Cell(p, depth) != Cell(q, depth)
  }

  /** Exactly the depths that divide 2^32 keep pending positions in distinct
      cells across the wrap of the index word. */
  lemma WrapSafeIffDepthDivides(depth: nat)
    requires 2 <= depth < U32
    ensures DistinctCells(depth) <==> U32 % depth == 0
  {
    if U32 % depth != 0 {
      WrapCollision(depth);
    } else {
      forall p: nat, q: nat | p < q < p + depth
        ensures Cell(p, depth) != Cell(q, depth)
      {
        CellsDistinct(p, q, depth);
      }
    }
  }

  /** The descriptors at positions `taken` to `pushed` of the stream. */
  function Window(cells: seq<Message>, taken: nat, pushed: nat): seq<Message>
    requires |cells| > 0 && taken <= pushed
  {
    seq(pushed - taken, j requires 0 <= j < pushed - taken => cells[Cell(taken + j, |cells|)])
  }

  /** Writing the cell of the next position appends and overwrites nothing unread. */
  lemma WindowAppend(cells: seq<Message>, taken: nat, pushed: nat, m: Message)
    requires |cells| > 0 && taken <= pushed < taken + |cells|
    requires Seamless(|cells|, pushed + 1)
    ensures Window(cells[Cell(pushed, |cells|) := m], taken, pushed + 1) == Window(cells, taken, pushed) + [m]
  {
    var cells' := cells[Cell(pushed, |cells|) := m];
    var w, w' := Window(cells, taken, pushed), Window(cells', taken, pushed + 1);
    forall j | 0 <= j < |w|
      ensures w'[j] == w[j]
    {
      CellsDistinct(taken + j, pushed, |cells|);
    }
    assert w'[|w|] == m by {
      assert taken + |w| == pushed;
    }
  }

  lemma WindowDrop(cells: seq<Message>, taken: nat, pushed: nat)
    requires |cells| > 0 && taken < pushed
    ensures Window(cells, taken, pushed) == [cells[Cell(taken, |cells|)]] + Window(cells, taken + 1, pushed)
  {
    var w, w' := Window(cells, taken, pushed), Window(cells, taken + 1, pushed);
    forall j | 0 <= j < pushed - (taken + 1)
      ensures w[j + 1] == w'[j]
    {
      assert taken + (j + 1) == taken + 1 + j;
    }
  }

  /** No descriptor is listed twice. */
  predicate NoDuplicates(q: seq<Message>) {
    forall j, k :: 0 <= j < k < |q| ==> q[j] != q[k]
  }

  class DescriptorRing {
    const depth: nat
    const entries: array<Message>
    var producer: u32
    var consumer: u32
    ghost var pushed: nat  // positions published so far
    ghost var taken: nat   // positions consumed so far

    ghost predicate Valid()
      reads this, entries
    {
      && 2 <= depth < U32 && entries.Length == depth
      && taken <= pushed <= taken + depth && Seamless(depth, pushed)
      && producer == pushed % U32 && consumer == taken % U32
    }

    /** The descriptors that wait to be consumed, oldest first. */
    ghost function Pending(): seq<Message>
      requires Valid()
      reads this, entries
    {
      Window(entries[..], taken, pushed)
    }

    constructor (depth: nat, fill: Message)
      requires 2 <= depth < U32
      ensures Valid() && fresh(entries) && this.depth == depth && Pending() == []
    {
      this.depth := depth;
      entries := new Message[depth](_ => fill);
      producer, consumer := 0, 0;
      pushed, taken := 0, 0;
    }

    /** The scan for a pending duplicate, from the consumer index to the producer index. */
    method Scan(m: Message) returns (found: bool)
      requires Valid()
      ensures found <==> m in Pending()
    {
      var p, position := producer, consumer;
      ghost var queue := Pending();
      ghost var at := taken;
      assert |queue| == pushed - taken;
      while position != p
        invariant taken <= at <= pushed && position == at % U32
        invariant forall j :: 0 <= j < at - taken ==> queue[j] != m
        decreases pushed - at
      {
        assert queue[at - taken] == entries[Cell(at, depth)];
        if entries[position % depth] == m {
          return true;
        }
        NextWord(at);
        position := Inc32(position);
        at := at + 1;
      }
      WrappedEqual(at, pushed);
      return false;
    }

    predicate IsFull()
      requires Valid()
      reads this, entries
      ensures IsFull() <==> |Pending()| == depth
    {
      WrappedDistance(pushed, taken);
      (producer + U32 - consumer) % U32 >= depth
    }

    /** A full ring refuses; a descriptor already pending is accepted silently;
        any other one is appended. */
    method Push(m: Message) returns (status: Status)
      requires Valid() && Seamless(depth, pushed + 1)
      modifies this`producer, this`pushed, entries
      ensures Valid() && taken == old(taken)
      ensures |old(Pending())| == depth ==> status == Transport && Pending() == old(Pending())
      ensures |old(Pending())| < depth ==> status == Ok
      ensures |old(Pending())| < depth && m in old(Pending()) ==> Pending() == old(Pending())
      ensures |old(Pending())| < depth && m !in old(Pending()) ==> Pending() == old(Pending()) + [m]
    {
      var p, c := producer, consumer;
      WrappedDistance(pushed, taken);
      if (p + U32 - c) % U32 >= depth {
        return Transport;
      }
      var found := Scan(m);
      if found {
        return Ok;
      }
      WindowAppend(entries[..], taken, pushed, m);
      ghost var cells := entries[..];
      entries[p % depth] := m;
      assert entries[..] == cells[Cell(pushed, depth) := m];
      NextWord(pushed);
      producer := Inc32(p);
      pushed := pushed + 1;
      return Ok;
    }

    /** The oldest pending descriptor stays in place until it is committed. */
    method Peek() returns (status: Status, m: Message, position: u32)
      requires Valid()
      ensures status == (if Pending() == [] then NoBuffer else Ok)
      ensures Pending() != [] ==> m == Pending()[0] && position == consumer
    {
      var c, p := consumer, producer;
      m, position := Message(0, 0, 0, 0, 0, 0), 0;
      WrappedDistance(pushed, taken);
      if c == p {
        return NoBuffer, m, position;
      }
      WindowDrop(entries[..], taken, pushed);
      return Ok, entries[c % depth], c;
    }

    /**
     Only the position that was peeked can be committed. The call does not look
     at the producer: committing the consumer's position of an empty ring moves
     the consumer past the producer, and the indices describe no queue any more.
     */
    method Commit(position: u32) returns (status: Status)
      requires Valid()
      modifies this`consumer, this`taken
      ensures pushed == old(pushed)
      ensures position != old(consumer) ==> status == RecoveryRequired && Valid() && Pending() == old(Pending())
      ensures position == old(consumer) ==> status == Ok && consumer == Inc32(old(consumer))
      ensures position == old(consumer) && old(Pending()) != [] ==> Valid() && Pending() == old(Pending())[1..]
      ensures position == old(consumer) && old(Pending()) == [] ==> !Valid() && consumer == Inc32(producer)
    {
      var c := consumer;
      if c != position {
        return RecoveryRequired;
      }
      if taken < pushed {
        WindowDrop(entries[..], taken, pushed);
      }
      NextWord(taken);
      consumer := Inc32(c);
      taken := taken + 1;
      return Ok;
    }

    method Pop() returns (status: Status, m: Message)
      requires Valid()
      modifies this`consumer, this`taken
      ensures Valid() && pushed == old(pushed)
      ensures old(Pending()) == [] ==> status == NoBuffer && Pending() == []
      ensures old(Pending()) != [] ==>
                status == Ok && m == old(Pending())[0] && Pending() == old(Pending())[1..]
    {
      var position;
      status, m, position := Peek();
      if status == Ok {
        status := Commit(position);
      }
    }
  }

  lemma NextWord(n: nat)
    ensures Inc32(n % U32) == (n + 1) % U32
  {
  }

  lemma WrappedDistance(pushed: nat, taken: nat)
    requires taken <= pushed < taken + U32
    ensures (pushed % U32 + U32 - taken % U32) % U32 == pushed - taken
    ensures pushed % U32 == taken % U32 <==> pushed == taken
  {
  }

  lemma WrappedEqual(a: nat, b: nat)
    requires a % U32 == b % U32 && a <= b < a + U32
    ensures a == b
  {
  }
}
