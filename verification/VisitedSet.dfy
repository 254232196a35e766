/**
 The visited set of a buffer: eight 32-bit words, one bit for each component.
 The bit operations are defined digit by digit on naturals below 2^32.
 */
module VisitedSet {
  import opened Model

  function And(a: nat, b: nat): (r: nat)
    ensures r <= a
  {
    if a == 0 || b == 0 then 0
    else 2 * And(a / 2, b / 2) + (if a % 2 == 1 && b % 2 == 1 then 1 else 0)
  }

  function Or(a: nat, b: nat): nat {
    if a == 0 then b else if b == 0 then a
    else 2 * Or(a / 2, b / 2) + (if a % 2 == 1 || b % 2 == 1 then 1 else 0)
  }

  /** One shifted left by `k`. */
  function Mask(k: nat): nat {
    if k == 0 then 1 else 2 * Mask(k - 1)
  }

  /** The bit test of one word. */
  predicate Bit(word: nat, k: nat) {
    And(word, Mask(k)) != 0
  }

  /** `words` holds component `c`; identifiers outside 1..254 are never held. */
  predicate Test(words: seq<u32>, c: Component)
    requires |words| == 8
  {
    ValidComponent(c) && Bit(words[c / 32], c % 32)
  }

  /** The set the words stand for. */
  ghost function Members(words: seq<u32>): set<Component>
    requires |words| == 8
  {
    set c: Component | COMPONENT_ID_MIN <= c <= COMPONENT_ID_MAX && Test(words, c)
  }

  // ------------------------------------------------------------------ digits

  predicate Digit(word: nat, k: nat) {
    if k == 0 then word % 2 == 1 else Digit(word / 2, k - 1)
  }

  lemma {:induction false} ZeroHasNoDigit(k: nat)
    ensures !Digit(0, k)
  {
    if k > 0 { ZeroHasNoDigit(k - 1); }
  }

  lemma {:induction false} BitIsDigit(word: nat, k: nat)
    ensures Bit(word, k) <==> Digit(word, k)
  {
    if word == 0 {
      ZeroHasNoDigit(k);
    } else if k > 0 {
      BitIsDigit(word / 2, k - 1);
    } else {
      assert And(word / 2, 0) == 0;
    }
  }

  lemma {:induction false} OrDigit(a: nat, b: nat, k: nat)
    ensures Digit(Or(a, b), k) <==> Digit(a, k) || Digit(b, k)
  {
    if a == 0 || b == 0 {
      ZeroHasNoDigit(k);
    } else if k > 0 {
      OrDigit(a / 2, b / 2, k - 1);
    }
  }

  lemma {:induction false} MaskDigit(j: nat, k: nat)
    ensures Mask(j) > 0 && (Digit(Mask(j), k) <==> j == k)
  {
    if j == 0 {
      if k > 0 { ZeroHasNoDigit(k - 1); }
    } else {
      MaskDigit(j - 1, if k > 0 then k - 1 else 0);
    }
  }

  lemma SetBit(word: nat, j: nat, k: nat)
    ensures Bit(Or(word, Mask(j)), k) <==> Bit(word, k) || j == k
  {
    BitIsDigit(Or(word, Mask(j)), k);
    BitIsDigit(word, k);
    OrDigit(word, Mask(j), k);
    MaskDigit(j, k);
  }

  lemma {:induction false} OrBounded(a: nat, b: nat, n: nat)
    requires a < Mask(n) && b < Mask(n)
    ensures Or(a, b) < Mask(n)
  {
    if a != 0 && b != 0 {
      assert n > 0;
      OrBounded(a / 2, b / 2, n - 1);
    }
  }

  lemma {:induction false} MaskGrows(j: nat, n: nat)
    requires j < n
    ensures 0 < Mask(j) < Mask(n)
    decreases n
  {
    if j == n - 1 {
      MaskDigit(j, 0);
    } else {
      MaskGrows(j, n - 1);
    }
  }

  lemma Mask32()
    ensures Mask(32) == U32
  {
    assert Mask(8) == 0x100;
    assert Mask(16) == 0x1_0000;
    assert Mask(24) == 0x100_0000;
  }

  /** Adding a component adds exactly it; an identifier that names none is ignored. */
  method Add(words: array<u32>, c: Component)
    requires words.Length == 8
    modifies words
    ensures Members(words[..]) == old(Members(words[..])) + (if ValidComponent(c) then {c} else {})
  {
    if ValidComponent(c) {
      ghost var was := words[..];
      Mask32();
      MaskGrows(c % 32, 32);
      OrBounded(words[c / 32], Mask(c % 32), 32);
      var word: u32 := Or(words[c / 32], Mask(c % 32));
      words[c / 32] := word;
      assert words[..] == was[c / 32 := word];
      AddedBit(was, c, word);
    }
  }

  lemma AddedBit(words: seq<u32>, c: Component, word: u32)
    requires |words| == 8 && ValidComponent(c) && word == Or(words[c / 32], Mask(c % 32))
    ensures Members(words[c / 32 := word]) == Members(words) + {c}
  {
    var after := words[c / 32 := word];
    forall d: Component | ValidComponent(d)
      ensures Test(after, d) <==> Test(words, d) || d == c
    {
      SetBit(words[c / 32], c % 32, d % 32);
    }
  }

  // ---------------------------------------------------------------- counting

  /** The number of bits set in a word. */
  function PopCount(word: nat): nat {
    if word == 0 then 0 else word % 2 + PopCount(word / 2)
  }

  lemma {:induction false} AndSelf(a: nat)
    ensures And(a, a) == a
  {
    if a != 0 { AndSelf(a / 2); }
  }

  /** Masking a word with its predecessor clears exactly one bit. */
  lemma {:induction false} ClearsOneBit(word: nat)
    requires word > 0
    ensures And(word, word - 1) < word && PopCount(And(word, word - 1)) + 1 == PopCount(word)
  {
    if word % 2 == 1 {
      AndSelf(word / 2);
      assert And(word, word - 1) == 2 * (word / 2);
    } else {
      ClearsOneBit(word / 2);
      assert And(word, word - 1) == 2 * And(word / 2, word / 2 - 1);
    }
  }

  /** The number of bits set among the lowest `n`. */
  function Digits(word: nat, n: nat): nat {
    if n == 0 then 0 else Digits(word, n - 1) + (if Digit(word, n - 1) then 1 else 0)
  }

  lemma {:induction false} DigitsFromLow(word: nat, n: nat)
    requires n > 0
    ensures Digits(word, n) == word % 2 + Digits(word / 2, n - 1)
  {
    if n > 1 { DigitsFromLow(word, n - 1); }
  }

  lemma {:induction false} DigitsIsPopCount(word: nat, n: nat)
    requires word < Mask(n)
    ensures Digits(word, n) == PopCount(word)
  {
    if n > 0 {
      DigitsFromLow(word, n);
      DigitsIsPopCount(word / 2, n - 1);
    }
  }

  /** The identifiers below `n` whose bit is set, valid or not. */
  ghost function Marked(words: seq<u32>, n: nat): set<Component>
    requires |words| == 8 && n <= 256
  {
    set c: Component | 0 <= c < n && Bit(words[c / 32], c % 32)
  }

  lemma MarkedNext(words: seq<u32>, c: Component)
    requires |words| == 8 && c < 256
    ensures |Marked(words, c + 1)| == |Marked(words, c)| + (if Bit(words[c / 32], c % 32) then 1 else 0)
  {
    if Bit(words[c / 32], c % 32) {
      assert Marked(words, c + 1) == Marked(words, c) + {c};
    } else {
      assert Marked(words, c + 1) == Marked(words, c);
    }
  }

  lemma {:induction false} MarkedInWord(words: seq<u32>, i: nat, n: nat)
    requires |words| == 8 && i < 8 && n <= 32
    ensures |Marked(words, 32 * i + n)| == |Marked(words, 32 * i)| + Digits(words[i], n)
  {
    if n > 0 {
      MarkedInWord(words, i, n - 1);
      var c := 32 * i + n - 1;
      assert c / 32 == i && c % 32 == n - 1;
      MarkedNext(words, c);
      BitIsDigit(words[i], n - 1);
    }
  }

  /** The count is that of the valid identifiers: the bits 0 and 255 are taken off. */
  lemma MembersAmongMarked(words: seq<u32>)
    requires |words| == 8
    ensures |Marked(words, 256)| ==
            |Members(words)| + (if Bit(words[0], 0) then 1 else 0) + (if Bit(words[7], 31) then 1 else 0)
  {
    var members, all := Members(words), Marked(words, 256);
    forall c: Component ensures c in all <==>
        c in members || (c == 0 && Bit(words[0], 0)) || (c == 255 && Bit(words[7], 31))
    {
      if c == 255 { assert 255 / 32 == 7 && 255 % 32 == 31; }
    }
    Ends(all, members, Bit(words[0], 0), Bit(words[7], 31));
  }

  lemma Ends(all: set<Component>, members: set<Component>, first: bool, last: bool)
    requires 0 !in members && 255 !in members
    requires forall c: Component :: c in all <==> c in members || (c == 0 && first) || (c == 255 && last)
    ensures |all| == |members| + (if first then 1 else 0) + (if last then 1 else 0)
  {
    var some := if first then members + {0} else members;
    assert all == if last then some + {255} else some;
  }

  /** The bit-clearing loop counts the components of the set, for any eight words. */
  method Count(words: array<u32>) returns (count: nat)
    requires words.Length == 8
    ensures count == |Members(words[..])|
  {
    count := 0;
    Mask32();
    var i := 0;
    while i < 8
      invariant 0 <= i <= 8 && count == |Marked(words[..], 32 * i)|
    {
      var word: nat := words[i];
      MarkedInWord(words[..], i, 32);
      DigitsIsPopCount(word, 32);
      ghost var target := count + PopCount(word);
      while word != 0
        invariant count + PopCount(word) == target
        decreases word
      {
        ClearsOneBit(word);
        word := And(word, word - 1);
        count := count + 1;
      }
      i := i + 1;
    }
    MembersAmongMarked(words[..]);
    count := count - (if Bit(words[0], 0) then 1 else 0);
    count := count - (if Bit(words[7], 31) then 1 else 0);
  }
}
