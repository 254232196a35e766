/**
 The packed lifecycle word of a component: epochs, the compare-and-swap calls
 that move it, and what they fence.
 */
module Lifecycle {
  import opened Model

  datatype Life = Inactive | Recovering | Active

  datatype Word = Word(epoch: u32, life: Life)

  function LifeCode(life: Life): u32 {
    match life
    case Inactive => 0
    case Recovering => 1
    case Active => 2
  }

  /** The word as it is stored: the epoch above the state. */
  function Packed(w: Word): u64 {
    w.epoch * U32 + LifeCode(w.life)
  }

  function PackedEpoch(n: u64): u32 { n / U32 }

  function PackedState(n: u64): u32 { n % U32 }

  /** The two halves of a packed word can be read back, so equal packed words,
      which is what the compare-and-swap tests, are equal lifecycles. */
  lemma PackedRoundTrip(w: Word, v: Word)
    ensures PackedEpoch(Packed(w)) == w.epoch && PackedState(Packed(w)) == LifeCode(w.life)
    ensures Packed(w) == Packed(v) <==> w == v
  {
  }

  /** The claim word: epoch, component and kind of a claim; zero when empty. */
  function KindCode(kind: ClaimKind): nat {
    match kind
    case Allocate => 1
    case Send => 2
    case Receive => 3
    case Release => 4
    case Rollback => 5
  }

  function PackedToken(t: Token): u64 {
    if t.NoToken? then 0 else t.epoch * U32 + t.component * 256 + KindCode(t.kind)
  }

  /** Claim words distinguish kind, component and epoch, and none is the empty word. */
  lemma PackedTokenRoundTrip(t: Token, v: Token)
    ensures t.Token? ==>
              var n := PackedToken(t);
              n != 0 && n / U32 == t.epoch && n / 256 % U16 == t.component && n % 256 == KindCode(t.kind)
    ensures PackedToken(t) == PackedToken(v) <==> t == v
  {
    if t.Token? { TokenFields(t.epoch, t.component, KindCode(t.kind)); }
    if v.Token? { TokenFields(v.epoch, v.component, KindCode(v.kind)); }
  }

  lemma TokenFields(epoch: u32, component: Component, kind: nat)
    requires 1 <= kind <= 5
    ensures var n := epoch * U32 + component * 256 + kind;
            n / U32 == epoch && n / 256 % U16 == component && n % 256 == kind
  {
    var n := epoch * U32 + component * 256 + kind;
    assert component * 256 + kind < 0x1_0000_0000;
    LowByte(epoch * 0x100_0000 + component, kind);
    assert n == 256 * (epoch * 0x100_0000 + component) + kind;
    MiddleWord(epoch, component);
  }

  lemma LowByte(high: nat, low: nat)
    requires low < 256
    ensures (256 * high + low) % 256 == low && (256 * high + low) / 256 == high
  {
  }

  lemma MiddleWord(epoch: u32, component: Component)
    ensures (epoch * 0x100_0000 + component) % 0x1_0000 == component
  {
  }

  /** The handle of a buffer: the generation above the slot. */
  function Handle(slot: u32, generation: u32): u64 { generation * U32 + slot }

  lemma HandleRoundTrip(slot: u32, generation: u32)
    ensures Handle(slot, generation) % U32 == slot && Handle(slot, generation) / U32 == generation
  {
  }

  // ------------------------------------------------------------------- words

  /** The epoch operations stamp on their claims; zero when not registered. */
  function RegisteredEpoch(w: Word): u32 {
    if w.life == Inactive then 0 else w.epoch
  }

  predicate EpochCurrent(w: Word, epoch: u32) {
    epoch != 0 && w.epoch == epoch && w.life != Inactive
  }

  predicate EpochRecovering(w: Word, epoch: u32) {
    epoch != 0 && w == Word(epoch, Recovering)
  }

  /** One attempt of a lifecycle call. It works on the word it has read, and other
      callers may move the word before its exchange. */
  datatype Attempt =
    | Register
    | Unregister(epoch: u32)
    | RestartBegin(dead: u32)
    | RestartFinish(epoch: u32)

  /** The word an attempt wants to store, when it does not refuse. */
  function Desired(a: Attempt, seen: Word): Word
  {
    match a
    case Register =>
      if seen.epoch == 0xFFFF_FFFF || seen.life != Inactive then seen else Word(seen.epoch + 1, Active)
    case Unregister(epoch) =>
      if epoch == 0 || seen.epoch != epoch || seen.life == Inactive then seen else Word(epoch, Inactive)
    case RestartBegin(dead) =>
      if dead == 0 || dead == 0xFFFF_FFFF || seen.epoch != dead || seen.life == Recovering then seen
      else Word(dead + 1, Recovering)
    case RestartFinish(epoch) =>
      if EpochRecovering(seen, epoch) then Word(epoch, Active) else seen
  }

  /** The exchange succeeds only if the word is still the one that was read. */
  function Exchange(w: Word, a: Attempt, seen: Word): Word {
    if w == seen then Desired(a, seen) else w
  }

  /** A new epoch begins with this attempt. */
  predicate Grants(w: Word, a: Attempt, seen: Word) {
    (a.Register? || a.RestartBegin?) && w == seen && Desired(a, seen) != seen
  }

  /** Any interleaving of attempts on one component's word. */
  ghost predicate IsHistory(words: seq<Word>, attempts: seq<(Attempt, Word)>) {
    && |words| == |attempts| + 1 && words[0] == Word(0, Inactive)
    && forall n :: 0 <= n < |attempts| ==>
         words[n + 1] == Exchange(words[n], attempts[n].0, attempts[n].1)
  }

  /** Where a word stands in the order RECOVERING, ACTIVE, INACTIVE, next epoch. */
  function Position(w: Word): nat {
    3 * w.epoch + (match w.life case Recovering => 0 case Active => 1 case Inactive => 2)
  }

  lemma ExchangeMovesOn(w: Word, a: Attempt, seen: Word)
    ensures Exchange(w, a, seen) == w || Position(Exchange(w, a, seen)) > Position(w)
    ensures Grants(w, a, seen) ==> Exchange(w, a, seen).epoch == w.epoch + 1
  {
  }

  /** A word never returns to an earlier position. */
  lemma {:induction false} WordsMoveOn(words: seq<Word>, attempts: seq<(Attempt, Word)>, n: nat, m: nat)
    requires IsHistory(words, attempts) && n <= m < |words|
    ensures words[n] == words[m] || Position(words[n]) < Position(words[m])
    decreases m
  {
    if n < m {
      WordsMoveOn(words, attempts, n, m - 1);
      ExchangeMovesOn(words[m - 1], attempts[m - 1].0, attempts[m - 1].1);
    }
  }

  /** No two successful calls of register or restart_begin grant the same epoch,
      and none grants epoch zero. */
  lemma EpochsNeverReused(words: seq<Word>, attempts: seq<(Attempt, Word)>, n: nat, m: nat)
    requires IsHistory(words, attempts) && n < m < |attempts|
    requires Grants(words[n], attempts[n].0, attempts[n].1) && Grants(words[m], attempts[m].0, attempts[m].1)
    ensures 0 < words[n + 1].epoch < words[m + 1].epoch
  {
    WordsMoveOn(words, attempts, n + 1, m);
    ExchangeMovesOn(words[n], attempts[n].0, attempts[n].1);
    ExchangeMovesOn(words[m], attempts[m].0, attempts[m].1);
  }

  /** An epoch that was current and is no longer never becomes current again. */
  lemma EpochLeftForever(words: seq<Word>, attempts: seq<(Attempt, Word)>, n: nat, k: nat, m: nat, epoch: u32)
    requires IsHistory(words, attempts) && n <= k <= m < |words|
    requires EpochCurrent(words[n], epoch) && !EpochCurrent(words[k], epoch)
    ensures !EpochCurrent(words[m], epoch) && RegisteredEpoch(words[m]) != epoch && !EpochRecovering(words[m], epoch)
  {
    WordsMoveOn(words, attempts, n, k);
    WordsMoveOn(words, attempts, k, m);
  }

  /** What each attempt stores, and when it refuses, on the word itself. */
  lemma AttemptsExact(seen: Word, epoch: u32)
    ensures Desired(Register, seen) ==
              if seen.life == Inactive && seen.epoch < 0xFFFF_FFFF then Word(seen.epoch + 1, Active) else seen
    ensures Desired(Unregister(epoch), seen) ==
              if epoch != 0 && (seen == Word(epoch, Active) || seen == Word(epoch, Recovering))
              then Word(epoch, Inactive) else seen
    ensures Desired(RestartBegin(epoch), seen) ==
              if 0 < epoch < 0xFFFF_FFFF && (seen == Word(epoch, Active) || seen == Word(epoch, Inactive))
              then Word(epoch + 1, Recovering) else seen
    ensures Desired(RestartFinish(epoch), seen) ==
              if epoch != 0 && seen == Word(epoch, Recovering) then Word(epoch, Active) else seen
    ensures EpochCurrent(seen, epoch) <==> epoch != 0 && (seen == Word(epoch, Active) || seen == Word(epoch, Recovering))
    ensures EpochRecovering(seen, epoch) <==> epoch != 0 && seen == Word(epoch, Recovering)
    ensures RegisteredEpoch(seen) == if seen.life == Active || seen.life == Recovering then seen.epoch else 0
  {
  }

  /** A component that was registered can be restarted from the epoch it was given,
      and finished, and restarted again, until the epochs run out. */
  lemma RegisteredCanRestart(seen: Word)
    requires seen.life == Inactive && seen.epoch < 0xFFFF_FFFE
    ensures var up := Desired(Register, seen);
            var recovering := Desired(RestartBegin(up.epoch), up);
            var again := Desired(RestartFinish(recovering.epoch), recovering);
            && Grants(seen, Register, seen) && Grants(up, RestartBegin(up.epoch), up)
            && up.epoch == seen.epoch + 1 && EpochCurrent(up, up.epoch)
            && recovering.epoch == up.epoch + 1 && EpochRecovering(recovering, recovering.epoch)
            && again == Word(recovering.epoch, Active)
            && (again.epoch < 0xFFFF_FFFF ==> Grants(again, RestartBegin(again.epoch), again))
  {
  }

  /** A component unregistered while it is RECOVERING has left its dead epoch for
      good: no later attempt takes that epoch into recovery. */
  lemma UnregisterWhileRecovering(words: seq<Word>, attempts: seq<(Attempt, Word)>, n: nat, m: nat, dead: u32)
    requires IsHistory(words, attempts) && n < m < |words| && dead + 1 < U32
    requires words[n] == Word(dead + 1, Recovering) && attempts[n] == (Unregister(dead + 1), words[n])
    ensures words[n + 1] == Word(dead + 1, Inactive) && words[m] != Word(dead + 1, Recovering)
    ensures !Grants(words[m], RestartBegin(dead), words[m])
  {
    assert words[n + 1] == Exchange(words[n], attempts[n].0, attempts[n].1);
    WordsMoveOn(words, attempts, n + 1, m);
  }
}
