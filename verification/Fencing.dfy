/**
 Epoch fencing over whole histories of a component's lifecycle word.
 */
module Fencing {
  import opened Model
  import opened Lifecycle
  import opened SlotPool
  import opened Links
  import opened Restart

  /**
   Once the word of a component has left an epoch, then at every later time a
   link opened in that epoch is stale, a view made in it stands for nothing and a
   restart that began it is over: send, receive, allocate, release and every
   step of recovery through them refuse, and their contracts say that a refused
   call changes no slot.
   */
  lemma FencedForever(words: seq<Word>, attempts: seq<(Attempt, Word)>, n: nat, k: nat, m: nat, epoch: u32,
                      c: Component, pool: Pool, link: Link, v: View, scan: RestartScan)
    requires IsHistory(words, attempts) && n <= k <= m < |words|
    requires EpochCurrent(words[n], epoch) && !EpochCurrent(words[k], epoch)
    requires ValidComponent(c) && pool.Valid() && pool.components[c] == words[m]
    requires link.pool == pool && link.local == c && link.epoch == epoch
    requires v.View? ==> v.owner == c && v.epoch == epoch
    requires scan.Valid() && scan.pool == pool && scan.component == c && scan.dead + 1 == epoch
    ensures link.Stale() && !pool.Owns(v) && !link.SendAllowed(v) && !scan.Current()
    ensures !link.ReconcileAllowed(scan)
    ensures forall size: u64, headroom: u64, tailroom: u64 :: link.RoomRefusal(size, headroom, tailroom) != Ok
  {
    EpochLeftForever(words, attempts, n, k, m, epoch);
  }

  /** A runtime is not fenced while its epoch is current: the gate is exact. */
  lemma OpenWhileCurrent(pool: Pool, link: Link, v: View)
    requires pool.Valid() && link.pool == pool && ValidComponent(link.local) && link.epoch != 0
    requires v.View? && v.owner == link.local && v.epoch == link.epoch && v.slot < pool.controls.Length
    requires pool.controls[v.slot].state == Owned && pool.controls[v.slot].generation == v.generation
    requires pool.controls[v.slot].owner == v.owner && pool.controls[v.slot].ownerEpoch == v.epoch
    ensures link.SendAllowed(v) <==> EpochCurrent(pool.components[link.local], link.epoch)
    ensures pool.Owns(v) <==> EpochCurrent(pool.components[link.local], link.epoch)
  {
  }
}
