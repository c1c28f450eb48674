/** Properties of the page-replacement state machine of module Paging. */
module PagingProps {
  import opened Common
  import opened Paging

  /** With distinct timestamps the least recently used page is strictly older than every other. */
  lemma VictimStrictlyOldest(m: MemState)
    requires Valid(m) && m.lruCache != map[]
    ensures forall k | k in m.lruCache && k != Victim(m.lruCache) ::
              m.lruCache[Victim(m.lruCache)] < m.lruCache[k]
  {
  }

  /** Any page with the smallest timestamp is the victim: the choice is unique. */
  lemma VictimUnique(c: map<Key, int>, v: Key)
    requires DistinctStamps(c) && v in c
    requires forall k | k in c :: c[v] <= c[k]
    ensures v == Victim(c)
  {
  }

  /** An LRU hit refreshes that page's timestamp only: same pages, same faults. */
  lemma LruHit(m: MemState, key: Key)
    requires Valid(m) && m.useLRU && key in m.lruCache
    ensures var r := Access(m, key);
      && r.lruCache == m.lruCache[key := m.tick + 1]
      && r.lruCache.Keys == m.lruCache.Keys
      && r.faults == m.faults && r.fifo == m.fifo
  {
  }

  /**
   * An LRU miss counts a fault; when the cache is full it evicts the page with
   * the smallest timestamp (and only it); the new page gets the current tick.
   */
  lemma LruMiss(m: MemState, key: Key)
    requires Valid(m) && m.useLRU && key !in m.lruCache
    ensures var r := Access(m, key);
      && r.faults == m.faults + 1
      && key in r.lruCache && r.lruCache[key] == r.tick
      && (|m.lruCache| < m.maxFrames ==> r.lruCache == m.lruCache[key := r.tick])
      && (|m.lruCache| >= m.maxFrames ==>
            var v := Victim(m.lruCache);
            && (forall k | k in m.lruCache && k != v :: m.lruCache[v] < m.lruCache[k])
            && r.lruCache.Keys == m.lruCache.Keys - {v} + {key}
            && forall k | k in m.lruCache && k != v :: r.lruCache[k] == m.lruCache[k])
  {
  }

  /** A FIFO hit changes nothing but the tick: no reordering. */
  lemma FifoHit(m: MemState, key: Key)
    requires Valid(m) && !m.useLRU && key in m.fifo
    ensures Access(m, key) == m.(tick := m.tick + 1)
  {
  }

  /** A FIFO miss counts a fault, drops the front page when full and appends the new one. */
  lemma FifoMiss(m: MemState, key: Key)
    requires Valid(m) && !m.useLRU && key !in m.fifo
    ensures var r := Access(m, key);
      && r.faults == m.faults + 1
      && (|m.fifo| < m.maxFrames ==> r.fifo == m.fifo + [key])
      && (|m.fifo| >= m.maxFrames ==> r.fifo == m.fifo[1..] + [key])
      && r.fifo[|r.fifo| - 1] == key
  {
  }

  /** The LRU branch keeps the invariant. */
  lemma LruPreservesValid(m: MemState, key: Key)
    requires Valid(m) && m.useLRU
    ensures Valid(Access(m, key))
  {
  }

  /** The FIFO branch keeps the invariant. */
  lemma FifoPreservesValid(m: MemState, key: Key)
    requires Valid(m) && !m.useLRU
    ensures Valid(Access(m, key))
  {
  }

  /**
   * Every access keeps the invariant: at most `maxFrames` pages resident, no
   * page twice in the deque, distinct timestamps, faults <= tick.
   */
  lemma AccessPreservesValid(m: MemState, key: Key)
    requires Valid(m)
    ensures Valid(Access(m, key))
  {
    if m.useLRU {
      LruPreservesValid(m, key);
    } else {
      FifoPreservesValid(m, key);
    }
  }

  /** A sequence of accesses, in order. */
  ghost function AccessAll(m: MemState, keys: seq<Key>): (r: MemState)
    requires Valid(m)
    ensures Valid(r)
    decreases |keys|
  {
    if keys == [] then m
    else
      AccessPreservesValid(m, keys[0]);
      AccessAll(Access(m, keys[0]), keys[1..])
  }

  /** Over any sequence of accesses the tick counts them and faults never outnumber them. */
  lemma {:induction false} AccessAllCounts(m: MemState, keys: seq<Key>)
    requires Valid(m)
    ensures AccessAll(m, keys).tick == m.tick + |keys|
    ensures m.faults <= AccessAll(m, keys).faults <= m.faults + |keys|
    decreases |keys|
  {
    if keys != [] {
      AccessPreservesValid(m, keys[0]);
      AccessAllCounts(Access(m, keys[0]), keys[1..]);
    }
  }

  /** FIFO, three frames, pages 1, 2, 3, 4 of one process: four faults, page 1 evicted. */
  lemma FifoFourPages()
    ensures var r := Access(Access(Access(Access(Fresh(3, false), (1, 1)), (1, 2)), (1, 3)), (1, 4));
      r.faults == 4 && r.fifo == [(1, 2), (1, 3), (1, 4)]
  {
  }

  /** LRU, three frames, pages 1, 2, 3, 1: three faults; page 1 is now the most recent. */
  lemma LruFourAccesses()
    ensures var r := Access(Access(Access(Access(Fresh(3, true), (1, 1)), (1, 2)), (1, 3)), (1, 1));
      r.faults == 3 && r.tick == 4 && r.lruCache == map[(1, 1) := 4, (1, 2) := 2, (1, 3) := 3]
  {
    var m3 := Access(Access(Access(Fresh(3, true), (1, 1)), (1, 2)), (1, 3));
    assert m3.lruCache == map[(1, 1) := 1, (1, 2) := 2, (1, 3) := 3];
  }

  /**
   * LRU, three frames, pages 1, 2, 3, 1, 4: the last access evicts page 2, not
   * page 1, whose use was refreshed by the fourth access.
   */
  lemma LruRefreshSavesPage()
    ensures var r := Access(Access(Access(Access(Access(Fresh(3, true), (1, 1)), (1, 2)), (1, 3)), (1, 1)), (1, 4));
      r.faults == 4 && r.lruCache.Keys == {(1, 1), (1, 3), (1, 4)}
  {
    var m4 := Access(Access(Access(Access(Fresh(3, true), (1, 1)), (1, 2)), (1, 3)), (1, 1));
    LruFourAccesses();
    var v := Victim(m4.lruCache);
    assert m4.lruCache[v] <= m4.lruCache[(1, 2)];
    assert v == (1, 2);
    var kept := m4.lruCache - {(1, 2)};
    assert kept == map[(1, 1) := 4, (1, 3) := 3];
    assert Access(m4, (1, 4)).lruCache == kept[(1, 4) := 5];
  }
}
