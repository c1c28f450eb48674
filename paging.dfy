/**
 * The page-replacement simulator `MemoriaVirtual` as a state machine on
 * values. Only one of the two structures is in use, chosen at construction:
 * the FIFO deque of resident (process id, page) pairs, or the LRU map from
 * resident pair to the tick of its last access.
 */
module Paging {
  import opened Common

  /** A resident page: (process id, page number). */
  type Key = (int, int)

  datatype MemState = MemState(
    maxFrames: int,
    useLRU: bool,
    fifo: seq<Key>,
    lruCache: map<Key, int>,
    tick: int,
    faults: int)

  /** `MemoriaVirtual(frames, lru)`: nothing resident, tick 0, no faults. */
  function Fresh(frames: int, lru: bool): (m: MemState)
    ensures frames >= 1 ==> Valid(m)
    ensures Resident(m) == 0 && m.tick == 0 && m.faults == 0
  {
    MemState(frames, lru, [], map[], 0, 0)
  }

  /** What erasing one present key does to a map: the rest is kept, one entry fewer. */
  lemma Erase(c: map<Key, int>, v: Key)
    requires v in c
    ensures (c - {v}).Keys == c.Keys - {v}
    ensures forall k | k in c - {v} :: (c - {v})[k] == c[k]
    ensures |c - {v}| == |c| - 1
  {
  }

  /**
   * The least recently used resident page: the entry with the smallest
   * timestamp (`min_element` over the map by timestamp).
   */
  ghost function Victim(cache: map<Key, int>): (v: Key)
    requires cache != map[]
    ensures v in cache
    ensures forall k | k in cache :: cache[v] <= cache[k]
    decreases |cache|
  {
    var k0 :| k0 in cache;
    var rest := cache - {k0};
    Erase(cache, k0);
    if rest == map[] then
      k0
    else
      var v := Victim(rest);
      if cache[k0] < cache[v] then k0 else v
  }

  /**
   * `access_page(id, page)`: the tick advances; LRU refreshes a hit's
   * timestamp, and on a miss counts a fault, evicts the least recently used
   * page when full and inserts the page with the new tick; FIFO leaves a hit
   * alone, and on a miss counts a fault, drops the front when full and
   * appends the page at the back.
   */
  ghost function Access(m: MemState, key: Key): (r: MemState)
    requires m.maxFrames >= 1
    ensures r.maxFrames == m.maxFrames && r.useLRU == m.useLRU
    ensures r.tick == m.tick + 1
    ensures r.faults == m.faults || r.faults == m.faults + 1
  {
    var t := m.tick + 1;
    if m.useLRU then
      if key in m.lruCache then
        m.(tick := t, lruCache := m.lruCache[key := t])
      else
        var kept := if |m.lruCache| >= m.maxFrames then m.lruCache - {Victim(m.lruCache)}
                    else m.lruCache;
        m.(tick := t, faults := m.faults + 1, lruCache := kept[key := t])
    else
      if key in m.fifo then
        m.(tick := t)
      else
        var kept := if |m.fifo| >= m.maxFrames then m.fifo[1..] else m.fifo;
        m.(tick := t, faults := m.faults + 1, fifo := kept + [key])
  }

  /** The number of resident pages. */
  function Resident(m: MemState): nat
  {
    if m.useLRU then |m.lruCache| else |m.fifo|
  }

  /** No two resident pages carry the same timestamp. */
  ghost predicate DistinctStamps(c: map<Key, int>)
  {
    forall k1, k2 | k1 in c && k2 in c && k1 != k2 :: c[k1] != c[k2]
  }

  /** The invariant kept by every access. */
  ghost predicate Valid(m: MemState)
  {
    && m.maxFrames >= 1
    && (m.useLRU ==> m.fifo == [])
    && (!m.useLRU ==> m.lruCache == map[])
    && NoDuplicates(m.fifo)
    && |m.fifo| <= m.maxFrames
    && |m.lruCache| <= m.maxFrames
    // timestamps are past ticks, and no two resident pages share one
    && (forall k | k in m.lruCache :: 1 <= m.lruCache[k] <= m.tick)
    && DistinctStamps(m.lruCache)
    // every resident page was brought in by a fault, and every fault was an access
    && Resident(m) <= m.faults <= m.tick
  }
}
