/**
 * The class `MemoriaVirtual`: the page-replacement simulator whose
 * `access_page` updates the deque or the map, the tick and the fault counter
 * in place. Proved to perform the transition of module Paging.
 */
module VirtualMemory {
  import opened Common
  import opened Paging
  import PagingProps

  class MemoriaVirtual {
    const maxFrames: int
    /** Resident pages in arrival order (FIFO policy). */
    var fifo: seq<Key>
    /** Resident pages and the tick of their last access (LRU policy). */
    var lruCache: map<Key, int>
    var tick: int
    var faults: int
    const useLRU: bool

    /** The fields as a value of the state machine. */
    function State(): MemState
      reads this
    {
      MemState(maxFrames, useLRU, fifo, lruCache, tick, faults)
    }

    ghost predicate Valid()
      reads this
    {
      Paging.Valid(State())
    }

    /**
     * `MemoriaVirtual(frames, lru)`, three FIFO frames by default; switching
     * policy with `memmode` builds a new object this way with three frames.
     */
    constructor (frames: int := 3, lru: bool := false)
      requires frames >= 1
      ensures State() == Fresh(frames, lru) && Valid()
    {
      maxFrames := frames;
      useLRU := lru;
      fifo := [];
      lruCache := map[];
      tick := 0;
      faults := 0;
    }

    /** The scan of the deque for a hit. */
    method InFifo(key: Key) returns (hit: bool)
      ensures hit <==> key in fifo
    {
      var i := 0;
      while i < |fifo|
        invariant 0 <= i <= |fifo|
        invariant forall j | 0 <= j < i :: fifo[j] != key
      {
        if fifo[i] == key {
          return true;
        }
        i := i + 1;
      }
      return false;
    }

    /** The search for the resident page with the smallest timestamp. */
    method LeastRecentlyUsed() returns (victim: Key)
      requires DistinctStamps(lruCache) && lruCache != map[]
      ensures victim == Victim(lruCache)
      ensures victim in lruCache && forall k | k in lruCache :: lruCache[victim] <= lruCache[k]
    {
      var pending := lruCache.Keys;
      victim :| victim in pending;
      pending := pending - {victim};
      while pending != {}
        invariant pending <= lruCache.Keys && victim in lruCache && victim !in pending
        invariant forall k | k in lruCache && k !in pending :: lruCache[victim] <= lruCache[k]
        decreases pending
      {
        var k :| k in pending;
        if lruCache[k] < lruCache[victim] {
          victim := k;
        }
        pending := pending - {k};
      }
      PagingProps.VictimUnique(lruCache, victim);
    }

    /** `access_page(id, page)`. */
    method AccessPage(idProceso: int, page: int)
      requires Valid()
      modifies this
      ensures Valid()
      ensures State() == Access(old(State()), (idProceso, page))
    {
      PagingProps.AccessPreservesValid(State(), (idProceso, page));
      var key := (idProceso, page);
      if useLRU {
        AccessLru(key);
      } else {
        AccessFifo(key);
      }
    }

    /** The LRU branch of `access_page`. */
    method AccessLru(key: Key)
      requires Valid() && useLRU
      modifies this
      ensures State() == Access(old(State()), key)
    {
      ghost var m := State();
      tick := tick + 1;
      if key in lruCache {
        lruCache := lruCache[key := tick];
        return;
      }
      faults := faults + 1;
      if |lruCache| >= maxFrames {
        var victim := LeastRecentlyUsed();
        lruCache := lruCache - {victim};
      }
      lruCache := lruCache[key := tick];
      assert State() == Access(m, key);
    }

    /** The FIFO branch of `access_page`. */
    method AccessFifo(key: Key)
      requires Valid() && !useLRU
      modifies this
      ensures State() == Access(old(State()), key)
    {
      tick := tick + 1;
      var hit := InFifo(key);
      if hit {
        return;
      }
      faults := faults + 1;
      if |fifo| >= maxFrames {
        fifo := fifo[1..];
      }
      fifo := fifo + [key];
    }
  }
}
