/** What one pass of the background loader does to the frame cache: drop the
    cached indices that left the window, then fetch and insert the indices
    that entered it. */
module Reconcile {

  /** The distinct members of the window list (`set(nset)`). */
  function Members(s: seq<int>): (m: set<int>)
    ensures forall i :: 0 <= i < |s| ==> s[i] in m
    ensures forall x :: x in m ==> exists i :: 0 <= i < |s| && s[i] == x
  {
    set x | x in s
  }

  /** Every cached frame is the frame the container holds for its index. */
  ghost predicate Coherent<Frame>(cache: map<int, Frame>, frames: int -> Frame) {
    forall k :: k in cache ==> cache[k] == frames(k)
  }

  /** The eviction loop: delete every cached index that is not wanted. */
  function Evict<Frame>(cache: map<int, Frame>, wanted: set<int>): (r: map<int, Frame>)
    ensures r.Keys == cache.Keys * wanted
    ensures forall k :: k in r ==> r[k] == cache[k]
  {
    cache - (cache.Keys - wanted)
  }

  /** The loading loop: insert the container's frame for every index in
      `missing`. */
  function Fill<Frame>(cache: map<int, Frame>, missing: set<int>, frames: int -> Frame): (r: map<int, Frame>)
    ensures forall k :: k in r <==> k in cache || k in missing
    ensures forall k :: k in missing ==> r[k] == frames(k)
    ensures forall k :: k in cache && k !in missing ==> r[k] == cache[k]
  {
    cache + map k | k in missing :: frames(k)
  }

  /** Loading one more index is one map update. */
  lemma FillStep<Frame>(cache: map<int, Frame>, done: set<int>, k: int, frames: int -> Frame)
    ensures Fill(cache, done + {k}, frames) == Fill(cache, done, frames)[k := frames(k)]
  {
  }

  /** Evicting keeps the cache coherent with the container. */
  lemma EvictCoherent<Frame>(cache: map<int, Frame>, wanted: set<int>, frames: int -> Frame)
    requires Coherent(cache, frames)
    ensures Coherent(Evict(cache, wanted), frames)
  {
  }

  /** One reconciliation pass: eviction of `cache.Keys - wanted` followed by
      loading of `wanted - cache.Keys`. */
  function Reconciled<Frame>(cache: map<int, Frame>, wanted: set<int>, frames: int -> Frame): (r: map<int, Frame>)
    ensures r.Keys == wanted
    ensures forall k :: k in cache && k in wanted ==> r[k] == cache[k]
    ensures forall k :: k in wanted && k !in cache ==> r[k] == frames(k)
  {
    Fill(Evict(cache, wanted), wanted - cache.Keys, frames)
  }

  /** A cache already holding exactly the wanted indices is left as it is. */
  lemma ReconciledFixpoint<Frame>(cache: map<int, Frame>, wanted: set<int>, frames: int -> Frame)
    requires cache.Keys == wanted
    ensures Reconciled(cache, wanted, frames) == cache
  {
  }

  /** A second pass against the same window changes nothing. */
  lemma ReconciledIdempotent<Frame>(cache: map<int, Frame>, wanted: set<int>, frames: int -> Frame)
    ensures Reconciled(Reconciled(cache, wanted, frames), wanted, frames) == Reconciled(cache, wanted, frames)
  {
  }

  /** A pass over a coherent cache leaves exactly the container's frames for
      the wanted indices, whatever was cached before: the cache's contents
      affect only which frames are fetched, never the values. */
  lemma ReconciledIsWindowOfSource<Frame>(cache: map<int, Frame>, wanted: set<int>, frames: int -> Frame)
    requires Coherent(cache, frames)
    ensures Coherent(Reconciled(cache, wanted, frames), frames)
    ensures Reconciled(cache, wanted, frames) == map k | k in wanted :: frames(k)
  {
    var r := Reconciled(cache, wanted, frames);
    forall k | k in r
      ensures r[k] == frames(k)
    {
      if k in cache {
        assert r[k] == cache[k];
      }
    }
  }
}
