/** The prefetching frame cache of spimagine's `DataLoadModel`, with the Qt
    thread, lock and signals taken away: the coordinator's operations and one
    reconciliation pass of `DataLoadThread.run`, run as sequential steps on
    the state that the coordinator and its loader thread share. */
module DataModel {
  import opened Wrappers
  import opened Window
  import opened Reconcile

  /** A data container (a `GenericData`): the frame it yields for each index
      (`dataContainer[k]`) and its number of time points (`sizeT()`). */
  datatype Container<Frame> = Container(frames: int -> Frame, sizeT: nat)

  /** The exceptions the coordinator raises. `IndexError` carries the
      rejected position and the last valid one, as its message does;
      `NotLoaded` is the `AttributeError` of a call that needs the container
      before any container was loaded. */
  datatype Error = IndexError(pos: int, last: int) | NotLoaded

  /** Some member of a non-empty set: the element a `for` loop over the set
      visits next. */
  method Pick(s: set<int>) returns (k: int)
    requires s != {}
    ensures k in s
  {
    assert exists x :: x in s by {
      if forall x :: x !in s {
        assert false;
      }
    }
    k :| k in s;
  }

  class DataLoadModel<Frame> {
    /** `dataContainer`; `None` until a load succeeds in binding one (the
        attributes `dataContainer` and `data` do not exist until then). */
    var container: Option<Container<Frame>>
    var fName: string
    var prefetchSize: int
    /** The window list shared with the loader thread. */
    var nset: seq<int>
    /** The frame cache shared with the loader thread. */
    var data: map<int, Frame>
    var pos: int
    /** How many frames have been read from a container, for stating when
        the container is consulted. */
    ghost var fetches: nat

    /** `sizeT()`: the frame count of the bound container. */
    function SizeT(): nat
      reads this
      requires container.Some?
    {
      container.value.sizeT
    }

    /** The object invariant: no cache and no window before a load; after
        one, every cached frame is the container's frame for its index and,
        when the stack is non-empty, every window index lies in it. */
    ghost predicate Valid()
      reads this
    {
      && (container.None? ==> data == map[] && nset == [])
      && (container.Some? ==> Coherent(data, container.value.frames))
      && (container.Some? && container.value.sizeT > 0 ==>
            forall i :: 0 <= i < |nset| ==> 0 <= nset[i] < container.value.sizeT)
    }

    /** `DataLoadModel()` with neither a file name nor a container. */
    constructor ()
      ensures Valid()
      ensures container.None? && data == map[] && nset == [] && fetches == 0
    {
      container := None;
      fName := "";
      prefetchSize := 0;
      nset := [];
      data := map[];
      pos := 0;
      fetches := 0;
    }

    /** Read frame `k` from the container and store it in the cache under
        the write lock, as both the loader and a cache miss do. */
    method Fetch(k: int)
      requires Valid() && container.Some?
      modifies this`data, this`fetches
      ensures Valid()
      ensures data == old(data)[k := container.value.frames(k)]
      ensures fetches == old(fetches) + 1
    {
      var newdata := container.value.frames(k);
      fetches := fetches + 1;
      data := data[k := newdata];
    }

    /** `prefetch(pos)`: publish the window around `p` to the loader by
        replacing the shared list's contents. */
    method Prefetch(p: int)
      requires Valid() && container.Some?
      modifies this`nset
      ensures Valid()
      ensures nset == Neighborhood(p, prefetchSize, SizeT())
    {
      nset := Neighborhood(p, prefetchSize, SizeT());
    }

    /** `setPos(pos)`: move the cursor to `p` and publish its window, or
        raise without touching anything when `p` is outside the stack. */
    method SetPos(p: int) returns (res: Outcome<Error>)
      requires Valid()
      modifies this`pos, this`nset
      ensures Valid()
      ensures container.None? ==> res == Fail(NotLoaded)
      ensures container.Some? && (p < 0 || p >= SizeT()) ==> res == Fail(IndexError(p, SizeT() - 1))
      ensures res.Fail? ==> pos == old(pos) && nset == old(nset)
      ensures container.Some? && 0 <= p < SizeT() ==>
        res == Pass && pos == p && nset == Neighborhood(p, prefetchSize, SizeT())
    {
      if container.None? {
        return Fail(NotLoaded);
      }
      if p < 0 || p >= SizeT() {
        return Fail(IndexError(p, SizeT() - 1));
      }
      pos := p;
      Prefetch(pos);
      res := Pass;
    }

    /** `__getitem__(pos)`: the frame at `p`, served from the cache or read
        from the container and cached; when prefetching is on, the window is
        moved to `p` as well. Before any load it returns `None`. */
    method GetItem(p: int) returns (r: Option<Frame>)
      requires Valid()
      modifies this`data, this`nset, this`fetches
      ensures Valid()
      ensures container.None? ==> r == None && unchanged(this)
      ensures container.Some? ==> r == Some(container.value.frames(p))
      ensures container.Some? && p in old(data) ==>
        r == Some(old(data)[p]) && data == old(data) && fetches == old(fetches)
      ensures container.Some? && p !in old(data) ==>
        data == old(data)[p := container.value.frames(p)] && fetches == old(fetches) + 1
      ensures container.Some? ==>
        nset == if prefetchSize > 0 then Neighborhood(p, prefetchSize, SizeT()) else old(nset)
    {
      if container.None? {
        return None;
      }
      if p !in data {
        Fetch(p);
      }
      if prefetchSize > 0 {
        Prefetch(p);
      }
      r := Some(data[p]);
    }

    /** `load(fName, dataContainer, prefetchSize)`. With neither a name nor
        a container, or when `chooseContainer` cannot open the name, nothing
        happens. Otherwise the container is bound, the cache and the window
        are reset, and the cursor is moved to 0 — which raises, after the
        reset, when the container has no frames. */
    method Load(fName: string, dataContainer: Option<Container<Frame>>, prefetchSize: int,
                chooseContainer: string -> Option<Container<Frame>>)
      returns (res: Outcome<Error>)
      requires Valid()
      modifies this
      ensures Valid()
      ensures fetches == old(fetches)
      ensures fName == "" && dataContainer.None? ==> res == Pass && unchanged(this)
      ensures fName != "" && dataContainer.None? && chooseContainer(fName).None? ==>
        res == Pass && unchanged(this)
      ensures var c := if dataContainer.Some? then dataContainer
                       else if fName != "" then chooseContainer(fName) else None;
        c.Some? ==>
          && container == c && this.fName == fName && this.prefetchSize == prefetchSize
          && data == map[]
          && (c.value.sizeT > 0 ==>
                res == Pass && pos == 0 && nset == Neighborhood(0, prefetchSize, c.value.sizeT))
          && (c.value.sizeT == 0 ==>
                res == Fail(IndexError(0, -1)) && pos == old(pos) && nset == [])
    {
      if fName == "" && dataContainer.None? {
        return Pass;
      }
      var c := dataContainer;
      if c.None? {
        c := chooseContainer(fName);
        if c.None? {
          return Pass;
        }
      }
      container := c;
      this.fName := fName;
      this.prefetchSize := prefetchSize;
      nset := [];
      data := map[];
      res := SetPos(0);
    }

    /** The eviction loop of `DataLoadThread.run`: delete, one by one, the
        cached indices that are not wanted. */
    method EvictStale(wanted: set<int>)
      requires Valid() && container.Some?
      modifies this`data
      ensures Valid()
      ensures data == Evict(old(data), wanted)
    {
      ghost var before := data;
      var dkset := data.Keys - wanted;
      var stale := dkset;
      while stale != {}
        invariant stale <= dkset
        invariant data == before - (dkset - stale)
        decreases stale
      {
        var k := Pick(stale);
        assert dkset - (stale - {k}) == (dkset - stale) + {k};
        data := data - {k};
        stale := stale - {k};
      }
      EvictCoherent(before, wanted, container.value.frames);
    }

    /** The loading loop of `DataLoadThread.run`: read each missing index
        from the container and insert it. */
    method LoadMissing(missing: set<int>)
      requires Valid() && container.Some?
      modifies this`data, this`fetches
      ensures Valid()
      ensures data == Fill(old(data), missing, container.value.frames)
      ensures fetches == old(fetches) + |missing|
    {
      ghost var before, logged := data, fetches;
      ghost var frames := container.value.frames;
      var todo := missing;
      while todo != {}
        invariant todo <= missing
        invariant data == Fill(before, missing - todo, frames)
        invariant fetches + |todo| == logged + |missing|
        invariant Valid()
        decreases todo
      {
        var k := Pick(todo);
        ghost var done := missing - todo;
        FillStep(before, done, k, frames);
        assert missing - (todo - {k}) == done + {k};
        Fetch(k);
        todo := todo - {k};
      }
    }

    /** One pass of the loop in `DataLoadThread.run`: evict the cached
        indices outside the window, then read and insert the window indices
        that are not cached. The loader is attached to this cache only after
        a load with a positive `prefetchSize`. */
    method ReconcileOnce()
      requires Valid() && container.Some? && prefetchSize > 0
      modifies this`data, this`fetches
      ensures Valid()
      ensures data == Reconciled(old(data), Members(nset), container.value.frames)
      ensures data == map k | k in Members(nset) :: container.value.frames(k)
      ensures fetches == old(fetches) + |Members(nset) - old(data).Keys|
      ensures SizeT() > 0 ==> forall k :: k in data ==> 0 <= k < SizeT()
      ensures old(data).Keys == Members(nset) ==> data == old(data) && fetches == old(fetches)
    {
      var kset := data.Keys;
      var wanted := Members(nset);
      var dnset := wanted - kset;
      EvictStale(wanted);
      LoadMissing(dnset);
      assert data == Reconciled(old(data), wanted, container.value.frames);
      ReconciledIsWindowOfSource(old(data), wanted, container.value.frames);
      if old(data).Keys == wanted {
        ReconciledFixpoint(old(data), wanted, container.value.frames);
        assert dnset == {};
      }
    }
  }
}
