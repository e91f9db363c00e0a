# spimagine prefetching frame cache, in Dafny

This project models the frame cache of spimagine's `data_model.py`. The
`DataLoadModel` coordinator keeps a window of time points of a data
container in memory. A `DataLoadThread` worker reconciles the cache with
that window in the background, and the GUI reads frames with
`model[pos]`.

The model removes the Qt thread, the read/write lock and the signals. The
coordinator's operations are methods of one class, `DataLoadModel`. One
iteration of the worker's polling loop is the method `ReconcileOnce` on
the same object. In the source, the worker holds references to the
coordinator's own `data` dict and `nset` list, so both act on the same
state.

- `wrappers.dfy`: `Option` stands for a lookup that may return `None`.
  `Outcome` stands for a call that returns normally or raises.
- `window.dfy` (module `Window`): `neighborhood`, written as
  `np.arange(pos, pos+prefetchSize+1) % sizeT`. It also holds the lemmas
  about the window: distinct indices, coverage of the stack, wrap-around.
- `reconcile.dfy` (module `Reconcile`): the value-level specification of
  one worker pass. `Evict` models the deletion loop, `Fill` the loading
  loop, and `Reconciled` is the two in sequence. Its lemmas cover
  idempotence and agreement with the container.
- `data_model.dfy` (module `DataModel`): the class `DataLoadModel<Frame>`.
  - Its fields are `container`, `fName`, `prefetchSize`, `nset`, `data`
    and `pos`.
  - `Valid()` is the object invariant. Every cached frame equals the
    container's frame for its index. When the stack is non-empty, every
    window index lies in `[0, sizeT)`.
  - Methods: `Prefetch`, `SetPos`, `GetItem` (`__getitem__`), `Load`, and
    the worker pass `ReconcileOnce` with its two loops, `EvictStale` and
    `LoadMissing`.
  - The ghost counter `fetches` counts container reads. It makes
    "a cache hit does not consult the container" expressible.

Modelling choices:

- **Frames.** A frame is the type parameter `Frame`. The container is the
  value `Container(frames, sizeT)`:
  - `frames(k)` stands for `dataContainer[k]`;
  - `sizeT` stands for `dataContainer.sizeT()`.
- **Before the first load.** Before any container is bound,
  `container == None`. The Python object then has no `data` and no
  `dataContainer` attribute.
- **`prefetchSize` is an `int`, as in Python.** A negative value makes
  `np.arange` empty, so the window is `[]`.
- **Remainder.** The remainder is NumPy's element-wise `%`. For a positive
  divisor it is the floor remainder, which equals Dafny's `%`, including
  for negative `pos`. For an integer divisor of 0 NumPy yields 0 (with a
  warning); `Window.Mod` writes that case out. It is reached only when
  `__getitem__` runs after a load of a container with no frames.
- **`load` of an empty container.** On such a container, `load` resets
  the cache and window before `setPos(0)` raises `IndexError`. `Load`
  models this: it returns `Fail(IndexError(0, -1))`, with the reset state
  and the old `pos`.
- **`setPos` before any load.** It raises `AttributeError` (no
  `dataContainer`). This is the `NotLoaded` error, and it changes nothing.
- **`chooseContainer`.** It becomes the function parameter
  `chooseContainer` of `Load`. `None` stands for the exception that `load`
  catches before returning without a change.

## Model

| member | source | states |
|---|---|---|
| `Window.Mod` | spimagine/data_model.py:205 | for a positive `n` the result is the floor remainder: it lies in `[0, n)` and `a == n * q + r` for some integer `q`, so it is `a` itself for `0 <= a < n`; for a zero divisor it is 0 |
| `Window.Arange` | spimagine/data_model.py:205 | `np.arange(start, stop)` has `stop - start` elements (none if `stop <= start`) and its k-th element is `start + k` |
| `Window.Remainders` | spimagine/data_model.py:205 | the element-wise remainder keeps the length and maps each element through `Mod` |
| `Window.Neighborhood` | spimagine/data_model.py:203-205 | the window has `prefetchSize + 1` indices (none for negative `prefetchSize`); index k is `(pos + k) % sizeT`, which lies in `[0, sizeT)`; with `sizeT == 0` every index is 0; the first index is `pos` when `pos` is in range |
| `Window.NeighborhoodDistinct` | spimagine/data_model.py:203-205 | a window no wider than the stack has pairwise distinct indices |
| `Window.NeighborhoodCoversStack` | spimagine/data_model.py:203-205 | a window at least as wide as the stack contains every frame index: its duplicates collapse to the whole stack |
| `Window.NeighborhoodWrapsAround` | spimagine/data_model.py:203-205 | a window of radius 2 at frame 8 of 10 frames is `[8, 9, 0]` |
| `Reconcile.Members` | spimagine/data_model.py:75-76 | `set(nset)` contains every list element and nothing else |
| `Reconcile.Evict` | spimagine/data_model.py:74-79 | deleting the unwanted keys leaves exactly the cached keys that are wanted, with their values unchanged |
| `Reconcile.Fill` | spimagine/data_model.py:81-87 | loading adds exactly the missing keys, each mapped to the container's frame, and keeps every other entry |
| `Reconcile.Reconciled` | spimagine/data_model.py:74-87 | after one pass the cache's keys are exactly the wanted set; cached wanted entries keep their values; new entries are the container's frames |
| `Reconcile.ReconciledFixpoint` | spimagine/data_model.py:74-87 | a pass over a cache whose keys already equal the wanted set changes nothing |
| `Reconcile.ReconciledIdempotent` | spimagine/data_model.py:74-87 | a second pass with the same window returns the result of the first |
| `Reconcile.ReconciledIsWindowOfSource` | spimagine/data_model.py:74-87 | a pass over a coherent cache yields a coherent cache, which is exactly the container restricted to the window |
| `Reconcile.EvictCoherent` | spimagine/data_model.py:78-79 | deleting entries keeps every remaining frame equal to the container's |
| `Reconcile.FillStep` | spimagine/data_model.py:83-86 | loading one more index is one map update with the container's frame |
| `DataModel.DataLoadModel.constructor` | spimagine/data_model.py:100-106 | a model built without a name or a container is unloaded, with an empty cache and window |
| `DataModel.DataLoadModel.Fetch` | spimagine/data_model.py:190-193 | reading frame `k` inserts the container's frame at `k`, counts one container read, and keeps the invariant |
| `DataModel.DataLoadModel.Prefetch` | spimagine/data_model.py:159-162 | the window list becomes `neighborhood(p)`; nothing else changes |
| `DataModel.DataLoadModel.SetPos` | spimagine/data_model.py:173-181 | an unloaded model fails with `NotLoaded`; `p < 0` or `p >= sizeT` fails with `IndexError(p, sizeT - 1)`; on failure `pos`, `nset` and the cache are unchanged; on success `pos == p` and `nset == neighborhood(p)` (also for `prefetchSize == 0`, where it is `[p]`), with the cache untouched |
| `DataModel.DataLoadModel.GetItem` | spimagine/data_model.py:184-200 | before any load it returns `None` and changes nothing; otherwise it always returns the container's frame at `p`; on a hit the cache and the read count are unchanged; on a miss the frame is inserted and read once; `nset` becomes `neighborhood(p)` exactly when `prefetchSize > 0`; the invariant is kept |
| `DataModel.DataLoadModel.Load` | spimagine/data_model.py:120-146 | with neither a name nor a container, or a name `chooseContainer` cannot open, nothing changes; otherwise the container, name and `prefetchSize` are bound and the cache emptied; a non-empty container ends with `pos == 0` and `nset == neighborhood(0)`; an empty one raises `IndexError` with `nset == []` and `pos` unchanged |
| `DataModel.DataLoadModel.EvictStale` | spimagine/data_model.py:78-79 | the deletion loop leaves `Evict(old cache, wanted)` and keeps the invariant |
| `DataModel.DataLoadModel.LoadMissing` | spimagine/data_model.py:81-89 | the loading loop leaves `Fill(old cache, missing, frames)`, reads the container once per missing index, and keeps the invariant |
| `DataModel.DataLoadModel.ReconcileOnce` | spimagine/data_model.py:74-89 | one pass leaves `Reconciled(old cache, set(nset), frames)`, which is the container restricted to `set(nset)`; it reads the container once per wanted index that was not cached; afterwards, for a non-empty stack, every cached key lies in `[0, sizeT)`; a pass over an already reconciled cache changes nothing |

## Left out

- **Qt threading.** The `QThread` subclass, `start(priority=...)`, the
  `stopped` flag, `stop()` and the `time.sleep` polling are left out. The
  worker loop is one sequential pass, `ReconcileOnce`. Its interleavings
  with the coordinator and its shutdown are therefore not modelled. This
  includes the restart in `load`, where `start()` on a thread that has
  not yet exited is ignored.
- **Locking.** The `QReadWriteLock` calls are left out. Every step is
  atomic in the model. In the source the worker's deletion loop
  (`spimagine/data_model.py:78-79`) takes no lock, and the read lock in
  `__getitem__` (`spimagine/data_model.py:185`) is commented out. So the
  worker can delete `pos` after `__getitem__` has found or stored it and
  before it returns `self.data[pos]` (`spimagine/data_model.py:200`). The
  `defaultdict` then inserts and returns `None`. Because the call has just
  made `pos` part of the window, that `None` stays cached until `pos`
  leaves the window. This interleaving is not modelled: in the model
  `GetItem` always returns the container's frame.
- **Worker-to-cache binding.** `DataLoadThread.load` passes the worker
  the coordinator's dict and list. The model states this as the
  precondition of `ReconcileOnce`: a container is loaded and
  `prefetchSize > 0`. A worker left running on the previous cache after a
  reload with `prefetchSize <= 0` is not modelled.
- **Signals.** `_dataSourceChanged`, `_dataPosChanged`, their print
  handlers and the `MyData` override are left out. They are notification
  plumbing with no effect on the cache.
- **`DemoData`.** It is NumPy floating-point volume synthesis and is left
  out.
- **The `dataloader` module.** `chooseContainer` and the `TiffData` and
  `SpimData` readers come from it. It is not part of this model. Name
  resolution is a parameter of `Load`.
- **Container contract.** A container is a total function with a fixed
  frame count. Read failures inside `dataContainer[k]` are not modelled.
  In the source, such a failure would propagate out of `__getitem__` or
  end the worker's `run`. The `stackSize` pass-through and the
  truthiness of a container object beyond `None` are also not modelled.
- **`sizeT()` and `stackSize()` methods.** `sizeT()` is the function
  `DataModel.DataLoadModel.SizeT`, which reads the container's `sizeT`
  field (`spimagine/data_model.py:164-166`). Before any load `sizeT()`
  raises `AttributeError`, because there is no `dataContainer`. `SizeT`
  requires a loaded container, and `SetPos` reports that case as
  `NotLoaded`. `stackSize()` is left out.
- **`defaultdict` factory.** In a sequential run it is never triggered,
  because `__getitem__` reads only keys it has just ensured are present.
  Only the unlocked interleaving described under **Locking** reaches it.
  The cache is a plain map.
- **Constructor arguments.** `DataLoadModel(fName, dataContainer,
  prefetchSize)` with a name or a container calls `load`
  (`spimagine/data_model.py:108-109`). In the model this is
  `new DataLoadModel()` followed by `Load`. An exception from that load
  aborting construction is not modelled.
- **`print` statements and the `__main__` block.** These are left out.
- **`pos` before any successful `setPos`.** This attribute does not exist
  in Python. The model starts it at 0.
- **Integer width.** The model treats window indices as unbounded
  integers. NumPy's `int64` overflow in `np.arange` near the 64-bit limit
  is not modelled.
- `DataModel.DataLoadModel.Prefetch`: requires a loaded container. Before
  any load, the source's `prefetch` fails with an `AttributeError`, and
  none of its callers reaches it in that state.
