# Breadth-first polygon fill, modelled in Dafny

The repository tiles a boundary polygon with regular k-gons (k in {3, 4, 6}).
Its `PolyFill` class starts from the tile centred on an anchor point and
expands breadth-first over the tiling lattice. Each dequeued tile is clipped
against the boundary and the pieces are collected. A tile's neighbours are
enqueued when their key (the centroid printed to six decimals) is unvisited
and they meet the boundary. The class exists twice, in `poly_fill.py`
(driven by `main.py`, method `run`) and in `polyfill.py` (driven by
`mapseg.py`, methods `fill` / `get_result`). The two copies share the same
control logic.

This project models that control logic. The geometry is abstract:

- a tile type `T`;
- a key function `id: T -> K`;
- a neighbour list `neighbours: T -> seq<T>`, which may contain repeats;
- a clip result `Clip<P> = Empty | Single | Multi | OtherNonEmpty`.

A tile is *feasible* when its clip is not `Empty`.

Modules:

- `Outcomes` (`outcomes.dfy`): the error kinds, `Option`, `Outcome` and `Result`.
- `Clipping` (`clipping.dfy`): `_append_to_result`.
- `Lattices` (`lattices.dfy`): the abstract lattice, `_mark_as_searched` (`Mark`), `_is_searched` (`Searched`), and walks through feasible tiles, which bound what a fill can reach.
- `Neighbours` (`neighbours.dfy`): `_get_feasible_neighbors`, a left fold that tests and marks one neighbour at a time, and an independent reference definition of what it accepts.
- `Bfs` (`bfs.dfy`): `_fill` / `_fill_by_bfs`, a worklist method over a `seq<T>` queue and a `set<K>` visited set. It also returns `order`, the sequence of dequeued tiles, which the source does not return; it exists so the contract can name the visiting order. `Replay` is an independent definition of the first-in first-out history, and `Filled` collects everything a fill promises. `Run` and `Fill` return `order` as a ghost value for the same reason.
- `Tiling` (`tiling.dfy`): the tiling parameters, the run guard, the geometry an object is built with, and the fill from the anchor's tile. Both copies share these.
- `PolyFillRun` (`poly_fill_run.dfy`): the object of `poly_fill.py`.
- `PolyFillObject` (`polyfill_object.dfy`): the object of `polyfill.py`.

Object state is an immutable datatype. `Run` and `Fill` return the new
state. `Run` returns the object unchanged on failure; `Fill` returns only
the error, and the caller keeps its object.

Behaviours of the code worth knowing:

- Neighbours that miss the boundary are not marked visited. Only accepted
  tiles are marked (`poly_fill.py:108-121`).
- The visited set and the collected pieces belong to the object. They are
  created in `__init__` and never reset, so a second run keeps both
  (`poly_fill.py:21-23`, `poly_fill.py:61`).
- The run guard asserts only that the radius is truthy (`poly_fill.py:50`).
  A rejected `set_params` with a non-zero radius passes the guard. The run
  then fails on the missing generator (`MissingTileGenerator`, an
  `AttributeError` in Python). If an earlier call was accepted, the run
  instead succeeds with that earlier, stale generator.
- `neighbors_of` reads the centres off a closed ring (`polyfill.py:47`). It
  therefore lists k + 1 tiles, the first repeated at the end, not k.

## Model

| member | source | states |
|---|---|---|
| `Clipping.AppendToResult` | poly_fill.py:90-103 | An empty clip appends nothing. A polygon appends exactly itself. A multi-polygon appends its parts in order. Any other non-empty geometry appends nothing. The collection is otherwise unchanged, and it grows only for a clip that meets the boundary. |
| `Lattices.Searched` | poly_fill.py:85-88 | A tile counts as searched exactly when marking it would leave the visited set unchanged. |
| `Lattices.Mark` | poly_fill.py:72-75 | Marking a tile puts its key in the visited set, keeps every earlier key, and adds no other key. |
| `Neighbours.FeasibleNeighbours` | poly_fill.py:105-121 | Every accepted neighbour comes from the list, meets the boundary, and had an unvisited key. Accepted keys are pairwise distinct, even when the list repeats a tile. The visited set grows by exactly the accepted keys. Afterwards every feasible neighbour in the list has a visited key. |
| `Neighbours.ScanSnoc` | poly_fill.py:119-121 | The scan is a sequential fold. One more entry at the end is tested against the visited set left by the earlier entries, and marked only if accepted. |
| `Neighbours.FoldIsPicks` | polyfill.py:171-180 | The fold accepts exactly the entries that are feasible, have an unvisited key, and whose key no earlier feasible entry shares, in list order. |
| `Neighbours.ClosingRepeatAddsNothing` | polyfill.py:43-48 | For a neighbour list whose last entry repeats the first, as the closed ring of centres yields, the scan accepts and marks the same as without the closing entry. |
| `Bfs.Step` | poly_fill.py:63-70 | One iteration removes the head of the queue and appends the accepted neighbours at the back (FIFO). The appended tiles are exactly the first-fresh feasible entries of the head's neighbour list, in list order (the reference `Picks`). They meet the boundary and have fresh, distinct keys. The visited set grows by exactly their keys. The head's feasible neighbours end up visited. The head's clip pieces are appended. |
| `Bfs.FillByBfs` | poly_fill.py:57-70 | `Filled`: the dequeued tiles are the breadth-first order from the start, equal to the history a first-in first-out replay of them generates (`Replay`), with the queue non-empty until the last. The visited set ends as the old set plus the keys of the dequeued tiles. No key is enqueued twice. Every later tile meets the boundary, had an unvisited key, and neighbours an earlier dequeued tile. The feasible neighbours of every dequeued tile end up visited. The pieces are the old ones followed by each dequeued tile's clip pieces, in dequeue order. If the start's feasible neighbours were all visited before, only the start is dequeued. Termination holds when the tiles reachable from the start carry finitely many keys. |
| `Bfs.BreadthFirstUnique` | poly_fill.py:61-70 | Two breadth-first orders from the same start over the same visited keys are equal. So the order `FillByBfs` promises leaves no choice of the next tile or of where the fill stops; a depth-first order does not satisfy it. |
| `Bfs.FilledAnchor` | poly_fill.py:61-65 | A fill only adds keys. It marks the start tile and every feasible neighbour of it, and the start's pieces follow the earlier ones directly. When only the start is dequeued, exactly its pieces and its key are added. |
| `Bfs.NothingBeyondCoveredStart` | polyfill.py:116-129 | When the start tile's feasible neighbours are all visited already, the history of enqueued tiles is the start alone. |
| `Tiling.FillFromAnchor` | polyfill.py:110-112 | Filling from the generator's anchor tile satisfies `Filled` for the lattice that generator induces: the breadth-first order, the keys and the pieces of every dequeued tile, not only the anchor's. In particular it only adds keys, marks the anchor and its feasible neighbours, and puts the anchor's pieces first. If the anchor was already expanded, exactly those pieces and that key are added. |
| `Tiling.Guard` | poly_fill.py:50-52 | The guard passes iff the radius is truthy and a generator is stored. It fails with `NotConfigured` iff the radius is `None` or zero, and never with `InvalidParameters`. |
| `PolyFillRun.New` | poly_fill.py:10-23 | A fresh object fails the run guard with `NotConfigured`, and holds no pieces and no keys. |
| `PolyFillRun.SetParams` | poly_fill.py:25-41 | The call succeeds iff radius > 0 and k is 3, 4 or 6, and fails with `InvalidParameters` otherwise. In both cases radius, k and theta are overwritten. Only success builds the generator; failure keeps the old one. Pieces and keys are untouched. |
| `PolyFillRun.RejectedResetKeepsGenerator` | poly_fill.py:31-39 | After an accepted call, a rejected call with a non-zero radius leaves an object that passes the run guard with the earlier generator, while holding the rejected radius and k. |
| `PolyFillRun.RejectedFirstSetParams` | poly_fill.py:31-52 | A rejected first call leads `run` to fail. With a zero radius it fails with `NotConfigured`; with any other radius it fails on the missing generator. |
| `PolyFillRun.Run` | poly_fill.py:43-55 | The run succeeds iff the guard passes; otherwise it fails and changes nothing. On success the new pieces and keys satisfy `Filled` from the anchor's tile over the object's old pieces and keys, and the run returns one vertex list per collected piece (earlier runs' pieces included), in order. The parameters are unchanged. |
| `PolyFillRun.RunTwice` | poly_fill.py:43-70 | A second run keeps every earlier piece and vertex list. It appends the anchor tile's pieces again and marks no new key. |
| `PolyFillObject.New` | polyfill.py:55-71 | A fresh object fails the guard with `NotConfigured`. It holds no pieces, no keys, and an empty `get_result`. |
| `PolyFillObject.SetParams` | polyfill.py:73-89 | Same as `PolyFillRun.SetParams`: success iff radius > 0 and k is 3, 4 or 6. On rejection the parameters are overwritten but the generator is kept. Collected state is untouched. |
| `PolyFillObject.SyncedGetResult` | polyfill.py:91-92 | A fresh object is in sync (its stored vertex lists are those of its pieces), and `set_params` keeps it so. On an object in sync, `get_result` returns one vertex list per collected piece, in collection order. |
| `PolyFillObject.Fill` | polyfill.py:101-114 | The fill succeeds iff the guard passes, and then returns the object. Its pieces and keys satisfy `Filled` from the anchor's tile over the old ones, so every piece after the anchor's is pinned too. `get_result` then holds one vertex list per collected piece, in collection order, and the object is in sync. The parameters are unchanged. |
| `PolyFillObject.FillTwice` | polyfill.py:101-129 | A second `fill` on the same object keeps the earlier pieces and results, re-appends the anchor tile's pieces, and marks no new key. |

## Left out

- The tile generator (`PolyGetter`: `from_center`, `from_vertex`, `neighbors_of`) is floating-point trigonometry. The model takes `tileAt` and `neighboursOf` as uninterpreted functions of the generator. No congruence, adjacency or symmetry of tiles is modelled. The rotation units in the source are also inconsistent (`poly_getter.py:13` versus `:21`; `polyfill.py:35`).
- The geometry library calls (`intersection`, `is_empty`, `centroid`, `exterior.coords`, and the conversion of a vertex list to a polygon at `polyfill.py:61-62`) belong to a foreign library. They are the abstract `clip`, `id` and `outline`. A `Multi` with no parts counts as non-empty here; the library reports such a geometry as empty.
- The geometry calls never fail here. A geometry-engine exception from `intersection` or `centroid` (`poly_fill.py:82`, `poly_fill.py:94`, `poly_fill.py:113`, `polyfill.py:141`, `polyfill.py:153`, `polyfill.py:172`) is not modelled. In the source such an exception aborts the fill part-way, with keys and pieces partly added, and in `polyfill.py` with `_result` left stale because line 113 never runs; a retried run then skips the tiles already marked.
- `_get_poly_id` formats float centroids, which is not modelled. The key is an abstract type with equality.
- `Bfs.FillByBfs` is proved to terminate under the assumption that the tiles reachable from the start through feasible tiles carry keys from a finite set `universe`. This assumption is enough for termination but not required for it: keys already visited, or a key shared by tiles with different neighbour lists, can cut the walk off earlier. It always holds for the real geometry, because the six-decimal centroid keys of tiles within one radius of the bounded boundary are finitely many.
- The radius and rotation are `real`, with no NaN. `k` is an integer, so a float side count such as `6.0` is not modelled. The defaults `k=6, theta=0` are supplied by the caller.
- A Python `assert` raises `AssertionError` and disappears under `-O`. Here it is a returned error (`InvalidParameters`, `NotConfigured`).
- `show` (matplotlib) is left out, as are the `__main__` demos and `main.py`. `util.py` and `mapseg.py` are also left out: projection through pyproj, JS file writing, the browser, and `MapSeg.set_params`. All of these are I/O or foreign libraries.
