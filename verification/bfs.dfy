/** `_fill` / `_fill_by_bfs`: the first-in first-out worklist over tiles. */
module Bfs {
  import opened Clipping
  import opened Lattices
  import opened Neighbours

  /** The loop state: the queue of tiles, the visited keys and the collected pieces. */
  datatype Worklist<T, K, P> = Worklist(queue: seq<T>, visited: set<K>, collected: seq<P>)

  /** The pieces collected from a sequence of dequeued tiles, in order. */
  ghost function Harvest<T, K, P>(lat: Lattice<T, K, P>, ts: seq<T>): seq<P>
    decreases |ts|
  {
    if |ts| == 0 then []
    else Harvest(lat, ts[..|ts| - 1]) + Contribution(lat.clip(ts[|ts| - 1]))
  }

  lemma HarvestSnoc<T, K, P>(lat: Lattice<T, K, P>, ts: seq<T>, t: T)
    ensures Harvest(lat, ts + [t]) == Harvest(lat, ts) + Contribution(lat.clip(t))
  {
    assert (ts + [t])[..|ts|] == ts;
  }

  /** The first tile's pieces open the harvest. */
  lemma {:induction false} HarvestPrefix<T, K, P>(lat: Lattice<T, K, P>, ts: seq<T>)
    requires |ts| >= 1
    ensures |Harvest(lat, ts)| >= |Contribution(lat.clip(ts[0]))|
    ensures Harvest(lat, ts)[..|Contribution(lat.clip(ts[0]))|] == Contribution(lat.clip(ts[0]))
    decreases |ts|
  {
    if |ts| > 1 {
      var init := ts[..|ts| - 1];
      assert init[0] == ts[0];
      HarvestPrefix(lat, init);
    } else {
      assert ts[..0] == [];
    }
  }

  /**
   * Reference definition of the breadth-first history: every tile ever
   * enqueued when the tiles of `order` are dequeued in turn. It starts with
   * `start`; dequeuing a tile appends the first-fresh feasible entries of its
   * neighbour list, judged against `searched` and the keys enqueued so far.
   */
  ghost function Replay<T, K, P>(lat: Lattice<T, K, P>, searched: set<K>, start: T, order: seq<T>): seq<T>
    decreases |order|
  {
    if |order| == 0 then [start]
    else
      var h := Replay(lat, searched, start, order[..|order| - 1]);
      h + Picks(lat, searched + Keys(lat, h), lat.neighbours(order[|order| - 1]))
  }

  /** The queue was never empty while `order` was dequeued. */
  ghost predicate Busy<T, K, P>(lat: Lattice<T, K, P>, searched: set<K>, start: T, order: seq<T>) {
    forall d :: 0 <= d < |order| ==> |Replay(lat, searched, start, order[..d])| > d
  }

  /**
   * `order` is the breadth-first order from `start`: the tiles dequeued are
   * exactly the tiles enqueued, first in first out, and the queue ran dry
   * only after the last of them.
   */
  ghost predicate BreadthFirst<T, K, P>(lat: Lattice<T, K, P>, searched: set<K>, start: T, order: seq<T>) {
    order == Replay(lat, searched, start, order) && Busy(lat, searched, start, order)
  }

  /** Replaying a prefix of the dequeued tiles yields a prefix of the history. */
  lemma {:induction false} ReplayPrefix<T, K, P>(lat: Lattice<T, K, P>, searched: set<K>, start: T,
                                                 order: seq<T>, d: nat)
    requires d <= |order|
    ensures var h, h' := Replay(lat, searched, start, order[..d]), Replay(lat, searched, start, order);
            |h| <= |h'| && h'[..|h|] == h
    decreases |order|
  {
    if d < |order| {
      var init := order[..|order| - 1];
      assert init[..d] == order[..d];
      ReplayPrefix(lat, searched, start, init, d);
    } else {
      assert order[..d] == order;
    }
  }

  /** Two breadth-first orders that agree before position `d` agree at `d`. */
  lemma NextAgrees<T, K, P>(lat: Lattice<T, K, P>, searched: set<K>, start: T, a: seq<T>, b: seq<T>, d: nat)
    requires BreadthFirst(lat, searched, start, a) && BreadthFirst(lat, searched, start, b)
    requires d < |a| && d < |b| && a[..d] == b[..d]
    ensures a[d] == b[d]
  {
    var h := Replay(lat, searched, start, a[..d]);
    assert |h| > d;
    ReplayPrefix(lat, searched, start, a, d);
    ReplayPrefix(lat, searched, start, b, d);
    var ha, hb := Replay(lat, searched, start, a), Replay(lat, searched, start, b);
    assert ha[..|h|] == h && hb[..|h|] == h;
    assert a[d] == ha[d] == ha[..|h|][d];
    assert b[d] == hb[d] == hb[..|h|][d];
  }

  /** Two breadth-first orders agree on their first `d` tiles. */
  lemma {:induction false} AgreePrefix<T, K, P>(lat: Lattice<T, K, P>, searched: set<K>, start: T,
                                                a: seq<T>, b: seq<T>, d: nat)
    requires BreadthFirst(lat, searched, start, a) && BreadthFirst(lat, searched, start, b)
    requires d <= |a| && d <= |b|
    ensures a[..d] == b[..d]
    decreases d
  {
    if d > 0 {
      AgreePrefix(lat, searched, start, a, b, d - 1);
      NextAgrees(lat, searched, start, a, b, d - 1);
      assert a[..d] == a[..d - 1] + [a[d - 1]];
      assert b[..d] == b[..d - 1] + [b[d - 1]];
    }
  }

  /**
   * The breadth-first order is unique: the contract of `FillByBfs` leaves
   * no choice of which tile comes next, nor of where the fill stops.
   */
  lemma BreadthFirstUnique<T, K, P>(lat: Lattice<T, K, P>, searched: set<K>, start: T, a: seq<T>, b: seq<T>)
    requires BreadthFirst(lat, searched, start, a) && BreadthFirst(lat, searched, start, b)
    requires |a| <= |b|
    ensures a == b
  {
    AgreePrefix(lat, searched, start, a, b, |a|);
    assert a == b[..|a|];
  }

  /** One more dequeue extends the replayed history by the tile's picks. */
  lemma AdvanceReplay<T, K, P>(lat: Lattice<T, K, P>, searched: set<K>, start: T, order: seq<T>,
                               queue: seq<T>, hist: seq<T>, visited: set<K>, added: seq<T>)
    requires hist == Replay(lat, searched, start, order) && Busy(lat, searched, start, order)
    requires hist == order + queue && |queue| > 0
    requires visited == searched + Keys(lat, hist)
    requires added == Picks(lat, visited, lat.neighbours(queue[0]))
    ensures hist + added == Replay(lat, searched, start, order + [queue[0]])
    ensures Busy(lat, searched, start, order + [queue[0]])
  {
    var o := order + [queue[0]];
    assert o[..|order|] == order;
    forall d | 0 <= d < |o|
      ensures |Replay(lat, searched, start, o[..d])| > d
    {
      if d < |order| {
        assert o[..d] == order[..d];
      }
    }
  }

  /**
   * One iteration: the head tile leaves the front of the queue, its clip
   * pieces are appended, and its feasible unvisited neighbours join the back
   * of the queue with their keys marked.
   */
  method Step<T, K, P>(lat: Lattice<T, K, P>, w: Worklist<T, K, P>)
    returns (r: Worklist<T, K, P>, added: seq<T>)
    requires |w.queue| > 0
    ensures r.queue == w.queue[1..] + added
    ensures forall i :: 0 <= i < |added| ==>
              added[i] in lat.neighbours(w.queue[0])
              && Feasible(lat, added[i]) && !Searched(lat, w.visited, added[i])
    ensures added == Picks(lat, w.visited, lat.neighbours(w.queue[0]))
    ensures DistinctKeys(lat, added)
    ensures r.visited == w.visited + Keys(lat, added)
    ensures Covered(lat, r.visited, w.queue[0])
    ensures r.collected == w.collected + Contribution(lat.clip(w.queue[0]))
  {
    var t := w.queue[0];
    var collected := AppendToResult(w.collected, lat.clip(t));
    var scan := FeasibleNeighbours(lat, w.visited, lat.neighbours(t));
    FoldIsPicks(lat, w.visited, lat.neighbours(t));
    added := scan.accepted;
    r := Worklist(w.queue[1..] + added, scan.visited, collected);
  }

  /** Adding a fresh key of `universe` shrinks what is left of it. */
  lemma RemainderShrinks<K>(universe: set<K>, a: set<K>, b: set<K>, k: K)
    requires a <= b && k in universe && k in b && k !in a
    ensures |universe - b| < |universe - a|
  {
    var left, right := universe - b, universe - a;
    assert left <= right && k in right && k !in left;
    assert right == left + (right - left);
    assert |right| == |left| + |right - left|;
  }

  /**
   * Every tile after the first was found as a neighbour of an earlier tile
   * among the first `done` ones (the tiles already dequeued).
   */
  ghost predicate Parented<T, K, P>(lat: Lattice<T, K, P>, hist: seq<T>, done: nat) {
    forall i :: 1 <= i < |hist| ==> HasParent(lat, hist, done, i)
  }

  /** Tile `i` is a neighbour of some tile before it among the first `done`. */
  ghost predicate HasParent<T, K, P>(lat: Lattice<T, K, P>, hist: seq<T>, done: nat, i: int)
    requires 0 <= i < |hist|
  {
    exists j :: 0 <= j < i && j < done && hist[i] in lat.neighbours(hist[j])
  }

  lemma ParentedExtend<T, K, P>(lat: Lattice<T, K, P>, hist: seq<T>, done: nat, added: seq<T>)
    requires Parented(lat, hist, done) && done < |hist|
    requires forall i :: 0 <= i < |added| ==> added[i] in lat.neighbours(hist[done])
    ensures Parented(lat, hist + added, done + 1)
  {
    var h, d := hist + added, done + 1;
    forall i | 1 <= i < |h|
      ensures HasParent(lat, h, d, i)
    {
      if i < |hist| {
        assert HasParent(lat, hist, done, i);
        var j :| 0 <= j < i && j < done && hist[i] in lat.neighbours(hist[j]);
        assert h[i] == hist[i] && h[j] == hist[j];
      } else {
        assert h[i] == added[i - |hist|] && h[done] == hist[done];
      }
    }
  }

  /**
   * Appending tiles whose keys are new, distinct and feasible keeps the
   * history's keys distinct and its later tiles feasible and fresh.
   */
  lemma FreshExtend<T, K, P>(lat: Lattice<T, K, P>, searched: set<K>, visited: set<K>,
                             hist: seq<T>, added: seq<T>)
    requires visited == searched + Keys(lat, hist)
    requires DistinctKeys(lat, hist) && DistinctKeys(lat, added)
    requires forall i :: 1 <= i < |hist| ==> Feasible(lat, hist[i]) && !Searched(lat, searched, hist[i])
    requires forall i :: 0 <= i < |added| ==> Feasible(lat, added[i]) && !Searched(lat, visited, added[i])
    requires |hist| >= 1
    ensures DistinctKeys(lat, hist + added)
    ensures forall i :: 1 <= i < |hist + added| ==>
              Feasible(lat, (hist + added)[i]) && !Searched(lat, searched, (hist + added)[i])
  {
    var h := hist + added;
    forall i, j | 0 <= i < j < |h|
      ensures lat.id(h[i]) != lat.id(h[j])
    {
      if j >= |hist| {
        assert h[j] == added[j - |hist|];
        if i < |hist| {
          assert h[i] == hist[i] && lat.id(hist[i]) in Keys(lat, hist);
        } else {
          assert h[i] == added[i - |hist|];
        }
      } else {
        assert h[i] == hist[i] && h[j] == hist[j];
      }
    }
    forall i | 1 <= i < |h|
      ensures Feasible(lat, h[i]) && !Searched(lat, searched, h[i])
    {
      if i >= |hist| {
        assert h[i] == added[i - |hist|];
      } else {
        assert h[i] == hist[i];
      }
    }
  }

  /** Coverage survives a growing visited set, and the new tile brings its own. */
  lemma CoveredExtend<T, K, P>(lat: Lattice<T, K, P>, order: seq<T>, t: T, v: set<K>, v': set<K>)
    requires forall i :: 0 <= i < |order| ==> Covered(lat, v, order[i])
    requires v <= v' && Covered(lat, v', t)
    ensures forall i :: 0 <= i < |order + [t]| ==> Covered(lat, v', (order + [t])[i])
  {
    forall i | 0 <= i < |order + [t]|
      ensures Covered(lat, v', (order + [t])[i])
    {
      if i < |order| {
        assert (order + [t])[i] == order[i];
        assert Covered(lat, v, order[i]);
      }
    }
  }

  /** Moving the queue's head to the dequeued tiles keeps the history. */
  lemma Dequeue<T>(order: seq<T>, queue: seq<T>, added: seq<T>)
    requires |queue| > 0
    ensures (order + [queue[0]]) + (queue[1..] + added) == (order + queue) + added
    ensures (order + [queue[0]])[..|order|] == order
  {
    assert queue == [queue[0]] + queue[1..];
  }

  /**
   * A fill that starts from a tile whose feasible neighbours are all
   * searched already enqueues nothing beyond that tile.
   */
  lemma NothingBeyondCoveredStart<T(!new), K, P>(lat: Lattice<T, K, P>, searched: set<K>, start: T,
                                                 hist: seq<T>, visited: set<K>)
    requires Enqueued(lat, searched, start, hist, |hist|, visited)
    requires Covered(lat, searched, start)
    ensures hist == [start]
  {
    assert |hist| > 1 ==> HasParent(lat, hist, |hist|, 1);
  }

  /**
   * What the worklist keeps of `hist`, every tile ever enqueued, of which
   * the first `done` have been dequeued: it starts at `start`, its keys are
   * exactly what was added to `searched` and are pairwise distinct, every
   * later tile meets the boundary with a key that was not searched before,
   * and each was found next to an earlier dequeued tile.
   */
  ghost predicate Enqueued<T(!new), K, P>(lat: Lattice<T, K, P>, searched: set<K>, start: T,
                                          hist: seq<T>, done: nat, visited: set<K>)
  {
    && |hist| >= 1 && hist[0] == start && done <= |hist|
    && visited == searched + Keys(lat, hist)
    && DistinctKeys(lat, hist)
    && (forall i :: 1 <= i < |hist| ==> Feasible(lat, hist[i]) && !Searched(lat, searched, hist[i]))
    && Parented(lat, hist, done)
  }

  /** Every tile of `ts` is reached from `start` by a walk. */
  ghost predicate AllReached<T(!new), K, P>(lat: Lattice<T, K, P>, start: T, ts: seq<T>) {
    forall i :: 0 <= i < |ts| ==> Reached(lat, start, ts[i])
  }

  /** The feasible neighbours of an enqueued tile are reached, and so is the grown history. */
  lemma ReachedAppend<T(!new), K, P>(lat: Lattice<T, K, P>, start: T, hist: seq<T>, done: nat, added: seq<T>)
    requires AllReached(lat, start, hist) && done < |hist|
    requires forall i :: 0 <= i < |added| ==> added[i] in lat.neighbours(hist[done]) && Feasible(lat, added[i])
    ensures AllReached(lat, start, added)
    ensures AllReached(lat, start, hist + added)
  {
    ReachedNeighbours(lat, start, hist[done], added);
    forall i | 0 <= i < |hist + added|
      ensures Reached(lat, start, (hist + added)[i])
    {
      if i < |hist| {
        assert (hist + added)[i] == hist[i];
      } else {
        assert (hist + added)[i] == added[i - |hist|];
      }
    }
  }

  /** The visited set after a dequeue: grown by exactly the appended keys, or shrinking what is left of `universe`. */
  lemma VisitedAfterDequeue<T(!new), K, P>(lat: Lattice<T, K, P>, universe: set<K>, searched: set<K>,
                                           start: T, hist: seq<T>, added: seq<T>, v: set<K>, v': set<K>)
    requires ReachableKeysWithin(lat, start, universe)
    requires v == searched + Keys(lat, hist)
    requires AllReached(lat, start, added)
    requires forall i :: 0 <= i < |added| ==> Feasible(lat, added[i]) && !Searched(lat, v, added[i])
    requires v' == v + Keys(lat, added)
    ensures v' == searched + Keys(lat, hist + added)
    ensures |universe - v'| < |universe - v| || (v' == v && added == [])
  {
    KeysAppend(lat, hist, added);
    if |added| > 0 {
      assert added[0] in added;
      ReachedWithin(lat, start, universe, added[0]);
      RemainderShrinks(universe, v, v', lat.id(added[0]));
    } else {
      assert Keys(lat, added) == {};
    }
  }

  /** Dequeuing `hist[done]` and enqueueing its accepted neighbours keeps `Enqueued`. */
  lemma EnqueueStep<T(!new), K, P>(lat: Lattice<T, K, P>, searched: set<K>, start: T,
                                   hist: seq<T>, done: nat, v: set<K>, added: seq<T>, v': set<K>)
    requires Enqueued(lat, searched, start, hist, done, v) && done < |hist|
    requires forall i :: 0 <= i < |added| ==>
               added[i] in lat.neighbours(hist[done])
               && Feasible(lat, added[i]) && !Searched(lat, v, added[i])
    requires DistinctKeys(lat, added)
    requires v' == v + Keys(lat, added)
    ensures Enqueued(lat, searched, start, hist + added, done + 1, v')
  {
    ParentedExtend(lat, hist, done, added);
    FreshExtend(lat, searched, v, hist, added);
    KeysAppend(lat, hist, added);
  }

  /**
   * One iteration keeps the history part of the loop invariant, and the
   * measure `|universe - visited|, |queue|` drops.
   */
  lemma AdvanceHistory<T(!new), K, P>(lat: Lattice<T, K, P>, universe: set<K>, searched: set<K>,
                                      start: T, hist: seq<T>, order: seq<T>, w: Worklist<T, K, P>,
                                      w': Worklist<T, K, P>, added: seq<T>)
    requires ReachableKeysWithin(lat, start, universe)
    requires hist == order + w.queue && |w.queue| > 0
    requires Enqueued(lat, searched, start, hist, |order|, w.visited) && AllReached(lat, start, hist)
    requires w'.queue == w.queue[1..] + added
    requires forall i :: 0 <= i < |added| ==>
               added[i] in lat.neighbours(w.queue[0])
               && Feasible(lat, added[i]) && !Searched(lat, w.visited, added[i])
    requires DistinctKeys(lat, added)
    requires w'.visited == w.visited + Keys(lat, added)
    ensures hist + added == (order + [w.queue[0]]) + w'.queue
    ensures Enqueued(lat, searched, start, hist + added, |order| + 1, w'.visited)
    ensures AllReached(lat, start, hist + added)
    ensures |universe - w'.visited| < |universe - w.visited|
            || (w'.visited == w.visited && |w'.queue| < |w.queue|)
  {
    assert hist[|order|] == w.queue[0];
    ReachedAppend(lat, start, hist, |order|, added);
    EnqueueStep(lat, searched, start, hist, |order|, w.visited, added, w'.visited);
    VisitedAfterDequeue(lat, universe, searched, start, hist, added, w.visited, w'.visited);
    Dequeue(order, w.queue, added);
  }

  /**
   * One iteration keeps the dequeued tiles covered and their pieces
   * harvested in order.
   */
  lemma AdvanceHarvest<T, K, P>(lat: Lattice<T, K, P>, pieces: seq<P>, order: seq<T>, t: T,
                                w: Worklist<T, K, P>, w': Worklist<T, K, P>)
    requires forall i :: 0 <= i < |order| ==> Covered(lat, w.visited, order[i])
    requires w.collected == pieces + Harvest(lat, order)
    requires w.visited <= w'.visited && Covered(lat, w'.visited, t)
    requires w'.collected == w.collected + Contribution(lat.clip(t))
    ensures forall i :: 0 <= i < |order + [t]| ==> Covered(lat, w'.visited, (order + [t])[i])
    ensures w'.collected == pieces + Harvest(lat, order + [t])
  {
    CoveredExtend(lat, order, t, w.visited, w'.visited);
    HarvestSnoc(lat, order, t);
  }

  /**
   * What a fill from `start` over the visited keys `searched` and the
   * collected `pieces` delivers, with `order` the dequeued tiles:
   * - `order` is the breadth-first order from `start`;
   * - the visited keys end as `searched` plus the keys of `order`, and no
   *   key is dequeued twice;
   * - every tile after the start meets the boundary, had an unvisited key,
   *   and is a neighbour of an earlier dequeued tile;
   * - every feasible neighbour of a dequeued tile ends up visited;
   * - the pieces are the earlier ones followed by each dequeued tile's
   *   clip pieces, in dequeue order.
   */
  ghost predicate Filled<T, K, P>(lat: Lattice<T, K, P>, searched: set<K>, start: T, pieces: seq<P>,
                                  order: seq<T>, visited: set<K>, collected: seq<P>)
  {
    && |order| >= 1 && order[0] == start
    && BreadthFirst(lat, searched, start, order)
    && visited == searched + Keys(lat, order)
    && DistinctKeys(lat, order)
    && (forall i :: 1 <= i < |order| ==> Feasible(lat, order[i]) && !Searched(lat, searched, order[i]))
    && Parented(lat, order, |order|)
    && (forall i :: 0 <= i < |order| ==> Covered(lat, visited, order[i]))
    && collected == pieces + Harvest(lat, order)
  }

  /**
   * What a fill shows about its start tile: it only adds keys, marks the
   * start and its feasible neighbours, puts the start's pieces right after
   * the earlier ones, and adds nothing more when only the start is dequeued.
   */
  lemma FilledAnchor<T, K, P>(lat: Lattice<T, K, P>, searched: set<K>, start: T, pieces: seq<P>,
                              order: seq<T>, visited: set<K>, collected: seq<P>)
    requires Filled(lat, searched, start, pieces, order, visited, collected)
    ensures searched <= visited
    ensures Searched(lat, visited, start) && Covered(lat, visited, start)
    ensures |collected| >= |pieces| + |Contribution(lat.clip(start))|
    ensures collected[..|pieces| + |Contribution(lat.clip(start))|] == pieces + Contribution(lat.clip(start))
    ensures order == [start] ==>
              collected == pieces + Contribution(lat.clip(start)) && visited == Mark(lat, searched, start)
  {
    assert order == [start] + order[1..];
    HarvestPrefix(lat, order);
    KeysAppend(lat, [start], order[1..]);
    KeysSingleton(lat, start);
    if order == [start] {
      assert Harvest(lat, [start]) == Contribution(lat.clip(start));
    }
  }

  /**
   * Marks the start tile, then dequeues tiles until the queue is empty.
   * `order` is the sequence of dequeued tiles. Termination rests on every
   * tile reachable from `start` through feasible tiles having its key in
   * the finite set `universe`.
   */
  method FillByBfs<T(!new), K, P>(lat: Lattice<T, K, P>, ghost universe: set<K>, start: T,
                                  searched: set<K>, pieces: seq<P>)
    returns (visited: set<K>, collected: seq<P>, order: seq<T>)
    requires ReachableKeysWithin(lat, start, universe)
    ensures Filled(lat, searched, start, pieces, order, visited, collected)
    ensures Covered(lat, searched, start) ==> order == [start]
  {
    var w := Worklist([start], Mark(lat, searched, start), pieces);
    KeysSingleton(lat, start);
    ReachedStart(lat, start);
    order := [];
    ghost var hist := [start];
    while |w.queue| > 0
      invariant hist == order + w.queue
      invariant Enqueued(lat, searched, start, hist, |order|, w.visited) && AllReached(lat, start, hist)
      invariant hist == Replay(lat, searched, start, order) && Busy(lat, searched, start, order)
      invariant forall i :: 0 <= i < |order| ==> Covered(lat, w.visited, order[i])
      invariant w.collected == pieces + Harvest(lat, order)
      decreases |universe - w.visited|, |w.queue|
    {
      var t := w.queue[0];
      var w', added := Step(lat, w);
      AdvanceReplay(lat, searched, start, order, w.queue, hist, w.visited, added);
      AdvanceHistory(lat, universe, searched, start, hist, order, w, w', added);
      AdvanceHarvest(lat, pieces, order, t, w, w');
      w, order, hist := w', order + [t], hist + added;
    }
    visited, collected := w.visited, w.collected;
    assert hist == order;
    if Covered(lat, searched, start) {
      NothingBeyondCoveredStart(lat, searched, start, order, visited);
    }
  }
}
