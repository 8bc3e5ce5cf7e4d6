/**
 * The breadth-first flood fills of `attemptCapture` (modules/game.js): the
 * `scan` pass that spreads from the border of the grid through every cell
 * that is not a wall, and the island search that spreads from one cell
 * through the cells of one owner. Both keep a FIFO queue with a read
 * position and a visited set, and push a neighbour only once.
 *
 * What a fill computes is stated against `Reach`: a cell is visited exactly
 * when some 4-connected walk through the open cells leads to it from a seed.
 */
module Flood {
  import opened GameState

  /** `a` and `b` are 4-neighbours. */
  predicate Adjacent(a: Pos, b: Pos)
  {
    (a.y == b.y && (b.x == a.x - 1 || b.x == a.x + 1)) ||
    (a.x == b.x && (b.y == a.y - 1 || b.y == a.y + 1))
  }

  /** A non-empty 4-connected walk that stays inside `open`. */
  predicate Walk(path: seq<Pos>, open: set<Pos>)
    decreases |path|
  {
    |path| > 0 && path[|path| - 1] in open &&
    (|path| == 1 || (Adjacent(path[|path| - 2], path[|path| - 1]) && Walk(path[..|path| - 1], open)))
  }

  /** Some walk through `open` leads from a cell of `seeds` to `c`. */
  ghost predicate Reach(open: set<Pos>, seeds: set<Pos>, c: Pos)
  {
    exists path :: Walk(path, open) && path[0] in seeds && path[|path| - 1] == c
  }

  /** Every cell of `open` next to a cell of `s` is in `s`. */
  predicate Closed(s: set<Pos>, open: set<Pos>)
  {
    forall a, b :: a in s && b in open && Adjacent(a, b) ==> b in s
  }

  /** The cells of `open` reachable from `seeds`. */
  ghost function ReachSet(open: set<Pos>, seeds: set<Pos>): (r: set<Pos>)
    ensures r <= open
    ensures forall c :: c in r <==> Reach(open, seeds, c)
  {
    ReachInOpen(open, seeds);
    set c | c in open && Reach(open, seeds, c)
  }

  /** The cells of a `cols` x `rows` grid. */
  function GridCells(cols: int, rows: int): (r: set<Pos>)
    ensures forall c :: c in r <==> 0 <= c.x < cols && 0 <= c.y < rows
  {
    var s := set y, x | 0 <= y < rows && 0 <= x < cols :: Pos(x, y);
    assert forall c: Pos | 0 <= c.x < cols && 0 <= c.y < rows :: c in s by {
      forall c: Pos | 0 <= c.x < cols && 0 <= c.y < rows ensures c in s {
        assert c == Pos(c.x, c.y);
      }
    }
    s
  }

  /** The cells of the outermost rows and columns, where `scan` seeds its queue. */
  predicate OnBorder(c: Pos, cols: int, rows: int)
  {
    0 <= c.x < cols && 0 <= c.y < rows &&
    (c.y == 0 || c.y == rows - 1 || c.x == 0 || c.x == cols - 1)
  }

  function Border(cols: int, rows: int): (r: set<Pos>)
    ensures forall c :: c in r <==> OnBorder(c, cols, rows)
  {
    set c | c in GridCells(cols, rows) && OnBorder(c, cols, rows)
  }

  /** The end of every walk from a seed lies in `open`. */
  lemma ReachInOpen(open: set<Pos>, seeds: set<Pos>)
    ensures forall c :: Reach(open, seeds, c) ==> c in open
  {
    forall c | Reach(open, seeds, c)
      ensures c in open
    {
      var path :| Walk(path, open) && path[0] in seeds && path[|path| - 1] == c;
    }
  }

  /** An open seed reaches itself. */
  lemma ReachSeed(open: set<Pos>, seeds: set<Pos>, c: Pos)
    requires c in open && c in seeds
    ensures Reach(open, seeds, c)
  {
    assert Walk([c], open);
  }

  /** A walk to `a` extends to an open neighbour `b`. */
  lemma ReachStep(open: set<Pos>, seeds: set<Pos>, a: Pos, b: Pos)
    requires Reach(open, seeds, a) && b in open && Adjacent(a, b)
    ensures Reach(open, seeds, b)
  {
    var path :| Walk(path, open) && path[0] in seeds && path[|path| - 1] == a;
    var path' := path + [b];
    assert path'[..|path'| - 1] == path;
    assert Walk(path', open);
    assert path'[0] in seeds && path'[|path'| - 1] == b;
  }

  /** A walk that starts in a closed set `s` stays in `s`. */
  lemma {:induction false} WalkStaysInside(path: seq<Pos>, open: set<Pos>, s: set<Pos>)
    requires Walk(path, open) && path[0] in s && Closed(s, open)
    ensures path[|path| - 1] in s
    decreases |path|
  {
    if |path| > 1 {
      var front := path[..|path| - 1];
      assert front[0] == path[0];
      WalkStaysInside(front, open, s);
    }
  }

  /** A walk starts in `open` too. */
  lemma {:induction false} WalkStart(path: seq<Pos>, open: set<Pos>)
    requires Walk(path, open)
    ensures path[0] in open
    decreases |path|
  {
    if |path| > 1 {
      WalkStart(path[..|path| - 1], open);
    }
  }

  /**
   * Any closed set holding the open seeds holds every reachable cell: the
   * reachable cells are the least such set.
   */
  lemma ClosedHoldsReach(open: set<Pos>, seeds: set<Pos>, s: set<Pos>)
    requires Closed(s, open)
    requires forall c :: c in seeds && c in open ==> c in s
    ensures forall c :: Reach(open, seeds, c) ==> c in s
  {
    forall c | Reach(open, seeds, c)
      ensures c in s
    {
      var path :| Walk(path, open) && path[0] in seeds && path[|path| - 1] == c;
      WalkStart(path, open);
      WalkStaysInside(path, open, s);
    }
  }

  /** Opening more cells never loses a reachable cell: a wider wall floods less. */
  lemma ReachSetWider(open: set<Pos>, wider: set<Pos>, seeds: set<Pos>)
    requires open <= wider
    ensures ReachSet(open, seeds) <= ReachSet(wider, seeds)
  {
    var r := ReachSet(wider, seeds);
    forall a, b | a in r && b in open && Adjacent(a, b)
      ensures b in r
    {
      ReachStep(wider, seeds, a, b);
    }
    forall c | c in seeds && c in open
      ensures c in r
    {
      ReachSeed(wider, seeds, c);
    }
    ClosedHoldsReach(open, seeds, r);
  }

  /**
   * The queue and the visited set of the flood: the same cells, all open
   * and all reachable from the seeds.
   */
  ghost predicate Frontier(open: set<Pos>, seeds: set<Pos>, queue: seq<Pos>, visited: set<Pos>)
  {
    visited <= open && (forall c :: c in visited <==> c in queue) &&
    forall c :: c in visited ==> Reach(open, seeds, c)
  }

  /**
   * `tryPush(n)`: an open cell not yet visited is marked and queued.
   * The caller shows that `n`, if open, is reachable.
   */
  method TryPush(open: set<Pos>, ghost seeds: set<Pos>, queue: seq<Pos>, visited: set<Pos>, n: Pos)
    returns (queue': seq<Pos>, visited': set<Pos>)
    requires Frontier(open, seeds, queue, visited)
    requires n in open ==> Reach(open, seeds, n)
    ensures Frontier(open, seeds, queue', visited')
    ensures visited <= visited' && (n in open ==> n in visited')
    ensures queue <= queue'
    ensures |open - visited'| + |queue'| == |open - visited| + |queue|
  {
    queue', visited' := queue, visited;
    if n in open && n !in visited {
      assert open - (visited + {n}) == (open - visited) - {n};
      visited' := visited + {n};
      queue' := queue + [n];
    }
  }

  /** Two of the four `tryPush` calls for neighbours `a` and `b` of the dequeued cell `c`. */
  method PushPair(open: set<Pos>, ghost seeds: set<Pos>, queue: seq<Pos>, visited: set<Pos>, c: Pos, a: Pos, b: Pos)
    returns (queue': seq<Pos>, visited': set<Pos>)
    requires Frontier(open, seeds, queue, visited)
    requires c in visited && Adjacent(c, a) && Adjacent(c, b)
    ensures Frontier(open, seeds, queue', visited')
    ensures visited <= visited' && (a in open ==> a in visited') && (b in open ==> b in visited')
    ensures queue <= queue'
    ensures |open - visited'| + |queue'| == |open - visited| + |queue|
  {
    if a in open { ReachStep(open, seeds, c, a); }
    var q1, v1 := TryPush(open, seeds, queue, visited, a);
    if b in open { ReachStep(open, seeds, c, b); }
    queue', visited' := TryPush(open, seeds, q1, v1, b);
  }

  /** The four `tryPush` calls for the neighbours of the dequeued cell `c`. */
  method PushNeighbours(open: set<Pos>, ghost seeds: set<Pos>, queue: seq<Pos>, visited: set<Pos>, c: Pos)
    returns (queue': seq<Pos>, visited': set<Pos>)
    requires Frontier(open, seeds, queue, visited)
    requires c in visited
    ensures Frontier(open, seeds, queue', visited')
    ensures visited <= visited'
    ensures forall b :: b in open && Adjacent(c, b) ==> b in visited'
    ensures queue <= queue'
    ensures |open - visited'| + |queue'| == |open - visited| + |queue|
  {
    var n0, n1, n2, n3 := Pos(c.x - 1, c.y), Pos(c.x + 1, c.y), Pos(c.x, c.y - 1), Pos(c.x, c.y + 1);
    var q2, v2 := PushPair(open, seeds, queue, visited, c, n0, n1);
    queue', visited' := PushPair(open, seeds, q2, v2, c, n2, n3);
    forall b | b in open && Adjacent(c, b)
      ensures b in visited'
    {
      assert b == n0 || b == n1 || b == n2 || b == n3;
    }
  }

  /** Every open neighbour of the first `head` queued cells is visited. */
  ghost predicate Expanded(open: set<Pos>, queue: seq<Pos>, head: nat, visited: set<Pos>)
    requires head <= |queue|
  {
    forall i, b :: 0 <= i < head && b in open && Adjacent(queue[i], b) ==> b in visited
  }

  /** One turn of the flood loop: dequeue `queue[head]` and push its neighbours. */
  method SpreadStep(open: set<Pos>, ghost seeds: set<Pos>, queue: seq<Pos>, visited: set<Pos>, head: nat)
    returns (queue': seq<Pos>, visited': set<Pos>)
    requires head < |queue| && Frontier(open, seeds, queue, visited) && Expanded(open, queue, head, visited)
    ensures head < |queue'| && Frontier(open, seeds, queue', visited') && Expanded(open, queue', head + 1, visited')
    ensures visited <= visited'
    ensures |open - visited'| + |queue'| == |open - visited| + |queue|
  {
    queue', visited' := PushNeighbours(open, seeds, queue, visited, queue[head]);
    forall i, b | 0 <= i <= head && b in open && Adjacent(queue'[i], b)
      ensures b in visited'
    {
      assert queue'[i] == queue[i];
    }
  }

  /**
   * The `while (head < queue.length)` loop: each dequeued cell pushes its
   * four neighbours. Starting from queued, reachable cells, it ends with a
   * visited set that is closed in `open` and still holds only reachable
   * cells.
   */
  method Spread(open: set<Pos>, ghost seeds: set<Pos>, queue0: seq<Pos>, visited0: set<Pos>)
    returns (visited: set<Pos>)
    requires Frontier(open, seeds, queue0, visited0)
    ensures visited0 <= visited <= open
    ensures Closed(visited, open)
    ensures forall c :: c in visited ==> Reach(open, seeds, c)
  {
    var queue := queue0;
    var head := 0;
    visited := visited0;
    while head < |queue|
      invariant 0 <= head <= |queue|
      invariant visited0 <= visited && Frontier(open, seeds, queue, visited)
      invariant Expanded(open, queue, head, visited)
      decreases |open - visited| + (|queue| - head)
    {
      queue, visited := SpreadStep(open, seeds, queue, visited, head);
      head := head + 1;
    }
    forall a, b | a in visited && b in open && Adjacent(a, b)
      ensures b in visited
    {
      var i :| 0 <= i < |queue| && queue[i] == a;
    }
  }

  /** The first seeding loop of `scan`: the top and bottom rows. */
  method SeedRows(open: set<Pos>, cols: nat, rows: nat) returns (queue: seq<Pos>, visited: set<Pos>)
    requires open <= GridCells(cols, rows)
    ensures Frontier(open, Border(cols, rows), queue, visited)
    ensures forall c :: c in open && OnBorder(c, cols, rows) && (c.y == 0 || c.y == rows - 1) ==> c in visited
  {
    ghost var seeds := Border(cols, rows);
    queue, visited := [], {};
    var x := 0;
    while x < cols
      invariant 0 <= x <= cols
      invariant Frontier(open, seeds, queue, visited)
      invariant forall c :: c in open && OnBorder(c, cols, rows) && (c.y == 0 || c.y == rows - 1) && c.x < x ==> c in visited
    {
      if Pos(x, 0) in open {
        ReachSeed(open, seeds, Pos(x, 0));
      }
      queue, visited := TryPush(open, seeds, queue, visited, Pos(x, 0));
      if Pos(x, rows - 1) in open {
        ReachSeed(open, seeds, Pos(x, rows - 1));
      }
      queue, visited := TryPush(open, seeds, queue, visited, Pos(x, rows - 1));
      forall c | c in open && OnBorder(c, cols, rows) && (c.y == 0 || c.y == rows - 1) && c.x == x
        ensures c in visited
      {
        assert c == Pos(x, 0) || c == Pos(x, rows - 1);
      }
      x := x + 1;
    }
  }

  /** The second seeding loop of `scan`: the first and last columns between them. */
  method SeedColumns(open: set<Pos>, cols: nat, rows: nat, queue0: seq<Pos>, visited0: set<Pos>)
    returns (queue: seq<Pos>, visited: set<Pos>)
    requires open <= GridCells(cols, rows)
    requires Frontier(open, Border(cols, rows), queue0, visited0)
    requires forall c :: c in open && OnBorder(c, cols, rows) && (c.y == 0 || c.y == rows - 1) ==> c in visited0
    ensures Frontier(open, Border(cols, rows), queue, visited)
    ensures forall c :: c in open && OnBorder(c, cols, rows) ==> c in visited
  {
    ghost var seeds := Border(cols, rows);
    queue, visited := queue0, visited0;
    var y := 1;
    while y < rows - 1
      invariant 1 <= y
      invariant visited0 <= visited && Frontier(open, seeds, queue, visited)
      invariant forall c :: c in open && OnBorder(c, cols, rows) && c.y < y ==> c in visited
    {
      if Pos(0, y) in open {
        ReachSeed(open, seeds, Pos(0, y));
      }
      queue, visited := TryPush(open, seeds, queue, visited, Pos(0, y));
      if Pos(cols - 1, y) in open {
        ReachSeed(open, seeds, Pos(cols - 1, y));
      }
      queue, visited := TryPush(open, seeds, queue, visited, Pos(cols - 1, y));
      forall c | c in open && OnBorder(c, cols, rows) && c.y == y
        ensures c in visited
      {
        if c.y != 0 && c.y != rows - 1 {
          assert c == Pos(0, y) || c == Pos(cols - 1, y);
        }
      }
      y := y + 1;
    }
  }

  /**
   * `scan(useTrail)`: the flood from the border of a `cols` x `rows` grid
   * through the cells that are not in `wall`. A cell is visited exactly when
   * it is reachable from an open border cell.
   */
  method ScanFromBorder(cols: nat, rows: nat, wall: set<Pos>) returns (visited: set<Pos>)
    ensures visited == ReachSet(GridCells(cols, rows) - wall, Border(cols, rows))
  {
    var open := GridCells(cols, rows) - wall;
    var queue;
    queue, visited := SeedRows(open, cols, rows);
    queue, visited := SeedColumns(open, cols, rows, queue, visited);
    visited := Spread(open, Border(cols, rows), queue, visited);
    ClosedHoldsReach(open, Border(cols, rows), visited);
  }

  /**
   * The island search's flood from the single cell `start` through `open`:
   * it visits exactly the cells connected to `start`.
   */
  method SpreadFrom(open: set<Pos>, start: Pos) returns (visited: set<Pos>)
    requires start in open
    ensures visited == ReachSet(open, {start})
    ensures start in visited
  {
    ReachSeed(open, {start}, start);
    visited := Spread(open, {start}, [start], {start});
    ClosedHoldsReach(open, {start}, visited);
  }
}
