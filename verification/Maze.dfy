/** The Lee breadth-first search of skill/vfp_layout_route.il, proved to find a
    shortest route whenever there is one. */
module Maze {
  import opened Grid

  /** Cells the search may step onto. */
  predicate Open(b: Board, tgt: Cell, net: string, x: Cell) {
    OnBoard(b, x) && (x == tgt || Passable(b, x, net))
  }

  ghost function Below(n: int): (s: set<int>)
    ensures forall k :: k in s <==> 0 <= k < n
    decreases if n < 0 then 0 else n
  {
    if n <= 0 then {} else Below(n - 1) + {n - 1}
  }

  /** The `visited` table holds exactly the indices of the cells given a distance. */
  ghost predicate Marked(b: Board, visited: set<int>, dist: map<Cell, nat>) {
    && (forall x :: x in dist ==> OnBoard(b, x))
    && (forall x :: OnBoard(b, x) ==> (Gidx(b, x) in visited <==> x in dist))
    && visited <= Below(2 * b.nc * b.nr)
  }

  /** The `prev` table leads every visited cell one step back towards a source,
      never over the target. */
  ghost predicate Rooted(b: Board, srcs: seq<Cell>, tgt: Cell, net: string,
                         prev: map<int, Cell>, dist: map<Cell, nat>)
  {
    forall x :: x in dist ==>
      if Gidx(b, x) in prev then
        var u := prev[Gidx(b, x)];
        u in dist && u != tgt && Adj(u, x) && Open(b, tgt, net, x) && dist[u] + 1 == dist[x]
      else x in srcs && dist[x] == 0
  }

  ghost predicate SourcesMarked(srcs: seq<Cell>, dist: map<Cell, nat>) {
    forall s :: s in srcs ==> s in dist && dist[s] == 0
  }

  /** The queue is ordered by distance and spans the levels d and d + 1; a visited
      cell is queued or finished, and finished cells are no further than d. */
  ghost predicate Levels(q: seq<Cell>, dist: map<Cell, nat>, done: set<Cell>, d: nat) {
    && (forall i :: 0 <= i < |q| ==> q[i] in dist && d <= dist[q[i]] <= d + 1)
    && (forall i, j :: 0 <= i < j < |q| ==> dist[q[i]] <= dist[q[j]])
    && (forall x :: x in done ==> x in dist && dist[x] <= d)
    && (forall x :: x in dist ==> x in done || x in q)
  }

  /** Every open neighbour of a finished cell is visited, one step further at most. */
  ghost predicate Closed(b: Board, tgt: Cell, net: string, dist: map<Cell, nat>, done: set<Cell>) {
    forall x, y :: x in done && Adj(x, y) && Open(b, tgt, net, y) ==>
      x in dist && y in dist && dist[y] <= dist[x] + 1
  }

  /** A route cannot outrun the search: its i-th cell is visited at distance i or less,
      as long as every visited cell below distance d is finished. */
  lemma {:induction false} RouteVisited(b: Board, srcs: seq<Cell>, tgt: Cell, net: string, p: seq<Cell>,
                                        dist: map<Cell, nat>, done: set<Cell>, d: nat, i: nat)
    requires IsRoute(b, srcs, tgt, net, p) && i < |p| && i <= d
    requires SourcesMarked(srcs, dist) && Closed(b, tgt, net, dist, done)
    requires forall x :: x in dist ==> x in done || dist[x] >= d
    ensures p[i] in dist && dist[p[i]] <= i
  {
    if i == 0 {
    } else {
      RouteVisited(b, srcs, tgt, net, p, dist, done, d, i - 1);
      assert Adj(p[i - 1], p[i - 1 + 1]);
      assert Open(b, tgt, net, p[i]);
      assert p[i - 1] in done;
    }
  }

  /** When the target is about to be taken no route is shorter than its distance. */
  lemma NoShorter(b: Board, srcs: seq<Cell>, tgt: Cell, net: string, q: seq<Cell>, dist: map<Cell, nat>,
                  done: set<Cell>)
    requires tgt in dist && SourcesMarked(srcs, dist) && Closed(b, tgt, net, dist, done)
    requires Levels(q, dist, done, dist[tgt])
    ensures forall p :: IsRoute(b, srcs, tgt, net, p) ==> dist[tgt] < |p|
  {
    forall p | IsRoute(b, srcs, tgt, net, p)
      ensures dist[tgt] < |p|
    {
      if |p| - 1 < dist[tgt] {
        RouteVisited(b, srcs, tgt, net, p, dist, done, dist[tgt], |p| - 1);
      }
    }
  }

  /** When every visited cell is finished and the target is not, no route exists. */
  lemma NoRoute(b: Board, srcs: seq<Cell>, tgt: Cell, net: string, dist: map<Cell, nat>, done: set<Cell>)
    requires tgt !in done && SourcesMarked(srcs, dist) && Closed(b, tgt, net, dist, done)
    requires forall x :: x in dist ==> x in done
    ensures !exists p :: IsRoute(b, srcs, tgt, net, p)
  {
    forall p | IsRoute(b, srcs, tgt, net, p)
      ensures false
    {
      RouteVisited(b, srcs, tgt, net, p, dist, done, |p|, |p| - 1);
    }
  }

  lemma MarkOne(b: Board, visited: set<int>, dist: map<Cell, nat>, x: Cell, n: nat)
    requires Marked(b, visited, dist) && OnBoard(b, x)
    ensures Marked(b, visited + {Gidx(b, x)}, dist[x := n])
  {
    GidxRange(b, x);
    forall y | OnBoard(b, y)
      ensures Gidx(b, y) in visited + {Gidx(b, x)} <==> y in dist[x := n]
    {
      GidxInjective(b, x, y);
    }
  }

  /** Giving a new cell a predecessor keeps every other cell's way back. */
  lemma RootOne(b: Board, srcs: seq<Cell>, tgt: Cell, net: string, visited: set<int>,
                prev: map<int, Cell>, dist: map<Cell, nat>, cur: Cell, x: Cell)
    requires Marked(b, visited, dist) && Rooted(b, srcs, tgt, net, prev, dist)
    requires cur in dist && cur != tgt && x !in dist && Adj(cur, x) && Open(b, tgt, net, x)
    ensures Rooted(b, srcs, tgt, net, prev[Gidx(b, x) := cur], dist[x := dist[cur] + 1])
  {
    forall y | y in dist
      ensures Gidx(b, y) != Gidx(b, x)
    {
      GidxInjective(b, x, y);
    }
  }

  /** Appending a newly found cell keeps the queue in order. */
  lemma LevelOne(q: seq<Cell>, dist: map<Cell, nat>, done: set<Cell>, d: nat, x: Cell)
    requires Levels(q, dist, done, d) && x !in dist
    ensures Levels(q + [x], dist[x := d + 1], done, d)
  {
    var q', dist' := q + [x], dist[x := d + 1];
    forall i | 0 <= i < |q'|
      ensures q'[i] in dist' && d <= dist'[q'[i]] <= d + 1
    {
    }
    forall y | y in dist'
      ensures y in done || y in q'
    {
      if y == x {
        assert q'[|q|] == x;
      } else if y in q {
        var k :| 0 <= k < |q| && q[k] == y;
        assert q'[k] == y;
      }
    }
  }

  /** Taking the head of the queue starts a level at its distance. */
  lemma LevelPop(q: seq<Cell>, dist: map<Cell, nat>, done: set<Cell>, d: nat)
    requires Levels(q, dist, done, d) && q != []
    ensures Levels(q, dist, done, dist[q[0]])
    ensures Levels(q[1..], dist, done + {q[0]}, dist[q[0]])
  {
    assert forall x :: x in q ==> x == q[0] || x in q[1..];
  }

  /** What the three tables and the queue say while the search runs. */
  ghost predicate Sound(b: Board, srcs: seq<Cell>, tgt: Cell, net: string, visited: set<int>,
                        prev: map<int, Cell>, dist: map<Cell, nat>)
  {
    Marked(b, visited, dist) && Rooted(b, srcs, tgt, net, prev, dist) && SourcesMarked(srcs, dist)
  }

  lemma VisitOne(b: Board, srcs: seq<Cell>, tgt: Cell, net: string, visited: set<int>, prev: map<int, Cell>,
                 q: seq<Cell>, dist: map<Cell, nat>, done: set<Cell>, cur: Cell, x: Cell)
    requires Sound(b, srcs, tgt, net, visited, prev, dist)
    requires cur in dist && cur != tgt && Adj(cur, x) && Open(b, tgt, net, x) && x !in dist
    requires Levels(q, dist, done, dist[cur])
    ensures Sound(b, srcs, tgt, net, visited + {Gidx(b, x)}, prev[Gidx(b, x) := cur], dist[x := dist[cur] + 1])
    ensures Levels(q + [x], dist[x := dist[cur] + 1], done, dist[cur])
  {
    hide At, Gidx, Marked, Rooted, Levels;
    MarkOne(b, visited, dist, x, dist[cur] + 1);
    RootOne(b, srcs, tgt, net, visited, prev, dist, cur, x);
    LevelOne(q, dist, done, dist[cur], x);
  }

  ghost predicate Extends(dist: map<Cell, nat>, dist': map<Cell, nat>) {
    forall x :: x in dist ==> x in dist' && dist'[x] == dist[x]
  }

  /** Once all open neighbours of a cell are visited the cell is finished. */
  lemma CloseOne(b: Board, tgt: Cell, net: string, q: seq<Cell>, dist: map<Cell, nat>, dist': map<Cell, nat>,
                 done: set<Cell>, cur: Cell)
    requires Closed(b, tgt, net, dist, done)
    requires Extends(dist, dist')
    requires cur in dist && Levels(q, dist', done + {cur}, dist[cur])
    requires forall y :: y in Neighbours(cur) && Open(b, tgt, net, y) ==> y in dist'
    ensures Closed(b, tgt, net, dist', done + {cur})
  {
    forall x, y | x in done + {cur} && Adj(x, y) && Open(b, tgt, net, y)
      ensures x in dist' && y in dist' && dist'[y] <= dist'[x] + 1
    {
      if x in done {
        assert y in dist;
      } else {
        assert y in Neighbours(cur);
      }
    }
  }

  /** Lines 63-68: visit the neighbour `n` of `cur` if it is open and new. */
  method Visit(b: Board, srcs: seq<Cell>, tgt: Cell, net: string, visited: set<int>, prev: map<int, Cell>,
               q: seq<Cell>, ghost dist: map<Cell, nat>, ghost done: set<Cell>, cur: Cell, n: Cell)
    returns (visited': set<int>, prev': map<int, Cell>, q': seq<Cell>, ghost dist': map<Cell, nat>)
    requires Sound(b, srcs, tgt, net, visited, prev, dist)
    requires cur in dist && cur != tgt && Adj(cur, n) && Levels(q, dist, done, dist[cur])
    ensures Sound(b, srcs, tgt, net, visited', prev', dist')
    ensures Levels(q', dist', done, dist[cur])
    ensures Extends(dist, dist') && (Open(b, tgt, net, n) ==> n in dist')
    ensures visited <= visited' && (visited == visited' ==> q' == q)
  {
    hide At, Gidx, Rooted, Levels;
    visited', prev', q', dist' := visited, prev, q, dist;
    if In(b, n) && Gidx(b, n) !in visited && (n == tgt || Passable(b, n, net)) {
      VisitOne(b, srcs, tgt, net, visited, prev, q, dist, done, cur, n);
      visited', prev', q' := visited + {Gidx(b, n)}, prev[Gidx(b, n) := cur], q + [n];
      dist' := dist[n := dist[cur] + 1];
    }
  }

  /** Lines 58-68: take the head of the queue and visit its open neighbours. */
  method Expand(b: Board, srcs: seq<Cell>, tgt: Cell, net: string, visited: set<int>, prev: map<int, Cell>,
                q: seq<Cell>, ghost dist: map<Cell, nat>, ghost done: set<Cell>)
    returns (visited': set<int>, prev': map<int, Cell>, q': seq<Cell>, ghost dist': map<Cell, nat>)
    requires q != [] && q[0] in dist && q[0] != tgt
    requires Sound(b, srcs, tgt, net, visited, prev, dist)
    requires Closed(b, tgt, net, dist, done) && Levels(q, dist, done, dist[q[0]])
    ensures Sound(b, srcs, tgt, net, visited', prev', dist')
    ensures Closed(b, tgt, net, dist', done + {q[0]}) && Levels(q', dist', done + {q[0]}, dist[q[0]])
    ensures visited <= visited' && (visited == visited' ==> q' == q[1..])
  {
    hide At, Gidx, Sound, Levels, Closed, Open;
    var cur := q[0];
    visited', prev', q', dist' := visited, prev, q[1..], dist;
    LevelPop(q, dist, done, dist[cur]);
    var ns := Neighbours(cur);
    for i := 0 to |ns|
      invariant Sound(b, srcs, tgt, net, visited', prev', dist')
      invariant Extends(dist, dist')
      invariant Levels(q', dist', done + {cur}, dist[cur])
      invariant forall j :: 0 <= j < i && Open(b, tgt, net, ns[j]) ==> ns[j] in dist'
      invariant visited <= visited' && (visited == visited' ==> q' == q[1..])
    {
      assert ns[i] in ns;
      visited', prev', q', dist' :=
        Visit(b, srcs, tgt, net, visited', prev', q', dist', done + {cur}, cur, ns[i]);
    }
    CloseOne(b, tgt, net, q', dist, dist', done, cur);
  }

  /** Lines 69-74: follow the predecessors back from the target. */
  method Backtrace(b: Board, srcs: seq<Cell>, tgt: Cell, net: string, prev: map<int, Cell>, ghost dist: map<Cell, nat>)
    returns (path: seq<Cell>)
    requires forall x :: x in dist ==> OnBoard(b, x)
    requires Rooted(b, srcs, tgt, net, prev, dist) && tgt in dist
    ensures IsRoute(b, srcs, tgt, net, path) && |path| == dist[tgt] + 1
  {
    var cur := tgt;
    path := [tgt];
    while Gidx(b, cur) in prev
      invariant cur in dist && path != [] && path[0] == cur
      invariant |path| + dist[cur] == dist[tgt] + 1
      invariant IsRoute(b, [cur], tgt, net, path)
      invariant forall i :: 0 <= i < |path| - 1 ==> path[i] != tgt
      decreases dist[cur]
    {
      assert cur != tgt ==> Passable(b, cur, net);
      cur := prev[Gidx(b, cur)];
      path := [cur] + path;
    }
  }

  /** Lines 48-52: mark the sources, each once, and queue them. */
  method Seed(b: Board, srcs: seq<Cell>) returns (visited: set<int>, q: seq<Cell>, ghost dist: map<Cell, nat>)
    requires forall s :: s in srcs ==> OnBoard(b, s)
    ensures Marked(b, visited, dist) && SourcesMarked(srcs, dist) && Levels(q, dist, {}, 0)
    ensures forall x :: x in dist ==> x in srcs && dist[x] == 0
  {
    hide At, Gidx;
    visited, q, dist := {}, [], map[];
    for k := 0 to |srcs|
      invariant Marked(b, visited, dist)
      invariant forall x :: x in dist <==> x in srcs[..k]
      invariant forall x :: x in dist <==> x in q
      invariant forall x :: x in dist ==> dist[x] == 0
    {
      var s := srcs[k];
      if Gidx(b, s) !in visited {
        MarkOne(b, visited, dist, s, 0);
        dist := dist[s := 0];
        visited := visited + {Gidx(b, s)};
        q := [s] + q;
      }
      assert srcs[..k + 1] == srcs[..k] + [s];
    }
    assert srcs[..|srcs|] == srcs;
  }

  /** With only the sources marked, no predecessors are needed and nothing is finished. */
  lemma SeedSound(b: Board, srcs: seq<Cell>, tgt: Cell, net: string, visited: set<int>, dist: map<Cell, nat>)
    requires Marked(b, visited, dist) && SourcesMarked(srcs, dist)
    requires forall x :: x in dist ==> x in srcs && dist[x] == 0
    ensures Sound(b, srcs, tgt, net, visited, map[], dist) && Closed(b, tgt, net, dist, {})
  {
  }

  /** Lines 46-76: the shortest route from a source to the target, or nil. */
  method Maze(b: Board, srcs: seq<Cell>, tgt: Cell, net: string) returns (path: seq<Cell>)
    requires forall s :: s in srcs ==> OnBoard(b, s)
    ensures path != [] ==> IsRoute(b, srcs, tgt, net, path)
    ensures path != [] ==> forall p :: IsRoute(b, srcs, tgt, net, p) ==> |path| <= |p|
    ensures path == [] ==> !exists p :: IsRoute(b, srcs, tgt, net, p)
  {
    hide At, Gidx, Rooted, Closed, Open, IsRoute, Below;
    ghost var dist: map<Cell, nat>;
    var visited, q;
    visited, q, dist := Seed(b, srcs);
    SeedSound(b, srcs, tgt, net, visited, dist);
    var prev: map<int, Cell> := map[];
    var found := false;
    ghost var done: set<Cell>, d: nat := {}, 0;
    ghost var universe := Below(2 * b.nc * b.nr);
    while q != [] && !found
      invariant Sound(b, srcs, tgt, net, visited, prev, dist)
      invariant Closed(b, tgt, net, dist, done)
      invariant tgt !in done
      invariant Levels(q, dist, done, d)
      invariant found ==> tgt in dist && d == dist[tgt]
      decreases !found, universe - visited, |q|
    {
      var cur := q[0];
      LevelPop(q, dist, done, d);
      d := dist[cur];
      if cur == tgt {
        found := true;
      } else {
        visited, prev, q, dist := Expand(b, srcs, tgt, net, visited, prev, q, dist, done);
        done := done + {cur};
      }
    }
    if found {
      path := Backtrace(b, srcs, tgt, net, prev, dist);
      NoShorter(b, srcs, tgt, net, q, dist, done);
    } else {
      path := [];
      NoRoute(b, srcs, tgt, net, dist, done);
    }
  }
}
