/** What a run of the basic router guarantees: who owns a cell at any moment, and when a
    net's cells end up connected. */
module RouterSafety {
  import opened Grid
  import opened Router

  // ---- ownership ----

  /** The table after the first k single-cell claims of a run. */
  function Moment(b: Board, nets: seq<NetTerms>, k: nat): Board
    requires k <= |RunWrites(nets)|
  {
    Apply(b, RunWrites(nets)[..k])
  }

  ghost predicate TerminalOf(nets: seq<NetTerms>, net: string, x: Cell) {
    exists k :: 0 <= k < |nets| && nets[k].name == net && |nets[k].terms| >= 2 && x in nets[k].terms
  }

  /** A run writes the terminals of its routable nets and nothing else. */
  lemma {:induction false} RunWritesAreTerminals(nets: seq<NetTerms>, w: Write)
    ensures w in RunWrites(nets) <==> TerminalOf(nets, w.net, w.cell)
  {
    if nets == [] {
    } else {
      var n := |nets| - 1;
      RunWritesAreTerminals(nets[..n], w);
      var mine := if |nets[n].terms| >= 2 then ClaimWrites(nets[n].terms, nets[n].name) else [];
      assert RunWrites(nets) == RunWrites(nets[..n]) + mine;
      if w in mine {
        assert TerminalOf(nets, w.net, w.cell);
      }
      if TerminalOf(nets[..n], w.net, w.cell) {
        var k :| 0 <= k < n && nets[..n][k].name == w.net && |nets[..n][k].terms| >= 2 && w.cell in nets[..n][k].terms;
        assert nets[k] == nets[..n][k];
      }
      if TerminalOf(nets, w.net, w.cell) {
        var k :| 0 <= k < |nets| && nets[k].name == w.net && |nets[k].terms| >= 2 && w.cell in nets[k].terms;
        if k < n {
          assert nets[..n][k] == nets[k];
        } else {
          var i :| 0 <= i < |nets[n].terms| && nets[n].terms[i] == w.cell;
          assert mine[i] == w;
        }
      }
    }
  }

  lemma RunOnBoard(b: Board, nets: seq<NetTerms>)
    requires TermsOnBoard(b, nets)
    ensures WritesOnBoard(b, RunWrites(nets))
  {
    forall i | 0 <= i < |RunWrites(nets)|
      ensures OnBoard(b, RunWrites(nets)[i].cell)
    {
      RunWritesAreTerminals(nets, RunWrites(nets)[i]);
    }
  }

  /** At every moment an obstacle or a free cell that some net has taken is a terminal of that net. */
  lemma ObstaclesKept(b: Board, nets: seq<NetTerms>, k: nat, x: Cell)
    requires TermsOnBoard(b, nets) && k <= |RunWrites(nets)| && OnBoard(b, x)
    ensures At(Moment(b, nets, k), x) == At(b, x)
         || (At(Moment(b, nets, k), x).Net? && TerminalOf(nets, At(Moment(b, nets, k), x).name, x))
  {
    hide At, Apply, RunWrites;
    RunOnBoard(b, nets);
    var ws := RunWrites(nets)[..k];
    ApplyAt(b, ws, x);
    if Touches(ws, x) {
      var i :| 0 <= i < |ws| && ws[i].cell == x && At(Apply(b, ws), x) == Net(ws[i].net);
      assert ws[i] in RunWrites(nets);
      RunWritesAreTerminals(nets, ws[i]);
    }
  }

  /** No cell changes hands: what a net owns at one moment it owns at every later one. */
  ghost predicate NeverTaken(b: Board, nets: seq<NetTerms>) {
    forall i, j, x, net ::
      (0 <= i <= j <= |RunWrites(nets)| && OnBoard(b, x) && At(Moment(b, nets, i), x) == Net(net)) ==>
      At(Moment(b, nets, j), x) == Net(net)
  }

  /** Nets of different names share no terminal cell, and none sits on a cell another net owns beforehand. */
  ghost predicate Disjoint(b: Board, nets: seq<NetTerms>) {
    && (forall x, m, n :: TerminalOf(nets, m, x) && TerminalOf(nets, n, x) ==> m == n)
    && (forall x, n :: TerminalOf(nets, n, x) && At(b, x).Net? ==> At(b, x).name == n)
  }

  lemma DisjointKeeps(b: Board, nets: seq<NetTerms>, i: nat, j: nat, x: Cell, net: string)
    requires TermsOnBoard(b, nets) && Disjoint(b, nets) && OnBoard(b, x)
    requires i <= j <= |RunWrites(nets)| && At(Moment(b, nets, i), x) == Net(net)
    ensures At(Moment(b, nets, j), x) == Net(net)
  {
    hide At, Apply, RunWrites;
    RunOnBoard(b, nets);
    var ws, vs := RunWrites(nets)[..i], RunWrites(nets)[..j];
    ApplyAt(b, ws, x);
    ApplyAt(b, vs, x);
    if Touches(ws, x) {
      var h :| 0 <= h < |ws| && ws[h].cell == x;
      assert vs[h].cell == x;
    }
    if Touches(vs, x) {
      var k :| 0 <= k < |vs| && vs[k].cell == x && At(Apply(b, vs), x) == Net(vs[k].net);
      assert vs[k] in RunWrites(nets);
      RunWritesAreTerminals(nets, vs[k]);
      if Touches(ws, x) {
        var h :| 0 <= h < |ws| && ws[h].cell == x && At(Apply(b, ws), x) == Net(ws[h].net);
        assert ws[h] in RunWrites(nets);
        RunWritesAreTerminals(nets, ws[h]);
      }
    }
  }

  /** Right after the k-th claim its cell belongs to the claiming net. */
  lemma MomentAfter(b: Board, nets: seq<NetTerms>, k: nat)
    requires TermsOnBoard(b, nets) && k < |RunWrites(nets)|
    ensures OnBoard(b, RunWrites(nets)[k].cell)
    ensures At(Moment(b, nets, k + 1), RunWrites(nets)[k].cell) == Net(RunWrites(nets)[k].net)
  {
    hide At, Apply, RunWrites;
    RunOnBoard(b, nets);
    var ws := RunWrites(nets)[..k + 1];
    ApplyAt(b, ws, ws[k].cell);
    assert Touches(ws, ws[k].cell);
  }

  lemma FirstMoment(b: Board, nets: seq<NetTerms>)
    ensures Moment(b, nets, 0) == b
  {
    assert RunWrites(nets)[..0] == [];
  }

  lemma ClashTakes(b: Board, nets: seq<NetTerms>)
    requires TermsOnBoard(b, nets) && NeverTaken(b, nets)
    ensures Disjoint(b, nets)
  {
    hide At, Apply, RunWrites;
    var ws := RunWrites(nets);
    forall x, m, n | TerminalOf(nets, m, x) && TerminalOf(nets, n, x)
      ensures m == n
    {
      RunWritesAreTerminals(nets, Write(x, m));
      RunWritesAreTerminals(nets, Write(x, n));
      var i :| 0 <= i < |ws| && ws[i] == Write(x, m);
      var j :| 0 <= j < |ws| && ws[j] == Write(x, n);
      MomentAfter(b, nets, i);
      MomentAfter(b, nets, j);
      if i <= j {
        assert At(Moment(b, nets, j + 1), x) == Net(m);
      } else {
        assert At(Moment(b, nets, i + 1), x) == Net(n);
      }
    }
    forall x, n | TerminalOf(nets, n, x) && At(b, x).Net?
      ensures At(b, x).name == n
    {
      RunWritesAreTerminals(nets, Write(x, n));
      var i :| 0 <= i < |ws| && ws[i] == Write(x, n);
      MomentAfter(b, nets, i);
      FirstMoment(b, nets);
      assert At(Moment(b, nets, i + 1), x) == Net(At(b, x).name);
    }
  }

  /** The code as written keeps every net's cells exactly when the terminals do not clash. */
  lemma NoShort(b: Board, nets: seq<NetTerms>)
    requires TermsOnBoard(b, nets)
    ensures NeverTaken(b, nets) <==> Disjoint(b, nets)
  {
    if Disjoint(b, nets) {
      forall i, j, x, net | 0 <= i <= j <= |RunWrites(nets)| && OnBoard(b, x) && At(Moment(b, nets, i), x) == Net(net)
        ensures At(Moment(b, nets, j), x) == Net(net)
      {
        DisjointKeeps(b, nets, i, j, x, net);
      }
    }
    if NeverTaken(b, nets) {
      ClashTakes(b, nets);
    }
  }

  /** Claiming a route whose target the net already holds takes only free cells, whoever calls it. */
  lemma ClaimTakesFreeOnly(b: Board, srcs: seq<Cell>, tgt: Cell, net: string, path: seq<Cell>, x: Cell)
    requires forall s :: s in srcs ==> OnBoard(b, s) && At(b, s) == Net(net)
    requires IsRoute(b, srcs, tgt, net, path) && At(b, tgt) == Net(net)
    requires OnBoard(b, x) && At(b, x) != Free
    ensures At(Claimed(b, path, net), x) == At(b, x)
  {
    hide At, Apply;
    ClaimedAt(b, path, net, x);
  }

  // ---- connection ----

  /** A wire from x to y over cells of the set s. */
  ghost predicate Chain(s: iset<Cell>, p: seq<Cell>, x: Cell, y: Cell) {
    && |p| > 0 && p[0] == x && p[|p| - 1] == y
    && (forall i :: 0 <= i < |p| ==> p[i] in s)
    && (forall i :: 0 <= i < |p| - 1 ==> Adj(p[i], p[i + 1]))
  }

  ghost predicate Linked(s: iset<Cell>, x: Cell, y: Cell) {
    exists p :: Chain(s, p, x, y)
  }

  ghost predicate Connected(s: iset<Cell>) {
    forall x, y :: x in s && y in s ==> Linked(s, x, y)
  }

  ghost function Holdings(b: Board, net: string): iset<Cell> {
    iset x | OnBoard(b, x) && At(b, x) == Net(net)
  }

  lemma LinkedSymmetric(s: iset<Cell>, x: Cell, y: Cell)
    requires Linked(s, x, y)
    ensures Linked(s, y, x)
  {
    var p :| Chain(s, p, x, y);
    var q := seq(|p|, i requires 0 <= i < |p| => p[|p| - 1 - i]);
    forall i | 0 <= i < |q| - 1
      ensures Adj(q[i], q[i + 1])
    {
      assert q[i] == p[|p| - 2 - i + 1] && q[i + 1] == p[|p| - 2 - i];
    }
    assert Chain(s, q, y, x);
  }

  lemma LinkedTransitive(s: iset<Cell>, x: Cell, y: Cell, z: Cell)
    requires Linked(s, x, y) && Linked(s, y, z)
    ensures Linked(s, x, z)
  {
    var p :| Chain(s, p, x, y);
    var q :| Chain(s, q, y, z);
    var pq := p + q[1..];
    forall i | 0 <= i < |pq| - 1
      ensures Adj(pq[i], pq[i + 1])
    {
      if i >= |p| - 1 {
        assert pq[i] == q[i - |p| + 1] && pq[i + 1] == q[i - |p| + 1 + 1];
      }
    }
    assert Chain(s, pq, x, z);
  }

  lemma LinkedMonotone(s: iset<Cell>, t: iset<Cell>, x: Cell, y: Cell)
    requires s <= t && Linked(s, x, y)
    ensures Linked(t, x, y)
  {
    var p :| Chain(s, p, x, y);
    assert Chain(t, p, x, y);
  }

  lemma PrefixLinks(s: iset<Cell>, path: seq<Cell>, x: Cell)
    requires x in path && forall y :: y in path ==> y in s
    requires forall i :: 0 <= i < |path| - 1 ==> Adj(path[i], path[i + 1])
    ensures Linked(s, path[0], x)
  {
    var i :| 0 <= i < |path| && path[i] == x;
    assert Chain(s, path[..i + 1], path[0], x);
  }

  /** A search that succeeds from the net's own cells joins its target to them. */
  lemma RouteJoins(b: Board, srcs: seq<Cell>, tgt: Cell, net: string, path: seq<Cell>)
    requires forall x :: x in srcs <==> x in Holdings(b, net)
    requires Connected(Holdings(b, net)) && IsRoute(b, srcs, tgt, net, path)
    ensures Connected(Holdings(Claimed(b, path, net), net))
    ensures Holdings(Claimed(b, path, net), net) == Holdings(b, net) + iset x | x in path
  {
    hide At, Apply, Linked;
    var h, b' := Holdings(b, net), Claimed(b, path, net);
    var h' := h + iset x | x in path;
    ApplyShape(b, ClaimWrites(path, net));
    forall x
      ensures x in Holdings(b', net) <==> x in h'
    {
      if OnBoard(b, x) {
        ClaimedAt(b, path, net, x);
      }
    }
    assert Holdings(b', net) == h';
    forall x | x in h'
      ensures Linked(h', path[0], x)
    {
      if x in h {
        LinkedMonotone(h, h', path[0], x);
      } else {
        PrefixLinks(h', path, x);
      }
    }
    forall x, y | x in h' && y in h'
      ensures Linked(h', x, y)
    {
      LinkedSymmetric(h', path[0], x);
      LinkedTransitive(h', x, path[0], y);
    }
  }

  ghost predicate JoinStep(b: Board, b': Board, net: string, tgt: Cell, path: seq<Cell>) {
    && b' == Claimed(b, path, net)
    && exists srcs :: (forall x :: x in srcs <==> x in Holdings(b, net)) && IsRoute(b, srcs, tgt, net, path)
  }

  /** A series of searches, each from all cells the net holds at that point, claiming each route found. */
  ghost predicate JoinRun(bs: seq<Board>, net: string, tgts: seq<Cell>, paths: seq<seq<Cell>>) {
    && |bs| == |tgts| + 1 && |paths| == |tgts|
    && forall i :: 0 <= i < |tgts| ==> JoinStep(bs[i], bs[i + 1], net, tgts[i], paths[i])
  }

  /** A net whose searches all succeed, started from connected cells, ends connected over all its targets. */
  lemma {:induction false} AllJoined(bs: seq<Board>, net: string, tgts: seq<Cell>, paths: seq<seq<Cell>>)
    requires JoinRun(bs, net, tgts, paths) && Connected(Holdings(bs[0], net))
    ensures Connected(Holdings(bs[|tgts|], net))
    ensures Holdings(bs[0], net) <= Holdings(bs[|tgts|], net)
    ensures forall t :: t in tgts ==> t in Holdings(bs[|tgts|], net)
  {
    if tgts == [] {
    } else {
      var n := |tgts| - 1;
      assert JoinStep(bs[n], bs[n + 1], net, tgts[n], paths[n]);
      AllJoined(bs[..n + 1], net, tgts[..n], paths[..n]);
      var srcs :| (forall x :: x in srcs <==> x in Holdings(bs[n], net))
               && IsRoute(bs[n], srcs, tgts[n], net, paths[n]);
      RouteJoins(bs[n], srcs, tgts[n], net, paths[n]);
      assert paths[n][|paths[n]| - 1] in paths[n];
    }
  }

  // ---- connection in the order the code is written ----

  /** Who is left with a cell: the last routable net it is a terminal of, and its owner before the run if
      there is none. */
  function FinalOwner(b: Board, nets: seq<NetTerms>, x: Cell): Owner {
    if nets == [] then At(b, x) else
    var last := nets[|nets| - 1];
    if |last.terms| >= 2 && x in last.terms then Net(last.name) else FinalOwner(b, nets[..|nets| - 1], x)
  }

  ghost function Left(b: Board, nets: seq<NetTerms>, net: string): iset<Cell> {
    iset x | OnBoard(b, x) && FinalOwner(b, nets, x) == Net(net)
  }

  lemma NoWrites(b: Board)
    ensures Apply(b, []) == b
  {
  }

  lemma {:induction false} FinalOwnerAt(b: Board, nets: seq<NetTerms>, x: Cell)
    requires TermsOnBoard(b, nets) && OnBoard(b, x)
    ensures At(Apply(b, RunWrites(nets)), x) == FinalOwner(b, nets, x)
  {
    hide At, Apply;
    if nets == [] {
      NoWrites(b);
    } else {
      var n := |nets| - 1;
      FinalOwnerAt(b, nets[..n], x);
      var before := RunWrites(nets[..n]);
      ApplyShape(b, before);
      ApplyConcat(b, before, ClaimWrites(nets[n].terms, nets[n].name));
      if |nets[n].terms| >= 2 {
        forall y | y in nets[n].terms
          ensures OnBoard(Apply(b, before), y)
        {
          assert OnBoard(b, y);
        }
        ClaimedAt(Apply(b, before), nets[n].terms, nets[n].name, x);
      } else {
        assert before + [] == before;
      }
    }
  }

  /** The final owner is a net with x as terminal, if there is one, and the owner before otherwise. */
  lemma {:induction false} FinalClaimant(b: Board, nets: seq<NetTerms>, x: Cell)
    ensures (FinalOwner(b, nets, x) == At(b, x) && forall n :: !TerminalOf(nets, n, x))
         || (FinalOwner(b, nets, x).Net? && TerminalOf(nets, FinalOwner(b, nets, x).name, x))
  {
    hide At;
    if nets == [] {
    } else {
      var k := |nets| - 1;
      FinalClaimant(b, nets[..k], x);
      if |nets[k].terms| >= 2 && x in nets[k].terms {
        assert TerminalOf(nets, nets[k].name, x);
      } else {
        forall n
          ensures TerminalOf(nets, n, x) <==> TerminalOf(nets[..k], n, x)
        {
          if TerminalOf(nets[..k], n, x) {
            var i :| 0 <= i < k && nets[..k][i].name == n && |nets[..k][i].terms| >= 2 && x in nets[..k][i].terms;
            assert nets[i] == nets[..k][i];
          }
          if TerminalOf(nets, n, x) {
            var i :| 0 <= i < |nets| && nets[i].name == n && |nets[i].terms| >= 2 && x in nets[i].terms;
            assert nets[..k][i] == nets[i];
          }
        }
      }
    }
  }

  lemma DisjointLeft(b: Board, nets: seq<NetTerms>, net: string, x: Cell)
    requires TermsOnBoard(b, nets) && Disjoint(b, nets)
    ensures x in Left(b, nets, net) <==> x in Holdings(b, net) || TerminalOf(nets, net, x)
  {
    hide At;
    FinalClaimant(b, nets, x);
  }

  /** After any run a net holds exactly the cells it is left with; where the terminals do not clash these are
      the cells it held before and its terminals. */
  lemma RunHoldings(b: Board, nets: seq<NetTerms>, net: string)
    requires TermsOnBoard(b, nets)
    ensures Holdings(Apply(b, RunWrites(nets)), net) == Left(b, nets, net)
    ensures Disjoint(b, nets) ==> Left(b, nets, net) == Holdings(b, net) + iset x | TerminalOf(nets, net, x)
  {
    hide At, Apply, RunWrites, FinalOwner, Disjoint;
    ApplyShape(b, RunWrites(nets));
    forall x | OnBoard(b, x)
      ensures At(Apply(b, RunWrites(nets)), x) == FinalOwner(b, nets, x)
    {
      FinalOwnerAt(b, nets, x);
    }
    if Disjoint(b, nets) {
      forall x
        ensures x in Left(b, nets, net) <==> x in Holdings(b, net) + iset x | TerminalOf(nets, net, x)
      {
        DisjointLeft(b, nets, net, x);
      }
    }
  }

  /** A run connects a net exactly when the cells it is left with touch each other: no cell is claimed to join them. */
  lemma RunConnects(b: Board, nets: seq<NetTerms>, net: string)
    requires TermsOnBoard(b, nets)
    ensures Connected(Holdings(Apply(b, RunWrites(nets)), net)) <==> Connected(Left(b, nets, net))
    ensures Disjoint(b, nets) ==>
      (Connected(Holdings(Apply(b, RunWrites(nets)), net))
       <==> Connected(Holdings(b, net) + iset x | TerminalOf(nets, net, x)))
  {
    RunHoldings(b, nets, net);
  }

  lemma OneNet(name: string, x: Cell, y: Cell)
    ensures forall n, z :: TerminalOf([NetTerms(name, [x, y])], n, z) <==> n == name && (z == x || z == y)
  {
    var nets := [NetTerms(name, [x, y])];
    forall n, z
      ensures TerminalOf(nets, n, z) <==> n == name && (z == x || z == y)
    {
      assert nets[0].terms == [x, y];
      if n == name && (z == x || z == y) {
        assert z in nets[0].terms;
      }
    }
  }

  lemma {:induction false} NeverLeaves(s: iset<Cell>, x: Cell, y: Cell, p: seq<Cell>, i: nat)
    requires (forall z :: z in s ==> z == x || z == y) && !Adj(x, y)
    requires i < |p| && p[0] == x && (forall k :: 0 <= k < |p| ==> p[k] in s)
    requires forall k :: 0 <= k < |p| - 1 ==> Adj(p[k], p[k + 1])
    ensures p[i] == x
  {
    if i == 0 {
    } else {
      NeverLeaves(s, x, y, p, i - 1);
      assert Adj(p[i - 1], p[i - 1 + 1]);
    }
  }

  lemma ApartCells(s: iset<Cell>, x: Cell, y: Cell)
    requires (forall z :: z in s ==> z == x || z == y) && !Adj(x, y) && x != y
    ensures !Linked(s, x, y)
  {
    if Linked(s, x, y) {
      var p :| Chain(s, p, x, y);
      NeverLeaves(s, x, y, p, |p| - 1);
    }
  }

  lemma RowRoute(name: string)
    ensures IsRoute(Board(3, 1, map[]), [Cell(0, 0, 0)], Cell(0, 2, 0), name,
                    [Cell(0, 0, 0), Cell(0, 1, 0), Cell(0, 2, 0)])
  {
  }

  /** Two terminals two columns apart on an empty grid: a route exists and the net is reported
      as routed, yet its cells stay apart. */
  lemma RoutedButApart(name: string)
    ensures var b, x, y := Board(3, 1, map[]), Cell(0, 0, 0), Cell(0, 2, 0);
            var nets := [NetTerms(name, [x, y])];
            && TermsOnBoard(b, nets) && Disjoint(b, nets)
            && IsRoute(b, [x], y, name, [x, Cell(0, 1, 0), y])
            && CountRoutable(nets) == 1
            && !Connected(Holdings(Apply(b, RunWrites(nets)), name))
  {
    hide Linked, RunWrites, Apply, IsRoute, FinalOwner;
    var b, x, y := Board(3, 1, map[]), Cell(0, 0, 0), Cell(0, 2, 0);
    var nets := [NetTerms(name, [x, y])];
    assert CountRoutable(nets) == 1 by { assert nets[..0] == []; }
    RowRoute(name);
    OneNet(name, x, y);
    RunHoldings(b, nets, name);
    var s := iset{x, y};
    assert Holdings(Apply(b, RunWrites(nets)), name) == s;
    ApartCells(s, x, y);
  }
}
