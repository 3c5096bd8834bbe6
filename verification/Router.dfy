/** The built-in "basic" router of skill/vfp_layout_route.il: the occupancy table, obstacle
    marking and the loop that claims cells net by net. Device boxes and terminal pins
    arrive as grid coordinates. */
module Router {
  import opened Grid
  import Maze

  /** A net with the cells of its terminals, as vfpRNetTerms lists them. */
  datatype NetTerms = NetTerms(name: string, terms: seq<Cell>)

  /** A device box in grid columns and rows, both ends included. */
  datatype Box = Box(c0: int, c1: int, r0: int, r1: int)

  datatype Write = Write(cell: Cell, net: string)

  // ---- what a series of claims does to the table ----

  function Apply(b: Board, ws: seq<Write>): Board {
    if ws == [] then b else
    var last := ws[|ws| - 1];
    Put(Apply(b, ws[..|ws| - 1]), last.cell, Net(last.net))
  }

  function ClaimWrites(path: seq<Cell>, net: string): (ws: seq<Write>)
    ensures |ws| == |path| && forall i :: 0 <= i < |ws| ==> ws[i] == Write(path[i], net)
  {
    if path == [] then [] else ClaimWrites(path[..|path| - 1], net) + [Write(path[|path| - 1], net)]
  }

  function Claimed(b: Board, path: seq<Cell>, net: string): Board {
    Apply(b, ClaimWrites(path, net))
  }

  /** The cells a run writes, in order: every terminal of every net with two or more. */
  function RunWrites(nets: seq<NetTerms>): seq<Write> {
    if nets == [] then [] else
    var last := nets[|nets| - 1];
    RunWrites(nets[..|nets| - 1]) + (if |last.terms| >= 2 then ClaimWrites(last.terms, last.name) else [])
  }

  function CountRoutable(nets: seq<NetTerms>): nat {
    if nets == [] then 0 else
    CountRoutable(nets[..|nets| - 1]) + if |nets[|nets| - 1].terms| >= 2 then 1 else 0
  }

  /** The routable nets are those with two or more terminals, each counted once. */
  lemma {:induction false} CountRoutableIs(nets: seq<NetTerms>)
    ensures CountRoutable(nets) == |set k | 0 <= k < |nets| && |nets[k].terms| >= 2|
  {
    var all := set k | 0 <= k < |nets| && |nets[k].terms| >= 2;
    if nets == [] {
      assert all == {};
    } else {
      var n := |nets| - 1;
      CountRoutableIs(nets[..n]);
      var before := set k | 0 <= k < |nets[..n]| && |nets[..n][k].terms| >= 2;
      assert all == before + if |nets[n].terms| >= 2 then {n} else {};
      assert n !in before;
    }
  }

  ghost predicate WritesOnBoard(b: Board, ws: seq<Write>) {
    forall i :: 0 <= i < |ws| ==> OnBoard(b, ws[i].cell)
  }

  ghost predicate TermsOnBoard(b: Board, nets: seq<NetTerms>) {
    forall k, x :: 0 <= k < |nets| && x in nets[k].terms ==> OnBoard(b, x)
  }

  lemma {:induction false} ApplyShape(b: Board, ws: seq<Write>)
    ensures Apply(b, ws).nc == b.nc && Apply(b, ws).nr == b.nr
  {
    if ws == [] {
    } else {
      ApplyShape(b, ws[..|ws| - 1]);
    }
  }

  lemma {:induction false} ApplyConcat(b: Board, ws: seq<Write>, vs: seq<Write>)
    ensures Apply(b, ws + vs) == Apply(Apply(b, ws), vs)
  {
    if vs == [] {
      assert ws + vs == ws;
    } else {
      var n := |vs| - 1;
      assert (ws + vs)[..|ws + vs| - 1] == ws + vs[..n];
      ApplyConcat(b, ws, vs[..n]);
    }
  }

  ghost predicate Touches(ws: seq<Write>, x: Cell) {
    exists i :: 0 <= i < |ws| && ws[i].cell == x
  }

  /** A cell belongs to the net that wrote it last, and is as before if none did. */
  lemma {:induction false} ApplyAt(b: Board, ws: seq<Write>, x: Cell)
    requires WritesOnBoard(b, ws) && OnBoard(b, x)
    ensures !Touches(ws, x) ==> At(Apply(b, ws), x) == At(b, x)
    ensures Touches(ws, x) ==> exists i :: 0 <= i < |ws| && ws[i].cell == x && At(Apply(b, ws), x) == Net(ws[i].net)
                                        && forall j :: i < j < |ws| ==> ws[j].cell != x
  {
    hide At, Put;
    if ws == [] {
    } else {
      var n := |ws| - 1;
      ApplyAt(b, ws[..n], x);
      ApplyShape(b, ws[..n]);
      PutAt(Apply(b, ws[..n]), ws[n].cell, Net(ws[n].net), x);
      if ws[n].cell != x && Touches(ws, x) {
        var j :| 0 <= j < |ws| && ws[j].cell == x;
        assert ws[..n][j].cell == x;
        var i :| 0 <= i < n && ws[..n][i].cell == x && At(Apply(b, ws[..n]), x) == Net(ws[..n][i].net)
                 && forall j :: i < j < n ==> ws[..n][j].cell != x;
        assert ws[i].cell == x;
        assert forall j :: i < j < n ==> ws[j] == ws[..n][j];
      }
    }
  }

  lemma ClaimedAt(b: Board, path: seq<Cell>, net: string, x: Cell)
    requires OnBoard(b, x) && forall y :: y in path ==> OnBoard(b, y)
    ensures At(Claimed(b, path, net), x) == if x in path then Net(net) else At(b, x)
  {
    hide At, Apply;
    var ws := ClaimWrites(path, net);
    ApplyAt(b, ws, x);
    if x in path {
      var i :| 0 <= i < |path| && path[i] == x;
      assert ws[i].cell == x;
    }
  }

  // ---- facts the grid object's methods use ----

  predicate Covers(bx: Box, x: Cell) {
    bx.c0 <= x.c <= bx.c1 && bx.r0 <= x.r <= bx.r1
  }

  ghost predicate Covered(boxes: seq<Box>, x: Cell) {
    exists k :: 0 <= k < |boxes| && Covers(boxes[k], x)
  }

  lemma PutShape(b: Board, x: Cell, v: Owner)
    ensures Put(b, x, v).nc == b.nc && Put(b, x, v).nr == b.nr
  {
  }

  /** Claiming the one-cell path over a cell the net has just taken changes nothing. */
  lemma ClaimAgain(b: Board, x: Cell, net: string)
    ensures Claimed(Put(b, x, Net(net)), [x], net) == Put(b, x, Net(net))
  {
    var b' := Put(b, x, Net(net));
    assert ClaimWrites([x], net) == [Write(x, net)];
    assert [Write(x, net)][..0] == [];
    assert Apply(b', [Write(x, net)]) == Put(b', x, Net(net));
    assert Gidx(b', x) == Gidx(b, x);
    assert b'.occ[Gidx(b', x) := Net(net)] == b'.occ;
  }

  /** A search whose target is one of its own sources stops there. */
  lemma AlreadyThere(b: Board, srcs: seq<Cell>, tgt: Cell, net: string, path: seq<Cell>)
    requires tgt in srcs && OnBoard(b, tgt)
    requires path == [] ==> !exists p :: IsRoute(b, srcs, tgt, net, p)
    requires path != [] ==>
      IsRoute(b, srcs, tgt, net, path) && forall p :: IsRoute(b, srcs, tgt, net, p) ==> |path| <= |p|
    ensures path == [tgt]
  {
    assert IsRoute(b, srcs, tgt, net, [tgt]);
  }

  // ---- the grid object ----

  class RouteGrid {
    const nc: int
    const nr: int
    var occ: map<int, Owner>

    function View(): Board
      reads this
    {
      Board(nc, nr, occ)
    }

    constructor (nc: int, nr: int)
      ensures this.nc == nc && this.nr == nr
      ensures forall x :: At(View(), x) == Free
    {
      this.nc, this.nr, occ := nc, nr, map[];
    }

    method Set(x: Cell, v: Owner)
      modifies this
      ensures View() == Put(old(View()), x, v)
    {
      occ := occ[Gidx(View(), x) := v];
    }

    /** Lines 79-86: the cells a net has claimed. */
    method ClaimedCells(net: string) returns (out: seq<Cell>)
      ensures forall x :: x in out <==> OnBoard(View(), x) && At(View(), x) == Net(net)
    {
      hide At, Gidx;
      var b := View();
      out := [];
      for l := 0 to 2
        invariant forall x :: x in out <==> OnBoard(b, x) && At(b, x) == Net(net) && x.l < l
      {
        for c := 0 to (if nc < 0 then 0 else nc)
          invariant forall x :: x in out <==>
            OnBoard(b, x) && At(b, x) == Net(net) && (x.l < l || (x.l == l && x.c < c))
        {
          for r := 0 to (if nr < 0 then 0 else nr)
            invariant forall x :: x in out <==>
              (OnBoard(b, x) && At(b, x) == Net(net) && (x.l < l || (x.l == l && (x.c < c || (x.c == c && x.r < r)))))
          {
            if At(b, Cell(l, c, r)) == Net(net) {
              out := [Cell(l, c, r)] + out;
            }
          }
        }
      }
    }

    /** Lines 87-89. */
    method Claim(path: seq<Cell>, net: string)
      modifies this
      ensures View() == Claimed(old(View()), path, net)
    {
      ghost var ws := ClaimWrites(path, net);
      for i := 0 to |path|
        invariant View() == Apply(old(View()), ws[..i])
      {
        Set(path[i], Net(net));
        assert ws[..i + 1][..i] == ws[..i];
      }
      assert ws[..|path|] == ws;
    }

    method MarkBox(bx: Box)
      modifies this
      ensures forall x :: OnBoard(View(), x) ==>
        At(View(), x) == if x.l == 0 && Covers(bx, x) then Obs else old(At(View(), x))
    {
      hide At, Gidx, Put;
      ghost var b := View();
      var c := bx.c0;
      while c <= bx.c1
        invariant bx.c0 <= c
        invariant forall x :: OnBoard(b, x) ==>
          At(View(), x) == if x.l == 0 && Covers(bx, x) && x.c < c then Obs else At(b, x)
      {
        var r := bx.r0;
        while r <= bx.r1
          invariant bx.r0 <= r
          invariant forall x :: OnBoard(b, x) ==>
            At(View(), x) == if x.l == 0 && Covers(bx, x) && (x.c < c || (x.c == c && x.r < r)) then Obs else At(b, x)
        {
          var x := Cell(0, c, r);
          if In(View(), x) {
            ghost var v := View();
            Set(x, Obs);
            forall y | OnBoard(b, y)
              ensures At(View(), y) == if x == y then Obs else At(v, y)
            {
              PutAt(v, x, Obs, y);
            }
          }
          r := r + 1;
        }
        c := c + 1;
      }
    }

    /** Lines 94-101: the M1 cells under the devices become obstacles, nothing else changes. */
    method MarkObstacles(boxes: seq<Box>)
      modifies this
      ensures forall x :: OnBoard(View(), x) ==>
        At(View(), x) ==
          if x.l == 0 && (exists k | 0 <= k < |boxes| ::
            boxes[k].c0 <= x.c <= boxes[k].c1 && boxes[k].r0 <= x.r <= boxes[k].r1)
          then Obs else old(At(View(), x))
    {
      hide At, Gidx, Put;
      ghost var b := View();
      for k := 0 to |boxes|
        invariant forall x :: OnBoard(b, x) ==>
          At(View(), x) == if x.l == 0 && Covered(boxes[..k], x) then Obs else At(b, x)
      {
        assert boxes[..k + 1] == boxes[..k] + [boxes[k]];
        MarkBox(boxes[k]);
      }
      assert boxes[..|boxes|] == boxes;
    }

    /** Lines 157-159: claim a terminal, then search from the net's cells to it. */
    method RouteTerm(net: string, tcell: Cell) returns (path: seq<Cell>)
      requires OnBoard(View(), tcell)
      modifies this
      ensures View() == Put(old(View()), tcell, Net(net))
      ensures path == [tcell]
    {
      hide Gidx, Put, IsRoute;
      ghost var b := View();
      Set(tcell, Net(net));
      PutAt(b, tcell, Net(net), tcell);
      PutShape(b, tcell, Net(net));
      var srcs := ClaimedCells(net);
      path := Maze.Maze(View(), srcs, tcell, net);
      AlreadyThere(View(), srcs, tcell, net, path);
      Claim(path, net);
      ClaimAgain(b, tcell, net);
    }

    /** Lines 152-160 for one net with two or more terminals. */
    method RouteNet(net: string, terms: seq<Cell>) returns (any: bool)
      requires |terms| >= 2 && forall x :: x in terms ==> OnBoard(View(), x)
      modifies this
      ensures View() == Claimed(old(View()), terms, net)
      ensures any
    {
      hide Gidx, Put;
      ghost var b, ws := View(), ClaimWrites(terms, net);
      any := false;
      Set(terms[0], Net(net));
      assert ws[..0] == [] && ws[..1][..0] == [];
      for i := 1 to |terms|
        invariant View() == Apply(b, ws[..i])
        invariant i > 1 ==> any
      {
        ApplyShape(b, ws[..i]);
        assert terms[i] in terms;
        var path := RouteTerm(net, terms[i]);
        assert ws[..i + 1][..i] == ws[..i];
        if path != [] {
          any := true;
        }
      }
      assert ws[..|terms|] == ws;
    }

    /** Lines 145-163: the table after a run, and the number of nets reported as routed. */
    method RouterBasic(nets: seq<NetTerms>) returns (routed: nat)
      requires TermsOnBoard(View(), nets)
      modifies this
      ensures View() == Apply(old(View()), RunWrites(nets))
      ensures routed == CountRoutable(nets)
    {
      hide Put;
      ghost var b := View();
      routed := 0;
      for k := 0 to |nets|
        invariant View() == Apply(b, RunWrites(nets[..k])) && routed == CountRoutable(nets[..k])
      {
        assert nets[..k + 1][..k] == nets[..k];
        ApplyShape(b, RunWrites(nets[..k]));
        assert forall x :: x in nets[k].terms ==> OnBoard(b, x);
        if |nets[k].terms| >= 2 {
          var any := RouteNet(nets[k].name, nets[k].terms);
          ApplyConcat(b, RunWrites(nets[..k]), ClaimWrites(nets[k].terms, nets[k].name));
          if any {
            routed := routed + 1;
          }
        } else {
          assert RunWrites(nets[..k]) + [] == RunWrites(nets[..k]);
        }
      }
      assert nets[..|nets|] == nets;
    }
  }
}
