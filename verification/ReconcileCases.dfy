/** Inputs at which an empty diff or the reported renames of skill/vfp_connectivity.il say less than they seem to. */
module ReconcileCases {
  import opened Text
  import opened Connectivity
  import opened Renaming
  import opened Reconcile

  // ---- one-instance drawings ----

  function Drawing(ts: seq<Term>): Snapshot {
    Snapshot("", [Inst("I", "m", ts)], [], [])
  }

  function TermPins(ts: seq<Term>): (ps: seq<Pin>)
    ensures |ps| == |ts| && forall k :: 0 <= k < |ps| ==> ps[k] == Pin(Label("I", ts[k].term), ts[k].net)
  {
    seq(|ts|, k requires 0 <= k < |ts| => Pin(Label("I", ts[k].term), ts[k].net))
  }

  lemma DrawingPins(ts: seq<Term>)
    ensures Pins(Drawing(ts)) == TermPins(ts)
  {
    var i := Inst("I", "m", ts);
    assert [i][..0] == [];
    assert PinsOf([i]) == InstPins(i);
  }

  lemma LabelDiffers(t: string, u: string)
    requires t != u
    ensures Label("I", t) != Label("I", u)
  {
    assert Label("I", t)[2..] == t && Label("I", u)[2..] == u;
  }

  lemma DrawingWellFormed(ts: seq<Term>)
    requires forall i, j :: 0 <= i < j < |ts| ==> ts[i].term != ts[j].term
    ensures WellFormed(Drawing(ts))
  {
    DrawingPins(ts);
    forall i, j | 0 <= i < j < |ts|
      ensures TermPins(ts)[i].name != TermPins(ts)[j].name
    {
      LabelDiffers(ts[i].term, ts[j].term);
    }
  }

  lemma SameDrawingInstances(ts: seq<Term>, us: seq<Term>)
    ensures SameInstances(Drawing(ts), Drawing(us))
  {
    var a, b := Drawing(ts), Drawing(us);
    assert a.instances[0] in a.instances && b.instances[0] in b.instances;
  }

  /** With one instance the diff is its terminal part. */
  lemma DrawingDiff(ts: seq<Term>, us: seq<Term>)
    requires WellFormed(Drawing(ts)) && WellFormed(Drawing(us)) && SameCanon(TermPins(ts), TermPins(us))
    ensures Diffs(Drawing(ts), Drawing(us)) == []
  {
    hide SameCanon, PinDiffs, InstDiffs, AddedDiffs, DistinctPins, Pins, SameInstances;
    DrawingPins(ts);
    DrawingPins(us);
    SameDrawingInstances(ts, us);
    InstancePart(Drawing(ts), Drawing(us));
    PinPart(TermPins(ts), TermPins(us));
  }

  lemma AutoNames()
    ensures AutoNet("net1") && AutoNet("net2")
    ensures forall n: string :: n != "" && n[0] != 'n' ==> !AutoNet(n)
  {
    assert "net1"[..3] == "net" && "net2"[..3] == "net";
    forall n: string | n != "" && n[0] != 'n'
      ensures !AutoNet(n)
    {
      if |n| > 3 {
        assert n[..3][0] != "net"[0];
      }
    }
  }

  // ---- a named net spelled like a canonical form ----

  lemma TildePins(pa: seq<Pin>, pb: seq<Pin>)
    requires pa == [Pin("I.a", Some("~I.a"))] && pb == [Pin("I.a", Some("net1"))]
    ensures SameTerminals(pa, pb) && SameCanon(pa, pb) && !Kinds(pa, pb)
  {
    AutoNames();
    assert pa[0].name == "I.a" && pb[0].name == "I.a";
    assert OnNet(pa, "I.a", "~I.a") && OnNet(pb, "I.a", "net1");
    assert pb[..0] == [];
    assert Members(pb, "net1") == ["I.a"];
    assert Sort(["I.a"]) == ["I.a"] by { assert ["I.a"][1..] == []; }
    assert Canon(pb, "net1") == "~" + "I.a" == "~I.a";
    assert forall l :: HasPin(pa, l) <==> l == "I.a";
    assert forall l :: HasPin(pb, l) <==> l == "I.a";
  }

  /** The named net "~I.a" is taken for the auto net that holds I.a alone, so the diff is empty although I.a
      changed kind and no renaming exists. */
  lemma LeadingTildeFools()
    ensures var a, b := Drawing([Term("a", Some("~I.a"))]), Drawing([Term("a", Some("net1"))]);
            && WellFormed(a) && WellFormed(b) && SameTerminals(Pins(a), Pins(b)) && SameInstances(a, b)
            && Diffs(a, b) == [] && !Kinds(Pins(a), Pins(b))
            && !exists f :: IsRenaming(f, Pins(a), Pins(b))
  {
    hide CanonOf, IsRenaming, Kinds, Legible, SameTerminals, WellFormed, SameInstances, Diffs;
    var ts, us := [Term("a", Some("~I.a"))], [Term("a", Some("net1"))];
    DrawingPins(ts);
    DrawingPins(us);
    DrawingWellFormed(ts);
    DrawingWellFormed(us);
    SameDrawingInstances(ts, us);
    assert Label("I", "a") == "I.a";
    assert TermPins(ts) == [Pin("I.a", Some("~I.a"))] && TermPins(us) == [Pin("I.a", Some("net1"))];
    TildePins(TermPins(ts), TermPins(us));
    DrawingDiff(ts, us);
    DiffEmptyIff(Drawing(ts), Drawing(us));
  }

  // ---- a terminal that is no longer listed ----

  lemma LostPins(pa: seq<Pin>, pb: seq<Pin>)
    requires pa == [Pin(Label("I", "a"), Some("vdd")), Pin(Label("I", "b"), Some("vdd"))]
    requires pb == [Pin(Label("I", "a"), Some("vdd"))] && Label("I", "a") != Label("I", "b")
    ensures HasPin(pa, Label("I", "b")) && !HasPin(pb, Label("I", "b")) && SameCanon(pa, pb)
  {
    hide Label;
    AutoNames();
    assert pa[1].name == Label("I", "b");
    FindPinIn(pa, Label("I", "a"));
    forall l | HasPin(pa, l) && HasPin(pb, l)
      ensures CanonOf(pa, NetOf(pa, l)) == CanonOf(pb, NetOf(pb, l))
    {
      assert l == Label("I", "a");
      assert NetOf(pa, l) == Some("vdd") && NetOf(pb, l) == Some("vdd");
    }
  }

  /** A terminal on a named net that B no longer lists: nothing is reported. */
  lemma LostTerminalUnseen()
    ensures var a, b := Drawing([Term("a", Some("vdd")), Term("b", Some("vdd"))]), Drawing([Term("a", Some("vdd"))]);
            && WellFormed(a) && WellFormed(b) && SameInstances(a, b)
            && HasPin(Pins(a), Label("I", "b")) && !HasPin(Pins(b), Label("I", "b")) && Diffs(a, b) == []
  {
    hide WellFormed, SameInstances, Diffs, AutoNet;
    var ts, us := [Term("a", Some("vdd")), Term("b", Some("vdd"))], [Term("a", Some("vdd"))];
    DrawingPins(ts);
    DrawingPins(us);
    DrawingWellFormed(ts);
    DrawingWellFormed(us);
    SameDrawingInstances(ts, us);
    AutoNames();
    LabelDiffers("a", "b");
    LostPins(TermPins(ts), TermPins(us));
    DrawingDiff(ts, us);
  }

  // ---- terminal names that hold the separator ----

  lemma {:induction false} SortSortedIs(s: seq<string>)
    requires Sorted(s)
    ensures Sort(s) == s
  {
    hide Leq;
    if s == [] {
    } else {
      SortSortedIs(s[1..]);
      assert [s[0]] + s[1..] == s;
    }
  }

  /** The canonical form of an auto net whose members, in order, are these. */
  lemma CanonOfMembers(pins: seq<Pin>, n: string, ms: seq<string>)
    requires DistinctPins(pins) && AutoNet(n) && Sorted(ms) && Distinct(ms)
    requires forall l :: OnNet(pins, l, n) <==> l in ms
    ensures Canon(pins, n) == "~" + Join(ms, '|')
  {
    hide OnNet, Sort, Join, Members, AutoNet, Sorted, Leq;
    MembersDistinct(pins, n);
    forall l ensures l in Members(pins, n) <==> OnNet(pins, l, n) { MembersIff(pins, n, l); }
    SortCanonicalSet(Members(pins, n), ms);
    SortSortedIs(ms);
  }

  /** "I." before names whose first characters ascend. */
  ghost predicate Ascending(ms: seq<string>) {
    && (forall k :: 0 <= k < |ms| ==> |ms[k]| > 2 && ms[k][0] == 'I' && ms[k][1] == '.')
    && forall i, j :: 0 <= i < j < |ms| ==> ms[i][2] < ms[j][2]
  }

  lemma LeqAtThird(a: string, b: string)
    requires |a| > 2 && |b| > 2 && a[0] == b[0] && a[1] == b[1] && a[2] < b[2]
    ensures Leq(a, b)
  {
    assert a[1..][1..] == a[2..] && b[1..][1..] == b[2..];
    assert Leq(a[2..], b[2..]);
    assert Leq(a[1..], b[1..]);
  }

  lemma AscendingSorted(ms: seq<string>)
    requires Ascending(ms)
    ensures Sorted(ms) && Distinct(ms)
  {
    hide Leq;
    forall i, j | 0 <= i < j < |ms|
      ensures Leq(ms[i], ms[j]) && ms[i] != ms[j]
    {
      LeqAtThird(ms[i], ms[j]);
    }
  }

  /** A drawing whose terminals x, y and "x|I.y" are on the given nets. */
  function BarTerms(x: string, xy: string, y: string): seq<Term> {
    [Term("a", Some("net1")), Term("a|I.t", Some("net2")), Term("t", Some("net1")),
     Term("x", Some(x)), Term("x|I.y", Some(xy)), Term("y", Some(y))]
  }

  lemma BarPins(x: string, xy: string, y: string)
    ensures TermPins(BarTerms(x, xy, y)) ==
      [Pin("I.a", Some("net1")), Pin("I.a|I.t", Some("net2")), Pin("I.t", Some("net1")),
       Pin("I.x", Some(x)), Pin("I.x|I.y", Some(xy)), Pin("I.y", Some(y))]
  {
    assert Label("I", "a") == "I.a" && Label("I", "a|I.t") == "I.a|I.t" && Label("I", "t") == "I.t";
    assert Label("I", "x") == "I.x" && Label("I", "x|I.y") == "I.x|I.y" && Label("I", "y") == "I.y";
  }

  lemma BarTermsDiffer(x: string, xy: string, y: string)
    ensures forall i, j :: 0 <= i < j < 6 ==> BarTerms(x, xy, y)[i].term != BarTerms(x, xy, y)[j].term
  {
  }

  lemma BarMembers(pins: seq<Pin>, x: string, xy: string, n1: seq<string>, n2: seq<string>)
    requires pins == TermPins(BarTerms(x, xy, x))
    requires (x == "net1" && xy == "net2") || (x == "net2" && xy == "net1")
    requires n1 == if x == "net1" then ["I.a", "I.t", "I.x", "I.y"] else ["I.a", "I.t", "I.x|I.y"]
    requires n2 == if x == "net1" then ["I.a|I.t", "I.x|I.y"] else ["I.a|I.t", "I.x", "I.y"]
    ensures forall l :: OnNet(pins, l, "net1") <==> l in n1
    ensures forall l :: OnNet(pins, l, "net2") <==> l in n2
  {
    BarPins(x, xy, x);
    assert pins[0] == Pin("I.a", Some("net1")) && pins[1] == Pin("I.a|I.t", Some("net2"));
    assert pins[2] == Pin("I.t", Some("net1")) && pins[3] == Pin("I.x", Some(x));
    assert pins[4] == Pin("I.x|I.y", Some(xy)) && pins[5] == Pin("I.y", Some(x));
  }

  lemma JoinMore(p: string, ps: seq<string>)
    requires ps != []
    ensures Join([p] + ps, '|') == p + "|" + Join(ps, '|')
  {
    assert ([p] + ps)[1..] == ps;
  }

  lemma JoinTwo(p: string, q: string)
    ensures Join([p, q], '|') == p + "|" + q
  {
    JoinMore(p, [q]);
    assert [p] + [q] == [p, q];
  }

  lemma BarTexts()
    ensures "~" + Join(["I.a", "I.t", "I.x", "I.y"], '|') == "~I.a|I.t|I.x|I.y"
    ensures "~" + Join(["I.a", "I.t", "I.x|I.y"], '|') == "~I.a|I.t|I.x|I.y"
    ensures "~" + Join(["I.a|I.t", "I.x", "I.y"], '|') == "~I.a|I.t|I.x|I.y"
    ensures "~" + Join(["I.a|I.t", "I.x|I.y"], '|') == "~I.a|I.t|I.x|I.y"
  {
    JoinTwo("I.x", "I.y");
    JoinTwo("I.a|I.t", "I.x|I.y");
    JoinMore("I.t", ["I.x", "I.y"]);
    JoinTwo("I.t", "I.x|I.y");
    JoinMore("I.a", ["I.t", "I.x", "I.y"]);
    JoinMore("I.a", ["I.t", "I.x|I.y"]);
    JoinMore("I.a|I.t", ["I.x", "I.y"]);
    assert ["I.t"] + ["I.x", "I.y"] == ["I.t", "I.x", "I.y"];
    assert ["I.a"] + ["I.t", "I.x", "I.y"] == ["I.a", "I.t", "I.x", "I.y"];
    assert ["I.a"] + ["I.t", "I.x|I.y"] == ["I.a", "I.t", "I.x|I.y"];
    assert ["I.a|I.t"] + ["I.x", "I.y"] == ["I.a|I.t", "I.x", "I.y"];
  }

  /** Both ways to put the six terminals on two nets read the same. */
  lemma BarCanon(pins: seq<Pin>, x: string, xy: string)
    requires pins == TermPins(BarTerms(x, xy, x)) && DistinctPins(pins)
    requires (x == "net1" && xy == "net2") || (x == "net2" && xy == "net1")
    ensures Canon(pins, "net1") == "~I.a|I.t|I.x|I.y" == Canon(pins, "net2")
  {
    hide Canon, Join, Sorted, AutoNet, DistinctPins;
    AutoNames();
    BarPins(x, xy, x);
    var n1 := if x == "net1" then ["I.a", "I.t", "I.x", "I.y"] else ["I.a", "I.t", "I.x|I.y"];
    var n2 := if x == "net1" then ["I.a|I.t", "I.x|I.y"] else ["I.a|I.t", "I.x", "I.y"];
    AscendingSorted(n1);
    AscendingSorted(n2);
    BarMembers(pins, x, xy, n1, n2);
    CanonOfMembers(pins, "net1", n1);
    CanonOfMembers(pins, "net2", n2);
    BarTexts();
  }

  lemma BarAttached(pins: seq<Pin>, x: string, xy: string, l: string)
    requires pins == TermPins(BarTerms(x, xy, x)) && DistinctPins(pins) && HasPin(pins, l)
    requires (x == "net1" && xy == "net2") || (x == "net2" && xy == "net1")
    ensures NetOf(pins, l) == Some("net1") || NetOf(pins, l) == Some("net2")
  {
    hide FindPin;
    BarPins(x, xy, x);
    var k :| 0 <= k < |pins| && pins[k].name == l;
    FindPinAt(pins, k);
  }

  lemma BarSameTerminals(pa: seq<Pin>, pb: seq<Pin>)
    requires |pa| == |pb| && forall k :: 0 <= k < |pa| ==> pa[k].name == pb[k].name
    ensures SameTerminals(pa, pb)
  {
    forall l
      ensures HasPin(pa, l) <==> HasPin(pb, l)
    {
      if k :| 0 <= k < |pa| && pa[k].name == l { assert pb[k].name == l; }
      if k :| 0 <= k < |pb| && pb[k].name == l { assert pa[k].name == l; }
    }
  }

  lemma BarKinds(pa: seq<Pin>, pb: seq<Pin>)
    requires pa == TermPins(BarTerms("net2", "net1", "net2")) && pb == TermPins(BarTerms("net1", "net2", "net1"))
    requires DistinctPins(pa) && DistinctPins(pb)
    ensures Kinds(pa, pb) && SameCanon(pa, pb)
  {
    hide Canon, AutoNet, DistinctPins, NetOf, OnNet, HasPin, TermPins, BarTerms;
    AutoNames();
    BarCanon(pa, "net2", "net1");
    BarCanon(pb, "net1", "net2");
    forall l, n, m | OnNet(pa, l, n) && OnNet(pb, l, m)
      ensures AutoNet(n) <==> AutoNet(m)
    {
      OnNetPin(pa, l, n);
      OnNetPin(pb, l, m);
      BarAttached(pa, "net2", "net1", l);
      BarAttached(pb, "net1", "net2", l);
    }
    forall l | HasPin(pa, l) && HasPin(pb, l)
      ensures CanonOf(pa, NetOf(pa, l)) == CanonOf(pb, NetOf(pb, l))
    {
      BarAttached(pa, "net2", "net1", l);
      BarAttached(pb, "net1", "net2", l);
    }
  }

  lemma BarIllegible(pa: seq<Pin>, pb: seq<Pin>)
    requires pa == TermPins(BarTerms("net2", "net1", "net2")) && pb == TermPins(BarTerms("net1", "net2", "net1"))
    requires DistinctPins(pa) && DistinctPins(pb)
    ensures !Legible(pa, pb)
  {
    hide Canon, AutoNet, OnNet, DistinctPins, TermPins, BarTerms;
    AutoNames();
    BarCanon(pa, "net2", "net1");
    BarCanon(pb, "net1", "net2");
    BarMembers(pa, "net2", "net1", ["I.a", "I.t", "I.x|I.y"], ["I.a|I.t", "I.x", "I.y"]);
    BarMembers(pb, "net1", "net2", ["I.a", "I.t", "I.x", "I.y"], ["I.a|I.t", "I.x|I.y"]);
    assert OnNet(pa, "I.a", "net1") && OnNet(pb, "I.a", "net1");
    assert OnNet(pb, "I.y", "net1") && !OnNet(pa, "I.y", "net1");
  }

  /** One instance whose terminal names hold the separator: x, y and "x|I.y" move between the two auto nets, every
      canonical form stays "~I.a|I.t|I.x|I.y", and the diff is empty although no renaming exists. */
  lemma BarFools()
    ensures var a, b := Drawing(BarTerms("net2", "net1", "net2")), Drawing(BarTerms("net1", "net2", "net1"));
            && WellFormed(a) && WellFormed(b) && SameTerminals(Pins(a), Pins(b)) && SameInstances(a, b)
            && Kinds(Pins(a), Pins(b)) && Diffs(a, b) == [] && !Legible(Pins(a), Pins(b))
            && !exists f :: IsRenaming(f, Pins(a), Pins(b))
  {
    hide IsRenaming, Kinds, Legible, SameTerminals, DistinctPins, SameInstances, Diffs, SameCanon, Pins;
    var ts, us := BarTerms("net2", "net1", "net2"), BarTerms("net1", "net2", "net1");
    DrawingPins(ts);
    DrawingPins(us);
    BarTermsDiffer("net2", "net1", "net2");
    BarTermsDiffer("net1", "net2", "net1");
    DrawingWellFormed(ts);
    DrawingWellFormed(us);
    SameDrawingInstances(ts, us);
    BarSameTerminals(TermPins(ts), TermPins(us));
    BarKinds(TermPins(ts), TermPins(us));
    BarIllegible(TermPins(ts), TermPins(us));
    DrawingDiff(ts, us);
    DiffEmptyIff(Drawing(ts), Drawing(us));
  }

  // ---- a rename that is not reported ----

  lemma FirstNets(pb: seq<Pin>)
    requires pb == [Pin("I.a", Some("net1")), Pin("I.b", Some("~I.a"))]
    ensures FirstLike(pb, "net1", "~I.a")
  {
    AutoNames();
    assert pb[..1] == [pb[0]] && pb[..1][..0] == [];
    assert Nets(pb[..1]) == ["net1"];
    assert Members(pb[..1][..0], "net1") == [];
    assert Members(pb[..1], "net1") == ["I.a"];
    assert "~I.a" != "net1" by { assert "~I.a"[0] != "net1"[0]; }
    assert Nets(pb) == ["~I.a", "net1"];
    assert Members(pb, "net1") == ["I.a"];
    assert Sort(["I.a"]) == ["I.a"] by { assert ["I.a"][1..] == []; }
    assert Canon(pb, "net1") == "~" + "I.a" == "~I.a";
    assert Nets(pb)[0] == "~I.a" && Canon(pb, "~I.a") == "~I.a";
  }

  lemma RenumberedTwo(pa: seq<Pin>, pb: seq<Pin>)
    requires pa == [Pin("I.a", Some("net2")), Pin("I.b", Some("~I.a"))] && DistinctPins(pa)
    requires pb == [Pin("I.a", Some("net1")), Pin("I.b", Some("~I.a"))]
    ensures SameTerminals(pa, pb) && IsRenaming(map["net2" := "net1"], pa, pb)
  {
    hide SameTerminals, IsRenaming, HasPin, DistinctPins, AutoNet;
    AutoNames();
    var g := map["net2" := "net1"];
    forall n
      ensures n in g <==> AutoNet(n) && Uses(pa, n)
    {
      if Uses(pa, n) {
        var l :| OnNet(pa, l, n);
      }
      assert OnNet(pa, "I.a", "net2") by { assert pa[0] == Pin("I.a", Some("net2")); }
    }
    RenumberedPins(pa, pb, g);
  }

  /** A is renamed net2 to net1, but the named net "~I.a" of B, found later and so listed first, takes net1's
      place in the search: the rename is not reported and does not carry A's nets to B's. */
  lemma ShadowedRenameLost()
    ensures var a := Drawing([Term("a", Some("net2")), Term("b", Some("~I.a"))]);
            var b := Drawing([Term("a", Some("net1")), Term("b", Some("~I.a"))]);
            && WellFormed(a) && WellFormed(b) && SameTerminals(Pins(a), Pins(b))
            && IsRenaming(map["net2" := "net1"], Pins(a), Pins(b)) && !Found(Pins(b), map["net2" := "net1"])
            && AutoRename("net2", "net1") !in Renames(a, b)
  {
    hide SameTerminals, IsRenaming, FirstLike, Renames, DistinctPins, Pins, AutoNet;
    var ts := [Term("a", Some("net2")), Term("b", Some("~I.a"))];
    var us := [Term("a", Some("net1")), Term("b", Some("~I.a"))];
    DrawingPins(ts);
    DrawingPins(us);
    DrawingWellFormed(ts);
    DrawingWellFormed(us);
    assert Label("I", "a") == "I.a" && Label("I", "b") == "I.b";
    assert TermPins(ts) == [Pin("I.a", Some("net2")), Pin("I.b", Some("~I.a"))];
    assert TermPins(us) == [Pin("I.a", Some("net1")), Pin("I.b", Some("~I.a"))];
    RenumberedTwo(TermPins(ts), TermPins(us));
    FirstNets(TermPins(us));
    AutoNames();
    var f := map["net2" := "net1"];
    assert "net1" != "~I.a" by { assert "~I.a"[0] != "net1"[0]; }
    assert f["net2"] == "net1" && "net1" != "net2" by { assert "net1"[3] != "net2"[3]; }
    RenamesExact(Drawing(ts), Drawing(us), f, "net2", "net1");
    if FirstLike(TermPins(us), "net1", "net1") {
      FirstLikeUnique(TermPins(us), "net1", "net1", "~I.a");
    }
  }
}
