/** What every record of the connectivity diff says, in terms of the two snapshots
    (skill/vfp_connectivity.il). */
module DiffRecords {
  import opened Text
  import opened Connectivity
  import opened Renaming
  import opened Reconcile

  ghost predicate HasInstance(s: Snapshot, name: string) {
    exists i :: 0 <= i < |s.instances| && s.instances[i].name == name
  }

  // ---- the three parts ----

  lemma {:induction false} InstDiffsIff(xs: seq<Inst>, b: seq<Inst>, d: Diff)
    ensures d in InstDiffs(xs, b) <==> exists r :: r in xs && d in InstDiff(r, b)
  {
    hide InstDiff;
    if xs == [] {
    } else {
      var k := |xs| - 1;
      InstDiffsIff(xs[..k], b, d);
      assert xs == xs[..k] + [xs[k]];
    }
  }

  lemma {:induction false} AddedDiffsIff(xs: seq<Inst>, a: seq<Inst>, d: Diff)
    ensures d in AddedDiffs(xs, a) <==> exists r :: r in xs && d in AddedDiff(r, a)
  {
    hide AddedDiff;
    if xs == [] {
    } else {
      var k := |xs| - 1;
      AddedDiffsIff(xs[..k], a, d);
      assert xs == xs[..k] + [xs[k]];
    }
  }

  lemma {:induction false} PinDiffsIff(ps: seq<Pin>, pa: seq<Pin>, pb: seq<Pin>, d: Diff)
    ensures d in PinDiffs(ps, pa, pb) <==> exists p :: p in ps && d in PinDiff(p, pa, pb)
  {
    hide PinDiff;
    if ps == [] {
    } else {
      var k := |ps| - 1;
      PinDiffsIff(ps[..k], pa, pb, d);
      assert ps == ps[..k] + [ps[k]];
    }
  }

  /** The parts do not share a kind of record. */
  lemma DiffsIff(a: Snapshot, b: Snapshot, d: Diff)
    ensures d.InstRemoved? || d.MasterChanged? ==> (d in Diffs(a, b) <==> d in InstDiffs(a.instances, b.instances))
    ensures d.InstAdded? ==> (d in Diffs(a, b) <==> d in AddedDiffs(b.instances, a.instances))
    ensures d.NetChanged? ==> (d in Diffs(a, b) <==> d in PinDiffs(Pins(a), Pins(a), Pins(b)))
  {
    hide InstDiffs, AddedDiffs, PinDiffs;
    InstDiffsIff(a.instances, b.instances, d);
    AddedDiffsIff(b.instances, a.instances, d);
    PinDiffsIff(Pins(a), Pins(a), Pins(b), d);
  }

  // ---- instance records ----

  lemma FindInstIff(s: Snapshot, name: string)
    ensures FindInst(s.instances, name).Some? <==> HasInstance(s, name)
  {
    FindInstIn(s.instances, name);
    if HasInstance(s, name) {
      var i :| 0 <= i < |s.instances| && s.instances[i].name == name;
      assert s.instances[i] in s.instances;
    }
    if FindInst(s.instances, name).Some? {
      var i :| 0 <= i < |s.instances| && s.instances[i] == FindInst(s.instances, name).value;
    }
  }

  /** An instance is reported removed when only A has it and added when only B has it. */
  lemma RemovedIff(a: Snapshot, b: Snapshot, name: string)
    ensures InstRemoved(name) in Diffs(a, b) <==> HasInstance(a, name) && !HasInstance(b, name)
    ensures InstAdded(name) in Diffs(a, b) <==> HasInstance(b, name) && !HasInstance(a, name)
  {
    hide Diffs, InstDiffs, AddedDiffs, FindInst;
    DiffsIff(a, b, InstRemoved(name));
    DiffsIff(a, b, InstAdded(name));
    InstDiffsIff(a.instances, b.instances, InstRemoved(name));
    AddedDiffsIff(b.instances, a.instances, InstAdded(name));
    FindInstIff(a, name);
    FindInstIff(b, name);
    if HasInstance(a, name) && !HasInstance(b, name) {
      var i :| 0 <= i < |a.instances| && a.instances[i].name == name;
      assert a.instances[i] in a.instances && InstRemoved(name) in InstDiff(a.instances[i], b.instances);
    }
    if HasInstance(b, name) && !HasInstance(a, name) {
      var i :| 0 <= i < |b.instances| && b.instances[i].name == name;
      assert b.instances[i] in b.instances && InstAdded(name) in AddedDiff(b.instances[i], a.instances);
    }
  }

  /** A changed master is reported with A's master first and B's second. */
  lemma MasterChangedIff(a: Snapshot, b: Snapshot, name: string, m: string, m': string)
    requires DistinctNames(a.instances) && DistinctNames(b.instances)
    ensures MasterChanged(name, m, m') in Diffs(a, b) <==>
      Listed(a.instances, name, m) && Listed(b.instances, name, m') && m != m'
  {
    hide Diffs, InstDiffs, FindInst;
    var d := MasterChanged(name, m, m');
    DiffsIff(a, b, d);
    InstDiffsIff(a.instances, b.instances, d);
    FindListed(a.instances, name, m);
    FindListed(b.instances, name, m');
    if Listed(a.instances, name, m) && Listed(b.instances, name, m') && m != m' {
      var r :| r in a.instances && r.name == name && r.master == m;
      assert d in InstDiff(r, b.instances);
    }
    if d in InstDiffs(a.instances, b.instances) {
      var r :| r in a.instances && d in InstDiff(r, b.instances);
      assert r.name == name && r.master == m;
    }
  }

  // ---- terminal records ----

  lemma FindPinIff(pins: seq<Pin>, l: string, net: Option<string>)
    requires DistinctPins(pins)
    ensures FindPin(pins, l) == Some(Pin(l, net)) <==> Pin(l, net) in pins
  {
    FindPinIn(pins, l);
    if Pin(l, net) in pins {
      var k :| 0 <= k < |pins| && pins[k] == Pin(l, net);
      FindPinAt(pins, k);
    }
  }

  /** A terminal record names a terminal both snapshots list, with its net in A and its net in B, and these
      have different canonical forms; every such terminal has one. */
  lemma NetChangedIff(a: Snapshot, b: Snapshot, l: string, n: Option<string>, m: Option<string>)
    requires WellFormed(a) && WellFormed(b)
    ensures NetChanged(l, n, m) in Diffs(a, b) <==>
      Attached(a, l, n) && Attached(b, l, m) && CanonOf(Pins(a), n) != CanonOf(Pins(b), m)
  {
    hide Diffs, PinDiffs, Pins, FindPin, CanonOf, Attached;
    var d := NetChanged(l, n, m);
    var pa, pb := Pins(a), Pins(b);
    DiffsIff(a, b, d);
    PinDiffsIff(pa, pa, pb, d);
    PinsIff(a, Pin(l, n));
    PinsIff(b, Pin(l, m));
    FindPinIff(pb, l, m);
    if Pin(l, n) in pa && Pin(l, m) in pb && CanonOf(pa, n) != CanonOf(pb, m) {
      assert d in PinDiff(Pin(l, n), pa, pb);
    }
    if d in PinDiffs(pa, pa, pb) {
      var p :| p in pa && d in PinDiff(p, pa, pb);
      FindPinIn(pb, p.name);
      assert p == Pin(l, n) && FindPin(pb, l).value == Pin(l, m);
    }
  }

  /** A terminal rewired from one named net to another, attached to one or detached from one is reported with
      its two nets, whichever instance it belongs to. */
  lemma RewiringReported(a: Snapshot, b: Snapshot, i: nat, t: nat, j: nat, u: nat)
    requires WellFormed(a) && WellFormed(b)
    requires i < |a.instances| && t < |a.instances[i].terms| && j < |b.instances| && u < |b.instances[j].terms|
    requires a.instances[i].name == b.instances[j].name
    requires a.instances[i].terms[t].term == b.instances[j].terms[u].term
    requires var n, m := a.instances[i].terms[t].net, b.instances[j].terms[u].net;
             n != m && (n.Some? && m.Some? ==> !AutoNet(n.value) && !AutoNet(m.value))
    ensures NetChanged(a.instances[i].name + "." + a.instances[i].terms[t].term,
                       a.instances[i].terms[t].net, b.instances[j].terms[u].net) in Diffs(a, b)
  {
    hide Diffs, Pins, AutoNet;
    var l := a.instances[i].name + "." + a.instances[i].terms[t].term;
    var n, m := a.instances[i].terms[t].net, b.instances[j].terms[u].net;
    assert Attached(a, l, n) && Attached(b, l, m);
    NetChangedIff(a, b, l, n, m);
  }

  // ---- order ----

  function Rank(d: Diff): nat {
    match d
    case InstRemoved(_) => 0
    case MasterChanged(_, _, _) => 0
    case InstAdded(_) => 1
    case NetChanged(_, _, _) => 2
  }

  /** Instances removed or changed come first, then those added, then terminals. */
  lemma DiffsOrdered(a: Snapshot, b: Snapshot)
    ensures forall i, j :: 0 <= i < j < |Diffs(a, b)| ==> Rank(Diffs(a, b)[i]) <= Rank(Diffs(a, b)[j])
  {
    hide InstDiffs, AddedDiffs, PinDiffs, Pins;
    var x, y := InstDiffs(a.instances, b.instances), AddedDiffs(b.instances, a.instances);
    var z := PinDiffs(Pins(a), Pins(a), Pins(b));
    forall d ensures d in x ==> Rank(d) == 0 { InstDiffsIff(a.instances, b.instances, d); }
    forall d ensures d in y ==> Rank(d) == 1 { AddedDiffsIff(b.instances, a.instances, d); }
    forall d ensures d in z ==> Rank(d) == 2 { PinDiffsIff(Pins(a), Pins(a), Pins(b), d); }
    assert forall i :: 0 <= i < |x| ==> x[i] in x;
    assert forall i :: 0 <= i < |y| ==> y[i] in y;
    assert forall i :: 0 <= i < |z| ==> z[i] in z;
  }
}
