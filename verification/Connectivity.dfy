/** Connectivity snapshots and their structural diff (skill/vfp_connectivity.il). */
module Connectivity {
  import opened Text

  datatype Term = Term(term: string, net: Option<string>)
  datatype Inst = Inst(name: string, master: string, terms: seq<Term>)
  datatype Snapshot = Snapshot(cellview: string, instances: seq<Inst>, named: seq<string>, auto: seq<string>)

  /** An entry of the flat terminal map: "inst.term" and its net, None when floating. */
  datatype Pin = Pin(name: string, net: Option<string>)

  datatype Entry = Entry(net: string, members: seq<string>)
  datatype Canonical = Canonical(raw: string, canon: string)

  datatype Diff =
    | InstRemoved(name: string)
    | InstAdded(name: string)
    | MasterChanged(name: string, a: string, b: string)
    | NetChanged(pin: string, before: Option<string>, after: Option<string>)

  /** ^net[0-9]+$ */
  predicate AutoNet(n: string) {
    |n| > 3 && n[..3] == "net" && forall i :: 3 <= i < |n| ==> '0' <= n[i] <= '9'
  }

  /** An auto name is "net" and then digits only, at least one. */
  lemma AutoNetIff(n: string)
    ensures AutoNet(n) <==> exists d :: AllDigits(d) && n == "net" + d
  {
    if AutoNet(n) {
      assert AllDigits(n[3..]) && n == "net" + n[3..];
    }
    if d :| AllDigits(d) && n == "net" + d {
      assert n[..3] == "net" && n[3..] == d;
      assert forall i :: 3 <= i < |n| ==> n[i] == d[i - 3];
    }
  }

  // ---- the flat terminal map ----

  function Label(inst: string, term: string): string {
    inst + "." + term
  }

  function InstPins(i: Inst): (ps: seq<Pin>)
    ensures |ps| == |i.terms|
    ensures forall k :: 0 <= k < |ps| ==> ps[k] == Pin(Label(i.name, i.terms[k].term), i.terms[k].net)
  {
    seq(|i.terms|, k requires 0 <= k < |i.terms| => Pin(Label(i.name, i.terms[k].term), i.terms[k].net))
  }

  function PinsOf(insts: seq<Inst>): seq<Pin> {
    if insts == [] then [] else PinsOf(insts[..|insts| - 1]) + InstPins(insts[|insts| - 1])
  }

  function Pins(s: Snapshot): seq<Pin> {
    PinsOf(s.instances)
  }

  function TermTotal(insts: seq<Inst>): nat {
    if insts == [] then 0 else |insts[0].terms| + TermTotal(insts[1..])
  }

  /** Some instance of the snapshot lists a terminal of this full name on this net, or floating. */
  ghost predicate Attached(s: Snapshot, l: string, net: Option<string>) {
    exists i, t :: 0 <= i < |s.instances| && 0 <= t < |s.instances[i].terms|
      && l == s.instances[i].name + "." + s.instances[i].terms[t].term && net == s.instances[i].terms[t].net
  }

  lemma {:induction false} PinsOfConcat(xs: seq<Inst>, ys: seq<Inst>)
    ensures PinsOf(xs + ys) == PinsOf(xs) + PinsOf(ys)
  {
    hide InstPins;
    if ys == [] {
      assert xs + ys == xs;
    } else {
      var k := |ys| - 1;
      assert (xs + ys)[..|xs + ys| - 1] == xs + ys[..k];
      PinsOfConcat(xs, ys[..k]);
      assert (xs + ys)[|xs + ys| - 1] == ys[k];
      assert PinsOf(xs) + PinsOf(ys[..k]) + InstPins(ys[k]) == PinsOf(xs) + (PinsOf(ys[..k]) + InstPins(ys[k]));
    }
  }

  lemma PinsOfOne(i: Inst)
    ensures PinsOf([i]) == InstPins(i)
  {
    assert [i][..0] == [];
  }

  lemma {:induction false} PinsOfLength(xs: seq<Inst>)
    ensures |PinsOf(xs)| == TermTotal(xs)
  {
    if xs == [] {
    } else {
      assert xs == [xs[0]] + xs[1..];
      PinsOfConcat([xs[0]], xs[1..]);
      PinsOfOne(xs[0]);
      PinsOfLength(xs[1..]);
    }
  }

  lemma PinsOfAt(xs: seq<Inst>, i: nat, t: nat)
    requires i < |xs| && t < |xs[i].terms|
    ensures Pin(xs[i].name + "." + xs[i].terms[t].term, xs[i].terms[t].net) in PinsOf(xs)
  {
    assert xs == xs[..i] + ([xs[i]] + xs[i + 1..]);
    PinsOfConcat(xs[..i], [xs[i]] + xs[i + 1..]);
    PinsOfConcat([xs[i]], xs[i + 1..]);
    PinsOfOne(xs[i]);
    assert InstPins(xs[i])[t] in InstPins(xs[i]);
  }

  lemma {:induction false} PinSource(xs: seq<Inst>, p: Pin)
    requires p in PinsOf(xs)
    ensures exists i, t :: 0 <= i < |xs| && 0 <= t < |xs[i].terms|
              && p == Pin(xs[i].name + "." + xs[i].terms[t].term, xs[i].terms[t].net)
  {
    var n := |xs| - 1;
    if p in PinsOf(xs[..n]) {
      PinSource(xs[..n], p);
      var i, t :| 0 <= i < n && 0 <= t < |xs[..n][i].terms|
               && p == Pin(xs[..n][i].name + "." + xs[..n][i].terms[t].term, xs[..n][i].terms[t].net);
      assert xs[..n][i] == xs[i];
    } else {
      var t :| 0 <= t < |InstPins(xs[n])| && InstPins(xs[n])[t] == p;
    }
  }

  /** The terminal map holds the terminals of all instances and nothing else. */
  lemma PinsIff(s: Snapshot, p: Pin)
    ensures p in Pins(s) <==> Attached(s, p.name, p.net)
  {
    if p in Pins(s) {
      PinSource(s.instances, p);
    }
    if Attached(s, p.name, p.net) {
      var i, t :| 0 <= i < |s.instances| && 0 <= t < |s.instances[i].terms|
               && p.name == s.instances[i].name + "." + s.instances[i].terms[t].term
               && p.net == s.instances[i].terms[t].net;
      PinsOfAt(s.instances, i, t);
    }
  }

  /** Lines 95-105: an entry for every terminal of every instance. */
  method TermMap(s: Snapshot) returns (out: seq<Pin>)
    ensures out == Pins(s) && |out| == TermTotal(s.instances)
    ensures forall p :: p in out <==> Attached(s, p.name, p.net)
  {
    out := [];
    for i := 0 to |s.instances|
      invariant out == PinsOf(s.instances[..i])
    {
      var r := s.instances[i];
      for k := 0 to |r.terms|
        invariant out == PinsOf(s.instances[..i]) + InstPins(r)[..k]
      {
        out := out + [Pin(Label(r.name, r.terms[k].term), r.terms[k].net)];
      }
      assert s.instances[..i + 1][..i] == s.instances[..i];
    }
    assert s.instances[..|s.instances|] == s.instances;
    PinsOfLength(s.instances);
    forall p ensures p in out <==> Attached(s, p.name, p.net) { PinsIff(s, p); }
  }

  // ---- nets as member lists ----

  /** The terminals on a net, the latest first. */
  function Members(pins: seq<Pin>, n: string): seq<string> {
    if pins == [] then [] else
    var k := |pins| - 1;
    if pins[k].net == Some(n) then [pins[k].name] + Members(pins[..k], n) else Members(pins[..k], n)
  }

  /** The nets that carry a terminal, the latest discovered first. */
  function Nets(pins: seq<Pin>): seq<string> {
    if pins == [] then [] else
    var k := |pins| - 1;
    var ns := Nets(pins[..k]);
    if pins[k].net.None? || pins[k].net.value in ns then ns else [pins[k].net.value] + ns
  }

  function Entries(pins: seq<Pin>): (es: seq<Entry>)
    ensures |es| == |Nets(pins)|
    ensures forall i :: 0 <= i < |es| ==> es[i] == Entry(Nets(pins)[i], Members(pins, Nets(pins)[i]))
  {
    seq(|Nets(pins)|, i requires 0 <= i < |Nets(pins)| => Entry(Nets(pins)[i], Members(pins, Nets(pins)[i])))
  }

  lemma {:induction false} NetsUsed(pins: seq<Pin>, n: string)
    ensures n in Nets(pins) <==> exists k :: 0 <= k < |pins| && pins[k].net == Some(n)
  {
    if pins == [] {
    } else {
      var k := |pins| - 1;
      NetsUsed(pins[..k], n);
      if n in Nets(pins[..k]) {
        var i :| 0 <= i < k && pins[..k][i].net == Some(n);
        assert pins[i].net == Some(n);
      }
      if i :| 0 <= i < |pins| && pins[i].net == Some(n) {
        if i < k {
          assert pins[..k][i].net == Some(n);
        }
      }
    }
  }

  lemma {:induction false} NetsDistinct(pins: seq<Pin>)
    ensures Distinct(Nets(pins))
  {
    if pins == [] {
    } else {
      NetsDistinct(pins[..|pins| - 1]);
    }
  }

  lemma {:induction false} NoMembers(pins: seq<Pin>, n: string)
    requires n !in Nets(pins)
    ensures Members(pins, n) == []
  {
    if pins == [] {
    } else {
      NoMembers(pins[..|pins| - 1], n);
    }
  }

  lemma EntriesStep(pins: seq<Pin>, p: Pin)
    ensures p.net.None? ==> Entries(pins + [p]) == Entries(pins)
    ensures p.net.Some? && p.net.value !in Nets(pins) ==>
      Entries(pins + [p]) == [Entry(p.net.value, [p.name])] + Entries(pins)
    ensures forall i :: p.net.Some? && 0 <= i < |Nets(pins)| && Nets(pins)[i] == p.net.value ==>
      Entries(pins + [p]) == Entries(pins)[i := Entry(p.net.value, [p.name] + Entries(pins)[i].members)]
  {
    var all := pins + [p];
    assert all[..|pins|] == pins;
    NetsDistinct(pins);
    if p.net.Some? && p.net.value !in Nets(pins) {
      NoMembers(pins, p.net.value);
      assert Nets(all) == [p.net.value] + Nets(pins);
      assert Members(all, p.net.value) == [p.name];
      forall i | 0 <= i < |Nets(pins)|
        ensures Members(all, Nets(pins)[i]) == Members(pins, Nets(pins)[i])
      {
      }
      assert Entries(all) == [Entry(p.net.value, [p.name])] + Entries(pins);
    } else {
      assert Nets(all) == Nets(pins);
    }
  }

  /** Lines 108-122: the entry of a net grows in place. */
  method NetMembers(pins: seq<Pin>) returns (acc: seq<Entry>)
    ensures acc == Entries(pins)
  {
    acc := [];
    for k := 0 to |pins|
      invariant acc == Entries(pins[..k])
    {
      assert pins[..k + 1] == pins[..k] + [pins[k]];
      EntriesStep(pins[..k], pins[k]);
      if pins[k].net.Some? {
        var n := pins[k].net.value;
        var i := 0;
        while i < |acc| && acc[i].net != n
          invariant 0 <= i <= |acc|
          invariant forall j :: 0 <= j < i ==> acc[j].net != n
        {
          i := i + 1;
        }
        if i < |acc| {
          assert Nets(pins[..k])[i] == n;
          acc := acc[i := Entry(n, [pins[k].name] + acc[i].members)];
        } else {
          assert n !in Nets(pins[..k]);
          acc := [Entry(n, [pins[k].name])] + acc;
        }
      }
    }
    assert pins[..|pins|] == pins;
  }

  /** Lines 129-136: a named net stands for itself, an auto net for its sorted members. */
  function Canon(pins: seq<Pin>, n: string): string {
    if AutoNet(n) then "~" + Join(Sort(Members(pins, n)), '|') else n
  }

  function CanonMap(es: seq<Entry>): (cs: seq<Canonical>)
    ensures |cs| == |es|
    ensures forall i :: 0 <= i < |cs| ==>
      cs[i] == Canonical(es[i].net, if AutoNet(es[i].net) then "~" + Join(Sort(es[i].members), '|') else es[i].net)
  {
    seq(|es|, i requires 0 <= i < |es| =>
      Canonical(es[i].net, if AutoNet(es[i].net) then "~" + Join(Sort(es[i].members), '|') else es[i].net))
  }

  function Assoc(cs: seq<Canonical>, n: string): Option<string> {
    if cs == [] then None else if cs[0].raw == n then Some(cs[0].canon) else Assoc(cs[1..], n)
  }

  lemma {:induction false} AssocAt(cs: seq<Canonical>, i: nat)
    requires i < |cs| && forall j :: 0 <= j < i ==> cs[j].raw != cs[i].raw
    ensures Assoc(cs, cs[i].raw) == Some(cs[i].canon)
  {
    if i == 0 {
    } else {
      AssocAt(cs[1..], i - 1);
    }
  }

  /** The canonical form of what a terminal is attached to. */
  function CanonOf(pins: seq<Pin>, net: Option<string>): Option<string> {
    if net.None? then None else Some(Canon(pins, net.value))
  }

  lemma AssocCanon(pins: seq<Pin>, n: string)
    requires n in Nets(pins)
    ensures Assoc(CanonMap(Entries(pins)), n) == Some(Canon(pins, n))
  {
    NetsDistinct(pins);
    var i :| 0 <= i < |Nets(pins)| && Nets(pins)[i] == n;
    var cs := CanonMap(Entries(pins));
    assert cs[i].raw == n;
    AssocAt(cs, i);
  }

  // ---- the diff ----

  function FindInst(insts: seq<Inst>, name: string): Option<Inst> {
    if insts == [] then None else if insts[0].name == name then Some(insts[0]) else FindInst(insts[1..], name)
  }

  function FindPin(pins: seq<Pin>, name: string): Option<Pin> {
    if pins == [] then None else if pins[0].name == name then Some(pins[0]) else FindPin(pins[1..], name)
  }

  function InstDiff(ra: Inst, instsB: seq<Inst>): seq<Diff> {
    match FindInst(instsB, ra.name)
    case None => [InstRemoved(ra.name)]
    case Some(rb) => if ra.master == rb.master then [] else [MasterChanged(ra.name, ra.master, rb.master)]
  }

  function AddedDiff(rb: Inst, instsA: seq<Inst>): seq<Diff> {
    if FindInst(instsA, rb.name).None? then [InstAdded(rb.name)] else []
  }

  function PinDiff(p: Pin, pa: seq<Pin>, pb: seq<Pin>): seq<Diff> {
    match FindPin(pb, p.name)
    case None => []
    case Some(q) =>
      if CanonOf(pa, p.net) == CanonOf(pb, q.net) then [] else [NetChanged(p.name, p.net, q.net)]
  }

  function InstDiffs(xs: seq<Inst>, instsB: seq<Inst>): seq<Diff> {
    if xs == [] then [] else InstDiffs(xs[..|xs| - 1], instsB) + InstDiff(xs[|xs| - 1], instsB)
  }

  function AddedDiffs(bs: seq<Inst>, instsA: seq<Inst>): seq<Diff> {
    if bs == [] then [] else AddedDiffs(bs[..|bs| - 1], instsA) + AddedDiff(bs[|bs| - 1], instsA)
  }

  function PinDiffs(ps: seq<Pin>, pa: seq<Pin>, pb: seq<Pin>): seq<Diff> {
    if ps == [] then [] else PinDiffs(ps[..|ps| - 1], pa, pb) + PinDiff(ps[|ps| - 1], pa, pb)
  }

  function Diffs(a: Snapshot, b: Snapshot): seq<Diff> {
    InstDiffs(a.instances, b.instances) + AddedDiffs(b.instances, a.instances) + PinDiffs(Pins(a), Pins(a), Pins(b))
  }

  /** Lines 153-168: instances removed, changed or added. */
  method InstanceDiff(a: seq<Inst>, b: seq<Inst>) returns (diffs: seq<Diff>)
    ensures diffs == InstDiffs(a, b) + AddedDiffs(b, a)
  {
    diffs := [];
    for i := 0 to |a|
      invariant diffs == InstDiffs(a[..i], b)
    {
      var rb := FindInst(b, a[i].name);
      if rb.None? {
        diffs := diffs + [InstRemoved(a[i].name)];
      } else if a[i].master != rb.value.master {
        diffs := diffs + [MasterChanged(a[i].name, a[i].master, rb.value.master)];
      }
      assert a[..i + 1][..i] == a[..i];
    }
    assert a[..|a|] == a;
    for i := 0 to |b|
      invariant diffs == InstDiffs(a, b) + AddedDiffs(b[..i], a)
    {
      if FindInst(a, b[i].name).None? {
        diffs := diffs + [InstAdded(b[i].name)];
      }
      assert b[..i + 1][..i] == b[..i];
    }
    assert b[..|b|] == b;
  }

  lemma LookupCanon(pins: seq<Pin>, p: Pin)
    requires p in pins
    ensures (if p.net.None? then None else Assoc(CanonMap(Entries(pins)), p.net.value)) == CanonOf(pins, p.net)
  {
    if p.net.Some? {
      var k :| 0 <= k < |pins| && pins[k] == p;
      NetsUsed(pins, p.net.value);
      AssocCanon(pins, p.net.value);
    }
  }

  lemma {:induction false} FindPinIn(pins: seq<Pin>, name: string)
    ensures match FindPin(pins, name)
            case None => forall p :: p in pins ==> p.name != name
            case Some(q) => q in pins && q.name == name
  {
    if pins == [] {
    } else {
      FindPinIn(pins[1..], name);
      assert pins == [pins[0]] + pins[1..];
    }
  }

  /** Lines 169-179: terminals whose canonical net changed. */
  method TerminalDiff(pa: seq<Pin>, pb: seq<Pin>) returns (diffs: seq<Diff>)
    ensures diffs == PinDiffs(pa, pa, pb)
  {
    hide Entries, CanonMap, Assoc, CanonOf;
    var ea := NetMembers(pa);
    var eb := NetMembers(pb);
    var canonA, canonB := CanonMap(ea), CanonMap(eb);
    diffs := [];
    for i := 0 to |pa|
      invariant diffs == PinDiffs(pa[..i], pa, pb)
    {
      var q := FindPin(pb, pa[i].name);
      if q.Some? {
        var ca := if pa[i].net.None? then None else Assoc(canonA, pa[i].net.value);
        var cb := if q.value.net.None? then None else Assoc(canonB, q.value.net.value);
        LookupCanon(pa, pa[i]);
        FindPinIn(pb, pa[i].name);
        LookupCanon(pb, q.value);
        if ca != cb {
          diffs := diffs + [NetChanged(pa[i].name, pa[i].net, q.value.net)];
        }
      }
      assert pa[..i + 1][..i] == pa[..i];
    }
    assert pa[..|pa|] == pa;
  }

  /** Lines 145-182. */
  method ConnectivityDiff(a: Snapshot, b: Snapshot) returns (diffs: seq<Diff>)
    ensures diffs == Diffs(a, b)
  {
    var pa := TermMap(a);
    var pb := TermMap(b);
    diffs := InstanceDiff(a.instances, b.instances);
    var nets := TerminalDiff(pa, pb);
    diffs := diffs + nets;
  }

  lemma {:induction false} FindInstIn(insts: seq<Inst>, name: string)
    ensures match FindInst(insts, name)
            case None => forall p :: p in insts ==> p.name != name
            case Some(q) => q in insts && q.name == name
  {
    if insts == [] {
    } else {
      FindInstIn(insts[1..], name);
      assert insts == [insts[0]] + insts[1..];
    }
  }
}
