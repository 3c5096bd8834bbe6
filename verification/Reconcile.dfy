/** The diff and the auto-net renames of skill/vfp_connectivity.il against renamings. */
module Reconcile {
  import opened Text
  import opened Connectivity
  import opened Renaming

  // ---- when each part of the diff is empty ----

  lemma {:induction false} InstDiffsEmpty(xs: seq<Inst>, b: seq<Inst>)
    ensures InstDiffs(xs, b) == [] <==> forall r :: r in xs ==> InstDiff(r, b) == []
  {
    hide InstDiff;
    if xs == [] {
    } else {
      var k := |xs| - 1;
      InstDiffsEmpty(xs[..k], b);
      assert xs == xs[..k] + [xs[k]];
    }
  }

  lemma {:induction false} AddedDiffsEmpty(xs: seq<Inst>, a: seq<Inst>)
    ensures AddedDiffs(xs, a) == [] <==> forall r :: r in xs ==> AddedDiff(r, a) == []
  {
    hide AddedDiff;
    if xs == [] {
    } else {
      var k := |xs| - 1;
      AddedDiffsEmpty(xs[..k], a);
      assert xs == xs[..k] + [xs[k]];
    }
  }

  lemma {:induction false} PinDiffsEmpty(ps: seq<Pin>, pa: seq<Pin>, pb: seq<Pin>)
    ensures PinDiffs(ps, pa, pb) == [] <==> forall p :: p in ps ==> PinDiff(p, pa, pb) == []
  {
    hide PinDiff;
    if ps == [] {
    } else {
      var k := |ps| - 1;
      PinDiffsEmpty(ps[..k], pa, pb);
      assert ps == ps[..k] + [ps[k]];
    }
  }

  ghost predicate DistinctNames(xs: seq<Inst>) {
    forall i, j :: 0 <= i < j < |xs| ==> xs[i].name != xs[j].name
  }

  ghost predicate Listed(xs: seq<Inst>, name: string, master: string) {
    exists r :: r in xs && r.name == name && r.master == master
  }

  /** The same instances with the same masters, in any order. */
  ghost predicate SameInstances(a: Snapshot, b: Snapshot) {
    forall name, master :: Listed(a.instances, name, master) <==> Listed(b.instances, name, master)
  }

  lemma FindListed(xs: seq<Inst>, name: string, master: string)
    requires DistinctNames(xs)
    ensures Listed(xs, name, master) <==> FindInst(xs, name).Some? && FindInst(xs, name).value.master == master
  {
    FindInstIn(xs, name);
    if Listed(xs, name, master) {
      var r :| r in xs && r.name == name && r.master == master;
      var q := FindInst(xs, name).value;
      assert q == r;
    }
  }

  lemma ListedBoth(a: Snapshot, b: Snapshot, name: string, master: string)
    requires DistinctNames(a.instances) && DistinctNames(b.instances)
    requires forall r :: r in a.instances ==> InstDiff(r, b.instances) == []
    requires forall r :: r in b.instances ==> AddedDiff(r, a.instances) == []
    ensures Listed(a.instances, name, master) <==> Listed(b.instances, name, master)
  {
    FindListed(a.instances, name, master);
    FindListed(b.instances, name, master);
    FindInstIn(a.instances, name);
    FindInstIn(b.instances, name);
    if FindInst(b.instances, name).Some? {
      assert AddedDiff(FindInst(b.instances, name).value, a.instances) == [];
    }
    if FindInst(a.instances, name).Some? {
      assert InstDiff(FindInst(a.instances, name).value, b.instances) == [];
    }
  }

  lemma InstancePart(a: Snapshot, b: Snapshot)
    requires DistinctNames(a.instances) && DistinctNames(b.instances)
    ensures InstDiffs(a.instances, b.instances) == [] && AddedDiffs(b.instances, a.instances) == []
       <==> SameInstances(a, b)
  {
    hide InstDiffs, AddedDiffs, FindInst;
    InstDiffsEmpty(a.instances, b.instances);
    AddedDiffsEmpty(b.instances, a.instances);
    forall name, master
      ensures Listed(a.instances, name, master) <==>
        FindInst(a.instances, name).Some? && FindInst(a.instances, name).value.master == master
      ensures Listed(b.instances, name, master) <==>
        FindInst(b.instances, name).Some? && FindInst(b.instances, name).value.master == master
    {
      FindListed(a.instances, name, master);
      FindListed(b.instances, name, master);
    }
    if SameInstances(a, b) {
      forall r | r in a.instances
        ensures InstDiff(r, b.instances) == []
      {
        assert Listed(a.instances, r.name, r.master);
      }
      forall r | r in b.instances
        ensures AddedDiff(r, a.instances) == []
      {
        assert Listed(b.instances, r.name, r.master);
      }
    }
    if InstDiffs(a.instances, b.instances) == [] && AddedDiffs(b.instances, a.instances) == [] {
      forall name, master
        ensures Listed(a.instances, name, master) <==> Listed(b.instances, name, master)
      {
        ListedBoth(a, b, name, master);
      }
    }
  }

  lemma PinPartAt(pa: seq<Pin>, pb: seq<Pin>, k: nat)
    requires DistinctPins(pa) && DistinctPins(pb) && k < |pa|
    ensures PinDiff(pa[k], pa, pb) == [] <==>
            (HasPin(pb, pa[k].name) ==> CanonOf(pa, NetOf(pa, pa[k].name)) == CanonOf(pb, NetOf(pb, pa[k].name)))
  {
    hide CanonOf;
    FindPinAt(pa, k);
    FindPinIn(pb, pa[k].name);
    if FindPin(pb, pa[k].name).Some? {
      var q := FindPin(pb, pa[k].name).value;
      var i :| 0 <= i < |pb| && pb[i] == q;
    }
  }

  lemma PinPart(pa: seq<Pin>, pb: seq<Pin>)
    requires DistinctPins(pa) && DistinctPins(pb)
    ensures PinDiffs(pa, pa, pb) == [] <==> SameCanon(pa, pb)
  {
    hide CanonOf, PinDiffs;
    PinDiffsEmpty(pa, pa, pb);
    forall k | 0 <= k < |pa|
      ensures PinDiff(pa[k], pa, pb) == [] <==>
              (HasPin(pb, pa[k].name) ==> CanonOf(pa, NetOf(pa, pa[k].name)) == CanonOf(pb, NetOf(pb, pa[k].name)))
    {
      PinPartAt(pa, pb, k);
    }
    if SameCanon(pa, pb) {
      forall p | p in pa
        ensures PinDiff(p, pa, pb) == []
      {
        var k :| 0 <= k < |pa| && pa[k] == p;
        assert HasPin(pa, pa[k].name);
      }
    }
    if PinDiffs(pa, pa, pb) == [] {
      forall l | HasPin(pa, l) && HasPin(pb, l)
        ensures CanonOf(pa, NetOf(pa, l)) == CanonOf(pb, NetOf(pb, l))
      {
        var k :| 0 <= k < |pa| && pa[k].name == l;
        assert pa[k] in pa;
      }
    }
  }

  /** For any two snapshots: the diff is empty, with no shared terminal moved between an auto net and a named
      one and none hidden by nets that read alike, exactly when the instances agree and some one-to-one renaming
      of auto nets turns the one terminal map into the other where they are compared. */
  lemma DiffEmptyIff(a: Snapshot, b: Snapshot)
    requires WellFormed(a) && WellFormed(b)
    ensures Diffs(a, b) == [] && Kinds(Pins(a), Pins(b)) && Legible(Pins(a), Pins(b)) <==>
            SameInstances(a, b) && exists f :: IsRenaming(f, Pins(a), Pins(b))
  {
    hide SameInstances, SameCanon, PinDiffs, InstDiffs, AddedDiffs, IsRenaming, Pins, Kinds, Legible;
    InstancePart(a, b);
    PinPart(Pins(a), Pins(b));
    if SameCanon(Pins(a), Pins(b)) && Kinds(Pins(a), Pins(b)) && Legible(Pins(a), Pins(b)) {
      var f := AgreeGivesRenaming(Pins(a), Pins(b));
    }
    if f :| IsRenaming(f, Pins(a), Pins(b)) {
      RenamingAgrees(Pins(a), Pins(b), f);
    }
  }

  /** A terminal that B no longer lists shows in the diff when its auto net still carries one B lists. */
  lemma LostTerminalSeen(a: Snapshot, b: Snapshot, l: string, n: string)
    requires WellFormed(a) && WellFormed(b) && Kinds(Pins(a), Pins(b)) && Legible(Pins(a), Pins(b))
    requires OnNet(Pins(a), l, n) && !HasPin(Pins(b), l) && AutoNet(n) && Compared(Pins(a), Pins(b), n)
    ensures Diffs(a, b) != []
  {
    hide Diffs, Kinds, Legible, AutoNet, HasPin, OnNet, Compared, Pins;
    DiffEmptyIff(a, b);
  }

  // ---- the renames reported next to the diff ----

  datatype AutoRename = AutoRename(before: string, after: string)

  function FindCanon(cs: seq<Canonical>, canon: string): Option<Canonical> {
    if cs == [] then None else if cs[0].canon == canon then Some(cs[0]) else FindCanon(cs[1..], canon)
  }

  function RenameOf(c: Canonical, canonB: seq<Canonical>): seq<AutoRename> {
    match FindCanon(canonB, c.canon)
    case None => []
    case Some(e) => if c.raw != e.raw && AutoNet(c.raw) && AutoNet(e.raw) then [AutoRename(c.raw, e.raw)] else []
  }

  function RenamesOf(cs: seq<Canonical>, canonB: seq<Canonical>): seq<AutoRename> {
    if cs == [] then [] else RenamesOf(cs[..|cs| - 1], canonB) + RenameOf(cs[|cs| - 1], canonB)
  }

  function Renames(a: Snapshot, b: Snapshot): seq<AutoRename> {
    RenamesOf(CanonMap(Entries(Pins(a))), CanonMap(Entries(Pins(b))))
  }

  lemma NoRenames(canonB: seq<Canonical>)
    ensures RenamesOf([], canonB) == []
  {
  }

  lemma RenamesNext(cs: seq<Canonical>, canonB: seq<Canonical>, i: nat)
    requires i < |cs|
    ensures RenamesOf(cs[..i + 1], canonB) == RenamesOf(cs[..i], canonB) + RenameOf(cs[i], canonB)
  {
    hide RenameOf;
    assert cs[..i + 1][..i] == cs[..i];
  }

  /** Lines 188-203. */
  method AutoRenames(a: Snapshot, b: Snapshot) returns (out: seq<AutoRename>)
    ensures out == Renames(a, b)
  {
    hide Entries, CanonMap, Pins, FindCanon, AutoNet, RenamesOf;
    var pa := TermMap(a);
    var pb := TermMap(b);
    var ea := NetMembers(pa);
    var eb := NetMembers(pb);
    var canonA, canonB := CanonMap(ea), CanonMap(eb);
    out := [];
    NoRenames(canonB);
    for i := 0 to |canonA|
      invariant out == RenamesOf(canonA[..i], canonB)
    {
      RenamesNext(canonA, canonB, i);
      var e := FindCanon(canonB, canonA[i].canon);
      if e.Some? && canonA[i].raw != e.value.raw && AutoNet(canonA[i].raw) && AutoNet(e.value.raw) {
        out := out + [AutoRename(canonA[i].raw, e.value.raw)];
      }
    }
    assert canonA[..|canonA|] == canonA;
  }

  lemma {:induction false} FindCanonIn(cs: seq<Canonical>, canon: string)
    ensures match FindCanon(cs, canon)
            case None => forall c :: c in cs ==> c.canon != canon
            case Some(e) => e in cs && e.canon == canon
  {
    if cs == [] {
    } else {
      FindCanonIn(cs[1..], canon);
      assert cs == [cs[0]] + cs[1..];
    }
  }

  lemma {:induction false} RenamesOfIff(cs: seq<Canonical>, canonB: seq<Canonical>, r: AutoRename)
    ensures r in RenamesOf(cs, canonB) <==> exists c :: c in cs && r in RenameOf(c, canonB)
  {
    if cs == [] {
    } else {
      var k := |cs| - 1;
      RenamesOfIff(cs[..k], canonB, r);
      assert cs == cs[..k] + [cs[k]];
    }
  }

  lemma CanonAt(pins: seq<Pin>, i: nat)
    requires i < |Nets(pins)|
    ensures CanonMap(Entries(pins))[i] == Canonical(Nets(pins)[i], Canon(pins, Nets(pins)[i]))
  {
  }

  lemma CanonMapIff(pins: seq<Pin>, c: Canonical)
    ensures c in CanonMap(Entries(pins)) <==> Uses(pins, c.raw) && c.canon == Canon(pins, c.raw)
  {
    hide Canon, Members;
    var cs := CanonMap(Entries(pins));
    NetsUsed(pins, c.raw);
    if c in cs {
      var i :| 0 <= i < |cs| && cs[i] == c;
      assert Nets(pins)[i] == c.raw;
      var k :| 0 <= k < |pins| && pins[k].net == Some(c.raw);
      assert OnNet(pins, pins[k].name, c.raw);
      CanonAt(pins, i);
    }
    if Uses(pins, c.raw) && c.canon == Canon(pins, c.raw) {
      var l :| OnNet(pins, l, c.raw);
      var k :| 0 <= k < |pins| && pins[k] == Pin(l, Some(c.raw));
      var i :| 0 <= i < |Nets(pins)| && Nets(pins)[i] == c.raw;
      CanonAt(pins, i);
      assert cs[i] == c;
    }
  }

  /** m is the first listed net with this canonical form. */
  ghost predicate FirstWith(pins: seq<Pin>, canon: string, m: string) {
    exists j :: 0 <= j < |Nets(pins)| && Nets(pins)[j] == m && Canon(pins, m) == canon
             && forall i :: 0 <= i < j ==> Canon(pins, Nets(pins)[i]) != canon
  }

  /** m is the first listed net with the canonical form of k. */
  ghost predicate FirstLike(pins: seq<Pin>, k: string, m: string) {
    FirstWith(pins, Canon(pins, k), m)
  }

  lemma FirstLikeUnique(pins: seq<Pin>, k: string, m: string, m': string)
    requires FirstLike(pins, k, m) && FirstLike(pins, k, m')
    ensures m == m'
  {
    hide Canon, Nets;
    var j :| 0 <= j < |Nets(pins)| && Nets(pins)[j] == m
          && forall i :: 0 <= i < j ==> Canon(pins, Nets(pins)[i]) != Canon(pins, k);
    var j' :| 0 <= j' < |Nets(pins)| && Nets(pins)[j'] == m'
          && forall i :: 0 <= i < j' ==> Canon(pins, Nets(pins)[i]) != Canon(pins, k);
    assert j == j';
  }

  lemma {:induction false} FindCanonFirst(cs: seq<Canonical>, canon: string) returns (k: nat)
    requires exists i :: 0 <= i < |cs| && cs[i].canon == canon
    ensures k < |cs| && FindCanon(cs, canon) == Some(cs[k]) && cs[k].canon == canon
    ensures forall i :: 0 <= i < k ==> cs[i].canon != canon
  {
    if cs[0].canon == canon {
      k := 0;
    } else {
      var i :| 0 <= i < |cs| && cs[i].canon == canon;
      assert cs[1..][i - 1].canon == canon;
      k := FindCanonFirst(cs[1..], canon);
      k := k + 1;
      assert forall j :: 1 <= j < k ==> cs[j] == cs[1..][j - 1];
    }
  }

  lemma UsedAt(pins: seq<Pin>, n: string)
    requires Uses(pins, n)
    ensures n in Nets(pins)
  {
    var l :| OnNet(pins, l, n);
    NetsUsed(pins, n);
  }

  /** The search for a used net's canonical form ends at the first listed net that has it. */
  lemma CanonFinds(pins: seq<Pin>, k: string) returns (m: string)
    requires Uses(pins, k)
    ensures FirstLike(pins, k, m) &&
            FindCanon(CanonMap(Entries(pins)), Canon(pins, k)) == Some(Canonical(m, Canon(pins, k)))
  {
    hide Canon, FindCanon, Entries, CanonMap, OnNet;
    var cs, canon, ns := CanonMap(Entries(pins)), Canon(pins, k), Nets(pins);
    UsedAt(pins, k);
    forall i | 0 <= i < |ns|
      ensures |cs| == |ns| && cs[i] == Canonical(ns[i], Canon(pins, ns[i]))
    {
      CanonAt(pins, i);
    }
    var i :| 0 <= i < |ns| && ns[i] == k;
    assert cs[i].canon == canon;
    var j := FindCanonFirst(cs, canon);
    m := ns[j];
    assert forall t :: 0 <= t < j ==> Canon(pins, ns[t]) == cs[t].canon;
  }

  lemma RenameShape(ca: seq<Canonical>, cb: seq<Canonical>, n: string, m: string)
    requires AutoRename(n, m) in RenamesOf(ca, cb)
    ensures AutoNet(n) && AutoNet(m) && n != m
    ensures exists c :: c in ca && c.raw == n && FindCanon(cb, c.canon).Some? && FindCanon(cb, c.canon).value.raw == m
  {
    RenamesOfIff(ca, cb, AutoRename(n, m));
    var c :| c in ca && AutoRename(n, m) in RenameOf(c, cb);
  }

  lemma RenameMade(ca: seq<Canonical>, cb: seq<Canonical>, c: Canonical, m: string)
    requires c in ca && FindCanon(cb, c.canon).Some? && FindCanon(cb, c.canon).value.raw == m
    requires AutoNet(c.raw) && AutoNet(m) && c.raw != m
    ensures AutoRename(c.raw, m) in RenamesOf(ca, cb)
  {
    RenamesOfIff(ca, cb, AutoRename(c.raw, m));
    assert AutoRename(c.raw, m) in RenameOf(c, cb);
  }

  lemma CanonMapLength(pins: seq<Pin>)
    ensures |CanonMap(Entries(pins))| == |Nets(pins)|
  {
  }

  lemma SearchIff(pins: seq<Pin>, canon: string, m: string)
    ensures var e := FindCanon(CanonMap(Entries(pins)), canon);
            e.Some? && e.value.raw == m <==> FirstWith(pins, canon, m)
  {
    hide Canon, FindCanon, Entries, CanonMap;
    var cs, ns := CanonMap(Entries(pins)), Nets(pins);
    CanonMapLength(pins);
    forall i | 0 <= i < |ns|
      ensures cs[i] == Canonical(ns[i], Canon(pins, ns[i]))
    {
      CanonAt(pins, i);
    }
    FindCanonIn(cs, canon);
    if exists i :: 0 <= i < |cs| && cs[i].canon == canon {
      var k := FindCanonFirst(cs, canon);
      assert forall i :: 0 <= i < k ==> Canon(pins, ns[i]) == cs[i].canon;
      assert FirstWith(pins, canon, ns[k]);
      if FirstWith(pins, canon, m) {
        var j :| 0 <= j < |ns| && ns[j] == m && Canon(pins, m) == canon
              && forall i :: 0 <= i < j ==> Canon(pins, ns[i]) != canon;
        assert cs[j].canon == canon && cs[k].canon == canon;
        assert j == k;
      }
    }
  }

  /** What is reported, for any two snapshots: an auto net of A and the first net of B with its canonical form,
      when that is an auto net of another name. */
  lemma RenamesIff(a: Snapshot, b: Snapshot, n: string, m: string)
    ensures AutoRename(n, m) in Renames(a, b) <==>
      AutoNet(n) && AutoNet(m) && n != m && Uses(Pins(a), n) && FirstWith(Pins(b), Canon(Pins(a), n), m)
  {
    hide Canon, AutoNet, FindCanon, Entries, CanonMap, Pins, RenamesOf, FirstWith, Uses;
    var pa, pb := Pins(a), Pins(b);
    var ca, cb := CanonMap(Entries(pa)), CanonMap(Entries(pb));
    SearchIff(pb, Canon(pa, n), m);
    if AutoRename(n, m) in Renames(a, b) {
      RenameShape(ca, cb, n, m);
      var c :| c in ca && c.raw == n && FindCanon(cb, c.canon).Some? && FindCanon(cb, c.canon).value.raw == m;
      CanonMapIff(pa, c);
    }
    if AutoNet(n) && AutoNet(m) && n != m && Uses(pa, n) && FirstWith(pb, Canon(pa, n), m) {
      var c := Canonical(n, Canon(pa, n));
      CanonMapIff(pa, c);
      RenameMade(ca, cb, c, m);
    }
  }

  lemma RenamedUses(pa: seq<Pin>, pb: seq<Pin>, f: map<string, string>, n: string)
    requires DistinctPins(pa) && DistinctPins(pb) && IsRenaming(f, pa, pb) && n in f
    ensures Uses(pa, n) && Uses(pb, f[n]) && AutoNet(n)
  {
    hide OnNet, AutoNet, HasPin;
    assert f[n] in f.Values;
  }

  lemma UsedInRenaming(pa: seq<Pin>, pb: seq<Pin>, f: map<string, string>, n: string)
    requires DistinctPins(pa) && SameTerminals(pa, pb) && IsRenaming(f, pa, pb) && AutoNet(n) && Uses(pa, n)
    ensures n in f
  {
    hide OnNet, HasPin, AutoNet;
    var l :| OnNet(pa, l, n);
    OnNetPin(pa, l, n);
  }

  /** The reported rename of a net the renaming is about: to the first net of B that reads like its new one, when
      that is another auto net. Nothing else is reported where both snapshots list the same terminals. */
  lemma RenamesExact(a: Snapshot, b: Snapshot, f: map<string, string>, n: string, m: string)
    requires WellFormed(a) && WellFormed(b) && IsRenaming(f, Pins(a), Pins(b))
    ensures n in f ==> (AutoRename(n, m) in Renames(a, b) <==> FirstLike(Pins(b), f[n], m) && AutoNet(m) && n != m)
    ensures AutoRename(n, m) in Renames(a, b) ==> AutoNet(n) && Uses(Pins(a), n)
    ensures SameTerminals(Pins(a), Pins(b)) && AutoRename(n, m) in Renames(a, b) ==> n in f
  {
    hide Canon, AutoNet, FindCanon, Entries, CanonMap, Pins, RenamesOf, FirstLike, IsRenaming, Uses, SameTerminals;
    var pa, pb := Pins(a), Pins(b);
    var ca, cb := CanonMap(Entries(pa)), CanonMap(Entries(pb));
    if AutoRename(n, m) in Renames(a, b) {
      RenameShape(ca, cb, n, m);
      var c :| c in ca && c.raw == n && FindCanon(cb, c.canon).Some? && FindCanon(cb, c.canon).value.raw == m;
      CanonMapIff(pa, c);
      if SameTerminals(pa, pb) {
        UsedInRenaming(pa, pb, f, n);
      }
    }
    if n in f {
      RenamedUses(pa, pb, f, n);
      RenamedMembers(pa, pb, f, n);
      var c := Canonical(n, Canon(pa, n));
      CanonMapIff(pa, c);
      var e := CanonFinds(pb, f[n]);
      if FirstLike(pb, f[n], m) {
        FirstLikeUnique(pb, f[n], m, e);
      }
      if m == e && AutoNet(m) && n != m {
        RenameMade(ca, cb, c, m);
      }
    }
  }

  /** A list of renames used as a substitution. */
  function Substitute(rs: seq<AutoRename>, n: string): string {
    if rs == [] then n else if rs[0].before == n then rs[0].after else Substitute(rs[1..], n)
  }

  lemma {:induction false} SubstituteIn(rs: seq<AutoRename>, n: string)
    ensures Substitute(rs, n) == n || AutoRename(n, Substitute(rs, n)) in rs
    ensures Substitute(rs, n) == n ==> forall m :: AutoRename(n, m) in rs ==> AutoRename(n, n) in rs
  {
    if rs == [] {
    } else {
      SubstituteIn(rs[1..], n);
      assert rs == [rs[0]] + rs[1..];
    }
  }

  function SubstituteNet(rs: seq<AutoRename>, net: Option<string>): Option<string> {
    if net.None? then None else Some(Substitute(rs, net.value))
  }

  /** The reported renames send a net the renaming moves to the first auto net that reads like its new one, and
      leave it alone when a named net does. */
  lemma SubstitutedNet(a: Snapshot, b: Snapshot, f: map<string, string>, n: string, m: string)
    requires WellFormed(a) && WellFormed(b) && IsRenaming(f, Pins(a), Pins(b)) && n in f
    requires FirstLike(Pins(b), f[n], m)
    ensures Substitute(Renames(a, b), n) == if AutoNet(m) then m else n
  {
    hide Renames, AutoNet, OnNet, FirstLike, WellFormed, IsRenaming;
    var rs := Renames(a, b);
    var to := Substitute(rs, n);
    SubstituteIn(rs, n);
    RenamesExact(a, b, f, n, to);
    RenamesExact(a, b, f, n, n);
    RenamesExact(a, b, f, n, m);
    if FirstLike(Pins(b), f[n], to) {
      FirstLikeUnique(Pins(b), f[n], m, to);
    }
  }

  lemma NamedNetStays(a: Snapshot, b: Snapshot, f: map<string, string>, n: string)
    requires WellFormed(a) && WellFormed(b) && IsRenaming(f, Pins(a), Pins(b)) && !AutoNet(n)
    ensures Substitute(Renames(a, b), n) == n
  {
    hide Renames, AutoNet, OnNet, FirstLike, WellFormed, IsRenaming;
    SubstituteIn(Renames(a, b), n);
    RenamesExact(a, b, f, n, Substitute(Renames(a, b), n));
  }

  /** For the new net of every net the renaming moves, the first net of B that reads like it is that net, or a
      named one and the net has kept its name. */
  ghost predicate Found(pb: seq<Pin>, f: map<string, string>) {
    forall n, m :: n in f && FirstLike(pb, f[n], m) ==> m == f[n] || (f[n] == n && !AutoNet(m))
  }

  lemma SharedOn(pa: seq<Pin>, pb: seq<Pin>, f: map<string, string>, n: string) returns (l: string)
    requires DistinctPins(pa) && IsRenaming(f, pa, pb) && n in f
    ensures HasPin(pa, l) && HasPin(pb, l) && NetOf(pa, l) == Some(n) && NetOf(pb, l) == Some(f[n])
  {
    hide OnNet, HasPin, AutoNet;
    l :| OnNet(pa, l, n) && HasPin(pb, l);
    OnNetPin(pa, l, n);
  }

  lemma ReconciledAt(a: Snapshot, b: Snapshot, f: map<string, string>, l: string)
    requires WellFormed(a) && WellFormed(b) && IsRenaming(f, Pins(a), Pins(b)) && Found(Pins(b), f)
    requires HasPin(Pins(a), l) && HasPin(Pins(b), l)
    ensures NetOf(Pins(b), l) == SubstituteNet(Renames(a, b), NetOf(Pins(a), l))
  {
    hide Renames, AutoNet, OnNet, FirstLike, Pins, HasPin;
    var pa, pb := Pins(a), Pins(b);
    if NetOf(pa, l).Some? {
      var n := NetOf(pa, l).value;
      if n in f {
        RenamedUses(pa, pb, f, n);
        var m := CanonFinds(pb, f[n]);
        SubstitutedNet(a, b, f, n, m);
      } else {
        NetOfIff(pa, l, n);
        assert Compared(pa, pb, n);
        NamedNetStays(a, b, f, n);
      }
    }
  }

  /** Where a renaming exists, the reported renames carry A's net of every shared terminal to B's exactly when
      no other net is found in place of a new one. */
  lemma RenamesReconcileIff(a: Snapshot, b: Snapshot, f: map<string, string>)
    requires WellFormed(a) && WellFormed(b) && IsRenaming(f, Pins(a), Pins(b))
    ensures (forall l :: HasPin(Pins(a), l) && HasPin(Pins(b), l) ==>
              NetOf(Pins(b), l) == SubstituteNet(Renames(a, b), NetOf(Pins(a), l)))
       <==> Found(Pins(b), f)
  {
    hide Renames, AutoNet, OnNet, FirstLike, Pins, Compared, HasPin;
    var pa, pb, rs := Pins(a), Pins(b), Renames(a, b);
    if Found(pb, f) {
      forall l | HasPin(pa, l) && HasPin(pb, l)
        ensures NetOf(pb, l) == SubstituteNet(rs, NetOf(pa, l))
      {
        ReconciledAt(a, b, f, l);
      }
    }
    if forall l :: HasPin(pa, l) && HasPin(pb, l) ==> NetOf(pb, l) == SubstituteNet(rs, NetOf(pa, l)) {
      forall n, m | n in f && FirstLike(pb, f[n], m)
        ensures m == f[n] || (f[n] == n && !AutoNet(m))
      {
        var l := SharedOn(pa, pb, f, n);
        SubstitutedNet(a, b, f, n, m);
      }
    }
  }

  // ---- redrawing that only renumbers auto nets ----

  function RenumberTerms(ts: seq<Term>, g: map<string, string>): (r: seq<Term>)
    ensures |r| == |ts| && forall k :: 0 <= k < |r| ==> r[k] == Term(ts[k].term, Rename(g, ts[k].net))
  {
    seq(|ts|, k requires 0 <= k < |ts| => Term(ts[k].term, Rename(g, ts[k].net)))
  }

  function RenumberInsts(xs: seq<Inst>, g: map<string, string>): (r: seq<Inst>)
    ensures |r| == |xs|
    ensures forall k :: 0 <= k < |r| ==> r[k] == Inst(xs[k].name, xs[k].master, RenumberTerms(xs[k].terms, g))
  {
    seq(|xs|, k requires 0 <= k < |xs| => Inst(xs[k].name, xs[k].master, RenumberTerms(xs[k].terms, g)))
  }

  /** The same drawing with its auto nets renumbered by g; the net lists are not compared by the diff. */
  function Renumber(s: Snapshot, g: map<string, string>): Snapshot {
    s.(instances := RenumberInsts(s.instances, g))
  }

  ghost predicate PinsRenamed(pa: seq<Pin>, pb: seq<Pin>, g: map<string, string>) {
    |pb| == |pa| && forall k :: 0 <= k < |pa| ==> pb[k] == Pin(pa[k].name, Rename(g, pa[k].net))
  }

  lemma RenumberInstPins(i: Inst, g: map<string, string>)
    ensures PinsRenamed(InstPins(i), InstPins(Inst(i.name, i.master, RenumberTerms(i.terms, g))), g)
  {
  }

  lemma {:induction false} RenumberPins(xs: seq<Inst>, g: map<string, string>)
    ensures PinsRenamed(PinsOf(xs), PinsOf(RenumberInsts(xs, g)), g)
  {
    hide InstPins, RenumberTerms, Rename;
    if xs == [] {
    } else {
      var n := |xs| - 1;
      RenumberPins(xs[..n], g);
      assert RenumberInsts(xs, g)[..n] == RenumberInsts(xs[..n], g);
      RenumberInstPins(xs[n], g);
    }
  }

  ghost predicate Renumbering(g: map<string, string>, pins: seq<Pin>) {
    && (forall n :: n in g <==> AutoNet(n) && Uses(pins, n))
    && (forall n :: n in g ==> AutoNet(g[n]))
    && (forall n, n' :: n in g && n' in g && g[n] == g[n'] ==> n == n')
  }

  lemma UsedPin(pa: seq<Pin>, pb: seq<Pin>, l: string, n: string)
    requires SameTerminals(pa, pb)
    ensures OnNet(pa, l, n) ==> HasPin(pb, l)
  {
    if OnNet(pa, l, n) {
      var k :| 0 <= k < |pa| && pa[k] == Pin(l, Some(n));
      assert HasPin(pa, l);
    }
  }

  lemma ComparedUsed(pa: seq<Pin>, pb: seq<Pin>, n: string)
    requires SameTerminals(pa, pb)
    ensures Compared(pa, pb, n) <==> Uses(pa, n)
  {
    hide OnNet, HasPin;
    if Uses(pa, n) {
      var l :| OnNet(pa, l, n);
      UsedPin(pa, pb, l, n);
    }
  }

  lemma RenumberedOnto(pa: seq<Pin>, pb: seq<Pin>, g: map<string, string>, m: string)
    requires Renumbering(g, pa) && PinsRenamed(pa, pb, g)
    ensures m in g.Values <==> AutoNet(m) && Uses(pb, m)
  {
    hide AutoNet;
    if m in g.Values {
      var n :| n in g && g[n] == m;
      var l :| OnNet(pa, l, n);
      var k :| 0 <= k < |pa| && pa[k] == Pin(l, Some(n));
      assert pb[k] == Pin(l, Some(m));
      assert OnNet(pb, l, m);
    }
    if AutoNet(m) && Uses(pb, m) {
      var l :| OnNet(pb, l, m);
      var k :| 0 <= k < |pb| && pb[k] == Pin(l, Some(m));
      var n := pa[k].net.value;
      assert pa[k] == Pin(l, Some(n));
      assert OnNet(pa, l, n);
      assert n in g;
    }
  }

  lemma RenumberedAt(pa: seq<Pin>, pb: seq<Pin>, g: map<string, string>, l: string)
    requires DistinctPins(pa) && PinsRenamed(pa, pb, g)
    ensures HasPin(pa, l) <==> HasPin(pb, l)
    ensures HasPin(pa, l) ==> NetOf(pb, l) == Rename(g, NetOf(pa, l))
  {
    hide FindPin;
    if HasPin(pa, l) {
      var k :| 0 <= k < |pa| && pa[k].name == l;
      assert pb[k].name == l;
      FindPinAt(pa, k);
      FindPinAt(pb, k);
    }
    if HasPin(pb, l) {
      var k :| 0 <= k < |pb| && pb[k].name == l;
      assert pa[k].name == l;
    }
  }

  lemma RenumberedPins(pa: seq<Pin>, pb: seq<Pin>, g: map<string, string>)
    requires DistinctPins(pa) && Renumbering(g, pa) && PinsRenamed(pa, pb, g)
    ensures DistinctPins(pb) && SameTerminals(pa, pb) && IsRenaming(g, pa, pb)
  {
    hide NetOf, AutoNet, OnNet, HasPin, Compared, Uses;
    forall l
      ensures HasPin(pa, l) <==> HasPin(pb, l)
      ensures HasPin(pa, l) ==> NetOf(pb, l) == Rename(g, NetOf(pa, l))
    {
      RenumberedAt(pa, pb, g, l);
    }
    forall m
      ensures m in g.Values <==> AutoNet(m) && Uses(pb, m)
    {
      RenumberedOnto(pa, pb, g, m);
    }
    forall n
      ensures Compared(pa, pb, n) <==> Uses(pa, n)
      ensures Compared(pb, pa, n) <==> Uses(pb, n)
    {
      ComparedUsed(pa, pb, n);
      ComparedUsed(pb, pa, n);
    }
    forall l, n
      ensures OnNet(pa, l, n) ==> HasPin(pb, l)
      ensures OnNet(pb, l, n) ==> HasPin(pa, l)
    {
      UsedPin(pa, pb, l, n);
      UsedPin(pb, pa, l, n);
    }
  }

  /** However auto nets are renumbered, the diff stays empty. */
  lemma RenumberingReconciles(a: Snapshot, g: map<string, string>)
    requires WellFormed(a) && Renumbering(g, Pins(a))
    ensures WellFormed(Renumber(a, g)) && SameTerminals(Pins(a), Pins(Renumber(a, g)))
    ensures Diffs(a, Renumber(a, g)) == []
  {
    hide DistinctPins, Renumbering, SameTerminals, IsRenaming, PinsOf, Diffs, Kinds, Legible;
    var b := Renumber(a, g);
    RenumberPins(a.instances, g);
    RenumberedPins(Pins(a), Pins(b), g);
    forall name, master
      ensures Listed(a.instances, name, master) <==> Listed(b.instances, name, master)
    {
      if r :| r in a.instances && r.name == name && r.master == master {
        var k :| 0 <= k < |a.instances| && a.instances[k] == r;
        assert b.instances[k] in b.instances;
      }
      if r :| r in b.instances && r.name == name && r.master == master {
        var k :| 0 <= k < |b.instances| && b.instances[k] == r;
        assert a.instances[k] in a.instances;
      }
    }
    DiffEmptyIff(a, b);
  }

  // ---- where distinct terminal names come from ----

  ghost predicate DistinctTerms(i: Inst) {
    forall j, k :: 0 <= j < k < |i.terms| ==> i.terms[j].term != i.terms[k].term
  }

  lemma LabelUnique(i: string, t: string, i': string, t': string)
    requires '.' !in i && '.' !in i' && Label(i, t) == Label(i', t')
    ensures i == i' && t == t'
  {
    assert Label(i, t) == i + ['.'] + t && Label(i', t') == i' + ['.'] + t';
    CutUnique(i, '.', t, i', t');
  }

  /** A terminal of an earlier instance has another name than those of the last one. */
  lemma EarlierDiffers(xs: seq<Inst>, p: Pin, q: Pin)
    requires xs != [] && DistinctNames(xs) && forall i :: 0 <= i < |xs| ==> '.' !in xs[i].name
    requires p in PinsOf(xs[..|xs| - 1]) && q in InstPins(xs[|xs| - 1])
    ensures p.name != q.name
  {
    hide PinsOf;
    var n := |xs| - 1;
    PinSource(xs[..n], p);
    var i, t :| 0 <= i < n && 0 <= t < |xs[..n][i].terms|
             && p == Pin(xs[..n][i].name + "." + xs[..n][i].terms[t].term, xs[..n][i].terms[t].net);
    var u :| 0 <= u < |InstPins(xs[n])| && InstPins(xs[n])[u] == q;
    if p.name == q.name {
      LabelUnique(xs[i].name, xs[i].terms[t].term, xs[n].name, xs[n].terms[u].term);
    }
  }

  lemma OwnDiffer(x: Inst, j: nat, k: nat)
    requires '.' !in x.name && DistinctTerms(x) && j < k < |x.terms|
    ensures InstPins(x)[j].name != InstPins(x)[k].name
  {
    if InstPins(x)[j].name == InstPins(x)[k].name {
      LabelUnique(x.name, x.terms[j].term, x.name, x.terms[k].term);
    }
  }

  /** Distinct dot-free instance names with distinct terminals give distinct "inst.term" names. */
  lemma {:induction false} LabelsDistinct(xs: seq<Inst>)
    requires DistinctNames(xs)
    requires forall i :: 0 <= i < |xs| ==> '.' !in xs[i].name && DistinctTerms(xs[i])
    ensures DistinctPins(PinsOf(xs))
  {
    hide InstPins, DistinctTerms;
    if xs == [] {
    } else {
      var n := |xs| - 1;
      var head, last := PinsOf(xs[..n]), InstPins(xs[n]);
      var all: seq<Pin> := head + last;
      LabelsDistinct(xs[..n]);
      forall j, k | 0 <= j < k < |all|
        ensures all[j].name != all[k].name
      {
        if k >= |head| {
          assert all[k] in last;
          if j < |head| {
            assert all[j] in head;
            EarlierDiffers(xs, all[j], all[k]);
          } else {
            OwnDiffer(xs[n], j - |head|, k - |head|);
          }
        }
      }
    }
  }
}
