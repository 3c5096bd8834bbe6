/** The layout-versus-schematic connectivity check of skill/vfp_layout.il. */
module Lvs {
  import opened Text
  import opened Connectivity
  import opened Renaming
  import Reconcile

  datatype Group = Group(pin: string, members: seq<string>)
  datatype Mismatch = Mismatch(pin: string, schematic: seq<string>, layout: seq<string>)
  datatype Report = Report(clean: bool, matched: nat, onlyLayout: seq<string>, onlySchematic: seq<string>,
                           mismatches: seq<Mismatch>)

  // ---- devices ----

  /** The instance of an "inst.term" name, up to the first dot. */
  function InstOf(pin: string): Option<string> {
    var ts := Tokens(pin, '.');
    if ts == [] then None else Some(ts[0])
  }

  function CellOf(master: string): Option<string> {
    var ts := Tokens(master, '/');
    if |ts| < 2 then None else Some(ts[1])
  }

  predicate PinCell(cell: Option<string>) {
    cell.Some? && cell.value in ["ipin", "opin", "iopin"]
  }

  function Devices(xs: seq<Inst>): seq<string> {
    if xs == [] then [] else
    var k := |xs| - 1;
    Devices(xs[..k]) + if PinCell(CellOf(xs[k].master)) then [] else [xs[k].name]
  }

  method DeviceNames(s: Snapshot) returns (out: seq<string>)
    ensures out == Devices(s.instances)
  {
    out := [];
    for i := 0 to |s.instances|
      invariant out == Devices(s.instances[..i])
    {
      if !PinCell(CellOf(s.instances[i].master)) {
        out := out + [s.instances[i].name];
      }
      assert s.instances[..i + 1][..i] == s.instances[..i];
    }
    assert s.instances[..|s.instances|] == s.instances;
  }

  // ---- the set comprehensions ----

  function Keep(s: seq<string>, keep: seq<string>): seq<string> {
    if s == [] then [] else (if s[0] in keep then [s[0]] else []) + Keep(s[1..], keep)
  }

  function Drop(s: seq<string>, drop: seq<string>): seq<string> {
    if s == [] then [] else (if s[0] in drop then [] else [s[0]]) + Drop(s[1..], drop)
  }

  function Shared(pins: seq<Pin>, other: seq<Pin>, matched: seq<string>): seq<string> {
    if pins == [] then [] else
    var l := pins[0].name;
    (if InstOf(l).Some? && InstOf(l).value in matched && FindPin(other, l).Some? then [l] else [])
      + Shared(pins[1..], other, matched)
  }

  lemma {:induction false} KeepIn(s: seq<string>, keep: seq<string>, x: string)
    ensures x in Keep(s, keep) <==> x in s && x in keep
  {
    if s == [] {
    } else {
      KeepIn(s[1..], keep, x);
      assert s == [s[0]] + s[1..];
    }
  }

  lemma {:induction false} KeepDistinct(s: seq<string>, keep: seq<string>)
    requires Distinct(s)
    ensures Distinct(Keep(s, keep))
  {
    if s == [] {
    } else {
      KeepDistinct(s[1..], keep);
      KeepIn(s[1..], keep, s[0]);
    }
  }

  lemma {:induction false} DropIn(s: seq<string>, drop: seq<string>, x: string)
    ensures x in Drop(s, drop) <==> x in s && x !in drop
  {
    if s == [] {
    } else {
      DropIn(s[1..], drop, x);
      assert s == [s[0]] + s[1..];
    }
  }

  lemma {:induction false} SharedIn(pins: seq<Pin>, other: seq<Pin>, matched: seq<string>, l: string)
    ensures l in Shared(pins, other, matched) <==>
      HasPin(pins, l) && HasPin(other, l) && InstOf(l).Some? && InstOf(l).value in matched
  {
    hide InstOf;
    if pins == [] {
    } else {
      SharedIn(pins[1..], other, matched, l);
      FindPinIn(other, l);
      if HasPin(pins, l) {
        var k :| 0 <= k < |pins| && pins[k].name == l;
        if k > 0 {
          assert pins[1..][k - 1].name == l;
        }
      }
      if HasPin(pins[1..], l) {
        var k :| 0 <= k < |pins[1..]| && pins[1..][k].name == l;
        assert pins[k + 1].name == l;
      }
      if HasPin(other, l) {
        var k :| 0 <= k < |other| && other[k].name == l;
      }
    }
  }

  // ---- groups ----

  /** Everything on the terminal's net among `keep`, sorted; a floating terminal is alone. */
  function GroupOf(pins: seq<Pin>, keep: seq<string>, p: Pin): seq<string> {
    Sort(Keep(if p.net.Some? then Members(pins, p.net.value) else [p.name], keep))
  }

  function Groups(ps: seq<Pin>, pins: seq<Pin>, keep: seq<string>): seq<Group> {
    if ps == [] then [] else
    var k := |ps| - 1;
    Groups(ps[..k], pins, keep) + if ps[k].name in keep then [Group(ps[k].name, GroupOf(pins, keep, ps[k]))] else []
  }

  function AssocMembers(es: seq<Entry>, n: string): seq<string> {
    if es == [] then [] else if es[0].net == n then es[0].members else AssocMembers(es[1..], n)
  }

  lemma {:induction false} AssocMembersAt(es: seq<Entry>, i: nat)
    requires i < |es| && forall j :: 0 <= j < i ==> es[j].net != es[i].net
    ensures AssocMembers(es, es[i].net) == es[i].members
  {
    if i == 0 {
    } else {
      AssocMembersAt(es[1..], i - 1);
    }
  }

  lemma LookupMembers(pins: seq<Pin>, k: nat)
    requires k < |pins| && pins[k].net.Some?
    ensures AssocMembers(Entries(pins), pins[k].net.value) == Members(pins, pins[k].net.value)
  {
    var n := pins[k].net.value;
    NetsUsed(pins, n);
    NetsDistinct(pins);
    var i :| 0 <= i < |Nets(pins)| && Nets(pins)[i] == n;
    AssocMembersAt(Entries(pins), i);
  }

  /** Lines 257-269. */
  method TermGroups(s: Snapshot, keep: seq<string>) returns (out: seq<Group>)
    ensures out == Groups(Pins(s), Pins(s), keep)
  {
    hide Entries, Sort, Keep, AssocMembers, Attached, PinsOf, Members, TermTotal;
    var pins := TermMap(s);
    var members := NetMembers(pins);
    out := [];
    for i := 0 to |pins|
      invariant out == Groups(pins[..i], pins, keep)
    {
      var p := pins[i];
      if p.name in keep {
        var grp;
        if p.net.Some? {
          grp := AssocMembers(members, p.net.value);
          LookupMembers(pins, i);
        } else {
          grp := [p.name];
        }
        out := out + [Group(p.name, Sort(Keep(grp, keep)))];
      }
      assert pins[..i + 1][..i] == pins[..i];
    }
    assert pins[..|pins|] == pins;
  }

  function FindGroup(gs: seq<Group>, l: string): Option<Group> {
    if gs == [] then None else if gs[0].pin == l then Some(gs[0]) else FindGroup(gs[1..], l)
  }

  function MismatchAt(l: string, sg: Option<Group>, lg: Option<Group>): seq<Mismatch> {
    if sg.Some? && lg.Some? && sg.value.members != lg.value.members
    then [Mismatch(l, sg.value.members, lg.value.members)] else []
  }

  function Mismatches(ls: seq<string>, sgs: seq<Group>, lgs: seq<Group>): seq<Mismatch> {
    if ls == [] then [] else
    var k := |ls| - 1;
    Mismatches(ls[..k], sgs, lgs) + MismatchAt(ls[k], FindGroup(sgs, ls[k]), FindGroup(lgs, ls[k]))
  }

  function Matched(layout: Snapshot, schematic: Snapshot): seq<string> {
    Keep(Devices(schematic.instances), Devices(layout.instances))
  }

  function SharedOf(layout: Snapshot, schematic: Snapshot): seq<string> {
    Shared(Pins(schematic), Pins(layout), Matched(layout, schematic))
  }

  function Compare(layout: Snapshot, schematic: Snapshot): Report {
    var lDev, sDev := Devices(layout.instances), Devices(schematic.instances);
    var onlyL, onlyS := Drop(lDev, sDev), Drop(sDev, lDev);
    var shared := SharedOf(layout, schematic);
    var mism := Mismatches(shared, Groups(Pins(schematic), Pins(schematic), shared),
                              Groups(Pins(layout), Pins(layout), shared));
    Report(onlyL == [] && onlyS == [] && mism == [], |Matched(layout, schematic)|, onlyL, onlyS, mism)
  }

  /** Lines 280-315. */
  method LayoutVsSchematic(layout: Snapshot, schematic: Snapshot) returns (r: Report)
    ensures r == Compare(layout, schematic)
  {
    hide Groups, Devices, Shared, Keep, Drop, FindGroup, PinsOf;
    var lDev := DeviceNames(layout);
    var sDev := DeviceNames(schematic);
    var matched, onlyL, onlyS := Keep(sDev, lDev), Drop(lDev, sDev), Drop(sDev, lDev);
    var lPins := TermMap(layout);
    var sPins := TermMap(schematic);
    var shared := Shared(sPins, lPins, matched);
    var lGroups := TermGroups(layout, shared);
    var sGroups := TermGroups(schematic, shared);
    var mism := [];
    for i := 0 to |shared|
      invariant mism == Mismatches(shared[..i], sGroups, lGroups)
    {
      var sg, lg := FindGroup(sGroups, shared[i]), FindGroup(lGroups, shared[i]);
      if sg.Some? && lg.Some? {
        if sg.value.members != lg.value.members {
          mism := mism + [Mismatch(shared[i], sg.value.members, lg.value.members)];
        }
      }
      assert shared[..i + 1][..i] == shared[..i];
    }
    assert shared[..|shared|] == shared;
    r := Report(onlyL == [] && onlyS == [] && mism == [], |matched|, onlyL, onlyS, mism);
  }

  // ---- what the verdict means ----

  /** Two terminals are the same or on one net. */
  ghost predicate Shares(pins: seq<Pin>, t: string, u: string) {
    t == u || exists n :: OnNet(pins, t, n) && OnNet(pins, u, n)
  }

  lemma {:induction false} FindGroupAppend(gs: seq<Group>, hs: seq<Group>, l: string)
    ensures FindGroup(gs + hs, l) == if FindGroup(gs, l).Some? then FindGroup(gs, l) else FindGroup(hs, l)
  {
    if gs == [] {
      assert gs + hs == hs;
    } else {
      assert (gs + hs)[1..] == gs[1..] + hs;
      FindGroupAppend(gs[1..], hs, l);
    }
  }

  lemma {:induction false} GroupNames(ps: seq<Pin>, pins: seq<Pin>, keep: seq<string>, l: string)
    requires !HasPin(ps, l)
    ensures FindGroup(Groups(ps, pins, keep), l) == None
  {
    hide GroupOf;
    if ps == [] {
    } else {
      var n := |ps| - 1;
      assert forall k :: 0 <= k < n ==> ps[..n][k] == ps[k];
      GroupNames(ps[..n], pins, keep, l);
      assert ps[n].name != l;
      var mine := if ps[n].name in keep then [Group(ps[n].name, GroupOf(pins, keep, ps[n]))] else [];
      FindGroupAppend(Groups(ps[..n], pins, keep), mine, l);
    }
  }

  lemma {:induction false} FindGroupOf(ps: seq<Pin>, pins: seq<Pin>, keep: seq<string>, k: nat)
    requires DistinctPins(ps) && k < |ps| && ps[k].name in keep
    ensures FindGroup(Groups(ps, pins, keep), ps[k].name) == Some(Group(ps[k].name, GroupOf(pins, keep, ps[k])))
  {
    hide GroupOf;
    var n := |ps| - 1;
    var mine := if ps[n].name in keep then [Group(ps[n].name, GroupOf(pins, keep, ps[n]))] else [];
    if k < n {
      FindGroupOf(ps[..n], pins, keep, k);
      FindGroupAppend(Groups(ps[..n], pins, keep), mine, ps[k].name);
    } else {
      GroupNames(ps[..n], pins, keep, ps[k].name);
      FindGroupAppend(Groups(ps[..n], pins, keep), mine, ps[k].name);
    }
  }

  /** A terminal's group holds exactly the shared terminals it shares a net with. */
  lemma GroupIff(pins: seq<Pin>, keep: seq<string>, k: nat, u: string)
    requires DistinctPins(pins) && k < |pins|
    ensures u in GroupOf(pins, keep, pins[k]) <==> u in keep && Shares(pins, pins[k].name, u)
  {
    hide Sort, Members, Keep;
    var p := pins[k];
    var raw := if p.net.Some? then Members(pins, p.net.value) else [p.name];
    SortMembers(Keep(raw, keep), u);
    KeepIn(raw, keep, u);
    if p.net.Some? {
      MembersIff(pins, p.net.value, u);
      assert OnNet(pins, p.name, p.net.value);
    }
    if n :| OnNet(pins, p.name, n) && OnNet(pins, u, n) {
      NetOfIff(pins, p.name, n);
      FindPinAt(pins, k);
    }
  }

  lemma GroupSortsDistinct(pins: seq<Pin>, keep: seq<string>, p: Pin)
    requires DistinctPins(pins)
    ensures exists raw :: Distinct(raw) && GroupOf(pins, keep, p) == Sort(raw)
  {
    var raw := if p.net.Some? then Members(pins, p.net.value) else [p.name];
    if p.net.Some? {
      MembersDistinct(pins, p.net.value);
    }
    KeepDistinct(raw, keep);
  }

  /** Groups of a terminal in the two views agree exactly when it shares nets with the same terminals. */
  lemma SameGroupIff(lp: seq<Pin>, sp: seq<Pin>, keep: seq<string>, i: nat, j: nat)
    requires DistinctPins(lp) && DistinctPins(sp) && i < |lp| && j < |sp| && lp[i].name == sp[j].name
    ensures GroupOf(sp, keep, sp[j]) == GroupOf(lp, keep, lp[i]) <==>
      forall u :: u in keep ==> (Shares(lp, lp[i].name, u) <==> Shares(sp, lp[i].name, u))
  {
    hide GroupOf, Shares, Sort;
    GroupSortsDistinct(lp, keep, lp[i]);
    GroupSortsDistinct(sp, keep, sp[j]);
    var rl :| Distinct(rl) && GroupOf(lp, keep, lp[i]) == Sort(rl);
    var rs :| Distinct(rs) && GroupOf(sp, keep, sp[j]) == Sort(rs);
    SortCanonicalSet(rs, rl);
    forall u
      ensures u in rl <==> u in keep && Shares(lp, lp[i].name, u)
      ensures u in rs <==> u in keep && Shares(sp, lp[i].name, u)
    {
      SortMembers(rl, u);
      SortMembers(rs, u);
      GroupIff(lp, keep, i, u);
      GroupIff(sp, keep, j, u);
    }
  }

  lemma {:induction false} MismatchesIff(ls: seq<string>, sgs: seq<Group>, lgs: seq<Group>, m: Mismatch)
    ensures m in Mismatches(ls, sgs, lgs) <==>
      m.pin in ls && m in MismatchAt(m.pin, FindGroup(sgs, m.pin), FindGroup(lgs, m.pin))
  {
    if ls == [] {
    } else {
      var k := |ls| - 1;
      MismatchesIff(ls[..k], sgs, lgs, m);
      assert ls == ls[..k] + [ls[k]];
    }
  }

  ghost predicate IsMismatch(lp: seq<Pin>, sp: seq<Pin>, shared: seq<string>, i: int, j: int, m: Mismatch) {
    && 0 <= i < |lp| && 0 <= j < |sp| && lp[i].name == m.pin && sp[j].name == m.pin && m.pin in shared
    && m.schematic == GroupOf(sp, shared, sp[j]) && m.layout == GroupOf(lp, shared, lp[i])
    && m.schematic != m.layout
  }

  /** What a mismatch record says: its two groups, which differ. */
  lemma ReportedIff(layout: Snapshot, schematic: Snapshot, m: Mismatch)
    requires DistinctPins(Pins(layout)) && DistinctPins(Pins(schematic))
    ensures m in Compare(layout, schematic).mismatches <==>
      exists i, j :: IsMismatch(Pins(layout), Pins(schematic), SharedOf(layout, schematic), i, j, m)
  {
    hide GroupOf, Groups, Pins, Shared, Matched, Mismatches, FindGroup, InstOf, Drop;
    var lp, sp, shared := Pins(layout), Pins(schematic), SharedOf(layout, schematic);
    var sgs, lgs := Groups(sp, sp, shared), Groups(lp, lp, shared);
    MismatchesIff(shared, sgs, lgs, m);
    SharedIn(sp, lp, Matched(layout, schematic), m.pin);
    if m.pin in shared {
      var i :| 0 <= i < |lp| && lp[i].name == m.pin;
      var j :| 0 <= j < |sp| && sp[j].name == m.pin;
      FindGroupOf(lp, lp, shared, i);
      FindGroupOf(sp, sp, shared, j);
      if m in Compare(layout, schematic).mismatches {
        assert IsMismatch(lp, sp, shared, i, j, m);
      }
    }
  }

  ghost predicate SameDevices(layout: Snapshot, schematic: Snapshot) {
    forall d :: d in Devices(layout.instances) <==> d in Devices(schematic.instances)
  }

  ghost predicate SameSharing(layout: Snapshot, schematic: Snapshot) {
    forall t, u :: t in SharedOf(layout, schematic) && u in SharedOf(layout, schematic) ==>
      (Shares(Pins(layout), t, u) <==> Shares(Pins(schematic), t, u))
  }

  lemma EmptyDrop(s: seq<string>, drop: seq<string>)
    ensures Drop(s, drop) == [] <==> forall x :: x in s ==> x in drop
  {
    hide Drop;
    forall x
      ensures x in Drop(s, drop) <==> x in s && x !in drop
    {
      DropIn(s, drop, x);
    }
    if Drop(s, drop) != [] {
      assert Drop(s, drop)[0] in Drop(s, drop);
    }
  }

  /** A shared terminal that shares a net with u in one view only is reported. */
  lemma DifferenceReported(layout: Snapshot, schematic: Snapshot, t: string, u: string)
    requires DistinctPins(Pins(layout)) && DistinctPins(Pins(schematic))
    requires t in SharedOf(layout, schematic) && u in SharedOf(layout, schematic)
    requires Shares(Pins(layout), t, u) != Shares(Pins(schematic), t, u)
    ensures exists m :: m in Compare(layout, schematic).mismatches && m.pin == t
  {
    hide Pins, Shares, GroupOf, Compare;
    var lp, sp, shared := Pins(layout), Pins(schematic), SharedOf(layout, schematic);
    SharedIn(sp, lp, Matched(layout, schematic), t);
    var i :| 0 <= i < |lp| && lp[i].name == t;
    var j :| 0 <= j < |sp| && sp[j].name == t;
    SameGroupIff(lp, sp, shared, i, j);
    var m := Mismatch(t, GroupOf(sp, shared, sp[j]), GroupOf(lp, shared, lp[i]));
    assert IsMismatch(lp, sp, shared, i, j, m);
    ReportedIff(layout, schematic, m);
  }

  lemma NoMismatchIff(layout: Snapshot, schematic: Snapshot)
    requires DistinctPins(Pins(layout)) && DistinctPins(Pins(schematic))
    ensures Compare(layout, schematic).mismatches == [] <==> SameSharing(layout, schematic)
  {
    hide Pins, Shares, GroupOf, Compare, SharedOf;
    var lp, sp, shared := Pins(layout), Pins(schematic), SharedOf(layout, schematic);
    var ms := Compare(layout, schematic).mismatches;
    if SameSharing(layout, schematic) && ms != [] {
      assert ms[0] in ms;
      ReportedIff(layout, schematic, ms[0]);
      var i, j :| IsMismatch(lp, sp, shared, i, j, ms[0]);
      SameGroupIff(lp, sp, shared, i, j);
    }
    if ms == [] {
      forall t, u | t in shared && u in shared
        ensures Shares(lp, t, u) <==> Shares(sp, t, u)
      {
        if !(Shares(lp, t, u) <==> Shares(sp, t, u)) {
          DifferenceReported(layout, schematic, t, u);
        }
      }
    }
  }

  /** The verdict is "clean" exactly when the device names agree and every two shared terminals share a
      net in the layout just when they do in the schematic. */
  lemma CleanIff(layout: Snapshot, schematic: Snapshot)
    requires DistinctPins(Pins(layout)) && DistinctPins(Pins(schematic))
    ensures Compare(layout, schematic).clean <==> SameDevices(layout, schematic) && SameSharing(layout, schematic)
  {
    hide Devices, Pins, Shares, SharedOf, Mismatches, Groups;
    var lDev, sDev := Devices(layout.instances), Devices(schematic.instances);
    EmptyDrop(lDev, sDev);
    EmptyDrop(sDev, lDev);
    NoMismatchIff(layout, schematic);
  }

  /** A terminal in one of a reported terminal's two groups but not the other is itself reported. */
  lemma PartnerReported(layout: Snapshot, schematic: Snapshot, m: Mismatch, u: string)
    requires DistinctPins(Pins(layout)) && DistinctPins(Pins(schematic))
    requires m in Compare(layout, schematic).mismatches && (u in m.layout) != (u in m.schematic)
    ensures exists m' :: m' in Compare(layout, schematic).mismatches && m'.pin == u
  {
    hide Pins, GroupOf, Compare, SharedOf;
    var lp, sp, shared := Pins(layout), Pins(schematic), SharedOf(layout, schematic);
    ReportedIff(layout, schematic, m);
    var i, j :| IsMismatch(lp, sp, shared, i, j, m);
    GroupIff(lp, shared, i, u);
    GroupIff(sp, shared, j, u);
    DifferenceReported(layout, schematic, u, m.pin);
  }

  // ---- net names do not matter ----

  /** g gives different used nets different names. */
  ghost predicate OneToOne(g: map<string, string>, pins: seq<Pin>) {
    forall n, n' :: Uses(pins, n) && Uses(pins, n') && Rename(g, Some(n)) == Rename(g, Some(n')) ==> n == n'
  }

  lemma {:induction false} MembersRenamed(ps: seq<Pin>, qs: seq<Pin>, pins: seq<Pin>, g: map<string, string>, n: string)
    requires OneToOne(g, pins) && Uses(pins, n) && Reconcile.PinsRenamed(ps, qs, g)
    requires forall p :: p in ps ==> p in pins
    ensures Members(qs, Rename(g, Some(n)).value) == Members(ps, n)
  {
    if ps == [] {
    } else {
      var k := |ps| - 1;
      MembersRenamed(ps[..k], qs[..k], pins, g, n);
      assert ps[k] in pins;
      var i :| 0 <= i < |pins| && pins[i] == ps[k];
      if ps[k].net.Some? {
        assert OnNet(pins, ps[k].name, ps[k].net.value);
      }
    }
  }

  lemma {:induction false} GroupsRenamed(ps: seq<Pin>, qs: seq<Pin>, pins: seq<Pin>, pins': seq<Pin>,
                                     g: map<string, string>,
                                         keep: seq<string>)
    requires OneToOne(g, pins) && Reconcile.PinsRenamed(pins, pins', g) && Reconcile.PinsRenamed(ps, qs, g)
    requires forall p :: p in ps ==> p in pins
    ensures Groups(qs, pins', keep) == Groups(ps, pins, keep)
  {
    hide OneToOne, Sort, Keep;
    if ps == [] {
    } else {
      var k := |ps| - 1;
      GroupsRenamed(ps[..k], qs[..k], pins, pins', g, keep);
      if ps[k].net.Some? {
        assert ps[k] in pins;
        var i :| 0 <= i < |pins| && pins[i] == ps[k];
        assert OnNet(pins, ps[k].name, ps[k].net.value);
        MembersRenamed(pins, pins', pins, g, ps[k].net.value);
      }
      assert GroupOf(pins', keep, qs[k]) == GroupOf(pins, keep, ps[k]);
    }
  }

  lemma {:induction false} FindRenamed(ps: seq<Pin>, qs: seq<Pin>, g: map<string, string>, l: string)
    requires Reconcile.PinsRenamed(ps, qs, g)
    ensures FindPin(qs, l).Some? <==> FindPin(ps, l).Some?
  {
    if ps == [] {
    } else {
      FindRenamed(ps[1..], qs[1..], g, l);
    }
  }

  lemma {:induction false} SharedRenamed(ps: seq<Pin>, qs: seq<Pin>, g: map<string, string>, other: seq<Pin>,
                                     other': seq<Pin>,
                                         h: map<string, string>, matched: seq<string>)
    requires Reconcile.PinsRenamed(ps, qs, g) && Reconcile.PinsRenamed(other, other', h)
    ensures Shared(qs, other', matched) == Shared(ps, other, matched)
  {
    hide InstOf;
    if ps == [] {
    } else {
      SharedRenamed(ps[1..], qs[1..], g, other, other', h, matched);
      FindRenamed(other, other', h, ps[0].name);
    }
  }

  lemma {:induction false} DevicesRenamed(xs: seq<Inst>, g: map<string, string>)
    ensures Devices(Reconcile.RenumberInsts(xs, g)) == Devices(xs)
  {
    if xs == [] {
    } else {
      var n := |xs| - 1;
      DevicesRenamed(xs[..n], g);
      assert Reconcile.RenumberInsts(xs, g)[..n] == Reconcile.RenumberInsts(xs[..n], g);
    }
  }

  /** The whole report is the same whatever one-to-one renaming of nets is made on either side. */
  lemma NamesDoNotMatter(layout: Snapshot, schematic: Snapshot, g: map<string, string>, h: map<string, string>)
    requires OneToOne(g, Pins(layout)) && OneToOne(h, Pins(schematic))
    ensures Compare(Reconcile.Renumber(layout, g), Reconcile.Renumber(schematic, h)) == Compare(layout, schematic)
  {
    hide Devices, PinsOf, OneToOne, Groups, Shared;
    var l', s' := Reconcile.Renumber(layout, g), Reconcile.Renumber(schematic, h);
    Reconcile.RenumberPins(layout.instances, g);
    Reconcile.RenumberPins(schematic.instances, h);
    DevicesRenamed(layout.instances, g);
    DevicesRenamed(schematic.instances, h);
    SharedRenamed(Pins(schematic), Pins(s'), h, Pins(layout), Pins(l'), g, Matched(layout, schematic));
    var shared := SharedOf(layout, schematic);
    GroupsRenamed(Pins(layout), Pins(l'), Pins(layout), Pins(l'), g, shared);
    GroupsRenamed(Pins(schematic), Pins(s'), Pins(schematic), Pins(s'), h, shared);
  }
}
