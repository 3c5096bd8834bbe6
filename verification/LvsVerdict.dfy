/** What the layout-versus-schematic report says, in terms of the two snapshots (skill/vfp_layout.il). */
module LvsVerdict {
  import opened Text
  import opened Connectivity
  import opened Renaming
  import opened Lvs
  import Reconcile

  // ---- devices ----

  /** The instance part of a full terminal name. */
  lemma InstOfLabel(i: string, t: string)
    requires i != "" && '.' !in i
    ensures InstOf(i + "." + t) == Some(i)
  {
    TokensCons(i, '.', t);
    assert i + "." + t == i + ['.'] + t;
  }

  /** The cell part of a "lib/cell/view" master. */
  lemma CellOfMaster(lib: string, cell: string, view: string)
    requires lib != "" && '/' !in lib && cell != "" && '/' !in cell
    ensures CellOf(lib + "/" + cell + "/" + view) == Some(cell)
  {
    var rest := cell + ['/'] + view;
    TokensCons(lib, '/', rest);
    TokensCons(cell, '/', view);
    assert lib + "/" + cell + "/" + view == lib + ['/'] + rest;
  }

  ghost predicate DeviceAt(xs: seq<Inst>, i: int, d: string) {
    0 <= i < |xs| && xs[i].name == d && !PinCell(CellOf(xs[i].master))
  }

  lemma {:induction false} DevicesIff(xs: seq<Inst>, d: string)
    ensures d in Devices(xs) <==> exists i :: DeviceAt(xs, i, d)
  {
    hide CellOf, PinCell;
    if xs == [] {
    } else {
      var k := |xs| - 1;
      DevicesIff(xs[..k], d);
      forall i | 0 <= i < k
        ensures DeviceAt(xs[..k], i, d) <==> DeviceAt(xs, i, d)
      {
        assert xs[..k][i] == xs[i];
      }
      if d in Devices(xs[..k]) {
        var i :| DeviceAt(xs[..k], i, d);
        assert DeviceAt(xs, i, d);
      } else if d in Devices(xs) {
        assert DeviceAt(xs, k, d);
      }
    }
  }

  /** The master of instance i is the given cell of some library, as "lib/cell/view". */
  ghost predicate OfCell(s: Snapshot, i: int, cell: string) {
    && 0 <= i < |s.instances| && cell != "" && '/' !in cell
    && exists lib, view :: lib != "" && '/' !in lib && s.instances[i].master == lib + "/" + cell + "/" + view
  }

  /** The instances that count as devices are those that are not ipin, opin or iopin symbols. */
  lemma DeviceOfCell(s: Snapshot, i: nat, cell: string)
    requires Reconcile.DistinctNames(s.instances) && OfCell(s, i, cell)
    ensures s.instances[i].name in Devices(s.instances) <==> cell != "ipin" && cell != "opin" && cell != "iopin"
  {
    hide CellOf, Devices;
    var lib, view :| lib != "" && '/' !in lib && s.instances[i].master == lib + "/" + cell + "/" + view;
    CellOfMaster(lib, cell, view);
    DevicesIff(s.instances, s.instances[i].name);
    assert DeviceAt(s.instances, i, s.instances[i].name) <==> !PinCell(CellOf(s.instances[i].master));
  }

  /** An instance whose master has no cell part counts as a device. */
  lemma DeviceOfOddMaster(s: Snapshot, i: nat)
    requires Reconcile.DistinctNames(s.instances) && i < |s.instances| && '/' !in s.instances[i].master
    ensures s.instances[i].name in Devices(s.instances)
  {
    hide Devices;
    if s.instances[i].master != "" {
      TokensCons(s.instances[i].master, '/', "");
    }
    DevicesIff(s.instances, s.instances[i].name);
    assert DeviceAt(s.instances, i, s.instances[i].name) <==> !PinCell(CellOf(s.instances[i].master));
  }

  ghost predicate IsDevice(s: Snapshot, d: string) {
    exists i :: DeviceAt(s.instances, i, d)
  }

  lemma {:induction false} DevicesDistinct(xs: seq<Inst>)
    requires Reconcile.DistinctNames(xs)
    ensures Distinct(Devices(xs))
  {
    hide CellOf, PinCell;
    if xs == [] {
    } else {
      var k := |xs| - 1;
      DevicesDistinct(xs[..k]);
      DevicesIff(xs[..k], xs[k].name);
    }
  }

  /** The three device parts of the report: the devices of one view only, and how many both have. */
  lemma DeviceParts(layout: Snapshot, schematic: Snapshot, d: string)
    ensures d in Compare(layout, schematic).onlyLayout <==> IsDevice(layout, d) && !IsDevice(schematic, d)
    ensures d in Compare(layout, schematic).onlySchematic <==> IsDevice(schematic, d) && !IsDevice(layout, d)
  {
    hide Devices, Drop, CellOf, PinCell, Mismatches, Groups, Pins, SharedOf;
    DropIn(Devices(layout.instances), Devices(schematic.instances), d);
    DropIn(Devices(schematic.instances), Devices(layout.instances), d);
    DevicesIff(layout.instances, d);
    DevicesIff(schematic.instances, d);
  }

  lemma {:induction false} DistinctSize(s: seq<string>)
    requires Distinct(s)
    ensures |set x | x in s| == |s|
  {
    if s == [] {
      assert (set x | x in s) == {};
    } else {
      DistinctSize(s[1..]);
      assert s == [s[0]] + s[1..];
      assert (set x | x in s) == {s[0]} + set x | x in s[1..];
      assert s[0] !in s[1..];
    }
  }

  /** The count of matched devices is the number of names that are devices in both views. */
  lemma MatchedCount(layout: Snapshot, schematic: Snapshot, both: set<string>)
    requires Reconcile.DistinctNames(schematic.instances)
    requires forall d :: d in both <==> IsDevice(layout, d) && IsDevice(schematic, d)
    ensures Compare(layout, schematic).matched == |both|
  {
    hide Devices, Keep, Drop, CellOf, PinCell, Mismatches, Groups, Pins, SharedOf;
    var ms := Matched(layout, schematic);
    DevicesDistinct(schematic.instances);
    KeepDistinct(Devices(schematic.instances), Devices(layout.instances));
    DistinctSize(ms);
    forall d
      ensures d in ms <==> d in both
    {
      KeepIn(Devices(schematic.instances), Devices(layout.instances), d);
      DevicesIff(layout.instances, d);
      DevicesIff(schematic.instances, d);
    }
    assert (set x | x in ms) == both;
  }

  // ---- terminals ----

  /** Instance x lists terminal t. */
  ghost predicate Lists(s: Snapshot, x: string, t: string) {
    exists i, k :: 0 <= i < |s.instances| && 0 <= k < |s.instances[i].terms|
      && s.instances[i].name == x && s.instances[i].terms[k].term == t
  }

  /** Instance x has terminal t on net n. */
  ghost predicate Wired(s: Snapshot, x: string, t: string, n: string) {
    exists i, k :: 0 <= i < |s.instances| && 0 <= k < |s.instances[i].terms|
      && s.instances[i].name == x && s.instances[i].terms[k] == Term(t, Some(n))
  }

  ghost predicate Joined(s: Snapshot, x: string, t: string, y: string, u: string) {
    exists n :: Wired(s, x, t, n) && Wired(s, y, u, n)
  }

  /** Names as in any cellview: distinct, not empty and without dots. */
  ghost predicate Named(s: Snapshot) {
    && Reconcile.DistinctNames(s.instances)
    && forall i :: 0 <= i < |s.instances| ==>
         s.instances[i].name != "" && '.' !in s.instances[i].name && Reconcile.DistinctTerms(s.instances[i])
  }

  lemma NamedPins(s: Snapshot)
    requires Named(s)
    ensures DistinctPins(Pins(s))
  {
    Reconcile.LabelsDistinct(s.instances);
  }

  lemma SameLabel(x: string, t: string, y: string, u: string)
    requires '.' !in x && '.' !in y && x + "." + t == y + "." + u
    ensures x == y && t == u
  {
    assert x + "." + t == x + ['.'] + t && y + "." + u == y + ['.'] + u;
    CutUnique(x, '.', t, y, u);
  }

  lemma ListsIff(s: Snapshot, x: string, t: string)
    requires Named(s) && '.' !in x
    ensures HasPin(Pins(s), x + "." + t) <==> Lists(s, x, t)
  {
    hide Pins;
    var l := x + "." + t;
    if HasPin(Pins(s), l) {
      var k :| 0 <= k < |Pins(s)| && Pins(s)[k].name == l;
      PinsIff(s, Pins(s)[k]);
      var i, j :| 0 <= i < |s.instances| && 0 <= j < |s.instances[i].terms|
               && l == s.instances[i].name + "." + s.instances[i].terms[j].term;
      SameLabel(s.instances[i].name, s.instances[i].terms[j].term, x, t);
    }
    if Lists(s, x, t) {
      var i, j :| 0 <= i < |s.instances| && 0 <= j < |s.instances[i].terms|
               && s.instances[i].name == x && s.instances[i].terms[j].term == t;
      var p := Pin(l, s.instances[i].terms[j].net);
      PinsIff(s, p);
      var k :| 0 <= k < |Pins(s)| && Pins(s)[k] == p;
    }
  }

  lemma WiredIff(s: Snapshot, x: string, t: string, n: string)
    requires Named(s) && '.' !in x
    ensures OnNet(Pins(s), x + "." + t, n) <==> Wired(s, x, t, n)
  {
    hide Pins;
    var p := Pin(x + "." + t, Some(n));
    PinsIff(s, p);
    if OnNet(Pins(s), x + "." + t, n) {
      assert p in Pins(s);
      var i, j :| 0 <= i < |s.instances| && 0 <= j < |s.instances[i].terms|
               && p.name == s.instances[i].name + "." + s.instances[i].terms[j].term
               && p.net == s.instances[i].terms[j].net;
      SameLabel(s.instances[i].name, s.instances[i].terms[j].term, x, t);
    }
    if Wired(s, x, t, n) {
      assert Attached(s, p.name, p.net);
      var k :| 0 <= k < |Pins(s)| && Pins(s)[k] == p;
    }
  }

  lemma SharesIff(s: Snapshot, x: string, t: string, y: string, u: string)
    requires Named(s) && '.' !in x && '.' !in y && (x, t) != (y, u)
    ensures Shares(Pins(s), x + "." + t, y + "." + u) <==> Joined(s, x, t, y, u)
  {
    hide Pins, OnNet, Wired;
    if x + "." + t == y + "." + u {
      SameLabel(x, t, y, u);
    }
    forall n
      ensures OnNet(Pins(s), x + "." + t, n) <==> Wired(s, x, t, n)
      ensures OnNet(Pins(s), y + "." + u, n) <==> Wired(s, y, u, n)
    {
      WiredIff(s, x, t, n);
      WiredIff(s, y, u, n);
    }
  }

  /** A terminal of a device of both views that both list. */
  ghost predicate Common(layout: Snapshot, schematic: Snapshot, x: string, t: string) {
    IsDevice(layout, x) && IsDevice(schematic, x) && Lists(layout, x, t) && Lists(schematic, x, t)
  }

  lemma DeviceNamed(s: Snapshot, x: string)
    requires Named(s) && IsDevice(s, x)
    ensures x != "" && '.' !in x
  {
  }

  lemma CommonShared(layout: Snapshot, schematic: Snapshot, x: string, t: string)
    requires Named(layout) && Named(schematic) && Common(layout, schematic, x, t)
    ensures x + "." + t in SharedOf(layout, schematic)
  {
    hide Pins, InstOf, Devices, Shared, Keep, HasPin, Lists, Named;
    DeviceNamed(layout, x);
    var l := x + "." + t;
    SharedIn(Pins(schematic), Pins(layout), Matched(layout, schematic), l);
    KeepIn(Devices(schematic.instances), Devices(layout.instances), x);
    DevicesIff(layout.instances, x);
    DevicesIff(schematic.instances, x);
    InstOfLabel(x, t);
    ListsIff(layout, x, t);
    ListsIff(schematic, x, t);
  }

  lemma PinLabel(s: Snapshot, l: string)
    requires Named(s) && HasPin(Pins(s), l)
    ensures exists x, t :: l == x + "." + t && x != "" && '.' !in x && Lists(s, x, t)
  {
    hide Pins, Lists;
    var k :| 0 <= k < |Pins(s)| && Pins(s)[k].name == l;
    PinsIff(s, Pins(s)[k]);
    var i, j :| 0 <= i < |s.instances| && 0 <= j < |s.instances[i].terms|
             && l == s.instances[i].name + "." + s.instances[i].terms[j].term;
    ListsIff(s, s.instances[i].name, s.instances[i].terms[j].term);
  }

  lemma SharedCommon(layout: Snapshot, schematic: Snapshot, l: string)
    requires Named(layout) && Named(schematic) && l in SharedOf(layout, schematic)
    ensures exists x, t :: l == x + "." + t && '.' !in x && Common(layout, schematic, x, t)
  {
    hide Pins, InstOf, Devices, Shared, Keep, HasPin, Lists, Named;
    SharedIn(Pins(schematic), Pins(layout), Matched(layout, schematic), l);
    PinLabel(schematic, l);
    var x, t :| l == x + "." + t && x != "" && '.' !in x && Lists(schematic, x, t);
    InstOfLabel(x, t);
    ListsIff(layout, x, t);
    KeepIn(Devices(schematic.instances), Devices(layout.instances), x);
    DevicesIff(layout.instances, x);
    DevicesIff(schematic.instances, x);
  }

  // ---- the verdict ----

  lemma CommonDotFree(layout: Snapshot, schematic: Snapshot, x: string, t: string)
    requires Named(layout) && Common(layout, schematic, x, t)
    ensures '.' !in x
  {
    DeviceNamed(layout, x);
  }

  lemma JoinedSymmetric(s: Snapshot, x: string, t: string, y: string, u: string)
    ensures Joined(s, x, t, y, u) <==> Joined(s, y, u, x, t)
  {
  }

  /** Two common terminals on one net in one view only: the report has issues and names both. */
  lemma SplitReported(layout: Snapshot, schematic: Snapshot, x: string, t: string, y: string, u: string)
    requires Named(layout) && Named(schematic) && (x, t) != (y, u)
    requires Common(layout, schematic, x, t) && Common(layout, schematic, y, u)
    requires Joined(layout, x, t, y, u) != Joined(schematic, x, t, y, u)
    ensures var r := Compare(layout, schematic);
            && !r.clean
            && (exists m :: m in r.mismatches && m.pin == x + "." + t)
            && (exists m :: m in r.mismatches && m.pin == y + "." + u)
  {
    hide Pins, SharedOf, Mismatches, Groups, Shares, Joined, Common, Named;
    CommonDotFree(layout, schematic, x, t);
    CommonDotFree(layout, schematic, y, u);
    NamedPins(layout);
    NamedPins(schematic);
    CommonShared(layout, schematic, x, t);
    CommonShared(layout, schematic, y, u);
    SharesIff(layout, x, t, y, u);
    SharesIff(schematic, x, t, y, u);
    SharesIff(layout, y, u, x, t);
    SharesIff(schematic, y, u, x, t);
    JoinedSymmetric(layout, x, t, y, u);
    JoinedSymmetric(schematic, x, t, y, u);
    DifferenceReported(layout, schematic, x + "." + t, y + "." + u);
    DifferenceReported(layout, schematic, y + "." + u, x + "." + t);
  }

  ghost predicate SameJoins(layout: Snapshot, schematic: Snapshot) {
    forall x, t, y, u :: Common(layout, schematic, x, t) && Common(layout, schematic, y, u) && (x, t) != (y, u) ==>
      (Joined(layout, x, t, y, u) <==> Joined(schematic, x, t, y, u))
  }

  lemma SharesSelf(pins: seq<Pin>, l: string)
    ensures Shares(pins, l, l)
  {
  }

  lemma SameJoinsShare(layout: Snapshot, schematic: Snapshot)
    requires Named(layout) && Named(schematic) && SameJoins(layout, schematic)
    ensures SameSharing(layout, schematic)
  {
    hide Pins, SharedOf, Shares, Joined, Common, Named;
    forall l, l' | l in SharedOf(layout, schematic) && l' in SharedOf(layout, schematic)
      ensures Shares(Pins(layout), l, l') <==> Shares(Pins(schematic), l, l')
    {
      if l == l' {
        SharesSelf(Pins(layout), l);
        SharesSelf(Pins(schematic), l);
      } else {
        SharedCommon(layout, schematic, l);
        SharedCommon(layout, schematic, l');
        var x, t :| l == x + "." + t && '.' !in x && Common(layout, schematic, x, t);
        var y, u :| l' == y + "." + u && '.' !in y && Common(layout, schematic, y, u);
        SharesIff(layout, x, t, y, u);
        SharesIff(schematic, x, t, y, u);
      }
    }
  }

  lemma DeviceInList(s: Snapshot, d: string)
    ensures d in Devices(s.instances) <==> IsDevice(s, d)
  {
    DevicesIff(s.instances, d);
  }

  /** The verdict is "clean" exactly when the views have the same devices and join the same pairs of common
      terminals. */
  lemma CleanFromSnapshots(layout: Snapshot, schematic: Snapshot)
    requires Named(layout) && Named(schematic)
    ensures Compare(layout, schematic).clean <==>
      (forall d :: IsDevice(layout, d) <==> IsDevice(schematic, d)) && SameJoins(layout, schematic)
  {
    hide Pins, SharedOf, Devices, Joined, Common, Named, SameSharing, IsDevice, Compare;
    NamedPins(layout);
    NamedPins(schematic);
    CleanIff(layout, schematic);
    forall d
      ensures d in Devices(layout.instances) <==> IsDevice(layout, d)
      ensures d in Devices(schematic.instances) <==> IsDevice(schematic, d)
    {
      DeviceInList(layout, d);
      DeviceInList(schematic, d);
    }
    if SameJoins(layout, schematic) {
      SameJoinsShare(layout, schematic);
    } else {
      var x, t, y, u :| Common(layout, schematic, x, t) && Common(layout, schematic, y, u) && (x, t) != (y, u)
        && !(Joined(layout, x, t, y, u) <==> Joined(schematic, x, t, y, u));
      SplitReported(layout, schematic, x, t, y, u);
    }
  }
}
