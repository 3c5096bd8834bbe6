/** Canonical net forms and renamings: when the terminals two snapshots share are attached to the same things
    up to a one-to-one renaming of auto nets. */
module Renaming {
  import opened Text
  import opened Connectivity

  // ---- snapshots as terminal -> net maps ----

  ghost predicate DistinctPins(pins: seq<Pin>) {
    forall i, j :: 0 <= i < j < |pins| ==> pins[i].name != pins[j].name
  }

  ghost predicate HasPin(pins: seq<Pin>, l: string) {
    exists k :: 0 <= k < |pins| && pins[k].name == l
  }

  function NetOf(pins: seq<Pin>, l: string): Option<string> {
    match FindPin(pins, l) case None => None case Some(p) => p.net
  }

  /** Terminal names are distinct, not empty and free of the canonical form's separator. */
  ghost predicate Clean(pins: seq<Pin>) {
    && DistinctPins(pins)
    && (forall k :: 0 <= k < |pins| ==> pins[k].name != "" && '|' !in pins[k].name)
  }

  /** Instance names and terminal names are distinct, as in any cellview. */
  ghost predicate WellFormed(s: Snapshot) {
    && (forall i, j :: 0 <= i < j < |s.instances| ==> s.instances[i].name != s.instances[j].name)
    && DistinctPins(Pins(s))
  }

  ghost predicate SameTerminals(pa: seq<Pin>, pb: seq<Pin>) {
    forall l :: HasPin(pa, l) <==> HasPin(pb, l)
  }

  ghost predicate OnNet(pins: seq<Pin>, l: string, n: string) {
    exists k :: 0 <= k < |pins| && pins[k] == Pin(l, Some(n))
  }

  /** No terminal moves between an auto net and a named one. */
  ghost predicate Kinds(pa: seq<Pin>, pb: seq<Pin>) {
    forall l, n, m :: OnNet(pa, l, n) && OnNet(pb, l, m) ==> (AutoNet(n) <==> AutoNet(m))
  }

  lemma FindPinAt(pins: seq<Pin>, k: nat)
    requires DistinctPins(pins) && k < |pins|
    ensures FindPin(pins, pins[k].name) == Some(pins[k])
  {
    FindPinIn(pins, pins[k].name);
  }

  lemma NetOfIff(pins: seq<Pin>, l: string, n: string)
    requires DistinctPins(pins)
    ensures NetOf(pins, l) == Some(n) <==> OnNet(pins, l, n)
  {
    FindPinIn(pins, l);
    if NetOf(pins, l) == Some(n) {
      var p := FindPin(pins, l).value;
      var k :| 0 <= k < |pins| && pins[k] == p;
      assert pins[k] == Pin(l, Some(n));
    }
    if OnNet(pins, l, n) {
      var k :| 0 <= k < |pins| && pins[k] == Pin(l, Some(n));
      FindPinAt(pins, k);
    }
  }

  lemma {:induction false} MembersIff(pins: seq<Pin>, n: string, l: string)
    ensures l in Members(pins, n) <==> OnNet(pins, l, n)
  {
    if pins == [] {
    } else {
      var k := |pins| - 1;
      MembersIff(pins[..k], n, l);
      if OnNet(pins[..k], l, n) {
        var i :| 0 <= i < k && pins[..k][i] == Pin(l, Some(n));
        assert pins[i] == Pin(l, Some(n));
      }
      if OnNet(pins, l, n) {
        var i :| 0 <= i < |pins| && pins[i] == Pin(l, Some(n));
        if i < k {
          assert pins[..k][i] == Pin(l, Some(n));
        }
      }
    }
  }

  lemma {:induction false} MembersDistinct(pins: seq<Pin>, n: string)
    requires DistinctPins(pins)
    ensures Distinct(Members(pins, n))
  {
    if pins == [] {
    } else {
      var k := |pins| - 1;
      MembersDistinct(pins[..k], n);
      MembersIff(pins[..k], n, pins[k].name);
    }
  }

  ghost predicate SameMembers(pa: seq<Pin>, n: string, pb: seq<Pin>, m: string) {
    forall l :: OnNet(pa, l, n) <==> OnNet(pb, l, m)
  }

  lemma SortedMembersIff(pa: seq<Pin>, n: string, pb: seq<Pin>, m: string)
    requires DistinctPins(pa) && DistinctPins(pb)
    ensures Sort(Members(pa, n)) == Sort(Members(pb, m)) <==> SameMembers(pa, n, pb, m)
  {
    hide OnNet, Sort, Members;
    MembersDistinct(pa, n);
    MembersDistinct(pb, m);
    SortCanonicalSet(Members(pa, n), Members(pb, m));
    forall l
      ensures l in Members(pa, n) <==> OnNet(pa, l, n)
      ensures l in Members(pb, m) <==> OnNet(pb, l, m)
    {
      MembersIff(pa, n, l);
      MembersIff(pb, m, l);
    }
  }

  lemma SortedMembersClean(pins: seq<Pin>, n: string, x: string)
    requires Clean(pins) && x in Sort(Members(pins, n))
    ensures x != "" && '|' !in x
  {
    SortMembers(Members(pins, n), x);
    MembersIff(pins, n, x);
  }

  /** Canonical forms agree for two auto nets with the same members, and only for those where terminal names
      are clean; for one named net; and across the kinds only where the named net is spelled like the auto
      net's canonical form. */
  lemma CanonIff(pa: seq<Pin>, n: string, pb: seq<Pin>, m: string)
    requires DistinctPins(pa) && DistinctPins(pb)
    ensures AutoNet(n) && AutoNet(m) && SameMembers(pa, n, pb, m) ==> Canon(pa, n) == Canon(pb, m)
    ensures AutoNet(n) && AutoNet(m) && Clean(pa) && Clean(pb) ==>
      (Canon(pa, n) == Canon(pb, m) <==> SameMembers(pa, n, pb, m))
    ensures AutoNet(n) && !AutoNet(m) ==> (Canon(pa, n) == Canon(pb, m) <==> m == Canon(pa, n))
    ensures !AutoNet(n) && AutoNet(m) ==> (Canon(pa, n) == Canon(pb, m) <==> n == Canon(pb, m))
    ensures !AutoNet(n) && !AutoNet(m) ==> (Canon(pa, n) == Canon(pb, m) <==> n == m)
  {
    hide Sort, Join, Members, SameMembers;
    if AutoNet(n) && AutoNet(m) {
      var sa, sb := Sort(Members(pa, n)), Sort(Members(pb, m));
      SortedMembersIff(pa, n, pb, m);
      if Clean(pa) && Clean(pb) && Canon(pa, n) == Canon(pb, m) {
        assert Join(sa, '|') == Canon(pa, n)[1..] && Join(sb, '|') == Canon(pb, m)[1..];
        forall x | x in sa ensures x != "" && '|' !in x { SortedMembersClean(pa, n, x); }
        forall x | x in sb ensures x != "" && '|' !in x { SortedMembersClean(pb, m, x); }
        JoinInjective(sa, sb, '|');
      }
    }
  }

  /** Where a terminal's two auto nets have one canonical form, they have the same members. */
  ghost predicate Legible(pa: seq<Pin>, pb: seq<Pin>) {
    forall l, n, m :: OnNet(pa, l, n) && OnNet(pb, l, m) && AutoNet(n) && AutoNet(m) && Canon(pa, n) == Canon(pb, m) ==>
      SameMembers(pa, n, pb, m)
  }

  /** Clean terminal names are enough for that. */
  lemma CleanLegible(pa: seq<Pin>, pb: seq<Pin>)
    requires Clean(pa) && Clean(pb)
    ensures Legible(pa, pb)
  {
    hide OnNet, AutoNet, Canon, SameMembers;
    forall l, n, m | OnNet(pa, l, n) && OnNet(pb, l, m) && AutoNet(n) && AutoNet(m) && Canon(pa, n) == Canon(pb, m)
      ensures SameMembers(pa, n, pb, m)
    {
      CanonIff(pa, n, pb, m);
    }
  }

  // ---- renamings ----

  ghost predicate Uses(pins: seq<Pin>, n: string) {
    exists l :: OnNet(pins, l, n)
  }

  /** Net n of A carries a terminal that B lists too. */
  ghost predicate Compared(pa: seq<Pin>, pb: seq<Pin>, n: string) {
    exists l :: OnNet(pa, l, n) && HasPin(pb, l)
  }

  function Rename(f: map<string, string>, net: Option<string>): Option<string> {
    if net.Some? && net.value in f then Some(f[net.value]) else net
  }

  /** f carries the auto nets of A that carry a shared terminal one-to-one onto those of B and turns A's net of
      every shared terminal into B's; named nets and floating terminals stay as they are, and every terminal of
      these auto nets is shared. */
  ghost predicate IsRenaming(f: map<string, string>, pa: seq<Pin>, pb: seq<Pin>) {
    && (forall n :: n in f <==> AutoNet(n) && Compared(pa, pb, n))
    && (forall m :: m in f.Values <==> AutoNet(m) && Compared(pb, pa, m))
    && (forall n, n' :: n in f && n' in f && f[n] == f[n'] ==> n == n')
    && (forall l :: HasPin(pa, l) && HasPin(pb, l) ==> NetOf(pb, l) == Rename(f, NetOf(pa, l)))
    && (forall l, n :: n in f && OnNet(pa, l, n) ==> HasPin(pb, l))
    && (forall l, m :: m in f.Values && OnNet(pb, l, m) ==> HasPin(pa, l))
  }

  /** Every shared terminal is attached to the same thing, canonically. */
  ghost predicate SameCanon(pa: seq<Pin>, pb: seq<Pin>) {
    forall l :: HasPin(pa, l) && HasPin(pb, l) ==> CanonOf(pa, NetOf(pa, l)) == CanonOf(pb, NetOf(pb, l))
  }

  lemma OnNetPin(pins: seq<Pin>, l: string, n: string)
    requires DistinctPins(pins) && OnNet(pins, l, n)
    ensures HasPin(pins, l) && NetOf(pins, l) == Some(n)
  {
    var k :| 0 <= k < |pins| && pins[k] == Pin(l, Some(n));
    assert pins[k].name == l;
    NetOfIff(pins, l, n);
  }

  /** What an empty terminal part of the diff gives, with nothing hidden by the spelling of names. */
  ghost predicate Agree(pa: seq<Pin>, pb: seq<Pin>) {
    DistinctPins(pa) && DistinctPins(pb) && SameCanon(pa, pb) && Kinds(pa, pb) && Legible(pa, pb)
  }

  /** Then a shared terminal on an auto net of A is on an auto net of B with the same members. */
  lemma AgreeAt(pa: seq<Pin>, pb: seq<Pin>, l: string, n: string)
    requires Agree(pa, pb) && OnNet(pa, l, n) && HasPin(pb, l)
    ensures exists m :: OnNet(pb, l, m)
                     && if AutoNet(n) then AutoNet(m) && SameMembers(pa, n, pb, m) else m == n
  {
    hide Canon, OnNet, SameMembers, HasPin;
    OnNetPin(pa, l, n);
    assert NetOf(pb, l).Some?;
    var m := NetOf(pb, l).value;
    NetOfIff(pb, l, m);
    CanonIff(pa, n, pb, m);
  }

  lemma SameMembersUnique(pa: seq<Pin>, n: string, n': string, pb: seq<Pin>, m: string)
    requires DistinctPins(pa) && Uses(pa, n) && SameMembers(pa, n, pb, m) && SameMembers(pa, n', pb, m)
    ensures n == n'
  {
    var l :| OnNet(pa, l, n);
    NetOfIff(pa, l, n);
    NetOfIff(pa, l, n');
  }

  /** The auto net of B that has the members of n. */
  ghost function Counterpart(pa: seq<Pin>, pb: seq<Pin>, n: string): (m: string)
    requires Agree(pa, pb) && Compared(pa, pb, n) && AutoNet(n)
    ensures AutoNet(m) && SameMembers(pa, n, pb, m)
  {
    var l :| OnNet(pa, l, n) && HasPin(pb, l);
    AgreeAt(pa, pb, l, n);
    var m :| OnNet(pb, l, m) && AutoNet(m) && SameMembers(pa, n, pb, m);
    m
  }

  ghost function ComparedNets(pa: seq<Pin>, pb: seq<Pin>): set<string> {
    set k | 0 <= k < |pa| && pa[k].net.Some? && AutoNet(pa[k].net.value) && HasPin(pb, pa[k].name) :: pa[k].net.value
  }

  lemma ComparedNetsIff(pa: seq<Pin>, pb: seq<Pin>, n: string)
    ensures n in ComparedNets(pa, pb) <==> AutoNet(n) && Compared(pa, pb, n)
  {
    hide HasPin, AutoNet;
    if AutoNet(n) && Compared(pa, pb, n) {
      var l :| OnNet(pa, l, n) && HasPin(pb, l);
      var k :| 0 <= k < |pa| && pa[k] == Pin(l, Some(n));
    }
    if n in ComparedNets(pa, pb) {
      var k :| 0 <= k < |pa| && pa[k].net == Some(n) && HasPin(pb, pa[k].name);
      assert OnNet(pa, pa[k].name, n);
    }
  }

  ghost predicate IsCounterpart(f: map<string, string>, pa: seq<Pin>, pb: seq<Pin>) {
    && (forall n :: n in f <==> AutoNet(n) && Compared(pa, pb, n))
    && (forall n :: n in f ==> AutoNet(f[n]) && SameMembers(pa, n, pb, f[n]))
  }

  lemma RenamedAt(pa: seq<Pin>, pb: seq<Pin>, f: map<string, string>, l: string)
    requires Agree(pa, pb) && IsCounterpart(f, pa, pb) && HasPin(pa, l) && HasPin(pb, l)
    ensures NetOf(pb, l) == Rename(f, NetOf(pa, l))
  {
    hide OnNet, AutoNet, Canon, HasPin, Kinds, Legible;
    if NetOf(pa, l).Some? {
      var n := NetOf(pa, l).value;
      NetOfIff(pa, l, n);
      if AutoNet(n) {
        assert Compared(pa, pb, n);
        NetOfIff(pb, l, f[n]);
      } else {
        AgreeAt(pa, pb, l, n);
        NetOfIff(pb, l, n);
      }
    }
  }

  lemma AgreePin(pa: seq<Pin>, pb: seq<Pin>, l: string, n: string)
    requires Agree(pa, pb) && OnNet(pa, l, n)
    ensures HasPin(pa, l)
  {
    OnNetPin(pa, l, n);
  }

  lemma AgreePinBack(pa: seq<Pin>, pb: seq<Pin>, f: map<string, string>, l: string, m: string)
    requires Agree(pa, pb) && IsCounterpart(f, pa, pb) && OnNet(pb, l, m) && HasPin(pa, l) && AutoNet(m)
    ensures m in f.Values
  {
    hide OnNet, AutoNet, Canon, HasPin, Kinds, Legible;
    OnNetPin(pb, l, m);
    RenamedAt(pa, pb, f, l);
    var n := NetOf(pa, l).value;
    NetOfIff(pa, l, n);
    assert Compared(pa, pb, n);
    assert n in f;
  }

  lemma RenamedOnto(pa: seq<Pin>, pb: seq<Pin>, f: map<string, string>, m: string)
    requires Agree(pa, pb) && IsCounterpart(f, pa, pb)
    ensures m in f.Values <==> AutoNet(m) && Compared(pb, pa, m)
  {
    hide OnNet, AutoNet, Canon, HasPin, Agree;
    if m in f.Values {
      var n :| n in f && f[n] == m;
      var l :| OnNet(pa, l, n) && HasPin(pb, l);
      assert OnNet(pb, l, m);
      AgreePin(pa, pb, l, n);
    }
    if AutoNet(m) && Compared(pb, pa, m) {
      var l :| OnNet(pb, l, m) && HasPin(pa, l);
      AgreePinBack(pa, pb, f, l, m);
    }
  }

  lemma CounterpartInjective(pa: seq<Pin>, pb: seq<Pin>, n: string, n': string, m: string)
    requires Agree(pa, pb) && Compared(pa, pb, n) && SameMembers(pa, n, pb, m) && SameMembers(pa, n', pb, m)
    ensures n == n'
  {
    hide OnNet, HasPin, SameMembers;
    assert Uses(pa, n);
    SameMembersUnique(pa, n, n', pb, m);
  }

  lemma SharedMember(pa: seq<Pin>, pb: seq<Pin>, n: string, m: string, l: string)
    requires Agree(pa, pb) && SameMembers(pa, n, pb, m) && (OnNet(pa, l, n) || OnNet(pb, l, m))
    ensures HasPin(pa, l) && HasPin(pb, l)
  {
    hide OnNet, HasPin, Kinds, Legible, SameCanon;
    OnNetPin(pa, l, n);
    OnNetPin(pb, l, m);
  }

  lemma AgreeGivesRenaming(pa: seq<Pin>, pb: seq<Pin>) returns (f: map<string, string>)
    requires Agree(pa, pb)
    ensures IsRenaming(f, pa, pb)
  {
    hide ComparedNets, Compared, OnNet, AutoNet, HasPin, Agree;
    forall n ensures n in ComparedNets(pa, pb) <==> AutoNet(n) && Compared(pa, pb, n) { ComparedNetsIff(pa, pb, n); }
    f := map n | n in ComparedNets(pa, pb) :: Counterpart(pa, pb, n);
    assert IsCounterpart(f, pa, pb);
    forall n, n' | n in f && n' in f && f[n] == f[n']
      ensures n == n'
    {
      CounterpartInjective(pa, pb, n, n', f[n]);
    }
    forall l | HasPin(pa, l) && HasPin(pb, l)
      ensures NetOf(pb, l) == Rename(f, NetOf(pa, l))
    {
      RenamedAt(pa, pb, f, l);
    }
    forall m
      ensures m in f.Values <==> AutoNet(m) && Compared(pb, pa, m)
    {
      RenamedOnto(pa, pb, f, m);
    }
    forall l, n | n in f && (OnNet(pa, l, n) || OnNet(pb, l, f[n]))
      ensures HasPin(pa, l) && HasPin(pb, l)
    {
      SharedMember(pa, pb, n, f[n], l);
    }
  }

  lemma RenamedMember(pa: seq<Pin>, pb: seq<Pin>, f: map<string, string>, n: string, l: string)
    requires DistinctPins(pa) && DistinctPins(pb) && IsRenaming(f, pa, pb) && n in f
    ensures OnNet(pa, l, n) <==> OnNet(pb, l, f[n])
  {
    hide OnNet, AutoNet, HasPin;
    assert f[n] in f.Values;
    NetOfIff(pa, l, n);
    NetOfIff(pb, l, f[n]);
    if OnNet(pa, l, n) {
      OnNetPin(pa, l, n);
    }
    if OnNet(pb, l, f[n]) {
      OnNetPin(pb, l, f[n]);
      var k := NetOf(pa, l).value;
      NetOfIff(pa, l, k);
      assert Compared(pa, pb, k);
    }
  }

  lemma RenamedMembers(pa: seq<Pin>, pb: seq<Pin>, f: map<string, string>, n: string)
    requires DistinctPins(pa) && DistinctPins(pb) && IsRenaming(f, pa, pb) && n in f
    ensures AutoNet(n) && AutoNet(f[n]) && SameMembers(pa, n, pb, f[n]) && Canon(pa, n) == Canon(pb, f[n])
  {
    hide OnNet, Canon, Compared;
    assert f[n] in f.Values;
    forall l
      ensures OnNet(pa, l, n) <==> OnNet(pb, l, f[n])
    {
      RenamedMember(pa, pb, f, n, l);
    }
    CanonIff(pa, n, pb, f[n]);
  }

  /** What a renaming does to the two nets of a shared terminal. */
  lemma RenamedNets(pa: seq<Pin>, pb: seq<Pin>, f: map<string, string>, l: string, n: string, m: string)
    requires DistinctPins(pa) && DistinctPins(pb) && IsRenaming(f, pa, pb) && OnNet(pa, l, n) && OnNet(pb, l, m)
    ensures if AutoNet(n) then n in f && m == f[n] && AutoNet(m) else m == n
  {
    hide OnNet, AutoNet, HasPin;
    OnNetPin(pa, l, n);
    OnNetPin(pb, l, m);
    if AutoNet(n) {
      assert Compared(pa, pb, n);
      assert f[n] in f.Values;
    }
  }

  lemma RenamedFloating(pa: seq<Pin>, pb: seq<Pin>, f: map<string, string>, l: string)
    requires IsRenaming(f, pa, pb) && HasPin(pa, l) && HasPin(pb, l)
    ensures NetOf(pa, l).None? <==> NetOf(pb, l).None?
  {
  }

  lemma RenamingAgrees(pa: seq<Pin>, pb: seq<Pin>, f: map<string, string>)
    requires DistinctPins(pa) && DistinctPins(pb) && IsRenaming(f, pa, pb)
    ensures SameCanon(pa, pb) && Kinds(pa, pb) && Legible(pa, pb)
  {
    hide OnNet, AutoNet, Canon, HasPin, IsRenaming, SameMembers;
    forall l, n, m | OnNet(pa, l, n) && OnNet(pb, l, m)
      ensures (AutoNet(n) <==> AutoNet(m)) && (AutoNet(n) ==> SameMembers(pa, n, pb, m))
      ensures Canon(pa, n) == Canon(pb, m)
    {
      RenamedNets(pa, pb, f, l, n, m);
      if AutoNet(n) {
        RenamedMembers(pa, pb, f, n);
      } else {
        CanonIff(pa, n, pb, m);
      }
    }
    forall l | HasPin(pa, l) && HasPin(pb, l)
      ensures CanonOf(pa, NetOf(pa, l)) == CanonOf(pb, NetOf(pb, l))
    {
      RenamedFloating(pa, pb, f, l);
      if NetOf(pa, l).Some? {
        NetOfIff(pa, l, NetOf(pa, l).value);
        NetOfIff(pb, l, NetOf(pb, l).value);
      }
    }
  }

  /** There is at most one renaming. */
  lemma RenamingUnique(pa: seq<Pin>, pb: seq<Pin>, f: map<string, string>, g: map<string, string>)
    requires DistinctPins(pa) && IsRenaming(f, pa, pb) && IsRenaming(g, pa, pb)
    ensures f == g
  {
    hide OnNet, AutoNet, HasPin;
    forall n | n in f
      ensures n in g && f[n] == g[n]
    {
      var l :| OnNet(pa, l, n) && HasPin(pb, l);
      OnNetPin(pa, l, n);
    }
  }
}
