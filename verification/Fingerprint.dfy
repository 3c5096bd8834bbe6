/** The inputs fingerprint of skill/vfp_sim.il, on which the freshness guard compares simulation jobs. */
module Fingerprint {
  import opened Text
  import Connectivity

  /** An explicit parameter; the value as vfpToStr prints it. */
  datatype Prop = Prop(name: string, value: string)

  /** An instance; of its master only the cell name is printed, not the library. */
  datatype Device = Device(name: string, cell: string, terms: seq<Connectivity.Term>, props: seq<Prop>)

  // ---- what the string is built from ----

  datatype Triple = Triple(inst: string, term: string, net: Option<string>)

  /** A device's cell name and explicit parameters, in no order. */
  datatype Part = Part(name: string, cell: string, props: multiset<Prop>)

  function TripleText(t: Triple): string {
    t.inst + "." + t.term + "=" + if t.net.Some? then t.net.value else ""
  }

  function PropText(p: Prop): string {
    p.name + "=" + p.value
  }

  /** The latest first, as the source collects them. */
  function PropTexts(ps: seq<Prop>): seq<string> {
    if ps == [] then [] else [PropText(ps[|ps| - 1])] + PropTexts(ps[..|ps| - 1])
  }

  function PartText(d: Device): string {
    d.name + ":" + d.cell + "[" + Join(Sort(PropTexts(d.props)), ',') + "]"
  }

  function DeviceTriples(d: Device, n: nat): seq<Triple>
    requires n <= |d.terms|
  {
    if n == 0 then [] else
    [Triple(d.name, d.terms[n - 1].term, d.terms[n - 1].net)] + DeviceTriples(d, n - 1)
  }

  function Triples(ds: seq<Device>): seq<Triple> {
    if ds == [] then [] else
    DeviceTriples(ds[|ds| - 1], |ds[|ds| - 1].terms|) + Triples(ds[..|ds| - 1])
  }

  function Map<T, U>(f: T -> U, xs: seq<T>): seq<U> {
    if xs == [] then [] else [f(xs[0])] + Map(f, xs[1..])
  }

  function Reverse(ds: seq<Device>): seq<Device> {
    if ds == [] then [] else [ds[|ds| - 1]] + Reverse(ds[..|ds| - 1])
  }

  function Print(ds: seq<Device>, test: string): string {
    "test=" + test + ";conn=" + Join(Sort(Map(TripleText, Triples(ds))), '|') +
    ";params=" + Join(Sort(Map(PartText, Reverse(ds))), '|')
  }

  /** Lines 53-57. */
  method TermTexts(ds: seq<Device>) returns (terms: seq<string>)
    ensures terms == Map(TripleText, Triples(ds))
  {
    hide TripleText;
    terms := [];
    for i := 0 to |ds|
      invariant terms == Map(TripleText, Triples(ds[..i]))
    {
      var d := ds[i];
      assert ds[..i + 1][..i] == ds[..i];
      assert DeviceTriples(d, 0) + Triples(ds[..i]) == Triples(ds[..i]);
      for k := 0 to |d.terms|
        invariant terms == Map(TripleText, DeviceTriples(d, k) + Triples(ds[..i]))
      {
        var t := Triple(d.name, d.terms[k].term, d.terms[k].net);
        var rest := DeviceTriples(d, k) + Triples(ds[..i]);
        assert DeviceTriples(d, k + 1) + Triples(ds[..i]) == [t] + rest;
        assert ([t] + rest)[1..] == rest;
        terms := [TripleText(t)] + terms;
      }
    }
    assert ds[..|ds|] == ds;
  }

  /** Lines 60-67. */
  method PartTexts(ds: seq<Device>) returns (parts: seq<string>)
    ensures parts == Map(PartText, Reverse(ds))
  {
    hide PropText, Sort, Join;
    parts := [];
    for i := 0 to |ds|
      invariant parts == Map(PartText, Reverse(ds[..i]))
    {
      var d, pp := ds[i], [];
      for k := 0 to |d.props|
        invariant pp == PropTexts(d.props[..k])
      {
        assert d.props[..k + 1][..k] == d.props[..k];
        pp := [PropText(d.props[k])] + pp;
      }
      assert d.props[..|d.props|] == d.props;
      assert ds[..i + 1][..i] == ds[..i];
      assert ([d] + Reverse(ds[..i]))[1..] == Reverse(ds[..i]);
      parts := [d.name + ":" + d.cell + "[" + Join(Sort(pp), ',') + "]"] + parts;
    }
    assert ds[..|ds|] == ds;
  }

  /** Lines 50-72. */
  method InputsFingerprint(ds: seq<Device>, test: string) returns (r: string)
    ensures r == Print(ds, test)
  {
    var terms := TermTexts(ds);
    var parts := PartTexts(ds);
    r := "test=" + test + ";conn=" + Join(Sort(terms), '|') + ";params=" + Join(Sort(parts), '|');
  }

  // ---- bags ----

  lemma {:induction false} MapIn<T, A>(f: T -> A, xs: seq<T>, a: A)
    ensures a in Map(f, xs) <==> exists x :: x in xs && f(x) == a
  {
    if xs == [] {
    } else {
      MapIn(f, xs[1..], a);
      assert xs == [xs[0]] + xs[1..];
    }
  }

  lemma {:induction false} MapConcat<T, A>(f: T -> A, xs: seq<T>, ys: seq<T>)
    ensures Map(f, xs + ys) == Map(f, xs) + Map(f, ys)
  {
    if xs == [] {
      assert xs + ys == ys;
    } else {
      assert (xs + ys)[1..] == xs[1..] + ys;
      MapConcat(f, xs[1..], ys);
    }
  }

  lemma MapWithout<T, A>(f: T -> A, xs: seq<T>, j: nat)
    requires j < |xs|
    ensures multiset(Map(f, xs)) == multiset{f(xs[j])} + multiset(Map(f, xs[..j] + xs[j + 1..]))
  {
    var rest := xs[j..];
    assert xs == xs[..j] + rest && rest[0] == xs[j] && rest[1..] == xs[j + 1..];
    MapConcat(f, xs[..j], rest);
    MapConcat(f, xs[..j], xs[j + 1..]);
    assert Map(f, rest) == [f(xs[j])] + Map(f, xs[j + 1..]);
  }

  /** What g does not tell apart, f does not either. */
  ghost predicate Coarser<T(!new), A(!new), B(!new)>(all: seq<T>, f: T -> A, g: T -> B) {
    forall x, y :: x in all && y in all && g(x) == g(y) ==> f(x) == f(y)
  }

  function Without<T>(xs: seq<T>, j: nat): seq<T>
    requires j < |xs|
  {
    xs[..j] + xs[j + 1..]
  }

  /** Some element of ys matches the first of xs, and the rest still match. */
  lemma Partner<T, B>(xs: seq<T>, ys: seq<T>, g: T -> B) returns (j: nat)
    requires xs != [] && multiset(Map(g, xs)) == multiset(Map(g, ys))
    ensures j < |ys| && g(ys[j]) == g(xs[0])
    ensures multiset(Map(g, xs[1..])) == multiset(Map(g, Without(ys, j)))
  {
    hide Map;
    MapWithout(g, xs, 0);
    assert xs[..0] + xs[0 + 1..] == xs[1..];
    assert g(xs[0]) in multiset(Map(g, ys));
    MapIn(g, ys, g(xs[0]));
    j :| 0 <= j < |ys| && g(ys[j]) == g(xs[0]);
    MapWithout(g, ys, j);
    assert multiset(Map(g, xs[1..])) == multiset(Map(g, xs)) - multiset{g(xs[0])};
    assert multiset(Map(g, Without(ys, j))) == multiset(Map(g, ys)) - multiset{g(xs[0])};
  }

  lemma CoarserPart<T(!new), A(!new), B(!new)>(all: seq<T>, part: seq<T>, f: T -> A, g: T -> B)
    requires Coarser(all, f, g) && forall z :: z in part ==> z in all
    ensures Coarser(part, f, g)
  {
  }

  lemma NoBag<T, A, B>(xs: seq<T>, ys: seq<T>, f: T -> A, g: T -> B)
    requires xs == [] && multiset(Map(g, xs)) == multiset(Map(g, ys))
    ensures multiset(Map(f, xs)) == multiset(Map(f, ys))
  {
    assert |multiset(Map(g, ys))| == 0;
  }

  lemma RestOf<T(!new)>(xs: seq<T>, ys: seq<T>, j: nat)
    requires xs != [] && j < |ys|
    ensures forall z :: z in xs[1..] + Without(ys, j) ==> z in xs + ys
    ensures xs[0] in xs + ys && ys[j] in xs + ys
  {
  }

  lemma CoarserAt<T(!new), A(!new), B(!new)>(all: seq<T>, f: T -> A, g: T -> B, x: T, y: T)
    requires Coarser(all, f, g) && x in all && y in all && g(x) == g(y)
    ensures f(x) == f(y)
  {
  }

  /** Equal bags of the finer description give equal bags of the coarser one. */
  lemma {:induction false} SameBags<T(!new), A(!new), B(!new)>(xs: seq<T>, ys: seq<T>, f: T -> A, g: T -> B)
    requires Coarser(xs + ys, f, g) && multiset(Map(g, xs)) == multiset(Map(g, ys))
    ensures multiset(Map(f, xs)) == multiset(Map(f, ys))
    decreases |xs|
  {
    hide Coarser, Map;
    if xs == [] {
      NoBag(xs, ys, f, g);
    } else {
      var j := Partner(xs, ys, g);
      var xs', ys' := xs[1..], Without(ys, j);
      RestOf(xs, ys, j);
      CoarserPart(xs + ys, xs' + ys', f, g);
      SameBags(xs', ys', f, g);
      CoarserAt(xs + ys, f, g, xs[0], ys[j]);
      MapWithout(f, xs, 0);
      assert xs[..0] + xs[0 + 1..] == xs';
      MapWithout(f, ys, j);
    }
  }

  lemma SameBagsIff<T(!new), A(!new), B(!new)>(xs: seq<T>, ys: seq<T>, f: T -> A, g: T -> B)
    requires Coarser(xs + ys, f, g) && Coarser(xs + ys, g, f)
    ensures multiset(Map(f, xs)) == multiset(Map(f, ys)) <==> multiset(Map(g, xs)) == multiset(Map(g, ys))
  {
    hide Map, Coarser;
    if multiset(Map(f, xs)) == multiset(Map(f, ys)) {
      SameBags(xs, ys, g, f);
    }
    if multiset(Map(g, xs)) == multiset(Map(g, ys)) {
      SameBags(xs, ys, f, g);
    }
  }

  // ---- names free of the separators ----

  predicate CleanTriple(t: Triple) {
    && '.' !in t.inst && '|' !in t.inst && ';' !in t.inst
    && '=' !in t.term && '|' !in t.term && ';' !in t.term
    && (t.net.Some? ==> t.net.value != "" && '|' !in t.net.value && ';' !in t.net.value)
  }

  predicate CleanProp(p: Prop) {
    '=' !in p.name && ',' !in p.name && '|' !in p.name && ',' !in p.value && '|' !in p.value
  }

  ghost predicate CleanDevice(d: Device) {
    && ':' !in d.name && '|' !in d.name && '[' !in d.cell && '|' !in d.cell
    && (forall k :: 0 <= k < |d.props| ==> CleanProp(d.props[k]))
    && (forall k :: 0 <= k < |d.terms| ==> CleanTriple(Triple(d.name, d.terms[k].term, d.terms[k].net)))
  }

  /** No name or value holds a separator that ends its place in the string. */
  ghost predicate CleanInputs(ds: seq<Device>, test: string) {
    ';' !in test && forall i :: 0 <= i < |ds| ==> CleanDevice(ds[i])
  }

  lemma TripleTextUnique(t: Triple, u: Triple)
    requires CleanTriple(t) && CleanTriple(u)
    ensures TripleText(t) == TripleText(u) <==> t == u
  {
    if TripleText(t) == TripleText(u) {
      var nt, nu := if t.net.Some? then t.net.value else "", if u.net.Some? then u.net.value else "";
      assert TripleText(t) == t.inst + ['.'] + (t.term + ['='] + nt);
      assert TripleText(u) == u.inst + ['.'] + (u.term + ['='] + nu);
      CutUnique(t.inst, '.', t.term + ['='] + nt, u.inst, u.term + ['='] + nu);
      CutUnique(t.term, '=', nt, u.term, nu);
    }
  }

  lemma TripleTextClean(t: Triple)
    requires CleanTriple(t)
    ensures TripleText(t) != "" && '|' !in TripleText(t) && ';' !in TripleText(t)
  {
  }

  lemma PropTextUnique(p: Prop, q: Prop)
    requires CleanProp(p) && CleanProp(q)
    ensures PropText(p) == PropText(q) <==> p == q
  {
    if PropText(p) == PropText(q) {
      assert PropText(p) == p.name + ['='] + p.value && PropText(q) == q.name + ['='] + q.value;
      CutUnique(p.name, '=', p.value, q.name, q.value);
    }
  }

  lemma {:induction false} MapAppend<T, A>(f: T -> A, xs: seq<T>, x: T)
    ensures Map(f, xs + [x]) == Map(f, xs) + [f(x)]
  {
    if xs == [] {
    } else {
      assert (xs + [x])[1..] == xs[1..] + [x];
      MapAppend(f, xs[1..], x);
    }
  }

  lemma {:induction false} PropTextsBag(ps: seq<Prop>)
    ensures multiset(PropTexts(ps)) == multiset(Map(PropText, ps))
    decreases |ps|
  {
    hide PropText;
    if ps == [] {
    } else {
      var k := |ps| - 1;
      PropTextsBag(ps[..k]);
      assert ps == ps[..k] + [ps[k]];
      MapAppend(PropText, ps[..k], ps[k]);
    }
  }

  function Id<T>(x: T): T {
    x
  }

  lemma {:induction false} MapIdentity<T>(xs: seq<T>)
    ensures Map(Id, xs) == xs
  {
    if xs == [] {
    } else {
      MapIdentity(xs[1..]);
    }
  }

  lemma {:induction false} PropTextIn(ps: seq<Prop>, x: string)
    requires (forall k :: 0 <= k < |ps| ==> CleanProp(ps[k])) && x in PropTexts(ps)
    ensures x != "" && ',' !in x && '|' !in x
  {
    var k := |ps| - 1;
    if x != PropText(ps[k]) {
      PropTextIn(ps[..k], x);
    } else {
      assert CleanProp(ps[k]);
    }
  }

  lemma PropTextsClean(ps: seq<Prop>)
    requires forall k :: 0 <= k < |ps| ==> CleanProp(ps[k])
    ensures forall x :: x in Sort(PropTexts(ps)) ==> x != "" && ',' !in x && '|' !in x
  {
    hide Sort;
    forall x | x in Sort(PropTexts(ps))
      ensures x != "" && ',' !in x && '|' !in x
    {
      SortMembers(PropTexts(ps), x);
      PropTextIn(ps, x);
    }
  }

  /** Sorted property texts agree exactly when the properties do, whatever their order. */
  lemma PropsTextIff(ps: seq<Prop>, qs: seq<Prop>)
    requires forall k :: 0 <= k < |ps| ==> CleanProp(ps[k])
    requires forall k :: 0 <= k < |qs| ==> CleanProp(qs[k])
    ensures Join(Sort(PropTexts(ps)), ',') == Join(Sort(PropTexts(qs)), ',') <==> multiset(ps) == multiset(qs)
  {
    hide PropText, PropTexts, Sort, Join, Map;
    var a, b := PropTexts(ps), PropTexts(qs);
    PropTextsBag(ps);
    PropTextsBag(qs);
    forall x, y | x in ps + qs && y in ps + qs
      ensures PropText(x) == PropText(y) <==> x == y
    {
      PropTextUnique(x, y);
    }
    MapIdentity(ps);
    MapIdentity(qs);
    SameBagsIff(ps, qs, PropText, Id);
    SortCanonical(a, b);
    if Join(Sort(a), ',') == Join(Sort(b), ',') {
      PropTextsClean(ps);
      PropTextsClean(qs);
      JoinInjective(Sort(a), Sort(b), ',');
    }
  }

  function PartOf(d: Device): Part {
    Part(d.name, d.cell, multiset(d.props))
  }

  lemma PartTextUnique(d: Device, e: Device)
    requires CleanDevice(d) && CleanDevice(e)
    ensures PartText(d) == PartText(e) <==> PartOf(d) == PartOf(e)
  {
    hide Sort, Join, PropTexts, CleanProp;
    var a, b := Join(Sort(PropTexts(d.props)), ','), Join(Sort(PropTexts(e.props)), ',');
    PropsTextIff(d.props, e.props);
    if PartText(d) == PartText(e) {
      assert PartText(d) == d.name + [':'] + (d.cell + ['['] + (a + "]"));
      assert PartText(e) == e.name + [':'] + (e.cell + ['['] + (b + "]"));
      CutUnique(d.name, ':', d.cell + ['['] + (a + "]"), e.name, e.cell + ['['] + (b + "]"));
      CutUnique(d.cell, '[', a + "]", e.cell, b + "]");
      assert a == (a + "]")[..|a + "]"| - 1] && b == (b + "]")[..|b + "]"| - 1];
    }
  }

  lemma {:induction false} JoinLacks(parts: seq<string>, sep: char, c: char)
    requires sep != c && forall x :: x in parts ==> c !in x
    ensures c !in Join(parts, sep)
  {
    if |parts| <= 1 {
    } else {
      JoinLacks(parts[1..], sep, c);
    }
  }

  lemma PartTextClean(d: Device)
    requires CleanDevice(d)
    ensures PartText(d) != "" && '|' !in PartText(d)
  {
    hide Sort, Join, PropTexts;
    PropTextsClean(d.props);
    JoinLacks(Sort(PropTexts(d.props)), ',', '|');
  }

  // ---- the fingerprint ----

  /** The same test and the same pieces of the string. */
  ghost predicate SamePieces(ds: seq<Device>, test: string, es: seq<Device>, test': string) {
    && test == test'
    && multiset(Triples(ds)) == multiset(Triples(es))
    && multiset(Map(PartOf, Reverse(ds))) == multiset(Map(PartOf, Reverse(es)))
  }

  /** How often devices of this name list this terminal with this net. */
  function TermCount(ds: seq<Device>, inst: string, t: Connectivity.Term): nat {
    if ds == [] then 0 else
    (if ds[0].name == inst then multiset(ds[0].terms)[t] else 0) + TermCount(ds[1..], inst, t)
  }

  function Parts(ds: seq<Device>): (ps: seq<Part>)
    ensures |ps| == |ds|
    ensures forall i :: 0 <= i < |ps| ==> ps[i] == Part(ds[i].name, ds[i].cell, multiset(ds[i].props))
  {
    seq(|ds|, i requires 0 <= i < |ds| => Part(ds[i].name, ds[i].cell, multiset(ds[i].props)))
  }

  /** The same test, every terminal of every device on the same net, and the same cell names and explicit
      parameters, in any order. */
  ghost predicate SameInputs(ds: seq<Device>, test: string, es: seq<Device>, test': string) {
    && test == test'
    && (forall inst, t :: TermCount(ds, inst, t) == TermCount(es, inst, t))
    && multiset(Parts(ds)) == multiset(Parts(es))
  }

  function TripleOf(inst: string, t: Connectivity.Term): Triple {
    Triple(inst, t.term, t.net)
  }

  lemma {:induction false} DeviceTriplesBag(d: Device, n: nat, inst: string, t: Connectivity.Term)
    requires n <= |d.terms|
    ensures multiset(DeviceTriples(d, n))[TripleOf(inst, t)] == if d.name == inst then multiset(d.terms[..n])[t] else 0
  {
    if n == 0 {
    } else {
      var u, rest := d.terms[n - 1], DeviceTriples(d, n - 1);
      DeviceTriplesBag(d, n - 1, inst, t);
      assert d.terms[..n] == d.terms[..n - 1] + [u];
      assert DeviceTriples(d, n) == [TripleOf(d.name, u)] + rest;
      assert TripleOf(d.name, u) == TripleOf(inst, t) <==> d.name == inst && u == t;
    }
  }

  lemma {:induction false} TermCountConcat(ds: seq<Device>, es: seq<Device>, inst: string, t: Connectivity.Term)
    ensures TermCount(ds + es, inst, t) == TermCount(ds, inst, t) + TermCount(es, inst, t)
  {
    if ds == [] {
      assert ds + es == es;
    } else {
      assert (ds + es)[1..] == ds[1..] + es;
      TermCountConcat(ds[1..], es, inst, t);
    }
  }

  /** The triples hold every terminal of every device as often as it is listed, and nothing else. */
  lemma {:induction false} TriplesBag(ds: seq<Device>, inst: string, t: Connectivity.Term)
    ensures multiset(Triples(ds))[TripleOf(inst, t)] == TermCount(ds, inst, t)
  {
    hide DeviceTriples;
    if ds == [] {
    } else {
      var k := |ds| - 1;
      var d := ds[k];
      TriplesBag(ds[..k], inst, t);
      DeviceTriplesBag(d, |d.terms|, inst, t);
      assert d.terms[..|d.terms|] == d.terms;
      assert ds == ds[..k] + [d];
      TermCountConcat(ds[..k], [d], inst, t);
      assert [d][1..] == [];
    }
  }

  lemma {:induction false} PartsBag(ds: seq<Device>)
    ensures multiset(Map(PartOf, Reverse(ds))) == multiset(Parts(ds))
  {
    if ds == [] {
    } else {
      var k := |ds| - 1;
      PartsBag(ds[..k]);
      assert ([ds[k]] + Reverse(ds[..k]))[1..] == Reverse(ds[..k]);
      assert Parts(ds) == Parts(ds[..k]) + [PartOf(ds[k])];
    }
  }

  lemma SamePiecesIff(ds: seq<Device>, test: string, es: seq<Device>, test': string)
    ensures SamePieces(ds, test, es, test') <==> SameInputs(ds, test, es, test')
  {
    hide Triples, TermCount, Map, Reverse, Parts;
    PartsBag(ds);
    PartsBag(es);
    forall inst, t
      ensures multiset(Triples(ds))[TripleOf(inst, t)] == TermCount(ds, inst, t)
      ensures multiset(Triples(es))[TripleOf(inst, t)] == TermCount(es, inst, t)
    {
      TriplesBag(ds, inst, t);
      TriplesBag(es, inst, t);
    }
    if SameInputs(ds, test, es, test') {
      forall x: Triple
        ensures multiset(Triples(ds))[x] == multiset(Triples(es))[x]
      {
        assert x == TripleOf(x.inst, Connectivity.Term(x.term, x.net));
      }
    }
  }

  // ---- cellviews, whose instance names are distinct ----

  ghost predicate DistinctDevices(ds: seq<Device>) {
    forall i, j :: 0 <= i < j < |ds| ==> ds[i].name != ds[j].name
  }

  /** The same instance: name, cell name, terminals with their nets, and explicit parameters. */
  predicate Alike(d: Device, e: Device) {
    && d.name == e.name && d.cell == e.cell
    && multiset(d.terms) == multiset(e.terms) && multiset(d.props) == multiset(e.props)
  }

  lemma {:induction false} TermCountNone(ds: seq<Device>, inst: string, t: Connectivity.Term)
    requires forall i :: 0 <= i < |ds| ==> ds[i].name != inst
    ensures TermCount(ds, inst, t) == 0
  {
    if ds == [] {
    } else {
      TermCountNone(ds[1..], inst, t);
    }
  }

  lemma TermCountAt(ds: seq<Device>, i: nat, t: Connectivity.Term)
    requires DistinctDevices(ds) && i < |ds|
    ensures TermCount(ds, ds[i].name, t) == multiset(ds[i].terms)[t]
  {
    var inst := ds[i].name;
    assert ds == ds[..i] + ([ds[i]] + ds[i + 1..]);
    TermCountConcat(ds[..i], [ds[i]] + ds[i + 1..], inst, t);
    TermCountConcat([ds[i]], ds[i + 1..], inst, t);
    TermCountNone(ds[..i], inst, t);
    TermCountNone(ds[i + 1..], inst, t);
    assert [ds[i]][1..] == [];
    assert TermCount([ds[i]], inst, t) == multiset(ds[i].terms)[t];
  }

  ghost predicate Covers(ds: seq<Device>, es: seq<Device>) {
    forall d :: d in ds ==> exists e :: e in es && Alike(d, e)
  }

  lemma CoveredBy(ds: seq<Device>, es: seq<Device>, i: nat) returns (j: nat)
    requires Covers(ds, es) && i < |ds|
    ensures j < |es| && Alike(ds[i], es[j])
  {
    hide Alike;
    var d := ds[i];
    assert d in ds;
    var e :| e in es && Alike(d, e);
    j :| 0 <= j < |es| && es[j] == e;
  }

  lemma SamePart(ds: seq<Device>, es: seq<Device>, i: nat) returns (j: nat)
    requires multiset(Parts(ds)) == multiset(Parts(es)) && i < |ds|
    ensures j < |es| && Parts(es)[j] == Parts(ds)[i]
  {
    hide Parts;
    assert Parts(ds)[i] in multiset(Parts(ds));
    j :| 0 <= j < |Parts(es)| && Parts(es)[j] == Parts(ds)[i];
  }

  lemma AlikeByPart(ds: seq<Device>, es: seq<Device>, i: nat, j: nat)
    requires i < |ds| && j < |es| && Parts(es)[j] == Parts(ds)[i] && multiset(ds[i].terms) == multiset(es[j].terms)
    ensures Alike(ds[i], es[j])
  {
  }

  lemma SameInputsCover(ds: seq<Device>, test: string, es: seq<Device>, test': string)
    requires DistinctDevices(ds) && DistinctDevices(es) && SameInputs(ds, test, es, test')
    ensures Covers(ds, es)
  {
    hide TermCount, Parts, DistinctDevices;
    forall d | d in ds
      ensures exists e :: e in es && Alike(d, e)
    {
      var i :| 0 <= i < |ds| && ds[i] == d;
      var j := SamePart(ds, es, i);
      forall t
        ensures multiset(ds[i].terms)[t] == multiset(es[j].terms)[t]
      {
        TermCountAt(ds, i, t);
        TermCountAt(es, j, t);
      }
      assert multiset(ds[i].terms) == multiset(es[j].terms);
      AlikeByPart(ds, es, i, j);
      assert es[j] in es;
    }
  }

  lemma CoverCounts(ds: seq<Device>, es: seq<Device>, inst: string, t: Connectivity.Term)
    requires DistinctDevices(ds) && DistinctDevices(es) && Covers(ds, es) && Covers(es, ds)
    ensures TermCount(ds, inst, t) == TermCount(es, inst, t)
  {
    hide TermCount, Covers, DistinctDevices;
    if i :| 0 <= i < |ds| && ds[i].name == inst {
      var j := CoveredBy(ds, es, i);
      TermCountAt(ds, i, t);
      TermCountAt(es, j, t);
    } else {
      forall j | 0 <= j < |es|
        ensures es[j].name != inst
      {
        var i := CoveredBy(es, ds, j);
      }
      TermCountNone(ds, inst, t);
      TermCountNone(es, inst, t);
    }
  }

  lemma CoverPart(ds: seq<Device>, es: seq<Device>, p: Part)
    requires Covers(ds, es) && p in Parts(ds)
    ensures p in Parts(es)
  {
    hide Covers;
    var i :| 0 <= i < |Parts(ds)| && Parts(ds)[i] == p;
    var j := CoveredBy(ds, es, i);
    assert Parts(es)[j] == p;
  }

  lemma PartsDistinct(ds: seq<Device>)
    requires DistinctDevices(ds)
    ensures Distinct(Parts(ds))
  {
  }

  lemma CoverParts(ds: seq<Device>, es: seq<Device>)
    requires DistinctDevices(ds) && DistinctDevices(es) && Covers(ds, es) && Covers(es, ds)
    ensures multiset(Parts(ds)) == multiset(Parts(es))
  {
    hide Covers, DistinctDevices, Parts, Distinct;
    PartsDistinct(ds);
    PartsDistinct(es);
    forall p
      ensures multiset(Parts(ds))[p] == multiset(Parts(es))[p]
    {
      DistinctCount(Parts(ds), p);
      DistinctCount(Parts(es), p);
      if p in Parts(ds) {
        CoverPart(ds, es, p);
      }
      if p in Parts(es) {
        CoverPart(es, ds, p);
      }
    }
  }

  /** Equal inputs mean the same instances, each with the same cell name, the same net at every terminal and
      the same explicit parameters. */
  lemma SameInputsIff(ds: seq<Device>, test: string, es: seq<Device>, test': string)
    requires DistinctDevices(ds) && DistinctDevices(es)
    ensures SameInputs(ds, test, es, test') <==> test == test' && Covers(ds, es) && Covers(es, ds)
  {
    hide TermCount, Parts, Covers, DistinctDevices;
    if SameInputs(ds, test, es, test') {
      SameInputsCover(ds, test, es, test');
      SameInputsCover(es, test', ds, test);
    }
    if test == test' && Covers(ds, es) && Covers(es, ds) {
      CoverParts(ds, es);
      forall inst, t ensures TermCount(ds, inst, t) == TermCount(es, inst, t) { CoverCounts(ds, es, inst, t); }
    }
  }

  lemma {:induction false} DeviceTripleIn(d: Device, n: nat, t: Triple)
    requires n <= |d.terms| && t in DeviceTriples(d, n)
    ensures exists k :: 0 <= k < n && t == Triple(d.name, d.terms[k].term, d.terms[k].net)
  {
    if t != Triple(d.name, d.terms[n - 1].term, d.terms[n - 1].net) {
      DeviceTripleIn(d, n - 1, t);
    }
  }

  lemma {:induction false} TriplesClean(ds: seq<Device>, t: Triple)
    requires (forall i :: 0 <= i < |ds| ==> CleanDevice(ds[i])) && t in Triples(ds)
    ensures CleanTriple(t)
  {
    hide CleanTriple;
    var k := |ds| - 1;
    if t in DeviceTriples(ds[k], |ds[k].terms|) {
      DeviceTripleIn(ds[k], |ds[k].terms|, t);
    } else {
      TriplesClean(ds[..k], t);
    }
  }

  lemma {:induction false} ReverseIn(ds: seq<Device>, d: Device)
    ensures d in Reverse(ds) <==> d in ds
  {
    if ds == [] {
    } else {
      var k := |ds| - 1;
      ReverseIn(ds[..k], d);
      assert ds == ds[..k] + [ds[k]];
    }
  }

  lemma TextsClean(xs: seq<Triple>)
    requires forall t :: t in xs ==> CleanTriple(t)
    ensures forall x :: x in Sort(Map(TripleText, xs)) ==> x != "" && '|' !in x && ';' !in x
  {
    hide Sort, Map, TripleText, CleanTriple;
    forall x | x in Sort(Map(TripleText, xs))
      ensures x != "" && '|' !in x && ';' !in x
    {
      SortMembers(Map(TripleText, xs), x);
      MapIn(TripleText, xs, x);
      var t :| t in xs && TripleText(t) == x;
      TripleTextClean(t);
    }
  }

  lemma ConnIff(ds: seq<Device>, es: seq<Device>)
    requires forall i :: 0 <= i < |ds| ==> CleanDevice(ds[i])
    requires forall i :: 0 <= i < |es| ==> CleanDevice(es[i])
    ensures Join(Sort(Map(TripleText, Triples(ds))), '|') == Join(Sort(Map(TripleText, Triples(es))), '|')
       <==> multiset(Triples(ds)) == multiset(Triples(es))
    ensures ';' !in Join(Sort(Map(TripleText, Triples(ds))), '|')
  {
    hide Sort, Join, TripleText, CleanTriple, CleanDevice, Triples, Map;
    var xs, ys := Triples(ds), Triples(es);
    var a, b := Map(TripleText, xs), Map(TripleText, ys);
    forall t | t in xs ensures CleanTriple(t) { TriplesClean(ds, t); }
    forall t | t in ys ensures CleanTriple(t) { TriplesClean(es, t); }
    forall t, u | t in xs + ys && u in xs + ys
      ensures TripleText(t) == TripleText(u) <==> t == u
    {
      TripleTextUnique(t, u);
    }
    MapIdentity(xs);
    MapIdentity(ys);
    SameBagsIff(xs, ys, TripleText, Id);
    SortCanonical(a, b);
    TextsClean(xs);
    TextsClean(ys);
    JoinLacks(Sort(a), '|', ';');
    if Join(Sort(a), '|') == Join(Sort(b), '|') {
      JoinInjective(Sort(a), Sort(b), '|');
    }
  }

  lemma PartTextsClean(xs: seq<Device>)
    requires forall d :: d in xs ==> CleanDevice(d)
    ensures forall x :: x in Sort(Map(PartText, xs)) ==> x != "" && '|' !in x
  {
    hide Sort, Map, PartText, CleanDevice;
    forall x | x in Sort(Map(PartText, xs))
      ensures x != "" && '|' !in x
    {
      SortMembers(Map(PartText, xs), x);
      MapIn(PartText, xs, x);
      var d :| d in xs && PartText(d) == x;
      PartTextClean(d);
    }
  }

  lemma ParamsIff(ds: seq<Device>, es: seq<Device>)
    requires forall i :: 0 <= i < |ds| ==> CleanDevice(ds[i])
    requires forall i :: 0 <= i < |es| ==> CleanDevice(es[i])
    ensures Join(Sort(Map(PartText, Reverse(ds))), '|') == Join(Sort(Map(PartText, Reverse(es))), '|')
       <==> multiset(Map(PartOf, Reverse(ds))) == multiset(Map(PartOf, Reverse(es)))
  {
    hide Sort, Join, PartText, CleanDevice, Reverse, Map;
    var xs, ys := Reverse(ds), Reverse(es);
    var a, b := Map(PartText, xs), Map(PartText, ys);
    forall d | d in xs ensures CleanDevice(d) { ReverseIn(ds, d); }
    forall d | d in ys ensures CleanDevice(d) { ReverseIn(es, d); }
    forall d, e | d in xs + ys && e in xs + ys
      ensures PartText(d) == PartText(e) <==> PartOf(d) == PartOf(e)
    {
      PartTextUnique(d, e);
    }
    SameBagsIff(xs, ys, PartText, PartOf);
    SortCanonical(a, b);
    PartTextsClean(xs);
    PartTextsClean(ys);
    if Join(Sort(a), '|') == Join(Sort(b), '|') {
      JoinInjective(Sort(a), Sort(b), '|');
    }
  }

  lemma PiecesUnique(t: string, x: string, y: string, t': string, x': string, y': string)
    requires ';' !in t && ';' !in t' && ';' !in x && ';' !in x'
    ensures "test=" + t + ";conn=" + x + ";params=" + y == "test=" + t' + ";conn=" + x' + ";params=" + y'
       <==> t == t' && x == x' && y == y'
  {
    var s, s' := "test=" + t + ";conn=" + x + ";params=" + y, "test=" + t' + ";conn=" + x' + ";params=" + y';
    if s == s' {
      assert s == ("test=" + t) + [';'] + (("conn=" + x) + [';'] + ("params=" + y));
      assert s' == ("test=" + t') + [';'] + (("conn=" + x') + [';'] + ("params=" + y'));
      CutUnique("test=" + t, ';', ("conn=" + x) + [';'] + ("params=" + y),
                "test=" + t', ("conn=" + x') + [';'] + ("params=" + y'));
      CutUnique("conn=" + x, ';', "params=" + y, "conn=" + x', "params=" + y');
      assert t == ("test=" + t)[5..] && t' == ("test=" + t')[5..];
      assert x == ("conn=" + x)[5..] && x' == ("conn=" + x')[5..];
      assert y == ("params=" + y)[7..] && y' == ("params=" + y')[7..];
    }
  }

  /** Fingerprints are equal exactly when the inputs are, in whatever order instances, terminals and
      properties come. */
  lemma FingerprintIff(ds: seq<Device>, test: string, es: seq<Device>, test': string)
    requires CleanInputs(ds, test) && CleanInputs(es, test')
    ensures Print(ds, test) == Print(es, test') <==> SameInputs(ds, test, es, test')
  {
    hide Sort, Join, Map, Triples, Reverse, TripleText, PartText, CleanDevice;
    ConnIff(ds, es);
    ConnIff(es, ds);
    ParamsIff(ds, es);
    PiecesUnique(test, Join(Sort(Map(TripleText, Triples(ds))), '|'), Join(Sort(Map(PartText, Reverse(ds))), '|'),
                 test', Join(Sort(Map(TripleText, Triples(es))), '|'), Join(Sort(Map(PartText, Reverse(es))), '|'));
    SamePiecesIff(ds, test, es, test');
    hide SameInputs;
  }

  lemma SamePartSameText(d: Device, e: Device)
    requires PartOf(d) == PartOf(e)
    ensures PartText(d) == PartText(e)
  {
    hide Sort, Join, Map, PropTexts, PropText;
    PropTextsBag(d.props);
    PropTextsBag(e.props);
    MapIdentity(d.props);
    MapIdentity(e.props);
    SameBags(d.props, e.props, PropText, Id);
    SortCanonical(PropTexts(d.props), PropTexts(e.props));
  }

  /** The order of instances, terminals and properties never shows, whatever the names are. */
  lemma OrderDoesNotShow(ds: seq<Device>, test: string, es: seq<Device>, test': string)
    requires SameInputs(ds, test, es, test')
    ensures Print(ds, test) == Print(es, test')
  {
    hide Sort, Join, Map, Triples, Reverse, TripleText, PartText, SameInputs;
    SamePiecesIff(ds, test, es, test');
    var xs, ys := Triples(ds), Triples(es);
    MapIdentity(xs);
    MapIdentity(ys);
    SameBags(xs, ys, TripleText, Id);
    SortCanonical(Map(TripleText, xs), Map(TripleText, ys));
    forall d, e | PartOf(d) == PartOf(e)
      ensures PartText(d) == PartText(e)
    {
      SamePartSameText(d, e);
    }
    SameBags(Reverse(ds), Reverse(es), PartText, PartOf);
    SortCanonical(Map(PartText, Reverse(ds)), Map(PartText, Reverse(es)));
  }
}
