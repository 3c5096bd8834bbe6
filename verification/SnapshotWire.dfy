/** A connectivity snapshot stored with a transaction and read back for rollback verification:
    vfpConnSnapJ and vfpToJson in the plugin, JSON decoding and to_sexpr in the daemon's helper, SKILL's
    reader, and vfpConnSnapFromJson (skill/vfp_connectivity.il, skill/vfp_transaction.il). */
module SnapshotWire {
  import opened Text
  import opened JsonValue
  import opened Connectivity
  import Sexpr
  import JsonText

  // ---- to JSON ----

  function Strs(xs: seq<string>): seq<Json> {
    if xs == [] then [] else [JStr(xs[0])] + Strs(xs[1..])
  }

  function NetJ(n: Option<string>): Json {
    match n case None => JNull case Some(s) => JStr(s)
  }

  function TermJ(t: Term): Json {
    JObj([Member("term", JStr(t.term)), Member("net", NetJ(t.net))])
  }

  function TermsJ(ts: seq<Term>): seq<Json> {
    if ts == [] then [] else [TermJ(ts[0])] + TermsJ(ts[1..])
  }

  function InstJ(i: Inst): Json {
    JObj([Member("name", JStr(i.name)), Member("master", JStr(i.master)), Member("terms", JArr(TermsJ(i.terms)))])
  }

  function InstsJ(xs: seq<Inst>): seq<Json> {
    if xs == [] then [] else [InstJ(xs[0])] + InstsJ(xs[1..])
  }

  /** skill/vfp_connectivity.il:208-222. */
  function SnapJ(s: Snapshot): Json {
    JObj([Member("schema_version", JStr("0.1")),
          Member("cellview", JStr(s.cellview)),
          Member("instances", JArr(InstsJ(s.instances))),
          Member("named_nets", JArr(Strs(s.named))),
          Member("auto_nets", JArr(Strs(s.auto)))])
  }

  /** The keys under which a snapshot, an instance and a terminal are stored. */
  lemma StoredKeys(s: Snapshot, i: Inst, t: Term)
    ensures var ms := SnapJ(s).members;
            && |ms| == 5 && ms[0] == Member("schema_version", JStr("0.1"))
            && ms[1] == Member("cellview", JStr(s.cellview))
            && ms[2].key == "instances" && ms[3].key == "named_nets" && ms[4].key == "auto_nets"
    ensures var ms := InstJ(i).members;
            && |ms| == 3 && ms[0] == Member("name", JStr(i.name)) && ms[1] == Member("master", JStr(i.master))
            && ms[2].key == "terms"
    ensures var ms := TermJ(t).members;
            && |ms| == 2 && ms[0] == Member("term", JStr(t.term)) && ms[1].key == "net"
            && (t.net.None? ==> ms[1].value == JNull) && (t.net.Some? ==> ms[1].value == JStr(t.net.value))
  {
  }

  // ---- back from what SKILL reads ----

  function NameOf(x: Sexpr.Sexp): string {
    if x.Str? then x.s else ""
  }

  function NetOfSexp(x: Sexpr.Sexp): Option<string> {
    if x.Str? then Some(x.s) else None
  }

  function TermBack(x: Sexpr.Sexp): Term {
    Term(NameOf(Sexpr.AlistGet(x, "term")), NetOfSexp(Sexpr.AlistGet(x, "net")))
  }

  function TermsBack(xs: seq<Sexpr.Sexp>): seq<Term> {
    if xs == [] then [] else [TermBack(xs[0])] + TermsBack(xs[1..])
  }

  function InstBack(x: Sexpr.Sexp): Inst {
    Inst(NameOf(Sexpr.AlistGet(x, "name")), NameOf(Sexpr.AlistGet(x, "master")),
         TermsBack(Sexpr.Items(Sexpr.AlistGet(x, "terms"))))
  }

  function InstsBack(xs: seq<Sexpr.Sexp>): seq<Inst> {
    if xs == [] then [] else [InstBack(xs[0])] + InstsBack(xs[1..])
  }

  function NamesBack(xs: seq<Sexpr.Sexp>): seq<string> {
    if xs == [] then [] else [NameOf(xs[0])] + NamesBack(xs[1..])
  }

  /** skill/vfp_connectivity.il:337-351. */
  function SnapFromJson(x: Sexpr.Sexp): Option<Snapshot> {
    if x.Nil? then None else
    Some(Snapshot(NameOf(Sexpr.AlistGet(x, "cellview")),
                  InstsBack(Sexpr.Items(Sexpr.AlistGet(x, "instances"))),
                  NamesBack(Sexpr.Items(Sexpr.AlistGet(x, "named_nets"))),
                  NamesBack(Sexpr.Items(Sexpr.AlistGet(x, "auto_nets")))))
  }

  // ---- the parts come back ----

  lemma {:induction false} StrsBack(xs: seq<string>)
    ensures |Strs(xs)| == |xs| && NamesBack(Sexpr.NormElems(Strs(xs))) == xs
  {
    if xs == [] {
    } else {
      StrsBack(xs[1..]);
      assert Strs(xs)[1..] == Strs(xs[1..]);
      assert Sexpr.NormElems(Strs(xs))[1..] == Sexpr.NormElems(Strs(xs[1..]));
    }
  }

  lemma ItemsOfArray(es: seq<Json>)
    ensures Sexpr.Items(Sexpr.Norm(JArr(es))) == Sexpr.NormElems(es)
  {
  }

  lemma TermComesBack(t: Term)
    ensures TermBack(Sexpr.Norm(TermJ(t))) == t
  {
    hide Sexpr.AlistGet;
    var ms := [Member("term", JStr(t.term)), Member("net", NetJ(t.net))];
    Sexpr.AlistFinds(ms, 0);
    Sexpr.AlistFinds(ms, 1);
  }

  lemma {:induction false} TermsComeBack(ts: seq<Term>)
    ensures |TermsJ(ts)| == |ts| && TermsBack(Sexpr.NormElems(TermsJ(ts))) == ts
  {
    hide TermJ, TermBack, Sexpr.Norm;
    if ts == [] {
    } else {
      TermsComeBack(ts[1..]);
      TermComesBack(ts[0]);
      assert TermsJ(ts)[1..] == TermsJ(ts[1..]);
      assert Sexpr.NormElems(TermsJ(ts))[1..] == Sexpr.NormElems(TermsJ(ts[1..]));
    }
  }

  lemma InstComesBack(i: Inst)
    ensures InstBack(Sexpr.Norm(InstJ(i))) == i
  {
    hide Sexpr.AlistGet, Sexpr.NormElems, Sexpr.Items, TermsBack, TermsJ;
    var ms := [Member("name", JStr(i.name)), Member("master", JStr(i.master)), Member("terms", JArr(TermsJ(i.terms)))];
    Sexpr.AlistFinds(ms, 0);
    Sexpr.AlistFinds(ms, 1);
    Sexpr.AlistFinds(ms, 2);
    ItemsOfArray(TermsJ(i.terms));
    TermsComeBack(i.terms);
  }

  lemma {:induction false} InstsComeBack(xs: seq<Inst>)
    ensures |InstsJ(xs)| == |xs| && InstsBack(Sexpr.NormElems(InstsJ(xs))) == xs
  {
    hide InstJ, InstBack, Sexpr.Norm;
    if xs == [] {
    } else {
      InstsComeBack(xs[1..]);
      InstComesBack(xs[0]);
      assert InstsJ(xs)[1..] == InstsJ(xs[1..]);
      assert Sexpr.NormElems(InstsJ(xs))[1..] == Sexpr.NormElems(InstsJ(xs[1..]));
    }
  }

  lemma SnapComesBack(s: Snapshot)
    ensures SnapFromJson(Sexpr.Norm(SnapJ(s))) == Some(s)
  {
    hide Sexpr.AlistGet, Sexpr.NormElems, Sexpr.Items, InstsBack, InstsJ, Strs, NamesBack;
    var ms := SnapJ(s).members;
    Sexpr.AlistFinds(ms, 1);
    Sexpr.AlistFinds(ms, 2);
    Sexpr.AlistFinds(ms, 3);
    Sexpr.AlistFinds(ms, 4);
    ItemsOfArray(InstsJ(s.instances));
    ItemsOfArray(Strs(s.named));
    ItemsOfArray(Strs(s.auto));
    InstsComeBack(s.instances);
    StrsBack(s.named);
    StrsBack(s.auto);
  }

  // ---- names that can be encoded ----

  predicate CleanTerm(t: Term) {
    JsonText.CleanString(t.term) && (t.net.Some? ==> JsonText.CleanString(t.net.value))
  }

  ghost predicate CleanInst(i: Inst) {
    JsonText.CleanString(i.name) && JsonText.CleanString(i.master) &&
    forall k :: 0 <= k < |i.terms| ==> CleanTerm(i.terms[k])
  }

  /** Every name in the snapshot is free of control characters other than newline and tab. */
  ghost predicate CleanSnapshot(s: Snapshot) {
    && JsonText.CleanString(s.cellview)
    && (forall i :: 0 <= i < |s.instances| ==> CleanInst(s.instances[i]))
    && (forall i :: 0 <= i < |s.named| ==> JsonText.CleanString(s.named[i]))
    && (forall i :: 0 <= i < |s.auto| ==> JsonText.CleanString(s.auto[i]))
  }

  lemma {:induction false} CleanStrs(xs: seq<string>)
    ensures JsonText.CleanElems(Strs(xs)) <==> forall i :: 0 <= i < |xs| ==> JsonText.CleanString(xs[i])
  {
    hide JsonText.CleanString;
    if xs == [] {
    } else {
      CleanStrs(xs[1..]);
      assert Strs(xs)[1..] == Strs(xs[1..]);
      assert forall i :: 1 <= i < |xs| ==> xs[i] == xs[1..][i - 1];
    }
  }

  /** A member list is clean when each member is. */
  lemma {:induction false} CleanEach(ms: seq<Member>)
    ensures JsonText.CleanMembers(ms) <==>
      forall i :: 0 <= i < |ms| ==> JsonText.CleanString(ms[i].key) && JsonText.Clean(ms[i].value)
  {
    hide JsonText.CleanString, JsonText.Clean;
    if ms == [] {
    } else {
      CleanEach(ms[1..]);
      assert forall i :: 1 <= i < |ms| ==> ms[i] == ms[1..][i - 1];
    }
  }

  lemma CleanTermJ(t: Term)
    ensures JsonText.Clean(TermJ(t)) <==> CleanTerm(t)
  {
    assert JsonText.CleanString("term") && JsonText.CleanString("net");
    var ms := TermJ(t).members;
    CleanEach(ms);
    assert JsonText.Clean(ms[0].value) <==> JsonText.CleanString(t.term);
    assert JsonText.Clean(ms[1].value) <==> (t.net.Some? ==> JsonText.CleanString(t.net.value));
  }

  lemma {:induction false} CleanTermsJ(ts: seq<Term>)
    ensures JsonText.CleanElems(TermsJ(ts)) <==> forall k :: 0 <= k < |ts| ==> CleanTerm(ts[k])
  {
    hide CleanTerm, TermJ;
    if ts == [] {
    } else {
      CleanTermsJ(ts[1..]);
      CleanTermJ(ts[0]);
      assert TermsJ(ts)[1..] == TermsJ(ts[1..]);
      assert forall i :: 1 <= i < |ts| ==> ts[i] == ts[1..][i - 1];
    }
  }

  lemma CleanInstJ(i: Inst)
    ensures JsonText.Clean(InstJ(i)) <==> CleanInst(i)
  {
    hide TermsJ, JsonText.CleanElems;
    CleanTermsJ(i.terms);
    assert JsonText.CleanString("name") && JsonText.CleanString("master") && JsonText.CleanString("terms");
    var ms := InstJ(i).members;
    CleanEach(ms);
    assert JsonText.Clean(ms[0].value) <==> JsonText.CleanString(i.name);
    assert JsonText.Clean(ms[1].value) <==> JsonText.CleanString(i.master);
    assert JsonText.Clean(ms[2].value) <==> JsonText.CleanElems(TermsJ(i.terms));
  }

  lemma {:induction false} CleanInstsJ(xs: seq<Inst>)
    ensures JsonText.CleanElems(InstsJ(xs)) <==> forall k :: 0 <= k < |xs| ==> CleanInst(xs[k])
  {
    hide CleanInst, InstJ;
    if xs == [] {
    } else {
      CleanInstsJ(xs[1..]);
      CleanInstJ(xs[0]);
      assert InstsJ(xs)[1..] == InstsJ(xs[1..]);
      assert forall i :: 1 <= i < |xs| ==> xs[i] == xs[1..][i - 1];
    }
  }

  lemma CleanKeys()
    ensures JsonText.CleanString("schema_version") && JsonText.CleanString("0.1") && JsonText.CleanString("cellview")
    ensures JsonText.CleanString("instances") && JsonText.CleanString("named_nets") && JsonText.CleanString("auto_nets")
  {
  }

  lemma CleanSnapJ(s: Snapshot)
    ensures JsonText.Clean(SnapJ(s)) <==> CleanSnapshot(s)
  {
    hide InstsJ, Strs, CleanInst, JsonText.CleanElems;
    CleanInstsJ(s.instances);
    CleanStrs(s.named);
    CleanStrs(s.auto);
    CleanKeys();
    hide JsonText.CleanString;
    var ms := SnapJ(s).members;
    CleanEach(ms);
    assert JsonText.Clean(ms[1].value) <==> JsonText.CleanString(s.cellview);
    assert JsonText.Clean(ms[2].value) <==> JsonText.CleanElems(InstsJ(s.instances));
    assert JsonText.Clean(ms[3].value) <==> JsonText.CleanElems(Strs(s.named));
    assert JsonText.Clean(ms[4].value) <==> JsonText.CleanElems(Strs(s.auto));
  }

  // ---- the whole way ----

  /** The JSON text of a snapshot, as it is stored with a transaction. */
  function Stored(s: Snapshot): string {
    JsonText.ToJson(SnapJ(s))
  }

  /** What rollback rebuilds from a stored JSON text. */
  function Restored(text: string): Option<Snapshot> {
    match JsonText.Read(text)
    case Fail => None
    case Got(v, _) =>
      match Sexpr.Read(Sexpr.Print(v))
      case Fail => None
      case Got(x, _) => SnapFromJson(x)
  }

  /** A snapshot sent through JSON and the s-expression channel comes back as it was, exactly when its names
      can be encoded; otherwise nothing comes back. */
  lemma SnapshotRoundTripIff(s: Snapshot)
    ensures Restored(Stored(s)) == if CleanSnapshot(s) then Some(s) else None
  {
    hide SnapJ, SnapFromJson, Sexpr.Read, JsonText.Read;
    var v := SnapJ(s);
    CleanSnapJ(s);
    JsonText.RoundTripIff(v);
    if CleanSnapshot(s) {
      Sexpr.ReadPrint(v, "");
      assert Sexpr.Print(v) + "" == Sexpr.Print(v);
      SnapComesBack(s);
    }
  }

  /** Whether rollback finds the connectivity as stored; None when no snapshot can be rebuilt. */
  function Verdict(text: string, live: Snapshot): Option<bool> {
    match Restored(text) case None => None case Some(before) => Some(Diffs(before, live) == [])
  }

  /** So rollback's verdict on a stored snapshot is that on the live pre-apply one, and there is none exactly
      when the snapshot cannot be encoded. */
  lemma VerdictFaithful(before: Snapshot, live: Snapshot)
    ensures Verdict(Stored(before), live) == if CleanSnapshot(before) then Some(Diffs(before, live) == []) else None
  {
    hide Diffs, Stored, Restored, CleanSnapshot;
    SnapshotRoundTripIff(before);
  }
}
