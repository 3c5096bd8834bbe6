/** The s-expression printer of tunnel/vfp_tunnel/skillrpc.py, a reader for what it prints, and the
    association-list lookup of skill/vfp_rpc_client.il. */
module Sexpr {
  import opened Text
  import opened JsonValue

  /** What SKILL reads; the empty list is nil. */
  datatype Sexp = Nil | T | Int(i: int) | Str(s: string) | List(items: seq<Sexp>)

  // ---- printing ----

  function Replace(s: string, c: char, put: string): string {
    if s == "" then "" else (if s[0] == c then put else [s[0]]) + Replace(s[1..], c, put)
  }

  /** The three replacements, one after the other. */
  function Escape(s: string): string {
    Replace(Replace(Replace(s, '\\', "\\\\"), '"', "\\\""), '\n', "\\n")
  }

  function EscapeChar(c: char): string {
    if c == '\\' then "\\\\" else if c == '"' then "\\\"" else if c == '\n' then "\\n" else [c]
  }

  function OnePass(s: string): string {
    if s == "" then "" else EscapeChar(s[0]) + OnePass(s[1..])
  }

  lemma {:induction false} ReplaceConcat(s: string, t: string, c: char, put: string)
    ensures Replace(s + t, c, put) == Replace(s, c, put) + Replace(t, c, put)
  {
    if s == "" {
      assert s + t == t;
    } else {
      assert (s + t)[1..] == s[1..] + t;
      ReplaceConcat(s[1..], t, c, put);
    }
  }

  lemma {:induction false} ReplaceNone(s: string, c: char, put: string)
    requires c !in s
    ensures Replace(s, c, put) == s
  {
    if s == "" {
    } else {
      ReplaceNone(s[1..], c, put);
    }
  }

  lemma ReplaceSelf(c: char, put: string)
    ensures Replace([c], c, put) == put
  {
    assert [c][1..] == "";
  }

  lemma EscapeOne(c: char)
    ensures Escape([c]) == EscapeChar(c)
  {
    hide Replace;
    if c == '\\' {
      ReplaceSelf(c, "\\\\");
      ReplaceNone("\\\\", '"', "\\\"");
      ReplaceNone("\\\\", '\n', "\\n");
    } else {
      ReplaceNone([c], '\\', "\\\\");
      if c == '"' {
        ReplaceSelf(c, "\\\"");
        ReplaceNone("\\\"", '\n', "\\n");
      } else {
        ReplaceNone([c], '"', "\\\"");
        if c == '\n' {
          ReplaceSelf(c, "\\n");
        } else {
          ReplaceNone([c], '\n', "\\n");
        }
      }
    }
  }

  /** Chained replacement escapes every character once: later passes never touch what earlier ones wrote. */
  lemma {:induction false} EscapeIsOnePass(s: string)
    ensures Escape(s) == OnePass(s)
  {
    if s == "" {
    } else {
      var h, t := [s[0]], s[1..];
      assert s == h + t;
      EscapeIsOnePass(t);
      EscapeOne(s[0]);
      ReplaceConcat(h, t, '\\', "\\\\");
      ReplaceConcat(Replace(h, '\\', "\\\\"), Replace(t, '\\', "\\\\"), '"', "\\\"");
      ReplaceConcat(Replace(Replace(h, '\\', "\\\\"), '"', "\\\""),
                    Replace(Replace(t, '\\', "\\\\"), '"', "\\\""), '\n', "\\n");
    }
  }

  function Print(v: Json): string
    decreases v, 1
  {
    match v
    case JNull => "nil"
    case JBool(b) => if b then "t" else "nil"
    case JInt(i) => Show(i)
    case JStr(s) => "\"" + Escape(s) + "\""
    case JArr(es) => "(" + PrintElems(es) + ")"
    case JObj(ms) => "(" + PrintMembers(ms) + ")"
  }

  function PrintElems(es: seq<Json>): string
    decreases es, 0
  {
    if es == [] then ""
    else if |es| == 1 then Print(es[0])
    else Print(es[0]) + " " + PrintElems(es[1..])
  }

  function PrintMember(m: Member): string
    decreases m, 2
  {
    "(" + "\"" + Escape(m.key) + "\"" + " " + Print(m.value) + ")"
  }

  function PrintMembers(ms: seq<Member>): string
    decreases ms, 0
  {
    if ms == [] then ""
    else if |ms| == 1 then PrintMember(ms[0])
    else PrintMember(ms[0]) + " " + PrintMembers(ms[1..])
  }

  // ---- reading ----

  predicate Delimiter(c: char) {
    c == ' ' || c == '(' || c == ')' || c == '"'
  }

  /** The characters up to the next delimiter. */
  function AtomText(s: string): (t: string)
    ensures |t| <= |s|
  {
    if s == "" || Delimiter(s[0]) then "" else [s[0]] + AtomText(s[1..])
  }

  function Atom(t: string): Parsed<Sexp> {
    if t == "nil" then Got(Nil, "")
    else if t == "t" then Got(T, "")
    else match Atoi(t) case Some(i) => Got(Int(i), "") case None => Fail
  }

  /** The inside of a string literal, up to its closing quote. */
  function ReadString(s: string): (r: Parsed<string>)
    ensures r.Got? ==> |r.rest| < |s|
  {
    if s == "" then Fail
    else if s[0] == '"' then Got("", s[1..])
    else if s[0] == '\\' then
      if |s| < 2 then Fail else
      match ReadString(s[2..])
      case Fail => Fail
      case Got(v, rest) => Got([if s[1] == 'n' then '\n' else if s[1] == 't' then '\t' else s[1]] + v, rest)
    else
      match ReadString(s[1..])
      case Fail => Fail
      case Got(v, rest) => Got([s[0]] + v, rest)
  }

  function Read(s0: string): (r: Parsed<Sexp>)
    ensures r.Got? ==> |r.rest| < |s0|
    decreases |s0|, 0
  {
    var s := SkipAll(s0, ' ');
    if s == "" || s[0] == ')' then Fail
    else if s[0] == '(' then
      match ReadItems(s[1..])
      case Fail => Fail
      case Got(items, rest) => Got(if items == [] then Nil else List(items), rest)
    else if s[0] == '"' then
      match ReadString(s[1..])
      case Fail => Fail
      case Got(v, rest) => Got(Str(v), rest)
    else
      match Atom(AtomText(s))
      case Fail => Fail
      case Got(v, _) => Got(v, s[|AtomText(s)|..])
  }

  function ReadItems(s0: string): (r: Parsed<seq<Sexp>>)
    ensures r.Got? ==> |r.rest| < |s0|
    decreases |s0|, 1
  {
    var s := SkipAll(s0, ' ');
    if s == "" then Fail
    else if s[0] == ')' then Got([], s[1..])
    else
      match Read(s)
      case Fail => Fail
      case Got(x, rest) =>
        match ReadItems(rest)
        case Fail => Fail
        case Got(xs, rest') => Got([x] + xs, rest')
  }

  /** What a value looks like on the SKILL side: false, null and empty containers are all nil. */
  function Norm(v: Json): Sexp
    decreases v, 1
  {
    match v
    case JNull => Nil
    case JBool(b) => if b then T else Nil
    case JInt(i) => Int(i)
    case JStr(s) => Str(s)
    case JArr(es) => if es == [] then Nil else List(NormElems(es))
    case JObj(ms) => if ms == [] then Nil else List(NormMembers(ms))
  }

  function NormElems(es: seq<Json>): (xs: seq<Sexp>)
    ensures |xs| == |es|
    decreases es, 0
  {
    if es == [] then [] else [Norm(es[0])] + NormElems(es[1..])
  }

  function NormMembers(ms: seq<Member>): (xs: seq<Sexp>)
    ensures |xs| == |ms|
    decreases ms, 0
  {
    if ms == [] then [] else [List([Str(ms[0].key), Norm(ms[0].value)])] + NormMembers(ms[1..])
  }

  // ---- the round trip ----

  lemma ReadChar(c: char, t: string)
    ensures ReadString(EscapeChar(c) + t) ==
      match ReadString(t) case Fail => Fail case Got(v, rest) => Got([c] + v, rest)
  {
    var e := EscapeChar(c);
    if |e| == 2 {
      assert (e + t)[2..] == t;
    } else {
      assert (e + t)[1..] == t;
    }
  }

  lemma {:induction false} ReadOnePass(s: string, rest: string)
    ensures ReadString(OnePass(s) + "\"" + rest) == Got(s, rest)
  {
    if s == "" {
      assert (OnePass(s) + "\"" + rest)[1..] == rest;
    } else {
      hide ReadString, EscapeChar;
      var t := OnePass(s[1..]) + "\"" + rest;
      assert OnePass(s) + "\"" + rest == EscapeChar(s[0]) + t;
      ReadOnePass(s[1..], rest);
      ReadChar(s[0], t);
      assert s == [s[0]] + s[1..];
    }
  }

  lemma ReadQuoted(s: string, rest: string)
    ensures Read("\"" + Escape(s) + "\"" + rest) == Got(Str(s), rest)
  {
    EscapeIsOnePass(s);
    ReadOnePass(s, rest);
    var all := "\"" + Escape(s) + "\"" + rest;
    assert all[1..] == OnePass(s) + "\"" + rest;
  }

  ghost predicate Ends(rest: string) {
    rest == "" || Delimiter(rest[0])
  }

  lemma {:induction false} AtomTextOf(t: string, rest: string)
    requires Ends(rest) && forall i :: 0 <= i < |t| ==> !Delimiter(t[i])
    ensures AtomText(t + rest) == t
  {
    if t == "" {
      assert t + rest == rest;
    } else {
      assert (t + rest)[1..] == t[1..] + rest;
      AtomTextOf(t[1..], rest);
      assert t == [t[0]] + t[1..];
    }
  }

  lemma ReadAtom(t: string, rest: string)
    requires Ends(rest) && t != "" && (forall i :: 0 <= i < |t| ==> !Delimiter(t[i])) && Atom(t).Got?
    ensures Read(t + rest) == Got(Atom(t).value, rest)
  {
    AtomTextOf(t, rest);
    assert SkipAll(t + rest, ' ') == t + rest;
    assert (t + rest)[|t|..] == rest;
  }

  lemma ShowChars(i: int)
    ensures Show(i) != "" && forall k :: 0 <= k < |Show(i)| ==> Show(i)[k] == '-' || IsDigit(Show(i)[k])
  {
    hide Dec;
    var n: nat := if i < 0 then -i else i;
    NumDec(n);
    assert forall k :: 0 <= k < |Dec(n)| ==> IsDigit(Dec(n)[k]);
  }

  lemma ReadInt(i: int, rest: string)
    requires Ends(rest)
    ensures Read(Show(i) + rest) == Got(Int(i), rest)
  {
    hide Show, Read, Atoi;
    ShowChars(i);
    AtoiShow(i);
    var t := Show(i);
    assert t[0] == '-' || IsDigit(t[0]);
    ReadAtom(t, rest);
  }

  /** A bracketed text read as a list of its items. */
  lemma ReadBracketed(body: string, rest: string, items: seq<Sexp>)
    requires ReadItems(body + ")" + rest) == Got(items, rest)
    ensures Read("(" + body + ")" + rest) == Got(if items == [] then Nil else List(items), rest)
  {
    var all := "(" + body + ")" + rest;
    assert all[1..] == body + ")" + rest;
  }

  /** A printed value starts with something an item can start with. */
  lemma PrintStarts(v: Json)
    ensures Print(v) != "" && Print(v)[0] != ' ' && Print(v)[0] != ')'
  {
    if v.JInt? {
      NumDec(if v.i < 0 then -v.i else v.i);
      assert v.i >= 0 ==> IsDigit(Dec(v.i)[0]);
    }
  }

  lemma MemberStarts(m: Member)
    ensures PrintMember(m) != "" && PrintMember(m)[0] == '('
  {
  }

  lemma ItemsEnd(rest: string)
    ensures ReadItems(")" + rest) == Got([], rest)
  {
    assert (")" + rest)[1..] == rest;
  }

  lemma ItemsSkip(s: string)
    ensures ReadItems(" " + s) == ReadItems(s)
  {
    assert (" " + s)[1..] == s;
  }

  /** One item in front of others. */
  lemma ItemsCons(item: string, x: Sexp, tail: string, xs: seq<Sexp>, rest: string)
    requires item != "" && item[0] != ' ' && item[0] != ')'
    requires Read(item + tail) == Got(x, tail) && ReadItems(tail) == Got(xs, rest)
    ensures ReadItems(item + tail) == Got([x] + xs, rest)
  {
    assert SkipAll(item + tail, ' ') == item + tail;
  }

  /** Printing and reading back gives the value, up to what SKILL calls nil, and stops right after it. */
  lemma {:induction false} ReadPrint(v: Json, rest: string)
    requires Ends(rest)
    ensures Read(Print(v) + rest) == Got(Norm(v), rest)
    decreases v, 1
  {
    hide Read, ReadItems, Show;
    match v {
      case JNull => ReadAtom("nil", rest);
      case JBool(b) => ReadAtom(if b then "t" else "nil", rest);
      case JInt(i) => ReadInt(i, rest);
      case JStr(s) => ReadQuoted(s, rest);
      case JArr(es) =>
        ReadElems(es, rest);
        ReadBracketed(PrintElems(es), rest, NormElems(es));
      case JObj(ms) =>
        ReadMembers(ms, rest);
        ReadBracketed(PrintMembers(ms), rest, NormMembers(ms));
    }
  }

  lemma {:induction false} ReadElems(es: seq<Json>, rest: string)
    ensures ReadItems(PrintElems(es) + ")" + rest) == Got(NormElems(es), rest)
    decreases es, 0
  {
    hide Read, ReadItems, Print, Norm;
    if es == [] {
      ItemsEnd(rest);
      assert "" + ")" + rest == ")" + rest;
    } else {
      PrintStarts(es[0]);
      var tail;
      if |es| == 1 {
        tail := ")" + rest;
        ItemsEnd(rest);
      } else {
        tail := " " + (PrintElems(es[1..]) + ")" + rest);
        ReadElems(es[1..], rest);
        ItemsSkip(PrintElems(es[1..]) + ")" + rest);
      }
      ReadPrint(es[0], tail);
      assert PrintElems(es) + ")" + rest == Print(es[0]) + tail;
      ItemsCons(Print(es[0]), Norm(es[0]), tail, NormElems(es[1..]), rest);
    }
  }

  lemma {:induction false} ReadMember(m: Member, rest: string)
    ensures Read(PrintMember(m) + rest) == Got(List([Str(m.key), Norm(m.value)]), rest)
    decreases m, 2
  {
    hide Read, ReadItems, Print, Norm, Escape;
    var key := "\"" + Escape(m.key) + "\"";
    var body := key + " " + Print(m.value);
    var last := ")" + rest;
    ReadPrint(m.value, last);
    PrintStarts(m.value);
    ItemsEnd(rest);
    ItemsCons(Print(m.value), Norm(m.value), last, [], rest);
    assert [Norm(m.value)] + [] == [Norm(m.value)];
    assert [Str(m.key)] + [Norm(m.value)] == [Str(m.key), Norm(m.value)];
    ItemsSkip(Print(m.value) + last);
    var tail := " " + (Print(m.value) + last);
    ReadQuoted(m.key, tail);
    assert key + tail == "\"" + Escape(m.key) + "\"" + tail;
    ItemsCons(key, Str(m.key), tail, [Norm(m.value)], rest);
    assert body + ")" + rest == key + tail;
    ReadBracketed(body, rest, [Str(m.key), Norm(m.value)]);
    assert PrintMember(m) + rest == "(" + body + ")" + rest;
  }

  lemma {:induction false} ReadMembers(ms: seq<Member>, rest: string)
    ensures ReadItems(PrintMembers(ms) + ")" + rest) == Got(NormMembers(ms), rest)
    decreases ms, 0
  {
    hide Read, ReadItems, Norm, PrintMember;
    if ms == [] {
      ItemsEnd(rest);
      assert "" + ")" + rest == ")" + rest;
    } else {
      var tail;
      if |ms| == 1 {
        tail := ")" + rest;
        ItemsEnd(rest);
      } else {
        tail := " " + (PrintMembers(ms[1..]) + ")" + rest);
        ReadMembers(ms[1..], rest);
        ItemsSkip(PrintMembers(ms[1..]) + ")" + rest);
      }
      ReadMember(ms[0], tail);
      MemberStarts(ms[0]);
      assert PrintMembers(ms) + ")" + rest == PrintMember(ms[0]) + tail;
      ItemsCons(PrintMember(ms[0]), List([Str(ms[0].key), Norm(ms[0].value)]), tail, NormMembers(ms[1..]), rest);
    }
  }

  // ---- lookup ----

  predicate IsPair(x: Sexp, key: string) {
    x.List? && x.items != [] && x.items[0] == Str(key)
  }

  function Second(x: Sexp): Sexp {
    if x.List? && |x.items| > 1 then x.items[1] else Nil
  }

  function Items(x: Sexp): seq<Sexp> {
    if x.List? then x.items else []
  }

  /** The value of the last pair with this key, nil when there is none. */
  function Lookup(items: seq<Sexp>, key: string): Sexp {
    if items == [] then Nil else
    var k := |items| - 1;
    if IsPair(items[k], key) then Second(items[k]) else Lookup(items[..k], key)
  }

  function AlistGet(x: Sexp, key: string): Sexp {
    Lookup(Items(x), key)
  }

  /** skill/vfp_rpc_client.il:88-97: the loop overwrites its result at every match. */
  method AlistScan(alist: Sexp, key: string) returns (val: Sexp)
    ensures val == AlistGet(alist, key)
  {
    var items := Items(alist);
    val := Nil;
    for i := 0 to |items|
      invariant val == Lookup(items[..i], key)
    {
      assert items[..i + 1][..i] == items[..i];
      if IsPair(items[i], key) {
        val := Second(items[i]);
      }
    }
    assert items[..|items|] == items;
  }

  ghost predicate DistinctKeys(ms: seq<Member>) {
    forall i, j :: 0 <= i < j < |ms| ==> ms[i].key != ms[j].key
  }

  lemma {:induction false} NormMembersAt(ms: seq<Member>, i: nat)
    requires i < |ms|
    ensures NormMembers(ms)[i] == List([Str(ms[i].key), Norm(ms[i].value)])
  {
    hide Norm;
    if i == 0 {
    } else {
      NormMembersAt(ms[1..], i - 1);
    }
  }

  lemma {:induction false} LookupAt(items: seq<Sexp>, key: string, i: nat)
    requires i < |items| && IsPair(items[i], key)
    requires forall j :: i < j < |items| ==> !IsPair(items[j], key)
    ensures Lookup(items, key) == Second(items[i])
  {
    if i == |items| - 1 {
    } else {
      LookupAt(items[..|items| - 1], key, i);
    }
  }

  lemma {:induction false} LookupNone(items: seq<Sexp>, key: string)
    requires forall j :: 0 <= j < |items| ==> !IsPair(items[j], key)
    ensures Lookup(items, key) == Nil
  {
    if items == [] {
    } else {
      LookupNone(items[..|items| - 1], key);
    }
  }

  /** Looking up a key of a printed dictionary finds exactly the entry printed for it. */
  lemma AlistFinds(ms: seq<Member>, i: nat)
    requires DistinctKeys(ms) && i < |ms|
    ensures AlistGet(Norm(JObj(ms)), ms[i].key) == Norm(ms[i].value)
  {
    hide NormMembers;
    var items := NormMembers(ms);
    forall j | 0 <= j < |items|
      ensures items[j] == List([Str(ms[j].key), Norm(ms[j].value)])
    {
      NormMembersAt(ms, j);
    }
    LookupAt(items, ms[i].key, i);
  }

  lemma AlistMisses(ms: seq<Member>, key: string)
    requires forall i :: 0 <= i < |ms| ==> ms[i].key != key
    ensures AlistGet(Norm(JObj(ms)), key) == Nil
  {
    hide NormMembers;
    forall j | 0 <= j < |ms|
      ensures NormMembers(ms)[j] == List([Str(ms[j].key), Norm(ms[j].value)])
    {
      NormMembersAt(ms, j);
    }
    if ms != [] {
      LookupNone(NormMembers(ms), key);
    }
  }
}
