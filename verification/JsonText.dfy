/** The JSON encoder of skill/vfp_utils.il and a reader for JSON text (RFC 8259; \u escapes and
    fractional numbers, which the encoder never prints for these values, are not read). */
module JsonText {
  import opened Text
  import opened JsonValue

  // ---- the encoder ----

  function EscChar(c: char): string {
    if c == '\\' then "\\\\"
    else if c == '"' then "\\\""
    else if c == '\n' then "\\n"
    else if c == '\t' then "\\t"
    else [c]
  }

  function Esc(s: string): string {
    if s == "" then "" else Esc(s[..|s| - 1]) + EscChar(s[|s| - 1])
  }

  /** Lines 87-104: character by character. */
  method JsonEsc(s: string) returns (out: string)
    ensures out == Esc(s)
  {
    out := "";
    for i := 0 to |s|
      invariant out == Esc(s[..i])
    {
      assert s[..i + 1][..i] == s[..i];
      out := out + EscChar(s[i]);
    }
    assert s[..|s|] == s;
  }

  function Quote(s: string): string {
    "\"" + Esc(s) + "\""
  }

  function ToJson(v: Json): string
    decreases v, 1
  {
    match v
    case JNull => "null"
    case JBool(b) => if b then "true" else "false"
    case JInt(i) => Show(i)
    case JStr(s) => Quote(s)
    case JArr(es) => "[" + ElemsToJson(es) + "]"
    case JObj(ms) => "{" + MembersToJson(ms) + "}"
  }

  function ElemsToJson(es: seq<Json>): string
    decreases es, 0
  {
    if es == [] then ""
    else if |es| == 1 then ToJson(es[0])
    else ToJson(es[0]) + "," + ElemsToJson(es[1..])
  }

  function MemberToJson(m: Member): string
    decreases m, 2
  {
    Quote(m.key) + ":" + ToJson(m.value)
  }

  function MembersToJson(ms: seq<Member>): string
    decreases ms, 0
  {
    if ms == [] then ""
    else if |ms| == 1 then MemberToJson(ms[0])
    else MemberToJson(ms[0]) + "," + MembersToJson(ms[1..])
  }

  // ---- the reader ----

  predicate White(c: char) {
    c == ' ' || c == '\t' || c == '\n' || c == '\r'
  }

  function SkipWhite(s: string): (r: string)
    ensures |r| <= |s| && (r == "" || !White(r[0]))
  {
    if s != "" && White(s[0]) then SkipWhite(s[1..]) else s
  }

  /** Section 7 of RFC 8259: the two-character escapes. */
  function Unescape(c: char): Option<char> {
    if c == '"' || c == '\\' || c == '/' then Some(c)
    else if c == 'b' then Some(8 as char)
    else if c == 'f' then Some(12 as char)
    else if c == 'n' then Some('\n')
    else if c == 'r' then Some('\r')
    else if c == 't' then Some('\t')
    else None
  }

  /** Section 7 of RFC 8259: control characters must be escaped. */
  predicate Control(c: char) {
    c < ' '
  }

  /** The inside of a string, up to its closing quote. */
  function ReadString(s: string): (r: Parsed<string>)
    ensures r.Got? ==> |r.rest| < |s|
  {
    if s == "" then Fail
    else if s[0] == '"' then Got("", s[1..])
    else if s[0] == '\\' then
      if |s| < 2 || Unescape(s[1]).None? then Fail else
      match ReadString(s[2..])
      case Fail => Fail
      case Got(v, rest) => Got([Unescape(s[1]).value] + v, rest)
    else if Control(s[0]) then Fail
    else
      match ReadString(s[1..])
      case Fail => Fail
      case Got(v, rest) => Got([s[0]] + v, rest)
  }

  function DigitText(s: string): (t: string)
    ensures |t| <= |s|
  {
    if s == "" || !IsDigit(s[0]) then "" else [s[0]] + DigitText(s[1..])
  }

  /** The characters of a number token. */
  function NumberText(s: string): (t: string)
    ensures |t| <= |s|
  {
    if s != "" && s[0] == '-' then "-" + DigitText(s[1..]) else DigitText(s)
  }

  /** An integer without superfluous leading zeros. */
  function NumberOf(t: string): Option<int> {
    var digits := if t != "" && t[0] == '-' then t[1..] else t;
    if |digits| > 1 && digits[0] == '0' then None else Atoi(t)
  }

  function Literal(s: string, word: string, v: Json): Parsed<Json> {
    if word <= s then Got(v, s[|word|..]) else Fail
  }

  function Read(s0: string): (r: Parsed<Json>)
    ensures r.Got? ==> |r.rest| < |s0|
    decreases |s0|, 0
  {
    var s := SkipWhite(s0);
    if s == "" then Fail
    else if s[0] == '"' then
      match ReadString(s[1..])
      case Fail => Fail
      case Got(v, rest) => Got(JStr(v), rest)
    else if s[0] == '[' then
      var t := SkipWhite(s[1..]);
      if t != "" && t[0] == ']' then Got(JArr([]), t[1..]) else
      match ReadElems(s[1..])
      case Fail => Fail
      case Got(es, rest) => Got(JArr(es), rest)
    else if s[0] == '{' then
      var t := SkipWhite(s[1..]);
      if t != "" && t[0] == '}' then Got(JObj([]), t[1..]) else
      match ReadMembers(s[1..])
      case Fail => Fail
      case Got(ms, rest) => Got(JObj(ms), rest)
    else if s[0] == 't' then Literal(s, "true", JBool(true))
    else if s[0] == 'f' then Literal(s, "false", JBool(false))
    else if s[0] == 'n' then Literal(s, "null", JNull)
    else
      var t := NumberText(s);
      match NumberOf(t)
      case None => Fail
      case Some(i) =>
        var rest := s[|t|..];
        if t == "" || (rest != "" && rest[0] in ".eE") then Fail else Got(JInt(i), rest)
  }

  /** One or more values and the closing bracket. */
  function ReadElems(s: string): (r: Parsed<seq<Json>>)
    ensures r.Got? ==> |r.rest| < |s|
    decreases |s|, 1
  {
    match Read(s)
    case Fail => Fail
    case Got(v, rest0) =>
      var rest := SkipWhite(rest0);
      if rest == "" then Fail
      else if rest[0] == ']' then Got([v], rest[1..])
      else if rest[0] != ',' then Fail
      else
        match ReadElems(rest[1..])
        case Fail => Fail
        case Got(vs, rest') => Got([v] + vs, rest')
  }

  function ReadMember(s0: string): (r: Parsed<Member>)
    ensures r.Got? ==> |r.rest| < |s0|
    decreases |s0|, 1
  {
    var s := SkipWhite(s0);
    if s == "" || s[0] != '"' then Fail else
    match ReadString(s[1..])
    case Fail => Fail
    case Got(key, rest0) =>
      var rest := SkipWhite(rest0);
      if rest == "" || rest[0] != ':' then Fail else
      match Read(rest[1..])
      case Fail => Fail
      case Got(v, rest') => Got(Member(key, v), rest')
  }

  /** One or more members and the closing brace. */
  function ReadMembers(s: string): (r: Parsed<seq<Member>>)
    ensures r.Got? ==> |r.rest| < |s|
    decreases |s|, 2
  {
    match ReadMember(s)
    case Fail => Fail
    case Got(m, rest0) =>
      var rest := SkipWhite(rest0);
      if rest == "" then Fail
      else if rest[0] == '}' then Got([m], rest[1..])
      else if rest[0] != ',' then Fail
      else
        match ReadMembers(rest[1..])
        case Fail => Fail
        case Got(ms, rest') => Got([m] + ms, rest')
  }

  // ---- strings ----

  /** Only newline and tab among the control characters. */
  predicate CleanChar(c: char) {
    !Control(c) || c == '\n' || c == '\t'
  }

  predicate CleanString(s: string) {
    forall i :: 0 <= i < |s| ==> CleanChar(s[i])
  }

  lemma ReadEscChar(c: char, t: string)
    ensures ReadString(EscChar(c) + t) ==
      if !CleanChar(c) then Fail
      else match ReadString(t) case Fail => Fail case Got(v, rest) => Got([c] + v, rest)
  {
    var e := EscChar(c);
    if |e| == 2 {
      assert (e + t)[2..] == t;
    } else {
      assert (e + t)[1..] == t;
    }
  }

  lemma {:induction false} ReadEsc(s: string, t: string)
    ensures ReadString(Esc(s) + t) ==
      if !CleanString(s) then Fail
      else match ReadString(t) case Fail => Fail case Got(v, rest) => Got(s + v, rest)
  {
    hide ReadString, EscChar, CleanChar;
    if s == "" {
      assert Esc(s) + t == t;
      assert ReadString(t).Got? ==> s + ReadString(t).value == ReadString(t).value;
    } else {
      var k := |s| - 1;
      var t' := EscChar(s[k]) + t;
      assert Esc(s) + t == Esc(s[..k]) + t';
      ReadEsc(s[..k], t');
      ReadEscChar(s[k], t);
      assert CleanString(s) <==> CleanString(s[..k]) && CleanChar(s[k]);
      if ReadString(t).Got? {
        assert s[..k] + ([s[k]] + ReadString(t).value) == s + ReadString(t).value;
      }
    }
  }

  lemma ReadClose(rest: string)
    ensures ReadString("\"" + rest) == Got("", rest)
  {
    assert ("\"" + rest)[1..] == rest;
  }

  /** A string survives encoding and decoding exactly when it has no control characters besides newline
      and tab; otherwise the decoder refuses it. */
  lemma StringRoundTripIff(s: string, rest: string)
    ensures Read(Quote(s) + rest) == if CleanString(s) then Got(JStr(s), rest) else Fail
  {
    hide ReadString, Esc, CleanString;
    ReadEsc(s, "\"" + rest);
    ReadClose(rest);
    var all := Quote(s) + rest;
    assert all[1..] == Esc(s) + ("\"" + rest);
    assert s + "" == s;
  }

  // ---- values ----

  /** Every string and key in the value can be encoded. */
  predicate Clean(v: Json)
    decreases v, 1
  {
    match v
    case JStr(s) => CleanString(s)
    case JArr(es) => CleanElems(es)
    case JObj(ms) => CleanMembers(ms)
    case _ => true
  }

  predicate CleanElems(es: seq<Json>)
    decreases es, 0
  {
    es == [] || (Clean(es[0]) && CleanElems(es[1..]))
  }

  predicate CleanMembers(ms: seq<Member>)
    decreases ms, 0
  {
    ms == [] || (CleanString(ms[0].key) && Clean(ms[0].value) && CleanMembers(ms[1..]))
  }

  /** Text that can follow a value: nothing, or a separator or closing bracket. */
  ghost predicate Ends(rest: string) {
    rest == "" || rest[0] == ',' || rest[0] == ']' || rest[0] == '}'
  }

  lemma {:induction false} DigitTextOf(t: string, rest: string)
    requires Ends(rest) && forall i :: 0 <= i < |t| ==> IsDigit(t[i])
    ensures DigitText(t + rest) == t
  {
    if t == "" {
      assert t + rest == rest;
    } else {
      assert (t + rest)[1..] == t[1..] + rest;
      DigitTextOf(t[1..], rest);
      assert t == [t[0]] + t[1..];
    }
  }

  lemma {:induction false} DecHead(n: nat)
    ensures Dec(n) != "" && (Dec(n)[0] == '0' ==> n == 0)
  {
    if n < 10 {
    } else {
      DecHead(n / 10);
    }
  }

  lemma NumberOfShow(i: int)
    ensures NumberOf(Show(i)) == Some(i)
  {
    hide Atoi;
    AtoiShow(i);
    var n: nat := if i < 0 then -i else i;
    NumDec(n);
    DecHead(n);
    assert IsDigit(Dec(n)[0]);
    if i < 0 {
      assert Show(i)[1..] == Dec(n);
    }
    assert n == 0 ==> |Dec(n)| == 1;
  }

  lemma NumberTextShow(i: int, rest: string)
    requires Ends(rest)
    ensures NumberText(Show(i) + rest) == Show(i)
  {
    hide Dec, Num, DigitText;
    var n: nat := if i < 0 then -i else i;
    NumDec(n);
    DigitTextOf(Dec(n), rest);
    if i < 0 {
      assert Show(i) == "-" + Dec(n);
      assert (Show(i) + rest)[1..] == Dec(n) + rest;
    } else {
      assert IsDigit(Dec(n)[0]) && (Dec(n) + rest)[0] == Dec(n)[0];
    }
  }

  lemma ShowHead(i: int)
    ensures Show(i) != "" && (Show(i)[0] == '-' || IsDigit(Show(i)[0]))
  {
    NumDec(if i < 0 then -i else i);
  }

  lemma ReadInt(i: int, rest: string)
    requires Ends(rest)
    ensures Read(Show(i) + rest) == Got(JInt(i), rest)
  {
    hide NumberOf, NumberText;
    NumberTextShow(i, rest);
    NumberOfShow(i);
    ShowHead(i);
    hide Show;
    assert (Show(i) + rest)[|Show(i)|..] == rest;
    assert SkipWhite(Show(i) + rest) == Show(i) + rest;
  }

  lemma ReadWord(word: string, rest: string)
    ensures word == "null" ==> Read(word + rest) == Got(JNull, rest)
    ensures word == "true" ==> Read(word + rest) == Got(JBool(true), rest)
    ensures word == "false" ==> Read(word + rest) == Got(JBool(false), rest)
  {
    assert (word + rest)[|word|..] == rest;
    assert word <= word + rest;
  }

  /** A value's text starts neither with white space nor with a closing bracket. */
  lemma StartsWell(v: Json)
    ensures var t := ToJson(v); t != "" && !White(t[0]) && t[0] != ']' && t[0] != '}'
  {
    if v.JInt? {
      ShowHead(v.i);
    }
  }

  lemma ElemsLast(item: string, v: Json, rest: string)
    requires Read(item + "]" + rest) == Got(v, "]" + rest)
    ensures ReadElems(item + "]" + rest) == Got([v], rest)
  {
    assert ("]" + rest)[1..] == rest;
  }

  lemma ElemsCons(item: string, v: Json, tail: string, vs: seq<Json>, rest: string)
    requires Read(item + "," + tail) == Got(v, "," + tail) && ReadElems(tail) == Got(vs, rest)
    ensures ReadElems(item + "," + tail) == Got([v] + vs, rest)
  {
    assert ("," + tail)[1..] == tail;
  }

  lemma MembersLast(item: string, m: Member, rest: string)
    requires ReadMember(item + "}" + rest) == Got(m, "}" + rest)
    ensures ReadMembers(item + "}" + rest) == Got([m], rest)
  {
    assert ("}" + rest)[1..] == rest;
  }

  lemma MembersCons(item: string, m: Member, tail: string, ms: seq<Member>, rest: string)
    requires ReadMember(item + "," + tail) == Got(m, "," + tail) && ReadMembers(tail) == Got(ms, rest)
    ensures ReadMembers(item + "," + tail) == Got([m] + ms, rest)
  {
    assert ("," + tail)[1..] == tail;
  }

  lemma ReadArray(body: string, es: seq<Json>, rest: string)
    requires body != "" && !White(body[0]) && body[0] != ']'
    requires ReadElems(body + "]" + rest) == Got(es, rest)
    ensures Read("[" + body + "]" + rest) == Got(JArr(es), rest)
  {
    var all := "[" + body + "]" + rest;
    assert all[1..] == body + "]" + rest;
  }

  lemma ReadObject(body: string, ms: seq<Member>, rest: string)
    requires body != "" && !White(body[0]) && body[0] != '}'
    requires ReadMembers(body + "}" + rest) == Got(ms, rest)
    ensures Read("{" + body + "}" + rest) == Got(JObj(ms), rest)
  {
    var all := "{" + body + "}" + rest;
    assert all[1..] == body + "}" + rest;
  }

  lemma ReadEmpty(rest: string)
    ensures Read("[]" + rest) == Got(JArr([]), rest) && Read("{}" + rest) == Got(JObj([]), rest)
  {
    assert ("[]" + rest)[1..] == "]" + rest && ("]" + rest)[1..] == rest;
    assert ("{}" + rest)[1..] == "}" + rest && ("}" + rest)[1..] == rest;
  }

  lemma ElemsStart(es: seq<Json>)
    requires es != []
    ensures var t := ElemsToJson(es); t != "" && !White(t[0]) && t[0] != ']'
  {
    StartsWell(es[0]);
    hide ToJson;
  }

  lemma MembersStart(ms: seq<Member>)
    requires ms != []
    ensures var t := MembersToJson(ms); t != "" && t[0] == '"'
  {
    hide ToJson, Esc;
  }

  /** Encoding and decoding gives back every value whose strings can be encoded, and stops right after it. */
  lemma {:induction false} RoundTrip(v: Json, rest: string)
    requires Clean(v) && Ends(rest)
    ensures Read(ToJson(v) + rest) == Got(v, rest)
    decreases v, 1
  {
    hide Read, ReadElems, ReadMembers, Show, Quote;
    match v {
      case JNull => ReadWord("null", rest);
      case JBool(b) => ReadWord(if b then "true" else "false", rest);
      case JInt(i) => ReadInt(i, rest);
      case JStr(s) => StringRoundTripIff(s, rest);
      case JArr(es) =>
        if es == [] {
          ReadEmpty(rest);
          assert ToJson(v) == "[]";
        } else {
          ElemsRoundTrip(es, rest);
          ElemsStart(es);
          ReadArray(ElemsToJson(es), es, rest);
        }
      case JObj(ms) =>
        if ms == [] {
          ReadEmpty(rest);
          assert ToJson(v) == "{}";
        } else {
          MembersRoundTrip(ms, rest);
          MembersStart(ms);
          ReadObject(MembersToJson(ms), ms, rest);
        }
    }
  }

  lemma {:induction false} ElemsRoundTrip(es: seq<Json>, rest: string)
    requires es != [] && CleanElems(es)
    ensures ReadElems(ElemsToJson(es) + "]" + rest) == Got(es, rest)
    decreases es, 0
  {
    hide Read, ReadElems, ToJson, Clean;
    var item := ToJson(es[0]);
    if |es| == 1 {
      RoundTrip(es[0], "]" + rest);
      assert item + "]" + rest == item + ("]" + rest);
      ElemsLast(item, es[0], rest);
      assert es == [es[0]];
    } else {
      var tail := ElemsToJson(es[1..]) + "]" + rest;
      RoundTrip(es[0], "," + tail);
      assert item + "," + tail == item + ("," + tail);
      ElemsRoundTrip(es[1..], rest);
      ElemsCons(item, es[0], tail, es[1..], rest);
      assert ElemsToJson(es) + "]" + rest == item + "," + tail;
      assert es == [es[0]] + es[1..];
    }
  }

  lemma ReadKey(key: string, tail: string)
    requires CleanString(key)
    ensures (Quote(key) + tail)[0] == '"' && ReadString((Quote(key) + tail)[1..]) == Got(key, tail)
  {
    hide ReadString, Esc, CleanString;
    ReadEsc(key, "\"" + tail);
    ReadClose(tail);
    assert (Quote(key) + tail)[1..] == Esc(key) + ("\"" + tail);
    assert key + "" == key;
  }

  /** A quoted key, a colon and a readable value make a member. */
  lemma KeyThen(key: string, text: string)
    requires CleanString(key) && Read(text).Got?
    ensures ReadMember(Quote(key) + (":" + text)) == Got(Member(key, Read(text).value), Read(text).rest)
  {
    hide Read, ReadString, Quote, CleanString;
    ReadKey(key, ":" + text);
    assert (":" + text)[1..] == text;
  }

  lemma {:induction false} MemberRoundTrip(m: Member, rest: string)
    requires CleanString(m.key) && Clean(m.value) && Ends(rest)
    ensures ReadMember(MemberToJson(m) + rest) == Got(m, rest)
    decreases m, 2
  {
    hide Read, ReadMember, ToJson, Clean, Quote, CleanString;
    RoundTrip(m.value, rest);
    var text := ToJson(m.value) + rest;
    KeyThen(m.key, text);
    assert MemberToJson(m) + rest == Quote(m.key) + (":" + text);
  }

  lemma {:induction false} MembersRoundTrip(ms: seq<Member>, rest: string)
    requires ms != [] && CleanMembers(ms)
    ensures ReadMembers(MembersToJson(ms) + "}" + rest) == Got(ms, rest)
    decreases ms, 0
  {
    hide Read, ReadMember, ReadMembers, MemberToJson, Clean;
    var item := MemberToJson(ms[0]);
    if |ms| == 1 {
      MemberRoundTrip(ms[0], "}" + rest);
      assert item + "}" + rest == item + ("}" + rest);
      MembersLast(item, ms[0], rest);
      assert ms == [ms[0]];
    } else {
      var tail := MembersToJson(ms[1..]) + "}" + rest;
      MemberRoundTrip(ms[0], "," + tail);
      assert item + "," + tail == item + ("," + tail);
      MembersRoundTrip(ms[1..], rest);
      MembersCons(item, ms[0], tail, ms[1..], rest);
      assert MembersToJson(ms) + "}" + rest == item + "," + tail;
      assert ms == [ms[0]] + ms[1..];
    }
  }

  // ---- what cannot be encoded is refused ----

  lemma ArrayRefused(body: string, rest: string)
    requires body != "" && !White(body[0]) && body[0] != ']' && ReadElems(body + "]" + rest) == Fail
    ensures Read("[" + body + "]" + rest) == Fail
  {
    var all := "[" + body + "]" + rest;
    assert all[1..] == body + "]" + rest;
  }

  lemma ObjectRefused(body: string, rest: string)
    requires body != "" && !White(body[0]) && body[0] != '}' && ReadMembers(body + "}" + rest) == Fail
    ensures Read("{" + body + "}" + rest) == Fail
  {
    var all := "{" + body + "}" + rest;
    assert all[1..] == body + "}" + rest;
  }

  /** A value with any other control character in a string or key makes text the decoder refuses. */
  lemma {:induction false} Refused(v: Json, rest: string)
    requires !Clean(v)
    ensures Read(ToJson(v) + rest) == Fail
    decreases v, 1
  {
    hide Read, ReadElems, ReadMembers, ReadString, Quote;
    match v {
      case JStr(s) => StringRoundTripIff(s, rest);
      case JArr(es) =>
        ElemsRefused(es, rest);
        ElemsStart(es);
        ArrayRefused(ElemsToJson(es), rest);
      case JObj(ms) =>
        MembersRefused(ms, rest);
        MembersStart(ms);
        ObjectRefused(MembersToJson(ms), rest);
    }
  }

  lemma {:induction false} ElemsRefused(es: seq<Json>, rest: string)
    requires !CleanElems(es)
    ensures ReadElems(ElemsToJson(es) + "]" + rest) == Fail
    decreases es, 0
  {
    hide Read, ToJson, Clean;
    var item := ToJson(es[0]);
    var tail := if |es| == 1 then "]" + rest else "," + (ElemsToJson(es[1..]) + "]" + rest);
    assert ElemsToJson(es) + "]" + rest == item + tail;
    if !Clean(es[0]) {
      Refused(es[0], tail);
    } else {
      RoundTrip(es[0], tail);
      ElemsRefused(es[1..], rest);
      assert tail[1..] == ElemsToJson(es[1..]) + "]" + rest;
    }
  }

  lemma {:induction false} MemberRefused(m: Member, rest: string)
    requires !CleanString(m.key) || !Clean(m.value)
    ensures ReadMember(MemberToJson(m) + rest) == Fail
    decreases m, 2
  {
    hide Read, ToJson, Clean, Esc, ReadString, CleanString;
    var tail := ":" + (ToJson(m.value) + rest);
    assert MemberToJson(m) + rest == Quote(m.key) + tail;
    assert (Quote(m.key) + tail)[1..] == Esc(m.key) + ("\"" + tail);
    if CleanString(m.key) {
      ReadKey(m.key, tail);
      Refused(m.value, rest);
      assert tail[1..] == ToJson(m.value) + rest;
    } else {
      ReadEsc(m.key, "\"" + tail);
    }
  }

  lemma {:induction false} MembersRefused(ms: seq<Member>, rest: string)
    requires !CleanMembers(ms)
    ensures ReadMembers(MembersToJson(ms) + "}" + rest) == Fail
    decreases ms, 0
  {
    hide Read, ReadMember, MemberToJson, Clean, CleanString;
    var item := MemberToJson(ms[0]);
    var tail := if |ms| == 1 then "}" + rest else "," + (MembersToJson(ms[1..]) + "}" + rest);
    assert MembersToJson(ms) + "}" + rest == item + tail;
    if !CleanString(ms[0].key) || !Clean(ms[0].value) {
      MemberRefused(ms[0], tail);
    } else {
      MemberRoundTrip(ms[0], tail);
      MembersRefused(ms[1..], rest);
      assert tail[1..] == MembersToJson(ms[1..]) + "}" + rest;
    }
  }

  /** The encoder's text decodes, and then to the value itself, exactly when every string and key is free
      of control characters other than newline and tab. */
  lemma RoundTripIff(v: Json)
    ensures Read(ToJson(v)) == if Clean(v) then Got(v, "") else Fail
  {
    assert ToJson(v) + "" == ToJson(v);
    if Clean(v) {
      RoundTrip(v, "");
    } else {
      Refused(v, "");
    }
  }
}
