/** The exact text of small values on the two channels: punctuation, literals and escapes. Readers of the
    other side depend on it. */
module WireText {
  import opened Text
  import opened JsonValue
  import JsonText
  import Sexpr

  lemma EscOne(c: char)
    ensures JsonText.Esc([c]) == JsonText.EscChar(c)
  {
    assert [c][..0] == "";
  }

  /** The four escapes of the JSON encoder. */
  lemma JsonEscapes()
    ensures JsonText.Esc("\\") == "\\\\" && JsonText.Esc("\"") == "\\\""
    ensures JsonText.Esc("\n") == "\\n" && JsonText.Esc("\t") == "\\t" && JsonText.Esc("a") == "a"
  {
    EscOne('\\');
    EscOne('"');
    EscOne('\n');
    EscOne('\t');
    EscOne('a');
  }

  /** The three escapes of the s-expression printer; a tab stays as it is. */
  lemma SexprEscapes()
    ensures Sexpr.Escape("\\") == "\\\\" && Sexpr.Escape("\"") == "\\\"" && Sexpr.Escape("\n") == "\\n"
    ensures Sexpr.Escape("\t") == "\t" && Sexpr.Escape("a") == "a"
  {
    Sexpr.EscapeOne('\\');
    Sexpr.EscapeOne('"');
    Sexpr.EscapeOne('\n');
    Sexpr.EscapeOne('\t');
    Sexpr.EscapeOne('a');
  }

  lemma JsonArray()
    ensures JsonText.ToJson(JArr([JNull, JBool(true), JBool(false)])) == "[null,true,false]"
  {
    assert [JBool(true), JBool(false)][1..] == [JBool(false)];
    assert [JNull, JBool(true), JBool(false)][1..] == [JBool(true), JBool(false)];
    assert JsonText.ElemsToJson([JBool(false)]) == "false";
    assert JsonText.ElemsToJson([JBool(true), JBool(false)]) == "true,false";
  }

  lemma SexprArray()
    ensures Sexpr.Print(JArr([JNull, JBool(true), JBool(false)])) == "(nil t nil)"
  {
    assert [JBool(true), JBool(false)][1..] == [JBool(false)];
    assert [JNull, JBool(true), JBool(false)][1..] == [JBool(true), JBool(false)];
    assert Sexpr.PrintElems([JBool(false)]) == "nil";
    assert Sexpr.PrintElems([JBool(true), JBool(false)]) == "t nil";
  }

  lemma JsonMembers(x: Member, y: Member)
    ensures JsonText.ToJson(JObj([x, y])) == "{" + (JsonText.MemberToJson(x) + "," + JsonText.MemberToJson(y)) + "}"
  {
    hide JsonText.MemberToJson;
    assert [x, y][1..] == [y];
    assert JsonText.MembersToJson([y]) == JsonText.MemberToJson(y);
    assert JsonText.MembersToJson([x, y]) == JsonText.MemberToJson(x) + "," + JsonText.MembersToJson([y]);
  }

  lemma JsonMemberTexts()
    ensures JsonText.MemberToJson(Member("a", JInt(-7))) == "\"a\":-7"
    ensures JsonText.MemberToJson(Member("a", JStr("a"))) == "\"a\":\"a\""
  {
    hide JsonText.Esc, Show;
    ShowLiterals();
    JsonEscapes();
    assert JsonText.Quote("a") == "\"a\"";
  }

  lemma JsonObject()
    ensures JsonText.ToJson(JObj([Member("a", JInt(-7)), Member("a", JStr("a"))])) == "{\"a\":-7,\"a\":\"a\"}"
  {
    hide JsonText.ToJson, JsonText.MemberToJson;
    JsonMemberTexts();
    JsonMembers(Member("a", JInt(-7)), Member("a", JStr("a")));
  }

  lemma SexprMembers(x: Member, y: Member)
    ensures Sexpr.Print(JObj([x, y])) == "(" + (Sexpr.PrintMember(x) + " " + Sexpr.PrintMember(y)) + ")"
  {
    hide Sexpr.PrintMember;
    assert [x, y][1..] == [y];
    assert Sexpr.PrintMembers([y]) == Sexpr.PrintMember(y);
    assert Sexpr.PrintMembers([x, y]) == Sexpr.PrintMember(x) + " " + Sexpr.PrintMembers([y]);
  }

  lemma SexprMemberTexts()
    ensures Sexpr.PrintMember(Member("a", JInt(-7))) == "(\"a\" -7)"
    ensures Sexpr.PrintMember(Member("a", JStr("a"))) == "(\"a\" \"a\")"
  {
    hide Sexpr.Escape, Show;
    ShowLiterals();
    SexprEscapes();
    assert Sexpr.Print(JInt(-7)) == "-7" && Sexpr.Print(JStr("a")) == "\"a\"";
  }

  lemma SexprObject()
    ensures Sexpr.Print(JObj([Member("a", JInt(-7)), Member("a", JStr("a"))])) == "((\"a\" -7) (\"a\" \"a\"))"
  {
    hide Sexpr.Print, Sexpr.PrintMember;
    SexprMemberTexts();
    SexprMembers(Member("a", JInt(-7)), Member("a", JStr("a")));
  }
}
