/** The plugin's side of the event stream (skill/vfp_rpc_server.il): text arrives in arbitrary chunks,
    is buffered, and complete lines are handled. */
module EventBridge {
  import opened Text

  /** What the handler gets out of a line: the number, when it reads as one, and the type, when present. */
  datatype Msg = Msg(num: Option<int>, kind: Option<string>)

  /** The bridge's state; `log` is every event handled so far. */
  datatype Plugin = Plugin(buf: string, lastSeq: Option<int>, log: seq<Msg>)

  // ---- lines ----

  /** The complete lines of a buffer. */
  function Complete(s: string): seq<string>
    decreases |s|
  {
    if '\n' in s then AfterShorter(s, '\n'); [Before(s, '\n')] + Complete(After(s, '\n')) else []
  }

  /** The unfinished last line. */
  function Rest(s: string): string
    decreases |s|
  {
    if '\n' in s then AfterShorter(s, '\n'); Rest(After(s, '\n')) else s
  }

  function Parse(line: string): Option<Msg> {
    var toks := Tokens(line, ' ');
    if toks == [] || toks[0] != "VFP-EVT" then None
    else Some(Msg(if |toks| > 1 then Atoi(toks[1]) else None, if |toks| > 2 then Some(toks[2]) else None))
  }

  /** The effect of one line: an event is recorded and moves the cursor if its number is readable. */
  function HandleLine(p: Plugin, line: string): Plugin {
    match Parse(line)
    case None => p
    case Some(m) => Plugin(p.buf, if m.num.Some? then m.num else p.lastSeq, p.log + [m])
  }

  function HandleAll(p: Plugin, lines: seq<string>): Plugin {
    if lines == [] then p else HandleLine(HandleAll(p, lines[..|lines| - 1]), lines[|lines| - 1])
  }

  function Feed(p: Plugin, data: string): Plugin {
    HandleAll(p, Complete(p.buf + data)).(buf := Rest(p.buf + data))
  }

  /** The refresh calls a chunk gives rise to, at most one of each however many events it completes. */
  datatype Refresh = Refresh(proposals: bool, netlists: bool, actions: bool, dashboard: bool)

  predicate IsProposal(m: Msg) {
    m.kind.Some? && "proposal." <= m.kind.value
  }

  predicate HasKind(m: Msg, k: string) {
    m.kind == Some(k)
  }

  lemma HandleNone(p: Plugin)
    ensures HandleAll(p, []) == p
  {
  }

  lemma HandleNext(p: Plugin, lines: seq<string>, n: nat)
    requires n < |lines|
    ensures HandleAll(p, lines[..n + 1]) == HandleLine(HandleAll(p, lines[..n]), lines[n])
  {
    assert lines[..n + 1][..n] == lines[..n];
  }

  class Bridge {
    var buf: string
    var lastSeq: Option<int>
    var log: seq<Msg>

    function View(): Plugin
      reads this
    {
      Plugin(buf, lastSeq, log)
    }

    /** Lines 226-239: one line. */
    method HandleOne(line: string, r: Refresh) returns (r': Refresh)
      modifies this`lastSeq, this`log
      ensures View() == HandleLine(old(View()), line) && old(log) <= log
      ensures r'.dashboard <==> r.dashboard || |log| > |old(log)|
      ensures r'.proposals <==> r.proposals || exists i :: |old(log)| <= i < |log| && IsProposal(log[i])
      ensures r'.netlists <==> r.netlists || exists i :: |old(log)| <= i < |log| && HasKind(log[i], "netlist.request")
      ensures r'.actions <==> r.actions || exists i :: |old(log)| <= i < |log| && HasKind(log[i], "action.request")
    {
      hide Parse;
      r' := r;
      var m := Parse(line);
      if m.Some? {
        if m.value.num.Some? {
          lastSeq := m.value.num;
        }
        log := log + [m.value];
        r' := Refresh(r.proposals || IsProposal(m.value), r.netlists || HasKind(m.value, "netlist.request"),
                      r.actions || HasKind(m.value, "action.request"), true);
        assert log[|log| - 1] == m.value;
      }
    }

    /** Lines 219-254: take complete lines off the front while there are any, keep the rest, and refresh what the
        events handled call for. */
    method DataH(data: string) returns (r: Refresh)
      modifies this
      ensures View() == Feed(old(View()), data) && old(log) <= log
      ensures r.dashboard <==> |log| > |old(log)|
      ensures r.proposals <==>
        exists i :: |old(log)| <= i < |log| && log[i].kind.Some? && "proposal." <= log[i].kind.value
      ensures r.netlists <==> exists i :: |old(log)| <= i < |log| && log[i].kind == Some("netlist.request")
      ensures r.actions <==> exists i :: |old(log)| <= i < |log| && log[i].kind == Some("action.request")
    {
      hide Parse, HandleAll;
      ghost var p := View();
      var b := buf + data;
      ghost var all, n := Complete(b), 0;
      r := Refresh(false, false, false, false);
      HandleNone(p);
      while '\n' in b
        invariant n <= |all| && all[n..] == Complete(b) && Rest(b) == Rest(p.buf + data)
        invariant View() == HandleAll(p, all[..n]) && p.log <= log
        invariant r.dashboard <==> |log| > |p.log|
        invariant r.proposals <==> exists i :: |p.log| <= i < |log| && IsProposal(log[i])
        invariant r.netlists <==> exists i :: |p.log| <= i < |log| && HasKind(log[i], "netlist.request")
        invariant r.actions <==> exists i :: |p.log| <= i < |log| && HasKind(log[i], "action.request")
        decreases |b|
      {
        AfterShorter(b, '\n');
        var line := Before(b, '\n');
        b := After(b, '\n');
        assert all[n] == line && all[n + 1..] == all[n..][1..];
        HandleNext(p, all, n);
        r := HandleOne(line, r);
        n := n + 1;
      }
      assert all[..n] == all;
      buf := b;
    }
  }

  // ---- what lines are, and what is not an event ----

  /** The lines, each with its newline, and the rest make up the text again. */
  function Rejoined(lines: seq<string>, rest: string): string {
    if lines == [] then rest else lines[0] + "\n" + Rejoined(lines[1..], rest)
  }

  lemma {:induction false} BeforeAfter(s: string, c: char)
    requires c in s
    ensures s == Before(s, c) + [c] + After(s, c) && c !in Before(s, c)
  {
    assert s == [s[0]] + s[1..];
    if s[0] == c {
    } else {
      var x, y := Before(s[1..], c), After(s[1..], c);
      BeforeAfter(s[1..], c);
      assert [s[0]] + (x + [c] + y) == [s[0]] + x + [c] + y;
    }
  }

  lemma {:induction false} LinesRejoin(s: string)
    ensures Rejoined(Complete(s), Rest(s)) == s
    ensures '\n' !in Rest(s) && forall l :: l in Complete(s) ==> '\n' !in l
    decreases |s|
  {
    if '\n' in s {
      AfterShorter(s, '\n');
      BeforeAfter(s, '\n');
      LinesRejoin(After(s, '\n'));
      assert Complete(s)[0] == Before(s, '\n') && Complete(s)[1..] == Complete(After(s, '\n'));
    }
  }

  /** A line is an event exactly when its first word is the marker. */
  lemma MarkedOnly(w: string, rest: string)
    requires w != "" && ' ' !in w
    ensures Parse(w + " " + rest).Some? <==> w == "VFP-EVT"
    ensures Parse(w).Some? <==> w == "VFP-EVT"
  {
    TokensCons(w, ' ', rest);
    assert w + " " + rest == w + [' '] + rest;
  }

  /** An event line whose number does not read as one is handled and leaves the cursor where it was. */
  lemma UnreadableNumber(p: Plugin, n: string, kind: string)
    requires n != "" && ' ' !in n && kind != "" && ' ' !in kind && Atoi(n).None?
    ensures HandleLine(p, "VFP-EVT " + n + " " + kind) == Plugin(p.buf, p.lastSeq, p.log + [Msg(None, Some(kind))])
  {
    hide Tokens, Atoi;
    var line := "VFP-EVT " + n + " " + kind;
    assert line == "VFP-EVT" + [' '] + (n + [' '] + kind);
    TokensCons("VFP-EVT", ' ', n + [' '] + kind);
    TokensCons(n, ' ', kind);
    TokensCons(kind, ' ', "");
  }

  /** A whole line of anything else, such as a warning, changes nothing. */
  lemma NoiseIgnored(p: Plugin, w: string, rest: string)
    requires p.buf == "" && w != "" && ' ' !in w && w != "VFP-EVT" && '\n' !in w && '\n' !in rest
    ensures Feed(p, w + " " + rest + "\n") == p
  {
    hide Parse;
    var line := w + " " + rest;
    MarkedOnly(w, rest);
    assert p.buf + (line + "\n") == line + ['\n'] + "";
    CutAt(line, '\n', "");
    assert Complete("") == [];
    assert Complete(line + ['\n'] + "") == [line] && Rest(line + ['\n'] + "") == "";
    assert [line][..0] == [] && HandleAll(p, []) == p;
    assert HandleAll(p, [line]) == HandleLine(p, line) == p;
  }

  // ---- chunks do not matter ----

  lemma {:induction false} CutPrefix(x: string, y: string, c: char)
    requires c in x
    ensures Before(x + y, c) == Before(x, c) && After(x + y, c) == After(x, c) + y
  {
    if x[0] != c {
      assert x == [x[0]] + x[1..] && (x + y)[1..] == x[1..] + y;
      CutPrefix(x[1..], y, c);
    } else {
      assert (x + y)[1..] == x[1..] + y;
    }
  }

  /** Splitting a text at any point leaves the same lines and the same remainder. */
  lemma {:induction false} LinesSplit(x: string, y: string)
    ensures Complete(x + y) == Complete(x) + Complete(Rest(x) + y)
    ensures Rest(x + y) == Rest(Rest(x) + y)
    decreases |x|
  {
    hide Before, After;
    if '\n' !in x {
    } else {
      var t := After(x, '\n');
      CutPrefix(x, y, '\n');
      AfterShorter(x, '\n');
      LinesSplit(t, y);
      assert '\n' in x + y;
      assert [Before(x, '\n')] + (Complete(t) + Complete(Rest(t) + y)) == Complete(x) + Complete(Rest(t) + y);
    }
  }

  lemma HandleBuf(p: Plugin, lines: seq<string>, b: string)
    ensures HandleAll(p.(buf := b), lines) == HandleAll(p, lines).(buf := b)
  {
    hide Parse;
    if lines == [] {
    } else {
      HandleBuf(p, lines[..|lines| - 1], b);
    }
  }

  lemma {:induction false} HandleConcat(p: Plugin, ls: seq<string>, ms: seq<string>)
    ensures HandleAll(p, ls + ms) == HandleAll(HandleAll(p, ls), ms)
  {
    hide HandleLine;
    if ms == [] {
      assert ls + ms == ls;
    } else {
      var k := |ms| - 1;
      assert (ls + ms)[..|ls + ms| - 1] == ls + ms[..k];
      HandleConcat(p, ls, ms[..k]);
    }
  }

  lemma FeedTwice(p: Plugin, x: string, y: string)
    ensures Feed(Feed(p, x), y) == Feed(p, x + y)
  {
    hide HandleLine;
    LinesSplit(p.buf + x, y);
    assert p.buf + x + y == p.buf + (x + y);
    var q := HandleAll(p, Complete(p.buf + x));
    HandleBuf(q, Complete(Rest(p.buf + x) + y), Rest(p.buf + x));
    HandleConcat(p, Complete(p.buf + x), Complete(Rest(p.buf + x) + y));
  }

  function FeedChunks(p: Plugin, chunks: seq<string>): Plugin {
    if chunks == [] then p else Feed(FeedChunks(p, chunks[..|chunks| - 1]), chunks[|chunks| - 1])
  }

  function Flat(chunks: seq<string>): string {
    if chunks == [] then "" else Flat(chunks[..|chunks| - 1]) + chunks[|chunks| - 1]
  }

  /** However the text is cut into chunks, the outcome is that of the whole text at once. */
  lemma {:induction false} ChunksDoNotMatter(p: Plugin, chunks: seq<string>)
    requires chunks != []
    ensures FeedChunks(p, chunks) == Feed(p, Flat(chunks))
  {
    hide Feed;
    var k := |chunks| - 1;
    if k == 0 {
      assert chunks[..0] == [] && Flat(chunks) == chunks[0];
    } else {
      ChunksDoNotMatter(p, chunks[..k]);
      FeedTwice(p, Flat(chunks[..k]), chunks[k]);
    }
  }
}
