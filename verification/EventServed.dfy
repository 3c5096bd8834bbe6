/** From which starts the event stream serves the plugin: the exact condition on its cursor, and what an
    unordered file does to it. */
module EventServed {
  import opened Text
  import opened EventLog
  import opened EventRestart
  import opened EventBridge
  import opened EventStream

  ghost predicate InTouch(s: Sys) {
    s.client.Some? && s.client.value.contacted
  }

  /** The client has nothing left to ask for and the plugin has received all it printed. */
  ghost predicate Drained(s: Sys) {
    InTouch(s) && s.client.value.since >= |s.all| && s.client.value.pipe == ""
  }

  /** The events emitted between the second and the third state are the last ones handled, in order. */
  ghost predicate Handled(s0: Sys, si: Sys, sk: Sys) {
    |si.all| <= |sk.all| && exists early: seq<Msg> :: sk.plugin.log == s0.plugin.log + early + Msgs(sk.all[|si.all|..])
  }

  /** Whatever happens after a first contact, once drained every event emitted since has been handled. */
  ghost predicate Serves(s0: Sys) {
    forall ss, steps, i, k ::
      Run(ss, steps) && 0 <= i <= k < |ss| && ss[0] == s0 && InTouch(ss[i]) && Drained(ss[k]) ==>
      Handled(s0, ss[i], ss[k])
  }

  lemma {:induction false} HistoryGrows(ss: seq<Sys>, steps: seq<Step>, i: nat, k: nat)
    requires Run(ss, steps) && i <= k < |ss|
    ensures |ss[i].all| <= |ss[k].all|
  {
    if k == i {
    } else {
      HistoryGrows(ss, steps, i, k - 1);
      assert Next(ss[k - 1], steps[k - 1], ss[k - 1 + 1]);
    }
  }

  // ---- a positive cursor ----

  lemma PositiveCursorServes(ss: seq<Sys>, steps: seq<Step>, i: nat, k: nat)
    requires Run(ss, steps) && LogOk(ss[0]) && ss[0].client.None?
    requires 0 < Cursor(ss[0].plugin) <= |ss[0].all|
    requires i <= k < |ss| && Drained(ss[k])
    ensures Handled(ss[0], ss[i], ss[k])
  {
    hide Next, Orderly;
    var c, before := Cursor(ss[0].plugin), ss[0].plugin.log;
    ExactlyOnce(ss, steps, k);
    CaughtUp(ss[k], c, before);
    HistoryGrows(ss, steps, 0, i);
    HistoryGrows(ss, steps, i, k);
    var all, n := ss[k].all, |ss[i].all|;
    MsgsSplit(all, c, n, |all|);
    assert all[c..] == all[c..|all|] && all[n..] == all[n..|all|];
    var early := Msgs(all[c..n]);
    assert before + (early + Msgs(all[n..])) == before + early + Msgs(all[n..]);
  }

  // ---- no positive cursor ----

  /** A bridge stopped before its first event forgets what was under way: with no cursor yet, the event
      emitted while it ran is skipped by the next first contact and never handled. */
  lemma ZeroCursorLoses(s0: Sys, kind: string) returns (ss: seq<Sys>, steps: seq<Step>)
    requires LogOk(s0) && s0.client.None? && Cursor(s0.plugin) <= 0 && Word(kind)
    ensures Run(ss, steps) && |ss| == 7 && ss[0] == s0
    ensures InTouch(ss[2]) && ss[2].all == s0.all
    ensures ss[6].all == s0.all + [Event(|s0.all| + 1, kind)] && ss[6].plugin.log == s0.plugin.log
    ensures ss[6].client == Some(Client(|ss[6].all|, true, ""))
  {
    hide Polled, Feed;
    var p, c := s0.plugin.(buf := ""), Cursor(s0.plugin);
    var l1, all1 := Emitted(s0.log, kind), s0.all + [Event(s0.log.last + 1, kind)];
    var s1 := s0.(client := Some(Client(c, false, "")), plugin := p);
    var s2 := s1.(client := Some(Client(s0.log.last, true, "")));
    var s3 := s2.(all := all1, log := l1);
    var s4 := s3.(client := None);
    var s5 := s4.(client := Some(Client(c, false, "")));
    var s6 := s5.(client := Some(Client(l1.last, true, "")));
    ss := [s0, s1, s2, s3, s4, s5, s6];
    steps := [Start, Contact, Emit(kind), Stop, Start, Contact];
    assert Next(s0, Start, s1) && Next(s1, Contact, s2) && Next(s2, Emit(kind), s3);
    assert Next(s3, Stop, s4) && Next(s4, Start, s5) && Next(s5, Contact, s6);
  }

  lemma AskNothing(c: Client, l: Log, all: seq<Event>)
    requires WindowOf(l, all) && c.since > |all|
    ensures Polled(c, l) == c && InWindow(l, c.since)
  {
    SinceConsecutive(l.events, |all| - |l.events|, c.since);
    assert c.pipe + "" == c.pipe;
  }

  /** A cursor beyond the last event waits for numbers that come later and skips those before them. */
  lemma CursorAheadLoses(s0: Sys, kind: string) returns (ss: seq<Sys>, steps: seq<Step>)
    requires LogOk(s0) && s0.client.None? && Cursor(s0.plugin) > |s0.all| && Word(kind)
    ensures Run(ss, steps) && |ss| == 4 && ss[0] == s0
    ensures InTouch(ss[2]) && ss[2].all == s0.all && Drained(ss[3])
    ensures ss[3].all == s0.all + [Event(|s0.all| + 1, kind)] && ss[3].plugin.log == s0.plugin.log
  {
    hide Polled, InWindow, Emitted, Word;
    var p, c := s0.plugin.(buf := ""), Cursor(s0.plugin);
    var l1, all1 := Emitted(s0.log, kind), s0.all + [Event(s0.log.last + 1, kind)];
    AskNothing(Client(c, false, ""), s0.log, s0.all);
    var s1 := s0.(client := Some(Client(c, false, "")), plugin := p);
    var s2 := s1.(client := Some(Client(c, true, "")));
    var s3 := s2.(all := all1, log := l1);
    ss := [s0, s1, s2, s3];
    steps := [Start, Contact, Emit(kind)];
    assert Next(s0, Start, s1) && Next(s1, Contact, s2) && Next(s2, Emit(kind), s3);
  }

  lemma NotHandled(s0: Sys, si: Sys, sk: Sys)
    requires sk.plugin.log == s0.plugin.log && |si.all| < |sk.all|
    ensures !Handled(s0, si, sk)
  {
  }

  /** The stream serves a plugin exactly when its cursor is positive and not beyond the last event. */
  lemma ServesIff(s0: Sys)
    requires LogOk(s0) && s0.client.None?
    ensures Serves(s0) <==> 0 < Cursor(s0.plugin) <= |s0.all|
  {
    hide Run, LogOk, Handled;
    if 0 < Cursor(s0.plugin) <= |s0.all| {
      forall ss, steps, i, k | Run(ss, steps) && 0 <= i <= k < |ss| && ss[0] == s0 && InTouch(ss[i]) && Drained(ss[k])
        ensures Handled(s0, ss[i], ss[k])
      {
        PositiveCursorServes(ss, steps, i, k);
      }
    } else if Cursor(s0.plugin) <= 0 {
      var ss, steps := ZeroCursorLoses(s0, "tick");
      NotHandled(s0, ss[2], ss[6]);
    } else {
      var ss, steps := CursorAheadLoses(s0, "tick");
      NotHandled(s0, ss[2], ss[3]);
    }
  }

  // ---- an unordered file ----

  lemma EmptyWire()
    ensures Wire([]) == ""
  {
  }

  lemma FeedWire(p: Plugin, es: seq<Event>)
    requires p.buf == "" && es != [] && Printable(es)
    ensures Feed(p, Wire(es)) == Plugin("", Some(es[|es| - 1].num), p.log + Msgs(es))
  {
    hide HandleAll, Wire, Texts, Complete, Rest;
    var x := p.buf + Wire(es);
    assert x == Wire(es) && x + "" == Wire(es);
    var k := WirePrefix(es, x, "");
    assert Rest(x) + "" == Rest(x);
    WireHasNewline(es[k..]);
    assert es[..k] == es && es[k..] == [];
    HandleEvents(p, es);
    EmptyWire();
  }

  /** A bridge that starts, hears the events after its positive cursor and handles them all. */
  lemma Session(s: Sys, es: seq<Event>) returns (a: Sys, b: Sys, c: Sys, n: nat)
    requires s.client.None? && Cursor(s.plugin) > 0 && es == Since(s.log.events, Cursor(s.plugin))
    requires es != [] && Printable(es) && InWindow(s.log, Cursor(s.plugin))
    ensures Next(s, Start, a) && Next(a, Contact, b) && Next(b, Deliver(n), c)
    ensures Orderly(s, Start) && Orderly(a, Contact) && Orderly(b, Deliver(n))
    ensures c == s.(client := Some(Client(Advance(Cursor(s.plugin), es), true, "")),
                    plugin := Plugin("", Some(es[|es| - 1].num), s.plugin.log + Msgs(es)))
  {
    hide Feed, Since, Wire, Advance, InWindow;
    var cur, p := Cursor(s.plugin), s.plugin.(buf := "");
    a := s.(client := Some(Client(cur, false, "")), plugin := p);
    assert "" + Wire(es) == Wire(es);
    b := a.(client := Some(Client(Advance(cur, es), true, Wire(es))));
    FeedWire(p, es);
    n := |Wire(es)|;
    assert Wire(es)[..n] == Wire(es) && Wire(es)[n..] == "";
    c := b.(client := Some(Client(Advance(cur, es), true, "")), plugin := Feed(p, Wire(es)));
  }

  lemma SwapBag<T>(x: T, y: T, z: T)
    ensures multiset([x, z, y]) == multiset([x, y, z])
  {
    assert multiset([x, z, y]) == multiset{x, z, y} && multiset([x, y, z]) == multiset{x, y, z};
  }

  lemma SwappedIsFile(e1: Event, e2: Event, e3: Event, lines: seq<Line>)
    requires lines == [Rec(e1), Rec(e3), Rec(e2)]
    ensures FileOf(lines, [e1, e2, e3])
  {
    assert Records([e1, e2, e3]) == [Rec(e1), Rec(e2), Rec(e3)];
    SwapBag(Rec(e1), Rec(e2), Rec(e3));
  }

  /** Three events whose last two lines stand swapped in the file, and the log a restart makes of it. */
  lemma SwappedLoads(e1: Event, e2: Event, e3: Event, lines: seq<Line>)
    requires e1.num == 1 && e2.num == 2 && e3.num == 3 && lines == [Rec(e1), Rec(e3), Rec(e2)]
    ensures FileOf(lines, [e1, e2, e3]) && Loads(0, lines, Log(0, [e1, e3, e2], 3))
  {
    hide GoodOf, FileOf;
    SwappedIsFile(e1, e2, e3, lines);
    GoodOfRecords(lines);
    assert GoodOf(lines) == [e1, e3, e2];
    assert lines[1] == Rec(e3);
  }

  lemma SwappedAsks(e1: Event, e2: Event, e3: Event)
    requires e1.num == 1 && e2.num == 2 && e3.num == 3
    ensures Since([e1, e3, e2], 1) == [e3, e2] && Advance(1, [e3, e2]) == 3
    ensures Since([e1, e3, e2], 2) == [e3] && Advance(2, [e3]) == 3
  {
    assert [e1, e3, e2][1..] == [e3, e2] && [e3, e2][1..] == [e2] && [e2][1..] == [];
    assert Since([], 1) == [] && Since([], 2) == [];
    assert Since([e2], 1) == [e2] && Since([e2], 2) == [];
    assert Since([e3, e2], 1) == [e3, e2] && Since([e3, e2], 2) == [e3];
    assert [e3, e2][..1] == [e3] && [e3][..0] == [];
    assert Advance(1, [e3]) == 3 && Advance(2, [e3]) == 3;
  }

  lemma Stops(s: Sys, s': Sys)
    requires s.plugin.buf == "" && s' == s.(client := None)
    ensures Next(s, Stop, s') && Orderly(s, Stop)
  {
  }

  lemma SwappedFile(s0: Sys, kind: string) returns (s1: Sys, s2: Sys, s3: Sys, lines: seq<Line>)
    requires Word(kind) && s0.all == [Event(1, kind)] && s0.log == Log(0, s0.all, 1)
    ensures Next(s0, Emit(kind), s1) && Next(s1, Emit(kind), s2) && Next(s2, Restart(lines), s3)
    ensures Orderly(s0, Emit(kind)) && Orderly(s1, Emit(kind))
    ensures s3 == s0.(all := [Event(1, kind), Event(2, kind), Event(3, kind)],
                      log := Log(0, [Event(1, kind), Event(3, kind), Event(2, kind)], 3))
  {
    hide FileOf, Loads, Word;
    var e1, e2, e3 := Event(1, kind), Event(2, kind), Event(3, kind);
    lines := [Rec(e1), Rec(e3), Rec(e2)];
    SwappedLoads(e1, e2, e3, lines);
    s1 := s0.(all := [e1, e2], log := Log(0, [e1, e2], 2));
    s2 := s1.(all := [e1, e2, e3], log := Log(0, [e1, e2, e3], 3));
    s3 := s2.(log := Log(0, [e1, e3, e2], 3));
  }

  /** Two appends that swap before a restart: event 3 arrives before event 2, and because the plugin's cursor
      follows the last line it handles, a restart of the bridge brings event 3 a second time. */
  lemma UnorderedFileRepeats(kind: string) returns (ss: seq<Sys>, steps: seq<Step>, lines: seq<Line>)
    requires Word(kind)
    ensures |ss| == |steps| + 1 && forall k :: 0 <= k < |steps| ==> Next(ss[k], steps[k], ss[k + 1])
    ensures forall k :: 0 <= k < |steps| ==> Orderly(ss[k], steps[k]) || steps[k] == Restart(lines)
    ensures LogOk(ss[0]) && ss[0].client.None? && Cursor(ss[0].plugin) == |ss[0].all| == 1
    ensures var last, e2, e3 := ss[|steps|], Event(2, kind), Event(3, kind);
            && Drained(last) && last.all == ss[0].all + [e2, e3]
            && last.plugin.log == ss[0].plugin.log + Msgs([e3, e2, e3])
  {
    hide Since, Advance, Next, Orderly;
    var e1, e2, e3 := Event(1, kind), Event(2, kind), Event(3, kind);
    var s0 := Sys([e1], Log(0, [e1], 1), None, Plugin("", Some(1), []));
    var s1, s2, s3;
    s1, s2, s3, lines := SwappedFile(s0, kind);
    SwappedAsks(e1, e2, e3);
    var s4, s5, s6, n := Session(s3, [e3, e2]);
    var s7 := s6.(client := None);
    Stops(s6, s7);
    var s8, s9, s10, m := Session(s7, [e3]);
    ss := [s0, s1, s2, s3, s4, s5, s6, s7, s8, s9, s10];
    steps := [Emit(kind), Emit(kind), Restart(lines), Start, Contact, Deliver(n), Stop, Start, Contact, Deliver(m)];
  }
}
