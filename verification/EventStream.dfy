/** From the daemon's log to the plugin: the polling client of scripts/vfp_event_client.py prints one
    line per event into a pipe, and the bridge of skill/vfp_rpc_server.il reads them. Every order of
    emits, polls, deliveries, stops and starts of the bridge and restarts of the daemon is a run. */
module EventStream {
  import opened Text
  import opened EventLog
  import opened EventRestart
  import opened EventBridge

  /** The client process: its cursor, whether it has made first contact, and the text it has printed
      that the plugin has not received. */
  datatype Client = Client(since: int, contacted: bool, pipe: string)

  /** `all` is every event ever emitted; `log` is the daemon's log. */
  datatype Sys = Sys(all: seq<Event>, log: Log, client: Option<Client>, plugin: Plugin)

  datatype Step =
    | Emit(kind: string)
    | Start
    | Contact
    | Poll
    | Deliver(n: nat)
    | Stop
    | Exit
    | Restart(lines: seq<Line>)

  function EventText(e: Event): string {
    "VFP-EVT " + Show(e.num) + " " + e.kind
  }

  /** What the client prints for a list of events. */
  function Wire(es: seq<Event>): string {
    if es == [] then "" else EventText(es[0]) + "\n" + Wire(es[1..])
  }

  function Max(a: int, b: int): int {
    if a > b then a else b
  }

  /** The cursor after printing the events. */
  function Advance(since: int, es: seq<Event>): int {
    if es == [] then since else Max(Advance(since, es[..|es| - 1]), es[|es| - 1].num)
  }

  /** Event types as the daemon uses them: one word. */
  predicate Word(k: string) {
    k != "" && ' ' !in k && '\n' !in k
  }

  function Cursor(p: Plugin): int {
    if p.lastSeq.Some? then p.lastSeq.value else 0
  }

  function Polled(c: Client, l: Log): Client {
    var es := Since(l.events, c.since);
    c.(pipe := c.pipe + Wire(es), since := Advance(c.since, es))
  }

  /** First contact: a cursor of 0 jumps to the latest event, a positive one prints what came after it. */
  function Contacted(c: Client, l: Log): Client {
    if c.since <= 0 then c.(since := l.last, contacted := true) else Polled(c, l).(contacted := true)
  }

  ghost predicate Next(s: Sys, step: Step, s': Sys) {
    match step
    case Emit(kind) =>
      Word(kind) && s' == s.(all := s.all + [Event(s.log.last + 1, kind)], log := Emitted(s.log, kind))
    case Start =>
      s.client.None? && s' == s.(client := Some(Client(Cursor(s.plugin), false, "")), plugin := s.plugin.(buf := ""))
    case Contact =>
      s.client.Some? && !s.client.value.contacted && s' == s.(client := Some(Contacted(s.client.value, s.log)))
    case Poll =>
      s.client.Some? && s.client.value.contacted && s' == s.(client := Some(Polled(s.client.value, s.log)))
    case Deliver(n) =>
      s.client.Some? && n <= |s.client.value.pipe| &&
      s' == s.(client := Some(s.client.value.(pipe := s.client.value.pipe[n..])),
               plugin := Feed(s.plugin, s.client.value.pipe[..n]))
    case Stop =>
      s' == s.(client := None, plugin := s.plugin.(buf := ""))
    case Exit =>
      s' == s.(client := None)
    case Restart(lines) =>
      FileOf(lines, s.all) && Loads(s.log.retain, lines, s'.log) && s' == s.(log := s'.log)
  }

  /** Asking from this cursor reaches everything after it. */
  predicate InWindow(l: Log, since: int) {
    since >= Oldest(l) - 1 || Oldest(l) <= 1
  }

  /** The client's cursor is inside the retention window whenever it asks for events; a first contact
      without a positive cursor asks for none. A restart finds the lines it keeps in order. */
  ghost predicate Orderly(s: Sys, step: Step) {
    match step
    case Contact => s.client.Some? ==> s.client.value.since <= 0 || InWindow(s.log, s.client.value.since)
    case Poll => s.client.Some? ==> InWindow(s.log, s.client.value.since)
    case Restart(lines) => InOrder(lines, s.log.retain)
    case _ => true
  }

  ghost predicate Run(ss: seq<Sys>, steps: seq<Step>) {
    && |ss| == |steps| + 1
    && forall k :: 0 <= k < |steps| ==> Next(ss[k], steps[k], ss[k + 1]) && Orderly(ss[k], steps[k])
  }

  // ---- what holds along a run ----

  function MsgOf(e: Event): Msg {
    Msg(Some(e.num), Some(e.kind))
  }

  function Msgs(es: seq<Event>): (ms: seq<Msg>)
    ensures |ms| == |es| && forall i :: 0 <= i < |ms| ==> ms[i] == MsgOf(es[i])
  {
    seq(|es|, i requires 0 <= i < |es| => MsgOf(es[i]))
  }

  /** The log's history is numbered from 1 and its window is the last part of it. */
  ghost predicate LogOk(s: Sys) {
    WindowOf(s.log, s.all) && forall i :: 0 <= i < |s.all| ==> Word(s.all[i].kind)
  }

  ghost predicate UnderWay(s: Sys, c: Client, done: int)
    requires 0 <= done <= |s.all|
  {
    && done <= c.since <= |s.all| && '\n' !in s.plugin.buf
    && s.plugin.buf + c.pipe == Wire(s.all[done..c.since])
  }

  /** From cursor c on, the plugin has handled exactly the events c+1 .. lastSeq, in order, and what is
      still under way is the text of the events lastSeq+1 .. since. */
  ghost predicate Exact(s: Sys, c: int, before: seq<Msg>) {
    && LogOk(s)
    && s.plugin.lastSeq.Some? && 0 < c <= s.plugin.lastSeq.value <= |s.all|
    && s.plugin.log == before + Msgs(s.all[c..s.plugin.lastSeq.value])
    && (s.client.Some? ==> UnderWay(s, s.client.value, s.plugin.lastSeq.value))
  }

  // ---- the text of events ----

  lemma ShowIsWord(n: nat)
    ensures Show(n) != "" && ' ' !in Show(n) && '\n' !in Show(n)
  {
    NumDec(n);
    assert forall i :: 0 <= i < |Show(n)| ==> IsDigit(Show(n)[i]);
  }

  lemma ParseEvent(e: Event)
    requires Word(e.kind) && e.num >= 0
    ensures Parse(EventText(e)) == Some(MsgOf(e))
    ensures '\n' !in EventText(e)
  {
    hide Tokens, Show, Atoi, Dec;
    ShowIsWord(e.num);
    AtoiShow(e.num);
    var d := Show(e.num);
    assert EventText(e) == "VFP-EVT" + [' '] + (d + [' '] + e.kind);
    TokensCons("VFP-EVT", ' ', d + [' '] + e.kind);
    TokensCons(d, ' ', e.kind);
    TokensCons(e.kind, ' ', "");
    var toks := Tokens(EventText(e), ' ');
    assert toks == ["VFP-EVT", d, e.kind];
  }

  lemma {:induction false} WireConcat(es: seq<Event>, fs: seq<Event>)
    ensures Wire(es + fs) == Wire(es) + Wire(fs)
  {
    if es == [] {
      assert es + fs == fs;
    } else {
      assert (es + fs)[1..] == es[1..] + fs;
      WireConcat(es[1..], fs);
      assert EventText(es[0]) + "\n" + (Wire(es[1..]) + Wire(fs)) == EventText(es[0]) + "\n" + Wire(es[1..]) + Wire(fs);
    }
  }

  function Texts(es: seq<Event>): (ls: seq<string>)
    ensures |ls| == |es| && forall i :: 0 <= i < |ls| ==> ls[i] == EventText(es[i])
  {
    seq(|es|, i requires 0 <= i < |es| => EventText(es[i]))
  }

  ghost predicate Printable(es: seq<Event>) {
    forall i :: 0 <= i < |es| ==> Word(es[i].kind) && es[i].num >= 0
  }

  /** A prefix of the client's output holds the complete lines of the first k events and part of the next. */
  lemma {:induction false} WirePrefix(es: seq<Event>, x: string, y: string) returns (k: nat)
    requires Printable(es) && x + y == Wire(es)
    ensures k <= |es| && Complete(x) == Texts(es[..k]) && Rest(x) + y == Wire(es[k..])
    ensures '\n' !in Rest(x)
    decreases |es|
  {
    hide EventText;
    if '\n' in x {
      assert es != [];
      var t := EventText(es[0]);
      ParseEvent(es[0]);
      assert x + y == t + ['\n'] + Wire(es[1..]);
      CutAt(t, '\n', Wire(es[1..]));
      CutPrefix(x, y, '\n');
      AfterShorter(x, '\n');
      var j := WirePrefix(es[1..], After(x, '\n'), y);
      k := j + 1;
      assert es[1..][..j] == es[..k][1..] && es[1..][j..] == es[k..];
      assert Texts(es[..k]) == [t] + Texts(es[1..][..j]);
    } else {
      k := 0;
    }
  }

  /** Handling the lines of events records them in order and leaves the cursor at the last. */
  lemma {:induction false} HandleEvents(p: Plugin, es: seq<Event>)
    requires Printable(es)
    ensures HandleAll(p, Texts(es)) ==
      Plugin(p.buf, if es == [] then p.lastSeq else Some(es[|es| - 1].num), p.log + Msgs(es))
  {
    hide Parse, EventText;
    if es == [] {
      assert Texts(es) == [] && p.log + Msgs(es) == p.log;
    } else {
      var k := |es| - 1;
      HandleEvents(p, es[..k]);
      assert Texts(es)[..k] == Texts(es[..k]);
      ParseEvent(es[k]);
      assert p.log + Msgs(es[..k]) + [MsgOf(es[k])] == p.log + Msgs(es);
    }
  }

  // ---- each step keeps it ----

  lemma AdvanceConsecutive(es: seq<Event>, since: int)
    requires forall i :: 0 <= i < |es| ==> es[i].num == since + i + 1
    ensures Advance(since, es) == since + |es|
  {
    if es == [] {
    } else {
      AdvanceConsecutive(es[..|es| - 1], since);
    }
  }

  lemma KeepEmit(s: Sys, c: int, before: seq<Msg>, kind: string, s': Sys)
    requires Exact(s, c, before) && Next(s, Emit(kind), s')
    ensures Exact(s', c, before)
  {
    hide WindowOf, Emitted, Wire, Msgs;
    EmitKeepsWindow(s.log, s.all, kind);
    var d := s.plugin.lastSeq.value;
    assert s'.all[c..d] == s.all[c..d];
    if s.client.Some? {
      assert s'.all[d..s.client.value.since] == s.all[d..s.client.value.since];
    }
  }

  lemma WindowNumbers(l: Log, all: seq<Event>)
    requires WindowOf(l, all)
    ensures forall i :: 0 <= i < |all| ==> all[i].num == i + 1
  {
  }

  /** Asking the daemon from inside the window brings the client's output up to the latest event. */
  lemma PollUnderWay(s: Sys, c: int, before: seq<Msg>)
    requires Exact(s, c, before) && s.client.Some? && InWindow(s.log, s.client.value.since)
    ensures UnderWay(s, Polled(s.client.value, s.log), s.plugin.lastSeq.value)
    ensures Polled(s.client.value, s.log).since == |s.all|
  {
    hide WindowOf, Wire, Since, Msgs;
    var cl, d := s.client.value, s.plugin.lastSeq.value;
    ListExact(s.log, s.all, cl.since);
    WindowNumbers(s.log, s.all);
    var es := Since(s.log.events, cl.since);
    assert es == s.all[cl.since..];
    AdvanceConsecutive(es, cl.since);
    WireConcat(s.all[d..cl.since], es);
    assert s.all[d..cl.since] + es == s.all[d..|s.all|];
    assert s.plugin.buf + (cl.pipe + Wire(es)) == s.plugin.buf + cl.pipe + Wire(es);
  }

  lemma KeepPoll(s: Sys, c: int, before: seq<Msg>, step: Step, s': Sys)
    requires Exact(s, c, before) && (step.Poll? || step.Contact?) && Next(s, step, s') && Orderly(s, step)
    ensures Exact(s', c, before) && s'.client.value.since == |s.all|
  {
    hide WindowOf, Wire, Polled, Msgs;
    PollUnderWay(s, c, before);
  }

  lemma Slices(all: seq<Event>, i: nat, j: nat, k: nat)
    requires i + k <= j <= |all|
    ensures all[i..j][..k] == all[i..i + k] && all[i..j][k..] == all[i + k..j]
  {
  }

  lemma MsgsSplit(all: seq<Event>, i: nat, j: nat, k: nat)
    requires i <= j <= k <= |all|
    ensures Msgs(all[i..k]) == Msgs(all[i..j]) + Msgs(all[j..k])
  {
    assert all[i..k] == all[i..j] + all[j..k];
  }

  /** A delivery handles the events whose lines it completes and keeps the text of the rest under way. */
  lemma DeliverHandles(s: Sys, d: nat, n: nat) returns (k: nat)
    requires LogOk(s) && s.client.Some? && s.plugin.lastSeq == Some(d) && d <= |s.all|
    requires UnderWay(s, s.client.value, d) && n <= |s.client.value.pipe|
    ensures var c, p := s.client.value, Feed(s.plugin, s.client.value.pipe[..n]);
            && d + k <= c.since && p.lastSeq == Some(d + k) && p.log == s.plugin.log + Msgs(s.all[d..d + k])
            && '\n' !in p.buf && p.buf + c.pipe[n..] == Wire(s.all[d + k..c.since])
  {
    hide WindowOf, Wire, HandleAll, Complete, Rest, Msgs, Texts;
    var cl := s.client.value;
    var es := s.all[d..cl.since];
    assert forall i :: 0 <= i < |es| ==> es[i] == s.all[d + i];
    WindowNumbers(s.log, s.all);
    var x, y := s.plugin.buf + cl.pipe[..n], cl.pipe[n..];
    assert x + y == s.plugin.buf + cl.pipe by { assert cl.pipe == cl.pipe[..n] + cl.pipe[n..]; }
    k := WirePrefix(es, x, y);
    Slices(s.all, d, cl.since, k);
    HandleEvents(s.plugin, es[..k]);
    assert k > 0 ==> es[..k][k - 1] == s.all[d + k - 1];
  }

  lemma KeepDeliver(s: Sys, c: int, before: seq<Msg>, n: nat, s': Sys)
    requires Exact(s, c, before) && Next(s, Deliver(n), s')
    ensures Exact(s', c, before)
  {
    hide WindowOf, Wire, Feed, Msgs;
    var d := s.plugin.lastSeq.value;
    var k := DeliverHandles(s, d, n);
    MsgsSplit(s.all, c, d, d + k);
    assert before + Msgs(s.all[c..d]) + Msgs(s.all[d..d + k]) == before + (Msgs(s.all[c..d]) + Msgs(s.all[d..d + k]));
  }

  lemma KeepBridge(s: Sys, c: int, before: seq<Msg>, step: Step, s': Sys)
    requires Exact(s, c, before) && (step.Start? || step.Stop? || step.Exit?) && Next(s, step, s')
    ensures Exact(s', c, before)
  {
    var d := s.plugin.lastSeq.value;
    assert s.all[d..d] == [];
  }

  /** A daemon that finds its kept lines in order comes back as it was. */
  lemma SameLog(s: Sys, lines: seq<Line>, s': Sys)
    requires LogOk(s) && Next(s, Restart(lines), s') && Orderly(s, Restart(lines))
    ensures s' == s
  {
    hide WindowOf, FileOf, Loads, InOrder;
    RestartKeepsLogIff(s.log, s.all, lines, s'.log);
  }

  lemma KeepRestart(s: Sys, c: int, before: seq<Msg>, lines: seq<Line>, s': Sys)
    requires Exact(s, c, before) && Next(s, Restart(lines), s') && Orderly(s, Restart(lines))
    ensures Exact(s', c, before)
  {
    hide Next, LogOk;
    SameLog(s, lines, s');
  }

  lemma KeepStep(s: Sys, c: int, before: seq<Msg>, step: Step, s': Sys)
    requires Exact(s, c, before) && Next(s, step, s') && Orderly(s, step)
    ensures Exact(s', c, before)
  {
    hide Exact, Next;
    match step {
      case Emit(kind) => KeepEmit(s, c, before, kind, s');
      case Poll => KeepPoll(s, c, before, step, s');
      case Contact => KeepPoll(s, c, before, step, s');
      case Deliver(n) => KeepDeliver(s, c, before, n, s');
      case Restart(lines) => KeepRestart(s, c, before, lines, s');
      case _ => KeepBridge(s, c, before, step, s');
    }
  }

  /** Along every run that starts, bridge down, from a positive cursor and stays inside the retention
      window, the plugin has handled the events after that cursor exactly once and in order. */
  lemma {:induction false} ExactlyOnce(ss: seq<Sys>, steps: seq<Step>, k: nat)
    requires Run(ss, steps) && k < |ss|
    requires LogOk(ss[0]) && ss[0].client.None?
    requires ss[0].plugin.lastSeq.Some? && 0 < ss[0].plugin.lastSeq.value <= |ss[0].all|
    ensures Exact(ss[k], ss[0].plugin.lastSeq.value, ss[0].plugin.log)
  {
    var c, before := ss[0].plugin.lastSeq.value, ss[0].plugin.log;
    if k == 0 {
      assert ss[0].all[c..c] == [];
      assert before + Msgs([]) == before;
    } else {
      ExactlyOnce(ss, steps, k - 1);
      KeepStep(ss[k - 1], c, before, steps[k - 1], ss[k - 1 + 1]);
    }
  }

  lemma WireHasNewline(es: seq<Event>)
    ensures es != [] ==> '\n' in Wire(es)
  {
    if es != [] {
      assert Wire(es)[|EventText(es[0])|] == '\n';
    }
  }

  /** Nothing is lost: once a poll has caught up and the pipe is drained, every event has been handled. */
  lemma CaughtUp(s: Sys, c: int, before: seq<Msg>)
    requires Exact(s, c, before) && s.client.Some? && s.client.value.since == |s.all| && s.client.value.pipe == ""
    ensures s.plugin.lastSeq == Some(|s.all|) && s.plugin.log == before + Msgs(s.all[c..])
  {
    var d := s.plugin.lastSeq.value;
    var es := s.all[d..|s.all|];
    WireHasNewline(es);
    assert s.all[c..] == s.all[c..|s.all|];
  }

  /** The client's cursor and output (scripts/vfp_event_client.py:99-155). */
  class PollClient {
    var since: int
    var contacted: bool
    var pipe: string

    function View(): Client
      reads this
    {
      Client(since, contacted, pipe)
    }

    constructor (since: int)
      ensures View() == Client(since, false, "")
    {
      this.since, contacted, pipe := since, false, "";
    }

    /** Lines 152-154: print each event and move the cursor over it. */
    method Take(evs: seq<Event>)
      modifies this
      ensures since == Advance(old(since), evs) && pipe == old(pipe) + Wire(evs) && contacted == old(contacted)
    {
      hide EventText;
      for i := 0 to |evs|
        invariant since == Advance(old(since), evs[..i]) && pipe == old(pipe) + Wire(evs[..i])
        invariant contacted == old(contacted)
      {
        WireConcat(evs[..i], [evs[i]]);
        assert Wire([evs[i]]) == EventText(evs[i]) + "\n";
        assert evs[..i + 1] == evs[..i] + [evs[i]] && evs[..i + 1][..i] == evs[..i];
        pipe := pipe + (EventText(evs[i]) + "\n");
        since := Max(since, evs[i].num);
      }
      assert evs[..|evs|] == evs;
    }

    /** Lines 103-131 and 134-154: one answered request. */
    method Ask(l: Log)
      modifies this
      ensures View() == if old(contacted) then Polled(old(View()), l) else Contacted(old(View()), l)
    {
      if !contacted && since <= 0 {
        since := l.last;
      } else {
        Take(Since(l.events, since));
      }
      contacted := true;
    }
  }
}
