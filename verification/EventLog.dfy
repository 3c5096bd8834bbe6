/** The daemon's event log (tunnel/vfp_tunnel/event/manager.py): a monotonic sequence number, a
    bounded window of recent events, the long poll, and the append-only file read at start-up. */
module EventLog {
  import opened Text

  /** An event; its timestamp and payload do not matter here. */
  datatype Event = Event(num: int, kind: string)

  /** The in-memory log; a retention of 0 means no limit. */
  datatype Log = Log(retain: nat, events: seq<Event>, last: int)

  function Empty(retain: nat): Log {
    Log(retain, [], 0)
  }

  function LastOf<T>(s: seq<T>, n: nat): seq<T> {
    if n == 0 || |s| <= n then s else s[|s| - n..]
  }

  function Emitted(l: Log, kind: string): Log {
    Log(l.retain, LastOf(l.events + [Event(l.last + 1, kind)], l.retain), l.last + 1)
  }

  function Since(es: seq<Event>, since: int): seq<Event> {
    if es == [] then [] else (if es[0].num > since then [es[0]] else []) + Since(es[1..], since)
  }

  /** Listing keeps exactly the events with a greater number, in their order. */
  lemma {:induction false} SinceFilters(es: seq<Event>, fs: seq<Event>, since: int)
    ensures Since(es + fs, since) == Since(es, since) + Since(fs, since)
  {
    if es == [] {
      assert es + fs == fs;
    } else {
      assert (es + fs)[0] == es[0] && (es + fs)[1..] == es[1..] + fs;
      SinceFilters(es[1..], fs, since);
      var mine := if es[0].num > since then [es[0]] else [];
      assert mine + (Since(es[1..], since) + Since(fs, since)) == mine + Since(es[1..], since) + Since(fs, since);
    }
  }

  lemma SinceOne(e: Event, since: int)
    ensures Since([e], since) == if e.num > since then [e] else []
  {
    assert [e][1..] == [];
  }

  function Oldest(l: Log): int {
    if l.events == [] then 0 else l.events[0].num
  }

  // ---- the window ----

  /** `all` is everything emitted since the log was empty, and the window is its last part. */
  ghost predicate WindowOf(l: Log, all: seq<Event>) {
    && (forall i :: 0 <= i < |all| ==> all[i].num == i + 1)
    && l.last == |all|
    && l.events == LastOf(all, l.retain)
  }

  function AfterEmits(retain: nat, kinds: seq<string>): Log {
    if kinds == [] then Empty(retain) else Emitted(AfterEmits(retain, kinds[..|kinds| - 1]), kinds[|kinds| - 1])
  }

  function History(kinds: seq<string>): (all: seq<Event>)
    ensures |all| == |kinds| && forall i :: 0 <= i < |all| ==> all[i] == Event(i + 1, kinds[i])
  {
    seq(|kinds|, i requires 0 <= i < |kinds| => Event(i + 1, kinds[i]))
  }

  lemma EmitKeepsWindow(l: Log, all: seq<Event>, kind: string)
    requires WindowOf(l, all)
    ensures WindowOf(Emitted(l, kind), all + [Event(l.last + 1, kind)])
  {
    var e := Event(l.last + 1, kind);
    assert LastOf(LastOf(all, l.retain) + [e], l.retain) == LastOf(all + [e], l.retain);
  }

  lemma RevealLast(l: Log, all: seq<Event>)
    requires WindowOf(l, all)
    ensures l.last == |all|
  {
  }

  lemma WindowStep(l: Log, kinds: seq<string>, kind: string)
    requires WindowOf(l, History(kinds))
    ensures WindowOf(Emitted(l, kind), History(kinds + [kind]))
  {
    hide WindowOf, Emitted;
    assert l.last == |kinds| by { RevealLast(l, History(kinds)); }
    EmitKeepsWindow(l, History(kinds), kind);
    assert History(kinds + [kind]) == History(kinds) + [Event(|kinds| + 1, kind)];
  }

  lemma {:induction false} EmitsWindow(retain: nat, kinds: seq<string>)
    ensures WindowOf(AfterEmits(retain, kinds), History(kinds)) && AfterEmits(retain, kinds).retain == retain
  {
    if kinds == [] {
    } else {
      var n := |kinds| - 1;
      EmitsWindow(retain, kinds[..n]);
      WindowStep(AfterEmits(retain, kinds[..n]), kinds[..n], kinds[n]);
      assert kinds == kinds[..n] + [kinds[n]];
    }
  }

  lemma WindowSlice(l: Log, all: seq<Event>)
    requires WindowOf(l, all)
    ensures l.events == all[if l.retain == 0 || |all| < l.retain then 0 else |all| - l.retain..]
  {
  }

  /** After any emits the window is the last part of the history, the last min(retain, seq) events. */
  lemma WindowExact(retain: nat, kinds: seq<string>)
    ensures WindowOf(AfterEmits(retain, kinds), History(kinds)) && AfterEmits(retain, kinds).retain == retain
    ensures var n := if retain == 0 || |kinds| < retain then |kinds| else retain;
            AfterEmits(retain, kinds).events == History(kinds)[|kinds| - n..]
  {
    hide WindowOf, AfterEmits;
    EmitsWindow(retain, kinds);
    WindowSlice(AfterEmits(retain, kinds), History(kinds));
  }

  /** The events after `since`, out of everything ever emitted. */
  function Later(all: seq<Event>, since: int): seq<Event> {
    if since >= |all| then [] else if since <= 0 then all else all[since..]
  }

  lemma {:induction false} SinceConsecutive(es: seq<Event>, from: int, since: int)
    requires forall i :: 0 <= i < |es| ==> es[i].num == from + i + 1
    ensures Since(es, since) == if since <= from then es else if since >= from + |es| then [] else es[since - from..]
  {
    if es == [] {
    } else {
      SinceConsecutive(es[1..], from + 1, since);
      if since <= from {
        assert es == [es[0]] + es[1..];
      }
    }
  }

  /** list(since) misses nothing exactly when the client is inside the window. */
  lemma ListExact(l: Log, all: seq<Event>, since: int)
    requires WindowOf(l, all)
    ensures Since(l.events, since) == Later(all, since) <==> since >= Oldest(l) - 1 || Oldest(l) <= 1
  {
    hide Since;
    var from := |all| - |l.events|;
    SinceConsecutive(l.events, from, since);
    assert Oldest(l) == if all == [] then 0 else from + 1;
    if 0 < from && since < from {
      assert |Later(all, since)| > |l.events|;
    }
  }

  // ---- the log object ----

  /** A line of the file: an event record, or something that does not parse as one. */
  datatype Line = Bad | Rec(e: Event)

  function GoodOf(lines: seq<Line>): seq<Event> {
    if lines == [] then [] else
    var k := |lines| - 1;
    GoodOf(lines[..k]) + if lines[k].Rec? then [lines[k].e] else []
  }

  lemma {:induction false} GoodOfConcat(xs: seq<Line>, ys: seq<Line>)
    ensures GoodOf(xs + ys) == GoodOf(xs) + GoodOf(ys)
  {
    if ys == [] {
      assert xs + ys == xs;
    } else {
      var k := |ys| - 1;
      var last := if ys[k].Rec? then [ys[k].e] else [];
      assert (xs + ys)[..|xs + ys| - 1] == xs + ys[..k] && (xs + ys)[|xs + ys| - 1] == ys[k];
      GoodOfConcat(xs, ys[..k]);
      assert GoodOf(xs) + GoodOf(ys[..k]) + last == GoodOf(xs) + (GoodOf(ys[..k]) + last);
    }
  }

  /** A line that does not parse is skipped wherever it stands. */
  lemma BadLineSkipped(xs: seq<Line>, ys: seq<Line>)
    ensures GoodOf(xs + [Bad] + ys) == GoodOf(xs + ys)
  {
    GoodOfConcat(xs, [Bad]);
    GoodOfConcat(xs + [Bad], ys);
    GoodOfConcat(xs, ys);
    assert [Bad][..0] == [];
    assert GoodOf([Bad]) == [];
  }

  /** The events are those of the record lines, all of them, in the order of the lines; `at` says where. */
  ghost predicate RecordsAt(lines: seq<Line>, es: seq<Event>, at: seq<nat>) {
    && |at| == |es| && (forall i, j :: 0 <= i < j < |at| ==> at[i] < at[j])
    && (forall i :: 0 <= i < |at| ==> at[i] < |lines| && lines[at[i]] == Rec(es[i]))
    && (forall k :: 0 <= k < |lines| && lines[k].Rec? ==> k in at)
  }

  ghost predicate RecordsOf(lines: seq<Line>, es: seq<Event>) {
    exists at :: RecordsAt(lines, es, at)
  }

  lemma RecordsAtNext(lines: seq<Line>, es: seq<Event>, at: seq<nat>, l: Line)
    requires RecordsAt(lines, es, at)
    ensures l.Rec? ==> RecordsAt(lines + [l], es + [l.e], at + [|lines|])
    ensures l.Bad? ==> RecordsAt(lines + [l], es, at)
  {
    var all := lines + [l];
    assert forall k :: 0 <= k < |lines| ==> all[k] == lines[k];
    if l.Rec? {
      var at' := at + [|lines|];
      forall k | 0 <= k < |all| && all[k].Rec?
        ensures k in at'
      {
        if k < |lines| {
          assert k in at;
        } else {
          assert at'[|at|] == k;
        }
      }
    }
  }

  lemma NoRecords()
    ensures RecordsAt([], [], [])
  {
  }

  lemma {:induction false} GoodOfRecordsAt(lines: seq<Line>) returns (at: seq<nat>)
    ensures RecordsAt(lines, GoodOf(lines), at)
  {
    hide RecordsAt;
    if lines == [] {
      at := [];
      NoRecords();
    } else {
      var n := |lines| - 1;
      at := GoodOfRecordsAt(lines[..n]);
      RecordsAtNext(lines[..n], GoodOf(lines[..n]), at, lines[n]);
      assert lines[..n] + [lines[n]] == lines;
      if lines[n].Rec? {
        at := at + [n];
      } else {
        assert GoodOf(lines[..n]) + [] == GoodOf(lines[..n]);
      }
    }
  }

  /** Neither below 0 nor below any recorded number, and one of these. */
  ghost predicate IsMaxNum(lines: seq<Line>, m: int) {
    && m >= 0
    && (forall i :: 0 <= i < |lines| && lines[i].Rec? ==> lines[i].e.num <= m)
    && (m == 0 || exists i :: 0 <= i < |lines| && lines[i].Rec? && lines[i].e.num == m)
  }

  /** What a waiting client sees: the clock before it sleeps, and the log when it wakes. */
  datatype Sight = Sight(clock: int, after: Log)

  class EventLog {
    const retain: nat
    var events: seq<Event>
    var last: int

    function View(): Log
      reads this
    {
      Log(retain, events, last)
    }

    /** Lines 23-61: the window holds the records of the file's tail, and no others, in order; the number
        continues from the maximum of the whole file. */
    constructor (retain: nat, lines: seq<Line>)
      ensures this.retain == retain && View().events == GoodOf(LastOf(lines, retain)) && IsMaxNum(lines, View().last)
      ensures var tail := if retain == 0 || |lines| <= retain then lines else lines[|lines| - retain..];
              RecordsOf(tail, View().events)
    {
      var tail, es, m := LastOf(lines, retain), [], 0;
      for i := 0 to |tail|
        invariant es == GoodOf(tail[..i])
      {
        if tail[i].Rec? {
          es := es + [tail[i].e];
        }
        assert tail[..i + 1][..i] == tail[..i];
      }
      assert tail[..|tail|] == tail;
      for i := 0 to |lines|
        invariant m >= 0 && (forall k :: 0 <= k < i && lines[k].Rec? ==> lines[k].e.num <= m)
        invariant m == 0 || exists k :: 0 <= k < i && lines[k].Rec? && lines[k].e.num == m
      {
        if lines[i].Rec? && lines[i].e.num > m {
          m := lines[i].e.num;
        }
      }
      ghost var at := GoodOfRecordsAt(tail);
      this.retain, events, last := retain, es, m;
    }

    /** Lines 72-83, the part under the lock; the disk append comes later, outside it. */
    method Emit(kind: string) returns (e: Event)
      modifies this
      ensures e == Event(old(last) + 1, kind) && View() == Emitted(old(View()), kind)
    {
      last := last + 1;
      e := Event(last, kind);
      events := events + [e];
      if retain != 0 && |events| > retain {
        events := events[|events| - retain..];
      }
    }

    /** Lines 85-94. */
    method List(since: int) returns (evs: seq<Event>, latest: int, oldest: int)
      ensures evs == Since(events, since) && latest == last && oldest == Oldest(View())
    {
      evs := Since(events, since);
      latest := last;
      oldest := if events == [] then 0 else events[0].num;
    }
  }

  /** Lines 96-108: the long poll against what the client sees of the clock and the log. It comes back
      with events as soon as it sees some, and empty-handed only once the clock has reached the deadline. */
  method Wait(now: Log, since: int, deadline: int, sights: seq<Sight>) returns (evs: seq<Event>, naps: nat)
    requires exists k :: 0 <= k < |sights| && sights[k].clock >= deadline
    ensures naps < |sights|
    ensures evs == Since(if naps == 0 then now.events else sights[naps - 1].after.events, since)
    ensures evs == [] ==> sights[naps].clock >= deadline
    ensures forall k :: 0 <= k < naps ==> sights[k].clock < deadline
    ensures naps > 0 ==> Since(now.events, since) == []
    ensures forall k :: 0 <= k < naps - 1 ==> Since(sights[k].after.events, since) == []
  {
    hide Since;
    evs, naps := Since(now.events, since), 0;
    while evs == [] && sights[naps].clock < deadline
      invariant naps < |sights| && exists k :: naps <= k < |sights| && sights[k].clock >= deadline
      invariant evs == Since(if naps == 0 then now.events else sights[naps - 1].after.events, since)
      invariant forall k :: 0 <= k < naps ==> sights[k].clock < deadline
      invariant naps > 0 ==> Since(now.events, since) == []
      invariant forall k :: 0 <= k < naps - 1 ==> Since(sights[k].after.events, since) == []
      decreases |sights| - naps
    {
      evs := Since(sights[naps].after.events, since);
      naps := naps + 1;
    }
  }
}
