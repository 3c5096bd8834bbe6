/** What a restarted daemon serves (tunnel/vfp_tunnel/event/manager.py): emitted events are appended to
    the file outside the lock, so its lines need not be in order. */
module EventRestart {
  import opened EventLog

  function Records(es: seq<Event>): (ls: seq<Line>)
    ensures |ls| == |es| && forall i :: 0 <= i < |ls| ==> ls[i] == Rec(es[i])
  {
    seq(|es|, i requires 0 <= i < |es| => Rec(es[i]))
  }

  /** The file holds every event once, in some order. */
  ghost predicate FileOf(lines: seq<Line>, all: seq<Event>) {
    multiset(lines) == multiset(Records(all))
  }

  /** What the constructor makes of a file. */
  ghost predicate Loads(retain: nat, lines: seq<Line>, l: Log) {
    l.retain == retain && l.events == GoodOf(LastOf(lines, retain)) && IsMaxNum(lines, l.last)
  }

  /** Where the part of a file that a restart keeps begins. */
  function KeptFrom(n: nat, retain: nat): nat {
    if retain == 0 || n <= retain then 0 else n - retain
  }

  /** From line k on, every line is later than all lines before it. */
  ghost predicate OrderedFrom(lines: seq<Line>, k: nat) {
    forall i, j :: 0 <= i < j < |lines| && k <= j ==>
      lines[i].Rec? && lines[j].Rec? && lines[i].e.num < lines[j].e.num
  }

  /** No line the restart keeps stands behind a later event. */
  ghost predicate InOrder(lines: seq<Line>, retain: nat) {
    OrderedFrom(lines, KeptFrom(|lines|, retain))
  }

  ghost predicate Numbered(all: seq<Event>) {
    forall i :: 0 <= i < |all| ==> all[i].num == i + 1
  }

  lemma {:induction false} GoodOfRecords(lines: seq<Line>)
    requires forall i :: 0 <= i < |lines| ==> lines[i].Rec?
    ensures |GoodOf(lines)| == |lines| && forall i :: 0 <= i < |lines| ==> GoodOf(lines)[i] == lines[i].e
  {
    if lines == [] {
    } else {
      GoodOfRecords(lines[..|lines| - 1]);
    }
  }

  lemma FileLines(lines: seq<Line>, all: seq<Event>)
    requires FileOf(lines, all)
    ensures |lines| == |all|
    ensures forall i :: 0 <= i < |lines| ==> lines[i].Rec? && lines[i].e in all
    ensures forall t :: 0 <= t < |all| ==> Rec(all[t]) in lines
  {
    assert |multiset(lines)| == |multiset(Records(all))|;
    forall i | 0 <= i < |lines|
      ensures lines[i].Rec? && lines[i].e in all
    {
      assert lines[i] in multiset(lines);
      assert lines[i] in Records(all);
    }
    forall t | 0 <= t < |all|
      ensures Rec(all[t]) in lines
    {
      assert Records(all)[t] in multiset(Records(all));
      assert Rec(all[t]) in multiset(lines);
    }
  }

  lemma FilePrefix(lines: seq<Line>, all: seq<Event>)
    requires FileOf(lines, all) && lines != [] && |all| == |lines| && lines[|lines| - 1] == Rec(all[|all| - 1])
    ensures FileOf(lines[..|lines| - 1], all[..|all| - 1])
  {
    var n := |lines| - 1;
    assert lines == lines[..n] + [lines[n]];
    assert Records(all) == Records(all[..n]) + [lines[n]];
    assert multiset(lines[..n]) == multiset(lines) - multiset{lines[n]};
    assert multiset(Records(all[..n])) == multiset(Records(all)) - multiset{lines[n]};
  }

  lemma LastIsLatest(lines: seq<Line>, all: seq<Event>, k: nat)
    requires FileOf(lines, all) && Numbered(all) && k < |lines| == |all| && OrderedFrom(lines, k)
    ensures lines[|lines| - 1] == Rec(all[|all| - 1])
  {
    hide FileOf;
    var n := |lines| - 1;
    FileLines(lines, all);
    var p :| 0 <= p <= n && lines[p] == Rec(all[n]);
    var t :| 0 <= t <= n && lines[n].e == all[t];
  }

  /** Ordered from line k on, the file holds the events from k on there. */
  lemma {:induction false} OrderedTail(lines: seq<Line>, all: seq<Event>, k: nat)
    requires FileOf(lines, all) && Numbered(all) && k <= |lines| == |all| && OrderedFrom(lines, k)
    ensures forall j :: k <= j < |lines| ==> lines[j] == Rec(all[j])
  {
    hide FileOf;
    if k == |lines| {
    } else {
      var n := |lines| - 1;
      LastIsLatest(lines, all, k);
      FilePrefix(lines, all);
      OrderedTail(lines[..n], all[..n], k);
      assert forall j :: k <= j < n ==> lines[..n][j] == lines[j] && all[..n][j] == all[j];
    }
  }

  /** And where it holds the events from k on, it is ordered there. */
  lemma {:induction false} TailOrdered(lines: seq<Line>, all: seq<Event>, k: nat, i: nat, j: nat)
    requires FileOf(lines, all) && Numbered(all) && k <= |lines| == |all|
    requires forall t :: k <= t < |lines| ==> lines[t] == Rec(all[t])
    requires i < j < |lines| && k <= j
    ensures lines[i].Rec? && lines[i].e.num < lines[j].e.num
  {
    hide FileOf;
    var n := |lines| - 1;
    FilePrefix(lines, all);
    if j == n {
      FileLines(lines[..n], all[..n]);
      assert lines[..n][i] == lines[i];
    } else {
      TailOrdered(lines[..n], all[..n], k, i, j);
    }
  }

  lemma FileMax(lines: seq<Line>, all: seq<Event>, m: int)
    requires FileOf(lines, all) && Numbered(all) && IsMaxNum(lines, m)
    ensures m == |all|
  {
    FileLines(lines, all);
    if all != [] {
      assert Rec(all[|all| - 1]) in lines;
    }
  }

  lemma KeptLines(all: seq<Event>, lines: seq<Line>, k: nat)
    requires k <= |lines| == |all| && forall i :: 0 <= i < |lines| ==> lines[i].Rec?
    ensures GoodOf(lines[k..]) == all[k..] <==> forall j :: k <= j < |lines| ==> lines[j] == Rec(all[j])
  {
    hide GoodOf;
    var good, kept := GoodOf(lines[k..]), all[k..];
    GoodOfRecords(lines[k..]);
    if good == kept {
      forall j | k <= j < |lines|
        ensures lines[j] == Rec(all[j])
      {
        assert good[j - k] == kept[j - k];
      }
    }
  }

  lemma KeptSlice<T>(s: seq<T>, retain: nat)
    ensures LastOf(s, retain) == s[KeptFrom(|s|, retain)..]
  {
  }

  /** A restart goes on with the same log exactly when the lines it keeps are in order. */
  lemma RestartKeepsLogIff(l: Log, all: seq<Event>, lines: seq<Line>, l': Log)
    requires WindowOf(l, all) && FileOf(lines, all) && Loads(l.retain, lines, l')
    ensures l' == l <==> InOrder(lines, l.retain)
  {
    hide FileOf, IsMaxNum, GoodOf, LastOf;
    FileLines(lines, all);
    FileMax(lines, all, l'.last);
    var k := KeptFrom(|lines|, l.retain);
    KeptLines(all, lines, k);
    KeptSlice(lines, l.retain);
    KeptSlice(all, l.retain);
    if InOrder(lines, l.retain) {
      OrderedTail(lines, all, k);
    }
    if l' == l {
      forall i, j | 0 <= i < j < |lines| && k <= j
        ensures lines[i].Rec? && lines[j].Rec? && lines[i].e.num < lines[j].e.num
      {
        TailOrdered(lines, all, k, i, j);
      }
    }
  }
}
