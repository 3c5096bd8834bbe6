/** Sequence numbers across restarts (tunnel/vfp_tunnel/event/manager.py): a number is assigned under
    the lock but written to the file later, outside it, in any order or not at all. */
module EventDisk {
  import opened EventLog

  /** The daemon and its file: last number in memory, numbers assigned but not yet written, the file's
      lines, and every number assigned so far. */
  datatype State = State(last: int, pending: set<int>, disk: seq<Line>, issued: seq<int>)

  datatype Step = Emit(kind: string) | Append(e: Event) | Lose(num: int) | Restart

  ghost predicate Init(s: State) {
    s == State(0, {}, [], [])
  }

  ghost predicate Next(s: State, step: Step, s': State) {
    match step
    case Emit(kind) =>
      s' == s.(last := s.last + 1, pending := s.pending + {s.last + 1}, issued := s.issued + [s.last + 1])
    case Append(e) =>
      e.num in s.pending && s' == s.(pending := s.pending - {e.num}, disk := s.disk + [Rec(e)])
    case Lose(num) =>
      num in s.pending && s' == s.(pending := s.pending - {num})
    case Restart =>
      IsMaxNum(s.disk, s'.last) && s' == s.(last := s'.last, pending := {})
  }

  ghost predicate Run(ss: seq<State>, steps: seq<Step>) {
    && |ss| == |steps| + 1 && Init(ss[0])
    && forall k :: 0 <= k < |steps| ==> Next(ss[k], steps[k], ss[k + 1])
  }

  ghost predicate OnDisk(s: State, num: int) {
    exists i :: 0 <= i < |s.disk| && s.disk[i].Rec? && s.disk[i].e.num == num
  }

  /** Numbers written or waiting to be written do not exceed the one in memory. */
  ghost predicate Inv(s: State) {
    && s.last >= 0
    && (forall v :: v in s.pending ==> v <= s.last && v in s.issued)
    && (forall i :: 0 <= i < |s.disk| && s.disk[i].Rec? ==> s.disk[i].e.num <= s.last && s.disk[i].e.num in s.issued)
  }

  lemma {:induction false} InvHolds(ss: seq<State>, steps: seq<Step>, k: nat)
    requires Run(ss, steps) && k < |ss|
    ensures Inv(ss[k])
  {
    if k == 0 {
    } else {
      InvHolds(ss, steps, k - 1);
      assert Next(ss[k - 1], steps[k - 1], ss[k - 1 + 1]);
    }
  }

  /** The k-th step restarts the daemon while v has been assigned but lies above everything on disk. */
  ghost predicate Forgets(ss: seq<State>, steps: seq<Step>, k: nat, v: int)
    requires Run(ss, steps) && k < |steps|
  {
    steps[k] == Restart && v in ss[k].issued && forall m :: IsMaxNum(ss[k].disk, m) ==> v > m
  }

  lemma MaxUnique(lines: seq<Line>, m: int, n: int)
    requires IsMaxNum(lines, m) && IsMaxNum(lines, n)
    ensures m == n
  {
  }

  /** A number above the one in memory has been forgotten by some earlier restart. */
  lemma {:induction false} AboveWasForgotten(ss: seq<State>, steps: seq<Step>, k: nat, v: int)
    requires Run(ss, steps) && k < |ss| && v in ss[k].issued && v > ss[k].last
    ensures exists r :: 0 <= r < k && Forgets(ss, steps, r, v)
  {
    var s, s', step := ss[k - 1], ss[k - 1 + 1], steps[k - 1];
    assert Next(s, step, s');
    if v in s.issued && v > s.last {
      AboveWasForgotten(ss, steps, k - 1, v);
    } else {
      assert step == Restart;
      forall m | IsMaxNum(s.disk, m)
        ensures v > m
      {
        MaxUnique(s.disk, m, s'.last);
      }
      assert Forgets(ss, steps, k - 1, v);
    }
  }

  /** Only a number that a restart found above the maximum on disk can be assigned a second time. */
  lemma OnlyForgottenRecur(ss: seq<State>, steps: seq<Step>, k: nat, v: int)
    requires Run(ss, steps) && k < |steps| && steps[k].Emit?
    requires ss[k + 1].issued == ss[k].issued + [v] && v in ss[k].issued
    ensures exists r :: 0 <= r < k && Forgets(ss, steps, r, v)
  {
    assert Next(ss[k], steps[k], ss[k + 1]);
    assert ss[k + 1].issued[|ss[k].issued|] == v;
    AboveWasForgotten(ss, steps, k, v);
  }

  lemma {:induction false} DiskGrows(ss: seq<State>, steps: seq<Step>, i: nat, k: nat, num: int)
    requires Run(ss, steps) && i <= k < |ss| && OnDisk(ss[i], num)
    ensures OnDisk(ss[k], num)
  {
    if k == i {
    } else {
      DiskGrows(ss, steps, i, k - 1, num);
      assert Next(ss[k - 1], steps[k - 1], ss[k - 1 + 1]);
      var j :| 0 <= j < |ss[k - 1].disk| && ss[k - 1].disk[j].Rec? && ss[k - 1].disk[j].e.num == num;
      assert ss[k].disk[j] == ss[k - 1].disk[j];
    }
  }

  /** A number that reached the file is never assigned again. */
  lemma DiskIsSafe(ss: seq<State>, steps: seq<Step>, i: nat, k: nat, num: int)
    requires Run(ss, steps) && i <= k < |steps| && OnDisk(ss[i], num) && steps[k].Emit?
    ensures ss[k + 1].issued == ss[k].issued + [ss[k].last + 1] && ss[k].last + 1 > num
  {
    assert Next(ss[k], steps[k], ss[k + 1]);
    DiskGrows(ss, steps, i, k, num);
    InvHolds(ss, steps, k);
  }

  lemma NotForgotten(ss: seq<State>, steps: seq<Step>, r: nat, v: int)
    requires Run(ss, steps) && r < |steps| && (steps[r] == Restart && v in ss[r].issued ==> OnDisk(ss[r], v))
    ensures !Forgets(ss, steps, r, v)
  {
    assert Next(ss[r], steps[r], ss[r + 1]);
  }

  /** If every assigned number is on disk whenever the daemon restarts, none is ever reused. */
  lemma {:induction false} NoReuse(ss: seq<State>, steps: seq<Step>, k: nat)
    requires Run(ss, steps) && k < |ss|
    requires forall r, v :: 0 <= r < |steps| && steps[r] == Restart && v in ss[r].issued ==> OnDisk(ss[r], v)
    ensures forall i, j :: 0 <= i < j < |ss[k].issued| ==> ss[k].issued[i] != ss[k].issued[j]
  {
    if k == 0 {
    } else {
      NoReuse(ss, steps, k - 1);
      var s, s' := ss[k - 1], ss[k - 1 + 1];
      assert Next(s, steps[k - 1], s');
      if steps[k - 1].Emit? && s.last + 1 in s.issued {
        var v := s.last + 1;
        OnlyForgottenRecur(ss, steps, k - 1, v);
        var r :| 0 <= r < k - 1 && Forgets(ss, steps, r, v);
        NotForgotten(ss, steps, r, v);
      }
    }
  }

  // ---- exactly when a number is reused ----

  /** v has been assigned again since the first n numbers were. */
  ghost predicate Again(s: State, n: nat, v: int) {
    exists i :: n <= i < |s.issued| && s.issued[i] == v
  }

  /** Nothing the daemon or its file knows of has got as far as v. */
  ghost predicate Below(s: State, v: int) {
    && 0 < v && s.last < v && (forall u :: u in s.pending ==> u < v)
    && forall i :: 0 <= i < |s.disk| && s.disk[i].Rec? ==> s.disk[i].e.num < v
  }

  lemma BelowStep(s: State, step: Step, s': State, n: nat, v: int)
    requires Next(s, step, s') && Below(s, v) && n <= |s.issued|
    ensures Below(s', v) || Again(s', n, v)
  {
    if step.Emit? && s.last + 1 == v {
      assert s'.issued[|s.issued|] == v;
    }
  }

  lemma AgainStep(s: State, step: Step, s': State, n: nat, v: int)
    requires Next(s, step, s') && Again(s, n, v)
    ensures Again(s', n, v)
  {
    var i :| n <= i < |s.issued| && s.issued[i] == v;
    assert s'.issued[i] == v;
  }

  lemma {:induction false} IssuedGrows(ss: seq<State>, steps: seq<Step>, r: nat, k: nat)
    requires Run(ss, steps) && r <= k < |ss|
    ensures ss[r].issued <= ss[k].issued
  {
    if k == r {
    } else {
      IssuedGrows(ss, steps, r, k - 1);
      assert Next(ss[k - 1], steps[k - 1], ss[k - 1 + 1]);
    }
  }

  lemma ForgetsBelow(ss: seq<State>, steps: seq<Step>, r: nat, v: int)
    requires Run(ss, steps) && r < |steps| && Forgets(ss, steps, r, v)
    ensures Below(ss[r + 1], v)
  {
    assert Next(ss[r], steps[r], ss[r + 1]);
  }

  /** After a restart that forgets v the log stays below v until it assigns v again. */
  lemma {:induction false} ForgottenUntilAgain(ss: seq<State>, steps: seq<Step>, r: nat, k: nat, v: int)
    requires Run(ss, steps) && r < k < |ss| && Forgets(ss, steps, r, v)
    ensures Below(ss[k], v) || Again(ss[k], |ss[r].issued|, v)
  {
    hide Next, Below, Again, Forgets;
    if k == r + 1 {
      ForgetsBelow(ss, steps, r, v);
    } else {
      ForgottenUntilAgain(ss, steps, r, k - 1, v);
      IssuedGrows(ss, steps, r, k - 1);
      if Below(ss[k - 1], v) {
        BelowStep(ss[k - 1], steps[k - 1], ss[k - 1 + 1], |ss[r].issued|, v);
      } else {
        AgainStep(ss[k - 1], steps[k - 1], ss[k - 1 + 1], |ss[r].issued|, v);
      }
    }
  }

  ghost predicate NoTwice(s: State) {
    forall i, j :: 0 <= i < j < |s.issued| ==> s.issued[i] != s.issued[j]
  }

  /** A restart before k forgot v, and the log had got as far as v again by then. */
  ghost predicate Reaches(ss: seq<State>, steps: seq<Step>, r: nat, j: nat, v: int)
    requires Run(ss, steps)
  {
    r < j < |ss| && Forgets(ss, steps, r, v) && ss[j].last >= v
  }

  lemma ReachedIsTwice(ss: seq<State>, steps: seq<Step>, r: nat, j: nat, k: nat, v: int)
    requires Run(ss, steps) && j <= k < |ss| && Reaches(ss, steps, r, j, v)
    ensures !NoTwice(ss[k])
  {
    hide Next;
    ForgottenUntilAgain(ss, steps, r, j, v);
    IssuedGrows(ss, steps, r, k);
    IssuedGrows(ss, steps, j, k);
    var i :| 0 <= i < |ss[r].issued| && ss[r].issued[i] == v;
    var i' :| |ss[r].issued| <= i' < |ss[j].issued| && ss[j].issued[i'] == v;
    assert ss[k].issued[i] == ss[k].issued[i'];
  }

  lemma {:induction false} TwiceWasReached(ss: seq<State>, steps: seq<Step>, k: nat)
    requires Run(ss, steps) && k < |ss| && !NoTwice(ss[k])
    ensures exists r: nat, j: nat, v :: j <= k && Reaches(ss, steps, r, j, v)
  {
    if k == 0 {
    } else if !NoTwice(ss[k - 1]) {
      TwiceWasReached(ss, steps, k - 1);
    } else {
      var s, s' := ss[k - 1], ss[k - 1 + 1];
      assert Next(s, steps[k - 1], s');
      var v := s.last + 1;
      OnlyForgottenRecur(ss, steps, k - 1, v);
      var r :| 0 <= r < k - 1 && Forgets(ss, steps, r, v);
      assert Reaches(ss, steps, r, k, v);
    }
  }

  /** No number is assigned twice exactly when after every restart that forgets a number the log never gets
      as far as that number again. */
  lemma ReuseIff(ss: seq<State>, steps: seq<Step>, k: nat)
    requires Run(ss, steps) && k < |ss|
    ensures NoTwice(ss[k]) <==> forall r: nat, j: nat, v :: j <= k ==> !Reaches(ss, steps, r, j, v)
  {
    hide Run, NoTwice, Reaches;
    if !NoTwice(ss[k]) {
      TwiceWasReached(ss, steps, k);
    } else {
      forall r: nat, j: nat, v | j <= k
        ensures !Reaches(ss, steps, r, j, v)
      {
        if Reaches(ss, steps, r, j, v) {
          ReachedIsTwice(ss, steps, r, j, k, v);
        }
      }
    }
  }

  /** An event whose append had not happened by the restart: its number goes to the next event too. */
  lemma NumberReused(kind: string) returns (ss: seq<State>, steps: seq<Step>)
    ensures Run(ss, steps) && ss[|steps|].issued == [1, 1]
  {
    var s0 := State(0, {}, [], []);
    var s1 := State(1, {1}, [], [1]);
    var s2 := State(0, {}, [], [1]);
    var s3 := State(1, {1}, [], [1, 1]);
    ss, steps := [s0, s1, s2, s3], [Emit(kind), Restart, Emit(kind)];
    assert Next(s0, Emit(kind), s1) && Next(s1, Restart, s2) && Next(s2, Emit(kind), s3);
  }
}
