/** Applying a proposal's parameter changes and taking them back (skill/vfp_transaction.il,
    skill/vfp_schematic.il). A cellview is its parameters: in memory, on disk, and in checkpoint copies. */
module ParamTxn {
  import opened Text
  import opened Connectivity
  import SnapshotWire

  /** A parameter value; anything but a string and nil is known by its printed form. */
  datatype Value = Nil | Str(s: string) | Printed(repr: string)

  datatype Target = Target(inst: string, param: string)

  /** One entry of a proposal; `before` is what its author stated. */
  datatype Change = Change(target: Target, before: Value, after: Value)

  datatype Assign = Assign(target: Target, value: Value)

  type Design = map<Target, Value>

  /** The connectivity verdict stored with a transaction, with the snapshot taken before the edit. */
  datatype Audit = Audit(clean: bool, diff: seq<Diff>, before: Snapshot)

  /** Applied with the captured values and the verdict, or undone, or never opened. */
  datatype Outcome = Applied(before: seq<Assign>, after: seq<Assign>, audit: Option<Audit>) | Undone | NotOpened

  /** What surrounds an apply: whether the cellview opens, the checkpoint copy succeeds, the two saves succeed
      and the daemon accepts, and what the two connectivity snapshots read. */
  datatype ApplyEnv = ApplyEnv(opens: bool, copies: bool, saves: bool, undoSaves: bool, accepts: bool,
                               conn: Option<Snapshot>, connAfter: Snapshot)

  /** What surrounds a rollback; `stored` is the text of the snapshot stored with the transaction. */
  datatype RollbackEnv = RollbackEnv(grants: bool, opens: bool, saves: bool, stored: Option<string>, conn: Snapshot)

  /** The call by which a rollback reports to the daemon. */
  datatype Confirm = MarkRolledBack | MarkFailed

  function ToStr(v: Value): string {
    match v case Nil => "" case Str(s) => s case Printed(r) => r
  }

  function Get(d: Design, t: Target): Value {
    if t in d then d[t] else Nil
  }

  // ---- assignments ----

  function SetOne(d: Design, a: Assign): Design {
    if a.target in d then d[a.target := a.value] else d
  }

  function SetAll(d: Design, xs: seq<Assign>): Design {
    if xs == [] then d else SetOne(SetAll(d, xs[..|xs| - 1]), xs[|xs| - 1])
  }

  ghost predicate AllFound(d: Design, xs: seq<Assign>) {
    forall i :: 0 <= i < |xs| ==> xs[i].target in d
  }

  /** The last value assigned to a target. */
  function LastFor(xs: seq<Assign>, t: Target): Option<Value> {
    if xs == [] then None
    else if xs[|xs| - 1].target == t then Some(xs[|xs| - 1].value)
    else LastFor(xs[..|xs| - 1], t)
  }

  lemma {:induction false} SetAllAt(d: Design, xs: seq<Assign>, t: Target)
    ensures SetAll(d, xs).Keys == d.Keys
    ensures t in d ==> SetAll(d, xs)[t] == if LastFor(xs, t).Some? then LastFor(xs, t).value else d[t]
  {
    if xs == [] {
    } else {
      SetAllAt(d, xs[..|xs| - 1], t);
    }
  }

  lemma {:induction false} LastForIn(xs: seq<Assign>, t: Target)
    ensures LastFor(xs, t).Some? ==> exists i :: 0 <= i < |xs| && xs[i] == Assign(t, LastFor(xs, t).value)
    ensures LastFor(xs, t).None? <==> forall i :: 0 <= i < |xs| ==> xs[i].target != t
  {
    if xs == [] {
    } else {
      var k := |xs| - 1;
      LastForIn(xs[..k], t);
      if xs[k].target != t && LastFor(xs, t).Some? {
        var i :| 0 <= i < k && xs[..k][i] == Assign(t, LastFor(xs, t).value);
        assert xs[i] == Assign(t, LastFor(xs, t).value);
      }
      if forall i :: 0 <= i < k ==> xs[..k][i].target != t {
        assert forall i :: 0 <= i < k ==> xs[i] == xs[..k][i];
      }
    }
  }

  lemma {:induction false} LastForAt(xs: seq<Assign>, t: Target, i: nat)
    requires i < |xs| && xs[i].target == t && forall j :: i < j < |xs| ==> xs[j].target != t
    ensures LastFor(xs, t) == Some(xs[i].value)
  {
    if i == |xs| - 1 {
    } else {
      LastForAt(xs[..|xs| - 1], t, i);
    }
  }

  /** A series of assignments leaves every target with the value assigned to it last, and the others alone. */
  lemma AssignedLast(d: Design, xs: seq<Assign>, t: Target)
    requires t in d
    ensures SetAll(d, xs).Keys == d.Keys
    ensures (forall i :: 0 <= i < |xs| ==> xs[i].target != t) ==> SetAll(d, xs)[t] == d[t]
    ensures forall i :: 0 <= i < |xs| && xs[i].target == t && (forall j :: i < j < |xs| ==> xs[j].target != t) ==>
              SetAll(d, xs)[t] == xs[i].value
  {
    hide SetAll;
    SetAllAt(d, xs, t);
    LastForIn(xs, t);
    forall i | 0 <= i < |xs| && xs[i].target == t && forall j :: i < j < |xs| ==> xs[j].target != t
      ensures LastFor(xs, t) == Some(xs[i].value)
    {
      LastForAt(xs, t, i);
    }
  }

  function Afters(cs: seq<Change>): (xs: seq<Assign>)
    ensures |xs| == |cs| && forall i :: 0 <= i < |xs| ==> xs[i] == Assign(cs[i].target, cs[i].after)
  {
    seq(|cs|, i requires 0 <= i < |cs| => Assign(cs[i].target, cs[i].after))
  }

  function Stated(cs: seq<Change>): (xs: seq<Assign>)
    ensures |xs| == |cs| && forall i :: 0 <= i < |xs| ==> xs[i] == Assign(cs[i].target, cs[i].before)
  {
    seq(|cs|, i requires 0 <= i < |cs| => Assign(cs[i].target, cs[i].before))
  }

  /** skill/vfp_transaction.il:17-29: the present value of every target, as a string. */
  function Captured(d: Design, cs: seq<Change>): (xs: seq<Assign>)
    ensures |xs| == |cs|
    ensures forall i :: 0 <= i < |xs| ==> xs[i] == Assign(cs[i].target, Str(ToStr(Get(d, cs[i].target))))
  {
    seq(|cs|, i requires 0 <= i < |cs| => Assign(cs[i].target, Str(ToStr(Get(d, cs[i].target)))))
  }

  ghost predicate Targets(cs: seq<Change>, t: Target) {
    exists i :: 0 <= i < |cs| && cs[i].target == t
  }

  // ---- the open cellview ----

  class CellView {
    var params: Design
    var saved: Design
    var checkpoints: seq<Design>

    constructor (params: Design, saved: Design)
      ensures this.params == params && this.saved == saved && checkpoints == []
    {
      this.params, this.saved, checkpoints := params, saved, [];
    }

    /** skill/vfp_schematic.il:63-71 through 31-40. */
    method SetParam(t: Target, v: Value) returns (ok: bool)
      modifies `params
      ensures ok == (t in old(params)) && params == SetOne(old(params), Assign(t, v))
    {
      ok := t in params;
      if ok {
        params := params[t := v];
      }
    }

    method SetEach(xs: seq<Assign>) returns (okAll: bool)
      modifies `params
      ensures params == SetAll(old(params), xs)
      ensures okAll <==> AllFound(old(params), xs)
    {
      okAll := true;
      for i := 0 to |xs|
        invariant params == SetAll(old(params), xs[..i]) && params.Keys == old(params).Keys
        invariant okAll <==> forall k :: 0 <= k < i ==> xs[k].target in old(params)
      {
        var ok := SetParam(xs[i].target, xs[i].value);
        if !ok {
          okAll := false;
        }
        assert xs[..i + 1][..i] == xs[..i];
      }
      assert xs[..|xs|] == xs;
    }

    /** skill/vfp_schematic.il:86-88; the callers do not look at whether it succeeds. */
    method Save(succeeds: bool)
      modifies `saved
      ensures saved == if succeeds then params else old(saved)
    {
      if succeeds {
        saved := params;
      }
    }

    /** skill/vfp_transaction.il:94-197: checkpoint, capture, set, save, audit the connectivity, and on a missing
        target or a refusal by the daemon put back the values the proposal states and save again; failed tells
        whether the proposal is reported as failed. The checkpoint holds the values before the edit. */
    method Apply(cs: seq<Change>, env: ApplyEnv) returns (r: Outcome, failed: bool)
      modifies this
      ensures r.Applied? <==> env.opens && env.accepts && AllFound(old(params), Afters(cs))
      ensures r.NotOpened? <==> !env.opens
      ensures failed <==> !r.Applied?
      ensures r.Applied? ==> params == SetAll(old(params), Afters(cs))
      ensures r.Applied? ==> saved == if env.saves then params else old(saved)
      ensures r.Applied? ==> r.before == Captured(old(params), cs) && r.after == Captured(params, cs)
      ensures r.Applied? ==> (r.audit.Some? <==> env.conn.Some?)
      ensures r.Applied? && env.conn.Some? ==>
        && r.audit.value.before == env.conn.value && r.audit.value.diff == Diffs(env.conn.value, env.connAfter)
        && (r.audit.value.clean <==> r.audit.value.diff == [])
      ensures r.Undone? ==> params == SetAll(SetAll(old(params), Afters(cs)), Stated(cs))
      ensures r.Undone? && env.undoSaves ==> saved == params
      ensures r.Undone? && !env.undoSaves ==>
        saved == if env.saves && AllFound(old(params), Afters(cs)) then SetAll(old(params), Afters(cs)) else old(saved)
      ensures r.NotOpened? ==> params == old(params) && saved == old(saved)
      ensures checkpoints == old(checkpoints) + if env.opens && env.copies then [old(params)] else []
    {
      if !env.opens {
        return NotOpened, true;
      }
      if env.copies {
        checkpoints := checkpoints + [params];
      }
      var before := Captured(params, cs);
      var okAll := SetEach(Afters(cs));
      if !okAll {
        var _ := SetEach(Stated(cs));
        Save(env.undoSaves);
        return Undone, true;
      }
      var after := Captured(params, cs);
      Save(env.saves);
      var audit := None;
      if env.conn.Some? {
        var diff := ConnectivityDiff(env.conn.value, env.connAfter);
        audit := Some(Audit(diff == [], diff, env.conn.value));
      }
      if !env.accepts {
        var _ := SetEach(Stated(cs));
        Save(env.undoSaves);
        return Undone, true;
      }
      r, failed := Applied(before, after, audit), false;
    }

    /** skill/vfp_transaction.il:256-330: once the daemon grants it and the cellview opens, the recorded values are set
        again and saved, the connectivity is compared with the snapshot rebuilt from the stored text, and the daemon
        is told whether every value could be set. */
    method Rollback(restore: seq<Assign>, env: RollbackEnv) returns (confirm: Option<Confirm>, restored: Option<bool>)
      modifies `params, `saved
      ensures !env.grants || !env.opens ==>
        params == old(params) && saved == old(saved) && confirm.None? && restored.None?
      ensures env.grants && env.opens ==>
        && params == SetAll(old(params), restore) && saved == (if env.saves then params else old(saved))
        && confirm == Some(if AllFound(old(params), restore) then MarkRolledBack else MarkFailed)
        && restored == (if env.stored.None? then None else SnapshotWire.Verdict(env.stored.value, env.conn))
      ensures forall before :: env.grants && env.opens && env.stored == Some(SnapshotWire.Stored(before)) ==>
        restored == if SnapshotWire.CleanSnapshot(before) then Some(Diffs(before, env.conn) == []) else None
    {
      hide SnapshotWire.Restored, SnapshotWire.CleanSnapshot, Diffs;
      if !env.grants || !env.opens {
        return None, None;
      }
      var okAll := SetEach(restore);
      Save(env.saves);
      restored := None;
      if env.stored.Some? {
        var before := SnapshotWire.Restored(env.stored.value);
        if before.Some? {
          var diff := ConnectivityDiff(before.value, env.conn);
          restored := Some(diff == []);
        }
      }
      confirm := Some(if okAll then MarkRolledBack else MarkFailed);
      forall before: Snapshot
        ensures SnapshotWire.Verdict(SnapshotWire.Stored(before), env.conn) ==
          if SnapshotWire.CleanSnapshot(before) then Some(Diffs(before, env.conn) == []) else None
      {
        SnapshotWire.VerdictFaithful(before, env.conn);
      }
    }
  }

  // ---- apply, then roll back ----

  function AppliedTo(d: Design, cs: seq<Change>): Design {
    SetAll(d, Afters(cs))
  }

  function RolledBack(d: Design, cs: seq<Change>): Design {
    SetAll(AppliedTo(d, cs), Captured(d, cs))
  }

  /** Rolling back finds every target exactly when the apply did, touches nothing else, and gives each target
      its old value as a string. */
  lemma RollbackExact(d: Design, cs: seq<Change>, t: Target)
    requires t in d
    ensures AllFound(AppliedTo(d, cs), Captured(d, cs)) <==> AllFound(d, Afters(cs))
    ensures RolledBack(d, cs).Keys == d.Keys && AppliedTo(d, cs).Keys == d.Keys
    ensures RolledBack(d, cs)[t] == if Targets(cs, t) then Str(ToStr(d[t])) else d[t]
    ensures !Targets(cs, t) ==> AppliedTo(d, cs)[t] == d[t]
  {
    hide SetAll, LastFor;
    var d1, before := AppliedTo(d, cs), Captured(d, cs);
    SetAllAt(d, Afters(cs), t);
    SetAllAt(d1, before, t);
    LastForIn(Afters(cs), t);
    LastForIn(before, t);
    assert forall i :: 0 <= i < |cs| ==> before[i].target == Afters(cs)[i].target;
    if Targets(cs, t) {
      var i :| 0 <= i < |cs| && cs[i].target == t;
      assert before[i].target == t;
    } else {
      assert forall i :: 0 <= i < |cs| ==> before[i].target == cs[i].target && Afters(cs)[i].target == cs[i].target;
    }
  }

  ghost predicate TargetsAreStrings(d: Design, cs: seq<Change>) {
    forall t :: t in d && Targets(cs, t) ==> d[t].Str?
  }

  lemma RolledBackKeys(d: Design, cs: seq<Change>)
    ensures RolledBack(d, cs).Keys == d.Keys
  {
    SetAllAt(d, Afters(cs), Target("", ""));
    SetAllAt(AppliedTo(d, cs), Captured(d, cs), Target("", ""));
  }

  /** A successful apply followed by a rollback restores the design exactly when the targeted values were
      strings; repeated and missing targets do no harm. */
  lemma RollbackRestoresIff(d: Design, cs: seq<Change>)
    ensures RolledBack(d, cs) == d <==> TargetsAreStrings(d, cs)
  {
    hide RolledBack;
    RolledBackKeys(d, cs);
    forall t | t in d
      ensures RolledBack(d, cs)[t] == if Targets(cs, t) then Str(ToStr(d[t])) else d[t]
    {
      RollbackExact(d, cs, t);
    }
    if TargetsAreStrings(d, cs) {
      assert forall t :: t in d ==> RolledBack(d, cs)[t] == d[t];
    }
  }

  lemma RollbackOne(t: Target, v: Value, after: string)
    ensures RolledBack(map[t := v], [Change(t, v, Str(after))]) == map[t := Str(ToStr(v))]
  {
    hide RolledBack;
    var d: Design, cs := map[t := v], [Change(t, v, Str(after))];
    assert cs[0].target == t;
    RolledBackKeys(d, cs);
    RollbackExact(d, cs, t);
  }

  /** Values that were not strings come back changed: nil as the empty string, the number 5 as "5". */
  lemma RollbackMakesStrings(t: Target, after: string)
    ensures RolledBack(map[t := Nil], [Change(t, Nil, Str(after))]) == map[t := Str("")]
    ensures RolledBack(map[t := Printed("5")], [Change(t, Printed("5"), Str(after))]) == map[t := Str("5")]
  {
    hide RolledBack;
    RollbackOne(t, Nil, after);
    RollbackOne(t, Printed("5"), after);
  }

  // ---- undoing a refused or partial apply ----

  /** The last entry for every target states the value the design really had. */
  ghost predicate StatedTruly(d: Design, cs: seq<Change>) {
    forall t :: t in d && Targets(cs, t) ==> LastFor(Stated(cs), t) == Some(d[t])
  }

  /** The undo, which trusts the proposal, restores the design exactly when what the proposal states about
      it is true; targets that were not found play no part. */
  lemma UndoRestoresIff(d: Design, cs: seq<Change>)
    ensures SetAll(AppliedTo(d, cs), Stated(cs)) == d <==> StatedTruly(d, cs)
  {
    hide SetAll, LastFor;
    var d1 := AppliedTo(d, cs);
    var d2 := SetAll(d1, Stated(cs));
    SetAllAt(d, Afters(cs), Target("", ""));
    SetAllAt(d1, Stated(cs), Target("", ""));
    forall t | t in d
      ensures Targets(cs, t) ==> LastFor(Stated(cs), t).Some?
      ensures d2[t] == if Targets(cs, t) then LastFor(Stated(cs), t).value else d[t]
    {
      SetAllAt(d, Afters(cs), t);
      SetAllAt(d1, Stated(cs), t);
      LastForIn(Afters(cs), t);
      LastForIn(Stated(cs), t);
      if Targets(cs, t) {
        var i :| 0 <= i < |cs| && cs[i].target == t;
        assert Stated(cs)[i].target == t;
      } else {
        assert forall i :: 0 <= i < |cs| ==>
          Stated(cs)[i].target == cs[i].target && Afters(cs)[i].target == cs[i].target;
      }
    }
    if StatedTruly(d, cs) {
      assert forall t :: t in d ==> d2[t] == d[t];
    }
  }

  lemma SetAllOne(d: Design, a: Assign)
    ensures SetAll(d, [a]) == SetOne(d, a)
  {
    assert [a][..0] == [];
  }

  /** A refused apply of a proposal that misstates a value leaves the misstated value behind. */
  lemma RefusedApplyCanChange(t: Target)
    ensures var d: Design, cs := map[t := Str("1u")], [Change(t, Str("2u"), Str("3u"))];
            AllFound(d, Afters(cs)) && SetAll(AppliedTo(d, cs), Stated(cs)) == map[t := Str("2u")]
  {
    var d: Design, cs := map[t := Str("1u")], [Change(t, Str("2u"), Str("3u"))];
    assert Afters(cs) == [Assign(t, Str("3u"))] && Stated(cs) == [Assign(t, Str("2u"))];
    SetAllOne(d, Assign(t, Str("3u")));
    SetAllOne(AppliedTo(d, cs), Assign(t, Str("2u")));
  }

  // ---- several transactions ----

  function ApplyRun(d: Design, css: seq<seq<Change>>): Design {
    if css == [] then d else AppliedTo(ApplyRun(d, css[..|css| - 1]), css[|css| - 1])
  }

  /** Some transaction of the stack targets t. */
  ghost predicate Touched(css: seq<seq<Change>>, t: Target) {
    exists k :: 0 <= k < |css| && Targets(css[k], t)
  }

  lemma TouchedSplit(css: seq<seq<Change>>, t: Target)
    requires css != []
    ensures Touched(css, t) <==> Touched(css[..|css| - 1], t) || Targets(css[|css| - 1], t)
  {
    var k := |css| - 1;
    if Touched(css[..k], t) {
      var i :| 0 <= i < k && Targets(css[..k][i], t);
      assert css[i] == css[..k][i];
    }
    if Touched(css, t) {
      var i :| 0 <= i < |css| && Targets(css[i], t);
      assert i < k ==> css[..k][i] == css[i];
    }
  }

  /** The applies leave every value alone that none of them targets. */
  lemma {:induction false} ApplyRunAt(d: Design, css: seq<seq<Change>>, t: Target)
    ensures ApplyRun(d, css).Keys == d.Keys
    ensures t in d && !Touched(css, t) ==> ApplyRun(d, css)[t] == d[t]
  {
    hide SetAll, LastFor, Targets;
    if css == [] {
    } else {
      var k := |css| - 1;
      var d1 := ApplyRun(d, css[..k]);
      ApplyRunAt(d, css[..k], t);
      TouchedSplit(css, t);
      SetAllAt(d1, Afters(css[k]), t);
      if t in d {
        RollbackExact(d1, css[k], t);
      }
    }
  }

  /** Undo the transactions one by one, the latest first; each restores what it captured when applied. */
  function UndoRun(now: Design, d: Design, css: seq<seq<Change>>): Design
    decreases css
  {
    if css == [] then now else
    var k := |css| - 1;
    UndoRun(SetAll(now, Captured(ApplyRun(d, css[..k]), css[k])), d, css[..k])
  }

  lemma CapturedAt(d: Design, cs: seq<Change>, t: Target)
    requires t in d
    ensures LastFor(Captured(d, cs), t) == if Targets(cs, t) then Some(Str(ToStr(d[t]))) else None
  {
    hide LastFor, ToStr;
    var xs := Captured(d, cs);
    LastForIn(xs, t);
    assert forall i :: 0 <= i < |cs| ==> xs[i].target == cs[i].target;
    if Targets(cs, t) {
      var i :| 0 <= i < |cs| && cs[i].target == t;
      assert xs[i].target == t;
    }
  }

  /** Undoing a stack gives every target of some transaction its first value as a string, from whatever
      values the undo begins with, and leaves the rest alone. */
  lemma {:induction false} UndoRunAt(now: Design, d: Design, css: seq<seq<Change>>, t: Target)
    requires now.Keys == d.Keys
    ensures UndoRun(now, d, css).Keys == d.Keys
    ensures t in d ==> UndoRun(now, d, css)[t] == if Touched(css, t) then Str(ToStr(d[t])) else now[t]
    decreases |css|
  {
    hide SetAll, LastFor, Targets, ToStr;
    if css == [] {
    } else {
      var k := |css| - 1;
      var d1 := ApplyRun(d, css[..k]);
      var before := Captured(d1, css[k]);
      ApplyRunAt(d, css[..k], t);
      TouchedSplit(css, t);
      SetAllAt(now, before, t);
      UndoRunAt(SetAll(now, before), d, css[..k], t);
      if t in d {
        CapturedAt(d1, css[k], t);
      }
    }
  }

  /** Stacked transactions undone in reverse order lead back to the start exactly when every value some of
      them targets was a string there, whatever the transactions write. */
  lemma StackRestoresIff(d: Design, css: seq<seq<Change>>)
    ensures UndoRun(ApplyRun(d, css), d, css) == d <==> forall t :: t in d && Touched(css, t) ==> d[t].Str?
  {
    hide UndoRun, ApplyRun, Touched;
    var now := ApplyRun(d, css);
    ApplyRunAt(d, css, Target("", ""));
    UndoRunAt(now, d, css, Target("", ""));
    forall t | t in d
      ensures UndoRun(now, d, css)[t] == if Touched(css, t) then Str(ToStr(d[t])) else d[t]
    {
      ApplyRunAt(d, css, t);
      UndoRunAt(now, d, css, t);
    }
  }

  /** Rollbacks with no target in common can be done in either order. */
  lemma DisjointCommute(d: Design, xs: seq<Assign>, ys: seq<Assign>)
    requires forall i, j :: 0 <= i < |xs| && 0 <= j < |ys| ==> xs[i].target != ys[j].target
    ensures SetAll(SetAll(d, xs), ys) == SetAll(SetAll(d, ys), xs)
  {
    hide SetAll, LastFor;
    SetAllAt(d, xs, Target("", ""));
    SetAllAt(d, ys, Target("", ""));
    var dxy, dyx := SetAll(SetAll(d, xs), ys), SetAll(SetAll(d, ys), xs);
    SetAllAt(SetAll(d, xs), ys, Target("", ""));
    SetAllAt(SetAll(d, ys), xs, Target("", ""));
    forall t | t in d
      ensures dxy[t] == dyx[t]
    {
      SetAllAt(d, xs, t);
      SetAllAt(d, ys, t);
      SetAllAt(SetAll(d, xs), ys, t);
      SetAllAt(SetAll(d, ys), xs, t);
      LastForIn(xs, t);
      LastForIn(ys, t);
    }
  }
}
