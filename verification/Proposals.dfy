/** Proposals and transactions: two status machines, their stores, and the two-store updates of the
    daemon (tunnel/vfp_tunnel/proposal/, tunnel/vfp_tunnel/transaction/, tunnel/vfp_tunnel/daemon.py). */
module Proposals {
  import opened Text

  /** A creating caller may supply any status, hence Other. */
  datatype PStatus = Pending | Approved | Rejected | Applied | Failed | RolledBack | Expired | Other(name: string)

  datatype TStatus = TApplied | TFailed | TRolledBack | TOther(name: string)

  /** createdAt is the epoch stamp used for ageing; legacy records have none. */
  datatype Proposal = Proposal(status: PStatus, createdAt: Option<int>)

  datatype Txn = Txn(status: TStatus, proposal: Option<string>)

  predicate PAllowed(from: PStatus, to: PStatus) {
    match from
    case Pending => to == Approved || to == Rejected || to == Expired
    case Approved => to == Applied || to == Failed
    case Applied => to == RolledBack
    case _ => false
  }

  predicate TAllowed(from: TStatus, to: TStatus) {
    from == TApplied && (to == TRolledBack || to == TFailed)
  }

  predicate Stale(p: Proposal, now: int, ttl: int) {
    ttl > 0 && p.status == Pending && p.createdAt.Some? && now - p.createdAt.value > ttl
  }

  /** What has timed out stays timed out, and a longer life never expires what a shorter one keeps. */
  lemma StaleMonotone(p: Proposal, now: int, ttl: int, now': int, ttl': int)
    requires Stale(p, now, ttl) && now <= now' && 0 < ttl' <= ttl
    ensures Stale(p, now', ttl')
  {
  }

  /** A pending proposal with a stamp times out one second after its life ends, and not before. */
  lemma StaleFrom(p: Proposal, now: int, ttl: int)
    requires p.status == Pending && p.createdAt.Some? && ttl > 0
    ensures Stale(p, now, ttl) <==> now >= p.createdAt.value + ttl + 1
  {
  }

  function Swept(props: map<string, Proposal>, now: int, ttl: int): map<string, Proposal> {
    map id | id in props :: if Stale(props[id], now, ttl) then props[id].(status := Expired) else props[id]
  }

  class ProposalStore {
    var props: map<string, Proposal>

    constructor ()
      ensures props == map[]
    {
      props := map[];
    }

    /** proposal/manager.py:43-51. */
    method Create(id: string, p: Proposal) returns (ok: bool)
      modifies this
      ensures ok == (id !in old(props)) && props == if ok then old(props)[id := p] else old(props)
    {
      ok := id !in props;
      if ok {
        props := props[id := p];
      }
    }

    /** proposal/manager.py:115-123: a pending proposal can be approved, rejected or expire, an approved one be
        applied or fail, an applied one be rolled back. */
    method SetStatus(id: string, to: PStatus) returns (ok: bool)
      modifies this
      ensures ok <==>
        id in old(props) && ((old(props)[id].status == Pending && to in {Approved, Rejected, Expired})
                             || (old(props)[id].status == Approved && to in {Applied, Failed})
                             || (old(props)[id].status == Applied && to == RolledBack))
      ensures props == if ok then old(props)[id := old(props)[id].(status := to)] else old(props)
    {
      ok := id in props && PAllowed(props[id].status, to);
      if ok {
        props := props[id := props[id].(status := to)];
      }
    }

    /** proposal/manager.py:71-97: the sweep visits the records one by one and reports those it expired. */
    method ExpireStale(now: int, ttl: int) returns (newly: set<string>)
      modifies this
      ensures props == Swept(old(props), now, ttl)
      ensures forall id :: id in newly <==>
        id in old(props) && ttl > 0 && old(props)[id].status == Pending
        && old(props)[id].createdAt.Some? && now > old(props)[id].createdAt.value + ttl
      ensures props.Keys == old(props).Keys
      ensures forall id :: id in props ==>
        props[id] == if id in newly then old(props)[id].(status := Expired) else old(props)[id]
    {
      newly := {};
      if ttl <= 0 {
        assert Swept(props, now, ttl) == props;
        return;
      }
      ghost var was := props;
      var todo := props.Keys;
      while todo != {}
        invariant todo <= was.Keys && props.Keys == was.Keys
        invariant forall id :: id in was ==> props[id] == if id in todo then was[id] else Swept(was, now, ttl)[id]
        invariant forall id :: id in newly <==> id in was && id !in todo && Stale(was[id], now, ttl)
        decreases todo
      {
        var id :| id in todo;
        todo := todo - {id};
        if props[id].status == Pending && props[id].createdAt.Some? && now - props[id].createdAt.value > ttl {
          props := props[id := props[id].(status := Expired)];
          newly := newly + {id};
        }
      }
      assert props == Swept(was, now, ttl);
    }
  }

  class TransactionStore {
    var txns: map<string, Txn>

    constructor ()
      ensures txns == map[]
    {
      txns := map[];
    }

    /** transaction/manager.py:42-52. */
    method Add(id: string, t: Txn) returns (ok: bool)
      modifies this
      ensures ok == (id != "" && id !in old(txns)) && txns == if ok then old(txns)[id := t] else old(txns)
    {
      ok := id != "" && id !in txns;
      if ok {
        txns := txns[id := t];
      }
    }

    /** transaction/manager.py:84-92. */
    method SetStatus(id: string, to: TStatus) returns (ok: bool)
      modifies this
      ensures ok <==> id in old(txns) && old(txns)[id].status == TApplied && to in {TRolledBack, TFailed}
      ensures txns == if ok then old(txns)[id := old(txns)[id].(status := to)] else old(txns)
    {
      ok := id in txns && TAllowed(txns[id].status, to);
      if ok {
        txns := txns[id := txns[id].(status := to)];
      }
    }
  }

  // ---- the daemon over both stores, as interleaved steps ----

  /** A request between its transaction-store update and its proposal-store update: it still has to look
      at the proposal, or has looked and will try to mark it. */
  datatype Op =
    | LinkCheck(tid: string, pid: string)
    | LinkMark(tid: string, pid: string)
    | RollCheck(tid: string, pid: string)
    | RollMark(tid: string, pid: string)

  /** `hist` records every status each proposal has had. */
  datatype Sys = Sys(props: map<string, Proposal>, txns: map<string, Txn>, ops: set<Op>,
                     hist: map<string, seq<PStatus>>)

  datatype Step =
    | CreateP(pid: string, p: Proposal)
    | MarkP(pid: string, to: PStatus)       // approve, reject, mark_applied, mark_failed
    | Sweep(now: int, ttl: int)
    | CreateT(tid: string, t: Txn)
    | FailT(tid: string)
    | RollT(tid: string)                    // first half of mark_rolled_back
    | Continue(op: Op)                      // a request goes on to the proposal store

  function SetP(s: Sys, pid: string, to: PStatus): Sys {
    if pid in s.props && pid in s.hist && PAllowed(s.props[pid].status, to)
    then s.(props := s.props[pid := s.props[pid].(status := to)], hist := s.hist[pid := s.hist[pid] + [to]])
    else s
  }

  function SweptHist(s: Sys, now: int, ttl: int): map<string, seq<PStatus>> {
    map id | id in s.hist ::
      if id in s.props && Stale(s.props[id], now, ttl) then s.hist[id] + [Expired] else s.hist[id]
  }

  function SetT(s: Sys, tid: string, to: TStatus): Sys {
    if tid in s.txns && TAllowed(s.txns[tid].status, to)
    then s.(txns := s.txns[tid := s.txns[tid].(status := to)])
    else s
  }

  function Continued(s: Sys, op: Op): Sys {
    var rest := s.(ops := s.ops - {op});
    match op
    case LinkCheck(tid, pid) =>
      if pid in s.props && s.props[pid].status == Approved then rest.(ops := rest.ops + {LinkMark(tid, pid)}) else rest
    case LinkMark(tid, pid) => SetP(rest, pid, Applied)
    case RollCheck(tid, pid) =>
      if pid in s.props && s.props[pid].status == Applied then rest.(ops := rest.ops + {RollMark(tid, pid)}) else rest
    case RollMark(tid, pid) => SetP(rest, pid, RolledBack)
  }

  ghost predicate Next(s: Sys, step: Step, s': Sys) {
    match step
    case CreateP(pid, p) =>
      pid !in s.props && s' == s.(props := s.props[pid := p], hist := s.hist[pid := [p.status]])
    case MarkP(pid, to) =>
      to in {Approved, Rejected, Applied, Failed} && s' == SetP(s, pid, to)
    case Sweep(now, ttl) =>
      s' == s.(props := Swept(s.props, now, ttl), hist := SweptHist(s, now, ttl))
    case CreateT(tid, t) =>
      tid !in s.txns && s' == s.(txns := s.txns[tid := t],
                                 ops := s.ops + if t.proposal.Some? then {LinkCheck(tid, t.proposal.value)} else {})
    case FailT(tid) => s' == SetT(s, tid, TFailed)
    case RollT(tid) =>
      && tid in s.txns && TAllowed(s.txns[tid].status, TRolledBack)
      && var t := s.txns[tid];
         s' == SetT(s, tid, TRolledBack).(ops := s.ops +
              if t.proposal.Some? then {RollCheck(tid, t.proposal.value)} else {})
    case Continue(op) => op in s.ops && s' == Continued(s, op)
  }

  ghost predicate Run(ss: seq<Sys>, steps: seq<Step>) {
    && |ss| == |steps| + 1 && ss[0] == Sys(map[], map[], {}, map[])
    && forall k :: 0 <= k < |steps| ==> Next(ss[k], steps[k], ss[k + 1])
  }

  // ---- invariants ----

  ghost predicate Path(h: seq<PStatus>) {
    h != [] && forall i :: 0 <= i < |h| - 1 ==> PAllowed(h[i], h[i + 1])
  }

  ghost predicate HistoryOk(s: Sys) {
    && s.hist.Keys == s.props.Keys
    && forall id :: id in s.props ==> Path(s.hist[id]) && s.hist[id][|s.hist[id]| - 1] == s.props[id].status
  }

  /** The proposal was created with this status. */
  ghost predicate Entered(s: Sys, id: string, st: PStatus) {
    id in s.hist && s.hist[id] != [] && s.hist[id][0] == st
  }

  /** A rolled_back transaction names the proposal. */
  ghost predicate RolledTxn(s: Sys, pid: string) {
    exists tid :: tid in s.txns && s.txns[tid] == Txn(TRolledBack, Some(pid))
  }

  ghost predicate RollbacksOk(s: Sys) {
    && (forall op :: op in s.ops && (op.RollCheck? || op.RollMark?) ==>
          op.tid in s.txns && s.txns[op.tid] == Txn(TRolledBack, Some(op.pid)))
    && (forall id :: (id in s.props && !Entered(s, id, RolledBack) && s.props[id].status == RolledBack) ==>
          RolledTxn(s, id))
  }

  lemma PathGrows(h: seq<PStatus>, to: PStatus)
    requires Path(h) && PAllowed(h[|h| - 1], to)
    ensures Path(h + [to])
  {
  }

  lemma SetPKeeps(s: Sys, pid: string, to: PStatus)
    requires HistoryOk(s)
    ensures HistoryOk(SetP(s, pid, to))
  {
    if pid in s.props && PAllowed(s.props[pid].status, to) {
      PathGrows(s.hist[pid], to);
    }
  }

  lemma SweepKeeps(s: Sys, now: int, ttl: int, s': Sys)
    requires HistoryOk(s) && Next(s, Sweep(now, ttl), s')
    ensures HistoryOk(s')
  {
    forall id | id in s'.props
      ensures Path(s'.hist[id]) && s'.hist[id][|s'.hist[id]| - 1] == s'.props[id].status
    {
      if Stale(s.props[id], now, ttl) {
        PathGrows(s.hist[id], Expired);
      }
    }
  }

  lemma HistoryStep(s: Sys, step: Step, s': Sys)
    requires HistoryOk(s) && Next(s, step, s')
    ensures HistoryOk(s')
  {
    match step {
      case MarkP(pid, to) => SetPKeeps(s, pid, to);
      case Sweep(now, ttl) => SweepKeeps(s, now, ttl, s');
      case Continue(op) =>
        var rest := s.(ops := s.ops - {op});
        if op.LinkMark? {
          SetPKeeps(rest, op.pid, Applied);
        } else if op.RollMark? {
          SetPKeeps(rest, op.pid, RolledBack);
        }
      case _ =>
    }
  }

  lemma OpsOrigin(s: Sys, step: Step, s': Sys, op: Op)
    requires RollbacksOk(s) && Next(s, step, s') && op in s'.ops && (op.RollCheck? || op.RollMark?)
    ensures (op.tid in s.txns && s.txns[op.tid] == Txn(TRolledBack, Some(op.pid)))
         || (step == RollT(op.tid) && op.tid in s'.txns && s'.txns[op.tid] == Txn(TRolledBack, Some(op.pid)))
  {
    if op !in s.ops && step.Continue? {
      assert RollCheck(op.tid, op.pid) in s.ops;
    }
  }

  lemma RolledBackWhen(s: Sys, step: Step, s': Sys, id: string)
    requires HistoryOk(s) && Next(s, step, s')
    requires id in s'.props && !Entered(s', id, RolledBack) && s'.props[id].status == RolledBack
    ensures (id in s.props && s.props[id].status == RolledBack && !Entered(s, id, RolledBack))
         || (step.Continue? && step.op.RollMark? && step.op.pid == id && step.op in s.ops)
  {
    hide Path;
    match step {
      case CreateP(pid, p) =>
      case MarkP(pid, to) =>
      case Sweep(now, ttl) =>
      case Continue(op) =>
      case _ =>
    }
  }

  /** A proposal becomes rolled_back only through a request whose transaction is rolled_back already. */
  lemma RolledBackOrigin(s: Sys, step: Step, s': Sys, id: string)
    requires HistoryOk(s) && RollbacksOk(s) && Next(s, step, s')
    requires id in s'.props && !Entered(s', id, RolledBack) && s'.props[id].status == RolledBack
    ensures RolledTxn(s, id)
  {
    RolledBackWhen(s, step, s', id);
    hide Next;
    if id in s.props && s.props[id].status == RolledBack {
      assert !Entered(s, id, RolledBack);
    }
  }

  lemma TxnStaysRolledBack(s: Sys, step: Step, s': Sys)
    requires Next(s, step, s')
    ensures forall tid :: tid in s.txns && s.txns[tid].status == TRolledBack ==>
              tid in s'.txns && s'.txns[tid] == s.txns[tid]
  {
  }

  /** A proposal's first status stays its first; a rolled_back transaction stays one. */
  lemma RollbacksStep(s: Sys, step: Step, s': Sys)
    requires HistoryOk(s) && RollbacksOk(s) && Next(s, step, s')
    ensures RollbacksOk(s')
  {
    TxnStaysRolledBack(s, step, s');
    hide Next, HistoryOk, Entered;
    forall op | op in s'.ops && (op.RollCheck? || op.RollMark?)
      ensures op.tid in s'.txns && s'.txns[op.tid] == Txn(TRolledBack, Some(op.pid))
    {
      OpsOrigin(s, step, s', op);
    }
    forall id | id in s'.props && !Entered(s', id, RolledBack) && s'.props[id].status == RolledBack
      ensures RolledTxn(s', id)
    {
      RolledBackOrigin(s, step, s', id);
      if RolledTxn(s, id) {
        var tid :| tid in s.txns && s.txns[tid] == Txn(TRolledBack, Some(id));
        assert s'.txns[tid] == Txn(TRolledBack, Some(id));
      }
    }
  }

  lemma {:induction false} InvariantsHold(ss: seq<Sys>, steps: seq<Step>, k: nat)
    requires Run(ss, steps) && k < |ss|
    ensures HistoryOk(ss[k]) && RollbacksOk(ss[k])
  {
    hide Next;
    if k == 0 {
    } else {
      InvariantsHold(ss, steps, k - 1);
      HistoryStep(ss[k - 1], steps[k - 1], ss[k - 1 + 1]);
      RollbacksStep(ss[k - 1], steps[k - 1], ss[k - 1 + 1]);
    }
  }

  /** In every run each proposal's statuses form a path in its transition table, ending in the present one. */
  lemma HistoriesArePaths(ss: seq<Sys>, steps: seq<Step>, k: nat, id: string)
    requires Run(ss, steps) && k < |ss| && id in ss[k].props
    ensures id in ss[k].hist && Path(ss[k].hist[id])
    ensures ss[k].hist[id][|ss[k].hist[id]| - 1] == ss[k].props[id].status
  {
    InvariantsHold(ss, steps, k);
  }

  /** A proposal created pending that is applied, or was and is now rolled_back, was approved just before. */
  lemma AppliedWasApproved(ss: seq<Sys>, steps: seq<Step>, k: nat, id: string)
    requires Run(ss, steps) && k < |ss| && id in ss[k].props
    requires Entered(ss[k], id, Pending)
    requires ss[k].props[id].status == Applied || ss[k].props[id].status == RolledBack
    ensures var h := ss[k].hist[id];
            exists i :: 0 <= i < |h| - 1 && h[i] == Approved && h[i + 1] == Applied
  {
    InvariantsHold(ss, steps, k);
    var h := ss[k].hist[id];
    var n := |h| - 1;
    if h[n] == Applied {
      assert PAllowed(h[n - 1], h[n - 1 + 1]);
      assert h[n - 1] == Approved;
    } else {
      assert PAllowed(h[n - 1], h[n - 1 + 1]);
      assert PAllowed(h[n - 2], h[n - 2 + 1]);
      assert h[n - 2] == Approved;
    }
  }

  /** In every state, also between the two updates, a rolled_back proposal that was not created so has a
      rolled_back transaction naming it. */
  lemma RolledBackHasTransaction(ss: seq<Sys>, steps: seq<Step>, k: nat, id: string)
    requires Run(ss, steps) && k < |ss| && id in ss[k].props && ss[k].props[id].status == RolledBack
    requires !Entered(ss[k], id, RolledBack)
    ensures RolledTxn(ss[k], id)
  {
    InvariantsHold(ss, steps, k);
  }

  // ---- when a rollback leaves its proposal applied ----

  predicate IsApplied(s: Sys, pid: string) {
    pid in s.props && s.props[pid].status == Applied
  }

  /** Some rollback of the proposal's transactions is still to mark it. */
  ghost predicate MarkPending(s: Sys, pid: string) {
    exists op :: op in s.ops && op.RollMark? && op.pid == pid
  }

  /** The c-th step is a rollback looking at the proposal and finding it applied. */
  ghost predicate SeenApplied(ss: seq<Sys>, steps: seq<Step>, c: nat, pid: string)
    requires |ss| == |steps| + 1
  {
    c < |steps| && steps[c].Continue? && steps[c].op.RollCheck? && steps[c].op.pid == pid && IsApplied(ss[c], pid)
  }

  /** Where a rollback that has seen the proposal applied takes it: marked soon, or rolled_back already. */
  ghost predicate Doomed(s: Sys, tid: string, pid: string) {
    && pid in s.props && (s.props[pid].status == Applied || s.props[pid].status == RolledBack)
    && (RollMark(tid, pid) in s.ops || s.props[pid].status == RolledBack)
  }

  lemma SameKeys(s: Sys)
    requires HistoryOk(s)
    ensures s.hist.Keys == s.props.Keys
  {
  }

  lemma DoomedStep(s: Sys, step: Step, s': Sys, tid: string, pid: string)
    requires s.hist.Keys == s.props.Keys && Next(s, step, s') && Doomed(s, tid, pid)
    ensures Doomed(s', tid, pid)
  {
    match step {
      case CreateP(_, _) =>
      case MarkP(_, _) =>
      case Sweep(_, _) =>
      case CreateT(_, _) =>
      case FailT(_) =>
      case RollT(_) =>
      case Continue(op) =>
    }
  }

  lemma DoomedStart(s: Sys, op: Op, s': Sys)
    requires Next(s, Continue(op), s') && op.RollCheck? && IsApplied(s, op.pid)
    ensures Doomed(s', op.tid, op.pid)
  {
  }

  lemma {:induction false} SeenIsDoomed(ss: seq<Sys>, steps: seq<Step>, c: nat, k: nat, pid: string)
    requires Run(ss, steps) && c < k < |ss| && SeenApplied(ss, steps, c, pid)
    ensures Doomed(ss[k], steps[c].op.tid, pid)
  {
    hide Doomed, HistoryOk;
    if k == c + 1 {
      assert Next(ss[c], steps[c], ss[c + 1]);
      DoomedStart(ss[c], steps[c].op, ss[c + 1]);
    } else {
      SeenIsDoomed(ss, steps, c, k - 1, pid);
      InvariantsHold(ss, steps, k - 1);
      assert Next(ss[k - 1], steps[k - 1], ss[k - 1 + 1]);
      SameKeys(ss[k - 1]);
      DoomedStep(ss[k - 1], steps[k - 1], ss[k - 1 + 1], steps[c].op.tid, pid);
    }
  }

  lemma MarkOrigin(s: Sys, step: Step, s': Sys, pid: string)
    requires Next(s, step, s') && MarkPending(s', pid) && !MarkPending(s, pid)
    ensures step.Continue? && step.op.RollCheck? && step.op.pid == pid && IsApplied(s, pid)
  {
    var op :| op in s'.ops && op.RollMark? && op.pid == pid;
    assert op !in s.ops;
  }

  lemma NoneAtFirst(s: Sys, pid: string)
    requires s.ops == {}
    ensures !MarkPending(s, pid)
  {
  }

  lemma {:induction false} UnseenIsUnmarked(ss: seq<Sys>, steps: seq<Step>, k: nat, pid: string)
    requires Run(ss, steps) && k < |ss| && forall c: nat :: c < k ==> !SeenApplied(ss, steps, c, pid)
    ensures !MarkPending(ss[k], pid)
  {
    hide Next, MarkPending;
    if k == 0 {
      NoneAtFirst(ss[0], pid);
    } else {
      UnseenIsUnmarked(ss, steps, k - 1, pid);
      assert !SeenApplied(ss, steps, k - 1, pid);
      if MarkPending(ss[k], pid) {
        MarkOrigin(ss[k - 1], steps[k - 1], ss[k - 1 + 1], pid);
      }
    }
  }

  lemma AppliedStep(s: Sys, step: Step, s': Sys, pid: string)
    requires Next(s, step, s') && IsApplied(s, pid) && !MarkPending(s, pid)
    ensures IsApplied(s', pid)
  {
    match step {
      case CreateP(_, _) =>
      case MarkP(_, _) =>
      case Sweep(_, _) =>
      case CreateT(_, _) =>
      case FailT(_) =>
      case RollT(_) =>
      case Continue(op) =>
    }
  }

  lemma {:induction false} UnseenStaysApplied(ss: seq<Sys>, steps: seq<Step>, j: nat, k: nat, pid: string)
    requires Run(ss, steps) && j <= k < |ss| && IsApplied(ss[j], pid)
    requires forall c: nat :: c < k ==> !SeenApplied(ss, steps, c, pid)
    ensures IsApplied(ss[k], pid)
  {
    hide Next, MarkPending, IsApplied;
    if k == j {
    } else {
      UnseenStaysApplied(ss, steps, j, k - 1, pid);
      UnseenIsUnmarked(ss, steps, k - 1, pid);
      AppliedStep(ss[k - 1], steps[k - 1], ss[k - 1 + 1], pid);
    }
  }

  /** Once no rollback is on its way to mark it, a proposal stands applied exactly when it became applied and
      every rollback of its transactions had looked at it before that. */
  lemma StandsAppliedIff(ss: seq<Sys>, steps: seq<Step>, k: nat, pid: string)
    requires Run(ss, steps) && k < |ss| && !MarkPending(ss[k], pid)
    ensures IsApplied(ss[k], pid) <==>
      (exists j: nat :: j <= k && IsApplied(ss[j], pid)) && forall c: nat :: c < k ==> !SeenApplied(ss, steps, c, pid)
  {
    if IsApplied(ss[k], pid) {
      forall c: nat | c < k
        ensures !SeenApplied(ss, steps, c, pid)
      {
        if SeenApplied(ss, steps, c, pid) {
          SeenIsDoomed(ss, steps, c, k, pid);
        }
      }
    }
    if j: nat :| j <= k && IsApplied(ss[j], pid) {
      if forall c: nat :: c < k ==> !SeenApplied(ss, steps, c, pid) {
        UnseenStaysApplied(ss, steps, j, k, pid);
      }
    }
  }

  lemma Histories()
    ensures [Pending] + [Approved] == [Pending, Approved]
    ensures [Pending, Approved] + [Applied] == [Pending, Approved, Applied]
    ensures [Pending, Approved, Applied] + [RolledBack] == [Pending, Approved, Applied, RolledBack]
  {
  }

  lemma RunOn(ss: seq<Sys>, steps: seq<Step>, step: Step, s': Sys)
    requires Run(ss, steps) && Next(ss[|steps|], step, s')
    ensures Run(ss + [s'], steps + [step])
  {
  }

  /** A proposal is created pending, approved, and its transaction recorded; the request has seen it approved
      and is about to mark it applied. */
  lemma ToLink(pid: string, tid: string) returns (ss: seq<Sys>, steps: seq<Step>)
    ensures Run(ss, steps) && |steps| == 4
    ensures ss[4] == Sys(map[pid := Proposal(Approved, None)], map[tid := Txn(TApplied, Some(pid))],
                         {LinkMark(tid, pid)}, map[pid := [Pending, Approved]])
  {
    Histories();
    var p, t := Proposal(Pending, None), Txn(TApplied, Some(pid));
    var s0 := Sys(map[], map[], {}, map[]);
    var s1 := s0.(props := map[pid := p], hist := map[pid := [Pending]]);
    var s2 := s1.(props := map[pid := p.(status := Approved)], hist := map[pid := [Pending, Approved]]);
    var s3 := s2.(txns := map[tid := t], ops := {LinkCheck(tid, pid)});
    var s4 := s3.(ops := {LinkMark(tid, pid)});
    ss := [s0, s1, s2, s3, s4];
    steps := [CreateP(pid, p), MarkP(pid, Approved), CreateT(tid, t), Continue(LinkCheck(tid, pid))];
    assert Next(s0, steps[0], s1) && Next(s1, steps[1], s2);
    assert Next(s2, steps[2], s3) && Next(s3, steps[3], s4);
  }

  /** The ordinary course: applied, then rolled back, transaction and proposal alike. */
  lemma RolledBackInTurn(pid: string, tid: string) returns (ss: seq<Sys>, steps: seq<Step>)
    ensures Run(ss, steps) && |steps| == 8
    ensures IsApplied(ss[5], pid) && ss[5].ops == {}
    ensures ss[8].ops == {} && ss[8].txns == map[tid := Txn(TRolledBack, Some(pid))]
    ensures ss[8].props == map[pid := Proposal(RolledBack, None)]
    ensures ss[8].hist == map[pid := [Pending, Approved, Applied, RolledBack]]
  {
    Histories();
    ss, steps := ToLink(pid, tid);
    var s4 := ss[4];
    var s5 := s4.(props := map[pid := Proposal(Applied, None)], ops := {},
                  hist := map[pid := [Pending, Approved, Applied]]);
    var s6 := s5.(txns := map[tid := Txn(TRolledBack, Some(pid))], ops := {RollCheck(tid, pid)});
    var s7 := s6.(ops := {RollMark(tid, pid)});
    var s8 := s7.(props := map[pid := Proposal(RolledBack, None)], ops := {},
                  hist := map[pid := [Pending, Approved, Applied, RolledBack]]);
    assert Next(s4, Continue(LinkMark(tid, pid)), s5);
    RunOn(ss, steps, Continue(LinkMark(tid, pid)), s5);
    ss, steps := ss + [s5], steps + [Continue(LinkMark(tid, pid))];
    assert Next(s5, RollT(tid), s6);
    RunOn(ss, steps, RollT(tid), s6);
    ss, steps := ss + [s6], steps + [RollT(tid)];
    assert Next(s6, Continue(RollCheck(tid, pid)), s7);
    RunOn(ss, steps, Continue(RollCheck(tid, pid)), s7);
    ss, steps := ss + [s7], steps + [Continue(RollCheck(tid, pid))];
    assert Next(s7, Continue(RollMark(tid, pid)), s8);
    RunOn(ss, steps, Continue(RollMark(tid, pid)), s8);
    ss, steps := ss + [s8], steps + [Continue(RollMark(tid, pid))];
  }

  /** A rollback that overtakes the request which recorded the transaction: nothing is pending any more, the
      only transaction is rolled_back, and its proposal stands applied. */
  lemma RollbackOvertakes(pid: string, tid: string) returns (ss: seq<Sys>, steps: seq<Step>)
    ensures Run(ss, steps)
    ensures var last := ss[|steps|];
            && last.ops == {} && last.txns == map[tid := Txn(TRolledBack, Some(pid))] && IsApplied(last, pid)
            && last.hist == map[pid := [Pending, Approved, Applied]]
  {
    Histories();
    ss, steps := ToLink(pid, tid);
    var s4 := ss[4];
    var s5 := s4.(txns := map[tid := Txn(TRolledBack, Some(pid))], ops := {LinkMark(tid, pid), RollCheck(tid, pid)});
    var s6 := s5.(ops := {LinkMark(tid, pid)});
    var s7 := s6.(props := map[pid := Proposal(Applied, None)], ops := {},
                  hist := map[pid := [Pending, Approved, Applied]]);
    assert Next(s4, RollT(tid), s5);
    RunOn(ss, steps, RollT(tid), s5);
    ss, steps := ss + [s5], steps + [RollT(tid)];
    assert Next(s5, Continue(RollCheck(tid, pid)), s6);
    RunOn(ss, steps, Continue(RollCheck(tid, pid)), s6);
    ss, steps := ss + [s6], steps + [Continue(RollCheck(tid, pid))];
    assert Next(s6, Continue(LinkMark(tid, pid)), s7);
    RunOn(ss, steps, Continue(LinkMark(tid, pid)), s7);
    ss, steps := ss + [s7], steps + [Continue(LinkMark(tid, pid))];
  }
}
