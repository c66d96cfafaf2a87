/** What survives in every run, whichever processes crash: which statements recovery has, and which it has lost. */
module Survival {
  import opened Values
  import opened Wal
  import opened Durability

  // A record of the log: its effect is in the snapshot, or it has been skipped by a recovery, or neither.
  datatype Mark = Covered | Skipped | Active

  // saved: the statements whose result the snapshot holds. marks: one for each record of the log. lost: the statements
  // that recoveries have skipped.
  datatype Trace = Trace(saved: seq<Sql>, marks: seq<Mark>, lost: seq<Sql>)

  // The active statements among the records above an LSN.
  function ActiveAbove(log: seq<Record>, marks: seq<Mark>, lsn: int): seq<Sql>
    requires |log| == |marks|
  {
    if log == [] then [] else
      var n := |log| - 1;
      ActiveAbove(log[..n], marks[..n], lsn) + if marks[n] == Active && log[n].lsn > lsn then [log[n].sql] else []
  }

  function ActiveUpTo(log: seq<Record>, marks: seq<Mark>, lsn: int): seq<Sql>
    requires |log| == |marks|
  {
    if log == [] then [] else
      var n := |log| - 1;
      ActiveUpTo(log[..n], marks[..n], lsn) + if marks[n] == Active && log[n].lsn <= lsn then [log[n].sql] else []
  }

  // The statements whose result memory holds: those of the snapshot and the active ones.
  function Present<D>(s: State<D>, t: Trace): seq<Sql>
    requires |s.disk.log| == |t.marks|
  {
    t.saved + ActiveAbove(s.disk.log, t.marks, -1)
  }

  // The statements a recovery yields: it skips the active ones at or below the snapshot's LSN, and no others.
  function Recoverable<D>(s: State<D>, t: Trace): seq<Sql>
    requires |s.disk.log| == |t.marks|
  {
    t.saved + ActiveAbove(s.disk.log, t.marks, SnapLsn(s.disk.snap))
  }

  function Reopened(log: seq<Record>, marks: seq<Mark>, lsn: nat): (r: seq<Mark>)
    requires |log| == |marks|
    ensures |r| == |marks|
    ensures forall i :: 0 <= i < |r| ==> r[i] == if marks[i] == Active && log[i].lsn <= lsn then Skipped else marks[i]
  {
    seq(|marks|, i requires 0 <= i < |marks| => if marks[i] == Active && log[i].lsn <= lsn then Skipped else marks[i])
  }

  // How a step from s moves the statements: into the log, into the snapshot, or, at a reopen, out of the database.
  function NextTrace<D>(s: State<D>, t: Trace, step: Step): Trace
    requires |s.disk.log| == |t.marks|
  {
    match step
    case Append(_) => t.(marks := t.marks + [Active])
    case SaveSnapshot => t.(saved := Present(s, t), marks := seq(|t.marks|, _ => Covered))
    case Truncate => t.(marks := [])
    case Reopen =>
      var lsn := SnapLsn(s.disk.snap);
      t.(marks := Reopened(s.disk.log, t.marks, lsn), lost := t.lost + ActiveUpTo(s.disk.log, t.marks, lsn))
    case _ => t
  }

  // ---- What every step keeps ----

  ghost predicate Holds<D>(exec: (D, Sql) -> Option<D>, empty: D, sqls: seq<Sql>, db: D) {
    Fold(exec, Some(empty), sqls) == Some(db)
  }

  ghost predicate MemoryHolds<D>(exec: (D, Sql) -> Option<D>, empty: D, s: State<D>, t: Trace)
    requires |s.disk.log| == |t.marks|
  {
    match s.phase
    case Down => true
    case Logged(sql) =>
      var n := |t.marks| - 1;
      && n >= 0 && t.marks[n] == Active && s.disk.log[n].sql == sql
      && Holds(exec, empty, t.saved + ActiveAbove(s.disk.log[..n], t.marks[..n], -1), s.mem)
    case _ => Holds(exec, empty, Present(s, t), s.mem)
  }

  ghost predicate TraceOk<D>(exec: (D, Sql) -> Option<D>, empty: D, s: State<D>, t: Trace) {
    && LogOk(s)
    && |s.disk.log| == |t.marks|
    && Holds(exec, empty, t.saved, Base(empty, s.disk.snap))
    && (forall i :: 0 <= i < |t.marks| && t.marks[i] != Active ==> s.disk.log[i].lsn <= SnapLsn(s.disk.snap))
    && (s.phase == Saved ==> forall i :: 0 <= i < |t.marks| ==> t.marks[i] == Covered)
    && MemoryHolds(exec, empty, s, t)
  }

  // Replaying is folding the statements above the LSN.
  lemma {:induction false} ReplayIsFold<D>(exec: (D, Sql) -> Option<D>, empty: D, db: D, saved: seq<Sql>,
                                           log: seq<Record>, marks: seq<Mark>, lsn: nat)
    requires |log| == |marks| && Holds(exec, empty, saved, db)
    requires forall i :: 0 <= i < |marks| && marks[i] != Active ==> log[i].lsn <= lsn
    ensures Replay(exec, db, log, lsn) == Fold(exec, Some(empty), saved + ActiveAbove(log, marks, lsn))
  {
    if log == [] {
      assert saved + [] == saved;
    } else {
      var n := |log| - 1;
      ReplayIsFold(exec, empty, db, saved, log[..n], marks[..n], lsn);
      var before := ActiveAbove(log[..n], marks[..n], lsn);
      if log[n].lsn > lsn {
        assert saved + (before + [log[n].sql]) == (saved + before) + [log[n].sql];
        FoldAppend(exec, Some(empty), saved + before, log[n].sql);
      } else {
        assert before + [] == before;
      }
    }
  }

  lemma AboveAppend(log: seq<Record>, marks: seq<Mark>, r: Record, m: Mark, lsn: int)
    requires |log| == |marks|
    ensures ActiveAbove(log + [r], marks + [m], lsn) ==
            ActiveAbove(log, marks, lsn) + if m == Active && r.lsn > lsn then [r.sql] else []
  {
    assert (log + [r])[..|log|] == log && (marks + [m])[..|marks|] == marks;
  }

  lemma {:induction false} NoneActive(log: seq<Record>, marks: seq<Mark>, lsn: int)
    requires |log| == |marks| && forall i :: 0 <= i < |marks| ==> marks[i] == Covered
    ensures ActiveAbove(log, marks, lsn) == []
  {
    if log != [] { NoneActive(log[..|log| - 1], marks[..|log| - 1], lsn); }
  }

  // Marking the skipped records leaves exactly the others active.
  lemma {:induction false} ReopenedActive(log: seq<Record>, marks: seq<Mark>, lsn: nat)
    requires |log| == |marks|
    ensures ActiveAbove(log, Reopened(log, marks, lsn), -1) == ActiveAbove(log, marks, lsn)
  {
    if log != [] {
      var n := |log| - 1;
      ReopenedActive(log[..n], marks[..n], lsn);
      assert Reopened(log, marks, lsn)[..n] == Reopened(log[..n], marks[..n], lsn);
    }
  }

  lemma AppendOk<D>(exec: (D, Sql) -> Option<D>, empty: D, s: State<D>, t: Trace, sql: Sql)
    requires TraceOk(exec, empty, s, t) && s.phase == Idle
    ensures TraceOk(exec, empty, Next(exec, empty, s, Append(sql)), NextTrace(s, t, Append(sql)))
  {
    hide Fold, ActiveAbove;
    var n := |t.marks|;
    var s', t' := Next(exec, empty, s, Append(sql)), NextTrace(s, t, Append(sql));
    assert s'.disk.log[..n] == s.disk.log && t'.marks[..n] == t.marks;
  }

  lemma ApplyOk<D(!new)>(exec: (D, Sql) -> Option<D>, empty: D, s: State<D>, t: Trace)
    requires TraceOk(exec, empty, s, t) && s.phase.Logged? && Safe(exec, s.phase.sql)
    ensures TraceOk(exec, empty, Next(exec, empty, s, Apply), t)
  {
    hide Fold, ActiveAbove;
    var n := |t.marks| - 1;
    var log, marks, sql := s.disk.log[..n], t.marks[..n], s.phase.sql;
    assert s.disk.log == log + [s.disk.log[n]] && t.marks == marks + [Active];
    AboveAppend(log, marks, s.disk.log[n], Active, -1);
    var before := t.saved + ActiveAbove(log, marks, -1);
    assert Present(s, t) == before + [sql];
    FoldAppend(exec, Some(empty), before, sql);
  }

  lemma SaveOk<D>(exec: (D, Sql) -> Option<D>, empty: D, s: State<D>, t: Trace)
    requires TraceOk(exec, empty, s, t) && s.phase == Idle
    ensures TraceOk(exec, empty, Next(exec, empty, s, SaveSnapshot), NextTrace(s, t, SaveSnapshot))
  {
    hide Fold, ActiveAbove;
    var t' := NextTrace(s, t, SaveSnapshot);
    NoneActive(s.disk.log, t'.marks, -1);
    assert t'.saved + [] == t'.saved;
  }

  lemma TruncateOk<D>(exec: (D, Sql) -> Option<D>, empty: D, s: State<D>, t: Trace)
    requires TraceOk(exec, empty, s, t) && s.phase == Saved
    ensures TraceOk(exec, empty, Next(exec, empty, s, Truncate), NextTrace(s, t, Truncate))
  {
    hide Fold;
    NoneActive(s.disk.log, t.marks, -1);
  }

  lemma ReopenOk<D>(exec: (D, Sql) -> Option<D>, empty: D, s: State<D>, t: Trace)
    requires TraceOk(exec, empty, s, t) && s.phase == Down
    ensures Recover(exec, empty, s.disk) == Fold(exec, Some(empty), Recoverable(s, t))
    ensures TraceOk(exec, empty, Next(exec, empty, s, Reopen), NextTrace(s, t, Reopen))
  {
    hide Fold, ActiveAbove, Replay;
    RecoverIsFold(exec, empty, s, t);
    ReopenedActive(s.disk.log, t.marks, SnapLsn(s.disk.snap));
  }

  lemma RecoverIsFold<D>(exec: (D, Sql) -> Option<D>, empty: D, s: State<D>, t: Trace)
    requires TraceOk(exec, empty, s, t)
    ensures Recover(exec, empty, s.disk) == Fold(exec, Some(empty), Recoverable(s, t))
  {
    hide Fold, ActiveAbove, Replay;
    ReplayIsFold(exec, empty, Base(empty, s.disk.snap), t.saved, s.disk.log, t.marks, SnapLsn(s.disk.snap));
  }

  lemma StepOk<D(!new)>(exec: (D, Sql) -> Option<D>, empty: D, s: State<D>, t: Trace, step: Step)
    requires TraceOk(exec, empty, s, t) && Enabled(s, step)
    requires step == Apply ==> Safe(exec, s.phase.sql)
    ensures TraceOk(exec, empty, Next(exec, empty, s, step), NextTrace(s, t, step))
  {
    hide Fold, ActiveAbove, Replay, Safe;
    match step
    case Append(sql) => AppendOk(exec, empty, s, t, sql);
    case Apply => ApplyOk(exec, empty, s, t);
    case SaveSnapshot => SaveOk(exec, empty, s, t);
    case Truncate => TruncateOk(exec, empty, s, t);
    case Crash =>
    case Reopen => ReopenOk(exec, empty, s, t);
  }

  // The traces along a run.
  ghost predicate Traced<D>(steps: seq<Step>, states: seq<State<D>>, traces: seq<Trace>) {
    && |states| == |traces| == |steps| + 1
    && traces[0] == Trace([], [], [])
    && (forall i :: 0 <= i < |traces| ==> |states[i].disk.log| == |traces[i].marks|)
    && forall i :: 0 <= i < |steps| ==> traces[i + 1] == NextTrace(states[i], traces[i], steps[i])
  }

  // In every run whose statements do not throw, whichever processes crash and however LSNs were numbered: memory holds
  // the statements present, recovery yields the recoverable ones, and the two differ by exactly the active statements
  // logged at or below the snapshot's LSN.
  lemma {:induction false} RunSurvives<D(!new)>(exec: (D, Sql) -> Option<D>, empty: D, steps: seq<Step>,
                                                states: seq<State<D>>, traces: seq<Trace>, i: nat)
    requires Run(exec, empty, steps, states) && Traced(steps, states, traces) && i <= |steps|
    requires forall k :: 0 <= k < i && steps[k].Append? ==> Safe(exec, steps[k].sql)
    ensures TraceOk(exec, empty, states[i], traces[i])
    ensures states[i].phase.Logged? ==> Safe(exec, states[i].phase.sql)
    ensures Recover(exec, empty, states[i].disk) == Fold(exec, Some(empty), Recoverable(states[i], traces[i]))
    ensures states[i].phase == Idle ==> Some(states[i].mem) == Fold(exec, Some(empty), Present(states[i], traces[i]))
  {
    hide Replay, Safe, Fold, ActiveAbove, NextTrace;
    if i == 0 {
      TraceStarts(exec, empty);
    } else {
      RunSurvives(exec, empty, steps, states, traces, i - 1);
      StepOk(exec, empty, states[i - 1], traces[i - 1], steps[i - 1]);
    }
    RecoverIsFold(exec, empty, states[i], traces[i]);
  }

  lemma TraceStarts<D>(exec: (D, Sql) -> Option<D>, empty: D)
    ensures TraceOk(exec, empty, Init(empty), Trace([], [], []))
  {
  }

  // Recovery has everything that memory had if and only if no active statement was logged at or below the snapshot's
  // LSN.
  lemma {:induction false} NothingLostIff(log: seq<Record>, marks: seq<Mark>, lsn: nat)
    requires |log| == |marks|
    ensures ActiveAbove(log, marks, lsn) == ActiveAbove(log, marks, -1) <==>
            forall i :: 0 <= i < |log| && marks[i] == Active ==> log[i].lsn > lsn
    ensures |ActiveAbove(log, marks, lsn)| <= |ActiveAbove(log, marks, -1)|
  {
    if log != [] {
      var n := |log| - 1;
      NothingLostIff(log[..n], marks[..n], lsn);
      assert forall i :: 0 <= i < n ==> log[..n][i] == log[i] && marks[..n][i] == marks[i];
      LengthsDecide(log[..n], marks[..n], lsn);
    }
  }

  // The shorter list is a strict loss.
  lemma {:induction false} LengthsDecide(log: seq<Record>, marks: seq<Mark>, lsn: nat)
    requires |log| == |marks|
    ensures |ActiveAbove(log, marks, lsn)| == |ActiveAbove(log, marks, -1)| ==>
              ActiveAbove(log, marks, lsn) == ActiveAbove(log, marks, -1)
    ensures |ActiveAbove(log, marks, lsn)| <= |ActiveAbove(log, marks, -1)|
  {
    if log != [] { LengthsDecide(log[..|log| - 1], marks[..|log| - 1], lsn); }
  }

  // ---- Nothing else is lost ----

  lemma {:induction false} ActiveParts(log: seq<Record>, marks: seq<Mark>, lsn: nat)
    requires |log| == |marks|
    ensures multiset(ActiveAbove(log, marks, -1)) ==
            multiset(ActiveAbove(log, marks, lsn)) + multiset(ActiveUpTo(log, marks, lsn))
  {
    if log != [] { ActiveParts(log[..|log| - 1], marks[..|log| - 1], lsn); }
  }

  ghost predicate Accounted<D>(s: State<D>, t: Trace)
    requires |s.disk.log| == |t.marks|
  {
    multiset(s.history) == multiset(Present(s, t)) + multiset(t.lost)
  }

  lemma StepAccounts<D>(exec: (D, Sql) -> Option<D>, empty: D, s: State<D>, t: Trace, step: Step)
    requires Enabled(s, step) && TraceOk(exec, empty, s, t) && Accounted(s, t)
    ensures var s', t' := Next(exec, empty, s, step), NextTrace(s, t, step);
            |s'.disk.log| == |t'.marks| && Accounted(s', t')
  {
    hide Fold, ActiveAbove, ActiveUpTo, Replay;
    var log, marks, lsn := s.disk.log, t.marks, SnapLsn(s.disk.snap);
    match step
    case Append(sql) => AboveAppend(log, marks, Record(s.next, sql), Active, -1);
    case SaveSnapshot => NoneActive(log, NextTrace(s, t, step).marks, -1);
    case Truncate =>
      NoneActive(log, marks, -1);
      NoneActive([], [], -1);
    case Reopen =>
      ReopenedActive(log, marks, lsn);
      ActiveParts(log, marks, lsn);
    case _ =>
  }

  // ---- Nor is anything reordered ----

  // The statements of a stand in b in the same order.
  predicate Within(a: seq<Sql>, b: seq<Sql>) {
    if a == [] then true
    else if b == [] then false
    else
      var m, n := |a| - 1, |b| - 1;
      (a[m] == b[n] && Within(a[..m], b[..n])) || Within(a, b[..n])
  }

  lemma {:induction false} WithinItself(a: seq<Sql>)
    ensures Within(a, a)
  {
    if a != [] { WithinItself(a[..|a| - 1]); }
  }

  lemma WithinMore(a: seq<Sql>, b: seq<Sql>, x: Sql)
    requires Within(a, b)
    ensures Within(a, b + [x]) && Within(a + [x], b + [x])
  {
    assert (b + [x])[..|b|] == b && (a + [x])[..|a|] == a;
  }

  lemma {:induction false} WithinTransitive(a: seq<Sql>, b: seq<Sql>, c: seq<Sql>)
    requires Within(a, b) && Within(b, c)
    ensures Within(a, c)
    decreases |b| + |c|
  {
    if a != [] {
      var m, n, k := |a| - 1, |b| - 1, |c| - 1;
      if Within(b, c[..k]) {
        WithinTransitive(a, b, c[..k]);
      } else if Within(a, b[..n]) {
        WithinTransitive(a, b[..n], c[..k]);
      } else {
        WithinTransitive(a[..m], b[..n], c[..k]);
      }
    }
  }

  lemma BothMore(saved: seq<Sql>, few: seq<Sql>, many: seq<Sql>, x: Sql)
    requires Within(saved + few, saved + many)
    ensures Within(saved + few, saved + (many + [x])) && Within(saved + (few + [x]), saved + (many + [x]))
  {
    hide Within;
    WithinMore(saved + few, saved + many, x);
    assert saved + (few + [x]) == (saved + few) + [x] && saved + (many + [x]) == (saved + many) + [x];
  }

  lemma {:induction false} AboveWithin(saved: seq<Sql>, log: seq<Record>, marks: seq<Mark>, lsn: nat)
    requires |log| == |marks|
    ensures Within(saved + ActiveAbove(log, marks, lsn), saved + ActiveAbove(log, marks, -1))
  {
    hide Within;
    if log == [] {
      WithinItself(saved + []);
    } else {
      var n := |log| - 1;
      AboveWithin(saved, log[..n], marks[..n], lsn);
      var few, many := ActiveAbove(log[..n], marks[..n], lsn), ActiveAbove(log[..n], marks[..n], -1);
      BothMore(saved, few, many, log[n].sql);
      assert few + [] == few && many + [] == many;
    }
  }

  ghost predicate Ordered<D>(s: State<D>, t: Trace)
    requires |s.disk.log| == |t.marks|
  {
    Within(Present(s, t), s.history)
  }

  lemma StepOrdered<D>(exec: (D, Sql) -> Option<D>, empty: D, s: State<D>, t: Trace, step: Step)
    requires Enabled(s, step) && TraceOk(exec, empty, s, t) && Ordered(s, t)
    ensures var s', t' := Next(exec, empty, s, step), NextTrace(s, t, step);
            |s'.disk.log| == |t'.marks| && Ordered(s', t')
  {
    hide Fold, ActiveAbove, ActiveUpTo, Replay, Within;
    var log, marks, lsn := s.disk.log, t.marks, SnapLsn(s.disk.snap);
    match step
    case Append(sql) =>
      AboveAppend(log, marks, Record(s.next, sql), Active, -1);
      WithinMore(Present(s, t), s.history, sql);
      assert t.saved + (ActiveAbove(log, marks, -1) + [sql]) == Present(s, t) + [sql];
    case SaveSnapshot =>
      NoneActive(log, NextTrace(s, t, step).marks, -1);
      assert Present(s, t) + [] == Present(s, t);
    case Truncate =>
      NoneActive(log, marks, -1);
      NoneActive([], [], -1);
    case Reopen =>
      ReopenedActive(log, marks, lsn);
      AboveWithin(t.saved, log, marks, lsn);
      WithinTransitive(t.saved + ActiveAbove(log, marks, lsn), Present(s, t), s.history);
    case _ =>
  }

  // Every statement ever logged is present or has been lost to a reopen, as often as it was logged; and those that are
  // present are so in the order in which they were logged.
  lemma {:induction false} RunAccounts<D(!new)>(exec: (D, Sql) -> Option<D>, empty: D, steps: seq<Step>,
                                                states: seq<State<D>>, traces: seq<Trace>, i: nat)
    requires Run(exec, empty, steps, states) && Traced(steps, states, traces) && i <= |steps|
    requires forall k :: 0 <= k < i && steps[k].Append? ==> Safe(exec, steps[k].sql)
    ensures |states[i].disk.log| == |traces[i].marks|
    ensures multiset(states[i].history) == multiset(Present(states[i], traces[i])) + multiset(traces[i].lost)
    ensures Within(Present(states[i], traces[i]), states[i].history)
    ensures Within(Recoverable(states[i], traces[i]), states[i].history)
  {
    hide Fold, ActiveAbove, Replay, Safe, NextTrace, Next, Enabled, TraceOk, Within;
    if i == 0 {
      NoneActive([], [], -1);
      WithinItself([]);
    } else {
      RunAccounts(exec, empty, steps, states, traces, i - 1);
      RunSurvives(exec, empty, steps, states, traces, i - 1);
      StepAccounts(exec, empty, states[i - 1], traces[i - 1], steps[i - 1]);
      StepOrdered(exec, empty, states[i - 1], traces[i - 1], steps[i - 1]);
    }
    var s, t := states[i], traces[i];
    AboveWithin(t.saved, s.disk.log, t.marks, SnapLsn(s.disk.snap));
    WithinTransitive(Recoverable(s, t), Present(s, t), s.history);
  }
}
