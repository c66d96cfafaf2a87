/** What recovery yields when only a front part of the log can be read. */
module LogTails {
  import opened Values
  import opened Wal
  import opened Durability

  // The statements above an LSN.
  function Uncovered(log: seq<Record>, lsn: nat): seq<Sql> {
    if log == [] then [] else
      var n := |log| - 1;
      Uncovered(log[..n], lsn) + if log[n].lsn > lsn then [log[n].sql] else []
  }

  lemma UncoveredSnoc(log: seq<Record>, r: Record, lsn: nat)
    ensures Uncovered(log + [r], lsn) == Uncovered(log, lsn) + if r.lsn > lsn then [r.sql] else []
  {
    assert (log + [r])[..|log|] == log;
  }

  lemma {:induction false} UncoveredConcat(a: seq<Record>, b: seq<Record>, lsn: nat)
    ensures Uncovered(a + b, lsn) == Uncovered(a, lsn) + Uncovered(b, lsn)
    decreases |b|
  {
    hide Uncovered;
    if b == [] {
      assert a + b == a;
      NoneUncovered([], lsn);
    } else {
      var n := |b| - 1;
      UncoveredConcat(a, b[..n], lsn);
      UncoveredSnoc(a + b[..n], b[n], lsn);
      UncoveredSnoc(b[..n], b[n], lsn);
      assert a + b == (a + b[..n]) + [b[n]] && b == b[..n] + [b[n]];
    }
  }

  lemma {:induction false} NoneUncovered(log: seq<Record>, lsn: nat)
    requires Below(log, lsn + 1)
    ensures Uncovered(log, lsn) == []
  {
    if log != [] { NoneUncovered(log[..|log| - 1], lsn); }
  }

  lemma {:induction false} ReplayFolds<D>(exec: (D, Sql) -> Option<D>, db: D, log: seq<Record>, lsn: nat)
    ensures Replay(exec, db, log, lsn) == Fold(exec, Some(db), Uncovered(log, lsn))
  {
    if log != [] {
      var n := |log| - 1;
      var before := Uncovered(log[..n], lsn);
      ReplayFolds(exec, db, log[..n], lsn);
      FoldAppend(exec, Some(db), before, log[n].sql);
      assert before + [] == before;
    }
  }

  lemma {:induction false} FoldConcat<D>(exec: (D, Sql) -> Option<D>, db: Option<D>, a: seq<Sql>, b: seq<Sql>)
    ensures Fold(exec, db, a + b) == Fold(exec, Fold(exec, db, a), b)
    decreases |b|
  {
    hide Fold;
    if b == [] {
      assert a + b == a;
      FoldNone(exec, Fold(exec, db, a));
    } else {
      var n := |b| - 1;
      FoldConcat(exec, db, a, b[..n]);
      FoldAppend(exec, db, a + b[..n], b[n]);
      FoldAppend(exec, Fold(exec, db, a), b[..n], b[n]);
      assert a + b == (a + b[..n]) + [b[n]] && b == b[..n] + [b[n]];
    }
  }

  // The snapshot holds the result of the history up to the statements above its LSN, and these are the rest of it.
  ghost predicate TailOk<D>(exec: (D, Sql) -> Option<D>, empty: D, s: State<D>) {
    var tail := Uncovered(s.disk.log, SnapLsn(s.disk.snap));
    var n := |s.history| - |tail|;
    n >= 0 && tail == s.history[n..] && Some(Base(empty, s.disk.snap)) == Fold(exec, Some(empty), s.history[..n])
  }

  ghost predicate Tailed<D>(exec: (D, Sql) -> Option<D>, empty: D, s: State<D>) {
    s.phase == Down || s.anchored ==> TailOk(exec, empty, s)
  }

  lemma AppendTail<D>(exec: (D, Sql) -> Option<D>, empty: D, s: State<D>, sql: Sql)
    requires Inv(exec, empty, s) && Tailed(exec, empty, s) && s.phase == Idle
    ensures Tailed(exec, empty, Next(exec, empty, s, Append(sql)))
  {
    hide Uncovered, Fold, Recover;
    if s.anchored {
      var t, n := Next(exec, empty, s, Append(sql)), |s.history| - |Uncovered(s.disk.log, SnapLsn(s.disk.snap))|;
      UncoveredSnoc(s.disk.log, Record(s.next, sql), SnapLsn(s.disk.snap));
      assert t.history[n..] == s.history[n..] + [sql] && t.history[..n] == s.history[..n];
    }
  }

  // A snapshot of everything covers the whole log.
  lemma WholeTail<D>(exec: (D, Sql) -> Option<D>, empty: D, s: State<D>)
    requires Uncovered(s.disk.log, SnapLsn(s.disk.snap)) == []
    requires Some(Base(empty, s.disk.snap)) == Fold(exec, Some(empty), s.history)
    ensures TailOk(exec, empty, s)
  {
    hide Uncovered, Fold;
    assert s.history[..|s.history|] == s.history && s.history[|s.history|..] == [];
  }

  lemma StepTail<D>(exec: (D, Sql) -> Option<D>, empty: D, s: State<D>, step: Step)
    requires Inv(exec, empty, s) && Tailed(exec, empty, s) && Enabled(s, step) && (step == Crash ==> s.anchored)
    ensures Tailed(exec, empty, Next(exec, empty, s, step))
  {
    hide Uncovered, Fold, Recover, TailOk;
    match step
    case Append(sql) => AppendTail(exec, empty, s, sql);
    case SaveSnapshot =>
      NoneUncovered(s.disk.log, s.next - 1);
      WholeTail(exec, empty, Next(exec, empty, s, step));
    case Truncate =>
      NoneUncovered([], SnapLsn(s.disk.snap));
      WholeTail(exec, empty, Next(exec, empty, s, step));
    case _ => SameTail(exec, empty, s, Next(exec, empty, s, step));
  }

  lemma SameTail<D>(exec: (D, Sql) -> Option<D>, empty: D, s: State<D>, t: State<D>)
    requires s.disk == t.disk && s.history == t.history
    ensures TailOk(exec, empty, s) == TailOk(exec, empty, t)
  {
  }

  lemma {:induction false} RunTailed<D(!new)>(exec: (D, Sql) -> Option<D>, empty: D, steps: seq<Step>,
                                              states: seq<State<D>>, i: nat)
    requires Run(exec, empty, steps, states) && i <= |steps|
    requires forall k :: 0 <= k < i && steps[k] == Crash ==> states[k].anchored
    requires AllSafe(exec, states[i].history)
    ensures Tailed(exec, empty, states[i])
  {
    hide Replay, Next, Enabled, Safe, TailOk, Uncovered, Fold, Inv;
    if i == 0 {
      InitTail(exec, empty);
    } else {
      HistoryGrows(exec, empty, states[i - 1], steps[i - 1]);
      RunTailed(exec, empty, steps, states, i - 1);
      RunIsDurable(exec, empty, steps, states, i - 1);
      StepTail(exec, empty, states[i - 1], steps[i - 1]);
    }
  }

  lemma InitTail<D>(exec: (D, Sql) -> Option<D>, empty: D)
    ensures Tailed(exec, empty, Init(empty))
  {
  }

  // Main result. However much of the log is read, recovery yields the history without exactly the statements above the
  // snapshot's LSN in the part that is not read.
  lemma CutRecovers<D(!new)>(exec: (D, Sql) -> Option<D>, empty: D, steps: seq<Step>, states: seq<State<D>>, i: nat,
                             m: nat)
    requires Run(exec, empty, steps, states) && i <= |steps|
    requires forall k :: 0 <= k < i && steps[k] == Crash ==> states[k].anchored
    requires AllSafe(exec, states[i].history) && (states[i].phase == Down || states[i].anchored)
    requires m <= |states[i].disk.log|
    ensures var disk, history := states[i].disk, states[i].history;
            var missing := |Uncovered(disk.log[m..], SnapLsn(disk.snap))|;
            && missing <= |history|
            && Recover(exec, empty, disk.(log := disk.log[..m])) ==
               Fold(exec, Some(empty), history[..|history| - missing])
  {
    hide Replay, Next, Enabled, Safe, Uncovered, Fold;
    var disk, history := states[i].disk, states[i].history;
    var lsn := SnapLsn(disk.snap);
    RunTailed(exec, empty, steps, states, i);
    assert disk.log == disk.log[..m] + disk.log[m..];
    UncoveredConcat(disk.log[..m], disk.log[m..], lsn);
    var a, b := Uncovered(disk.log[..m], lsn), Uncovered(disk.log[m..], lsn);
    var n := |history| - |a + b|;
    ReplayFolds(exec, Base(empty, disk.snap), disk.log[..m], lsn);
    FoldConcat(exec, Some(empty), history[..n], a);
    SplitHistory(history, n, a, b);
  }

  lemma SplitHistory(history: seq<Sql>, n: nat, a: seq<Sql>, b: seq<Sql>)
    requires n <= |history| && history[n..] == a + b
    ensures history[..|history| - |b|] == history[..n] + a
  {
    assert history == history[..n] + (a + b);
  }
}
