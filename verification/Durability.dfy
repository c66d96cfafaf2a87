/** Logging, snapshots, crashes and recovery as a step machine over memory and disk. */
module Durability {
  import opened Values
  import opened Wal

  type Sql = seq<bv8>

  datatype Snap<D> = NoSnap | Snap(db: D, lsn: nat)

  // snapshot.dat and wal.log
  datatype Disk<D> = Disk(snap: Snap<D>, log: seq<Record>)

  // Down: no process. Idle: between statements. Logged: a statement is in the log but not yet executed.
  // Saved: a snapshot has been renamed into place and the log is about to be truncated.
  datatype Phase = Down | Idle | Logged(sql: Sql) | Saved

  // history holds every statement ever appended to the log, in order. anchored says that this process continues above
  // the snapshot: its log did so when it was opened, or it has saved a snapshot since.
  datatype State<D> = State(disk: Disk<D>, phase: Phase, mem: D, next: nat, history: seq<Sql>, anchored: bool)

  datatype Step = Append(sql: Sql) | Apply | SaveSnapshot | Truncate | Crash | Reopen

  // ---- The database's own operations, on values ----

  function SnapLsn<D>(snap: Snap<D>): nat { if snap.NoSnap? then 0 else snap.lsn }

  function Base<D>(empty: D, snap: Snap<D>): D { if snap.NoSnap? then empty else snap.db }

  // wal.cpp WALWriter constructor: the next LSN follows the last record of the log file, and is 1 if there is none.
  function NextLsn(log: seq<Record>): nat {
    if log == [] then 1 else log[|log| - 1].lsn + 1
  }

  // The reopened log continues above the snapshot.
  predicate Continues<D>(disk: Disk<D>) { NextLsn(disk.log) > SnapLsn(disk.snap) }

  // Executing a statement yields the new database, or None if it throws. A throw ends whatever was going on.
  function Then<D>(exec: (D, Sql) -> Option<D>, db: Option<D>, sql: Sql): Option<D> {
    if db.None? then None else exec(db.value, sql)
  }

  // What a running database makes of a statement: one that throws leaves memory as it was.
  function Perform<D>(exec: (D, Sql) -> Option<D>, db: D, sql: Sql): D {
    if exec(db, sql).None? then db else exec(db, sql).value
  }

  // database.cpp recover, step 2: execute the records whose LSN is above the snapshot's. A throw escapes the
  // constructor.
  function Replay<D>(exec: (D, Sql) -> Option<D>, db: D, log: seq<Record>, covered: nat): Option<D> {
    if log == [] then Some(db) else
      var before := Replay(exec, db, log[..|log| - 1], covered);
      var last := log[|log| - 1];
      if last.lsn <= covered then before else Then(exec, before, last.sql)
  }

  function Recover<D>(exec: (D, Sql) -> Option<D>, empty: D, disk: Disk<D>): Option<D> {
    Replay(exec, Base(empty, disk.snap), disk.log, SnapLsn(disk.snap))
  }

  function Fold<D>(exec: (D, Sql) -> Option<D>, db: Option<D>, sqls: seq<Sql>): Option<D> {
    if sqls == [] then db else Then(exec, Fold(exec, db, sqls[..|sqls| - 1]), sqls[|sqls| - 1])
  }

  // ---- The machine ----

  function Init<D>(empty: D): State<D> {
    State(Disk(NoSnap, []), Idle, empty, 1, [], true)
  }

  predicate Enabled<D>(s: State<D>, step: Step) {
    match step
    case Append(_) => s.phase == Idle
    case Apply => s.phase.Logged?
    case SaveSnapshot => s.phase == Idle && s.next >= 1
    case Truncate => s.phase == Saved
    case Crash => s.phase != Down
    case Reopen => s.phase == Down
  }

  // Reopening fails, and leaves everything as it was, when the replay throws.
  function Next<D>(exec: (D, Sql) -> Option<D>, empty: D, s: State<D>, step: Step): State<D>
    requires Enabled(s, step)
  {
    match step
    case Append(sql) =>
      s.(disk := s.disk.(log := s.disk.log + [Record(s.next, sql)]), next := s.next + 1,
         phase := Logged(sql), history := s.history + [sql])
    case Apply => s.(mem := Perform(exec, s.mem, s.phase.sql), phase := Idle)
    case SaveSnapshot => s.(disk := s.disk.(snap := Snap(s.mem, s.next - 1)), phase := Saved, anchored := true)
    case Truncate => s.(disk := s.disk.(log := []), phase := Idle)
    case Crash => s.(phase := Down)
    case Reopen =>
      var db := Recover(exec, empty, s.disk);
      if db.None? then s else
        s.(mem := db.value, next := NextLsn(s.disk.log), phase := Idle, anchored := Continues(s.disk))
  }

  // A run: the states it passes through, one more than its steps.
  ghost predicate Run<D>(exec: (D, Sql) -> Option<D>, empty: D, steps: seq<Step>, states: seq<State<D>>) {
    && |states| == |steps| + 1
    && states[0] == Init(empty)
    && forall i :: 0 <= i < |steps| ==>
         Enabled(states[i], steps[i]) && states[i + 1] == Next(exec, empty, states[i], steps[i])
  }

  // ---- Statements that do not throw ----

  // The statement executes on every database.
  ghost predicate Safe<D(!new)>(exec: (D, Sql) -> Option<D>, sql: Sql) { forall db :: exec(db, sql).Some? }

  ghost predicate AllSafe<D(!new)>(exec: (D, Sql) -> Option<D>, sqls: seq<Sql>) {
    forall i :: 0 <= i < |sqls| ==> Safe(exec, sqls[i])
  }

  lemma {:induction false} FoldSafe<D(!new)>(exec: (D, Sql) -> Option<D>, db: D, sqls: seq<Sql>)
    requires AllSafe(exec, sqls)
    ensures Fold(exec, Some(db), sqls).Some?
  {
    if sqls != [] {
      FoldSafe(exec, db, sqls[..|sqls| - 1]);
      assert Safe(exec, sqls[|sqls| - 1]);
    }
  }

  // ---- What every step keeps, as long as only anchored processes crash ----

  predicate Increasing(log: seq<Record>) {
    forall i, j :: 0 <= i < j < |log| ==> log[i].lsn < log[j].lsn
  }

  predicate Below(log: seq<Record>, bound: nat) {
    forall i :: 0 <= i < |log| ==> log[i].lsn < bound
  }

  // Memory agrees with the history, up to a statement that is logged but not yet executed.
  ghost predicate MemoryOk<D>(exec: (D, Sql) -> Option<D>, empty: D, s: State<D>) {
    match s.phase
    case Down => true
    case Logged(sql) =>
      && |s.history| > 0 && s.history[|s.history| - 1] == sql
      && Some(s.mem) == Fold(exec, Some(empty), s.history[..|s.history| - 1])
    case _ => Some(s.mem) == Fold(exec, Some(empty), s.history)
  }

  ghost predicate LogOk<D>(s: State<D>) {
    && Increasing(s.disk.log)
    && (s.phase != Down ==> s.next >= 1 && Below(s.disk.log, s.next))
    && (s.phase == Saved ==> s.disk.snap.Snap? && s.disk.snap.lsn == s.next - 1 && s.disk.snap.db == s.mem)
  }

  ghost predicate Durable<D>(exec: (D, Sql) -> Option<D>, empty: D, s: State<D>) {
    Recover(exec, empty, s.disk) == Fold(exec, Some(empty), s.history)
  }

  ghost predicate Inv<D>(exec: (D, Sql) -> Option<D>, empty: D, s: State<D>) {
    && LogOk(s)
    && MemoryOk(exec, empty, s)
    && (s.phase == Down || s.anchored ==> Durable(exec, empty, s))
    && (s.phase != Down && s.anchored ==> s.next > SnapLsn(s.disk.snap))
  }

  lemma {:induction false} ReplayAllCovered<D>(exec: (D, Sql) -> Option<D>, db: D, log: seq<Record>, covered: nat)
    requires Below(log, covered + 1)
    ensures Replay(exec, db, log, covered) == Some(db)
  {
    if log != [] { ReplayAllCovered(exec, db, log[..|log| - 1], covered); }
  }

  lemma ReplayAppend<D>(exec: (D, Sql) -> Option<D>, db: D, log: seq<Record>, r: Record, covered: nat)
    ensures var before := Replay(exec, db, log, covered);
            Replay(exec, db, log + [r], covered) == if r.lsn <= covered then before else Then(exec, before, r.sql)
  {
    assert (log + [r])[..|log|] == log;
  }

  lemma FoldAppend<D>(exec: (D, Sql) -> Option<D>, db: Option<D>, sqls: seq<Sql>, sql: Sql)
    ensures Fold(exec, db, sqls + [sql]) == Then(exec, Fold(exec, db, sqls), sql)
  {
    assert (sqls + [sql])[..|sqls|] == sqls;
  }

  lemma AppendKeeps<D>(exec: (D, Sql) -> Option<D>, empty: D, s: State<D>, sql: Sql)
    requires Inv(exec, empty, s) && s.phase == Idle
    ensures Inv(exec, empty, Next(exec, empty, s, Append(sql)))
  {
    hide Replay, Fold;
    var t := Next(exec, empty, s, Append(sql));
    ReplayAppend(exec, Base(empty, s.disk.snap), s.disk.log, Record(s.next, sql), SnapLsn(s.disk.snap));
    FoldAppend(exec, Some(empty), s.history, sql);
    assert t.history[..|t.history| - 1] == s.history;
  }

  lemma ApplyKeeps<D(!new)>(exec: (D, Sql) -> Option<D>, empty: D, s: State<D>)
    requires Inv(exec, empty, s) && s.phase.Logged? && Safe(exec, s.phase.sql)
    ensures Inv(exec, empty, Next(exec, empty, s, Apply))
  {
    hide Replay, Fold;
    var init, sql := s.history[..|s.history| - 1], s.phase.sql;
    FoldAppend(exec, Some(empty), init, sql);
    assert s.history == init + [sql];
  }

  lemma SaveKeeps<D>(exec: (D, Sql) -> Option<D>, empty: D, s: State<D>)
    requires Inv(exec, empty, s) && s.phase == Idle
    ensures Inv(exec, empty, Next(exec, empty, s, SaveSnapshot))
  {
    hide Replay, Fold;
    ReplayAllCovered(exec, s.mem, s.disk.log, s.next - 1);
  }

  lemma TruncateKeeps<D>(exec: (D, Sql) -> Option<D>, empty: D, s: State<D>)
    requires Inv(exec, empty, s) && s.phase == Saved
    ensures Inv(exec, empty, Next(exec, empty, s, Truncate))
  {
    hide Fold;
  }

  lemma ReopenKeeps<D>(exec: (D, Sql) -> Option<D>, empty: D, s: State<D>)
    requires Inv(exec, empty, s) && s.phase == Down
    ensures Inv(exec, empty, Next(exec, empty, s, Reopen))
  {
    hide Replay, Fold;
  }

  lemma StepKeeps<D(!new)>(exec: (D, Sql) -> Option<D>, empty: D, s: State<D>, step: Step)
    requires Inv(exec, empty, s) && Enabled(s, step)
    requires step == Crash ==> s.anchored
    requires step == Apply ==> Safe(exec, s.phase.sql)
    ensures Inv(exec, empty, Next(exec, empty, s, step))
  {
    hide Replay, Fold, Safe;
    match step
    case Append(sql) => AppendKeeps(exec, empty, s, sql);
    case Apply => ApplyKeeps(exec, empty, s);
    case SaveSnapshot => SaveKeeps(exec, empty, s);
    case Truncate => TruncateKeeps(exec, empty, s);
    case Crash =>
    case Reopen => ReopenKeeps(exec, empty, s);
  }

  lemma HistoryGrows<D>(exec: (D, Sql) -> Option<D>, empty: D, s: State<D>, step: Step)
    requires Enabled(s, step)
    ensures s.history <= Next(exec, empty, s, step).history
  {
  }

  // Main theorem. In every run, with a crash allowed between any two steps, memory holds the result of all logged
  // statements whenever the database is idle, and so does recovery from the disk at every point of an anchored process
  // and after it, provided no statement throws and every crash hits an anchored process. A clean shutdown saves a
  // snapshot first, so it always does.
  lemma {:induction false} RunIsDurable<D(!new)>(exec: (D, Sql) -> Option<D>, empty: D, steps: seq<Step>,
                                                 states: seq<State<D>>, i: nat)
    requires Run(exec, empty, steps, states) && i <= |steps|
    requires forall k :: 0 <= k < i && steps[k] == Crash ==> states[k].anchored
    requires AllSafe(exec, states[i].history)
    ensures Inv(exec, empty, states[i]) && Fold(exec, Some(empty), states[i].history).Some?
    ensures states[i].phase == Down || states[i].anchored ==>
              Recover(exec, empty, states[i].disk) == Fold(exec, Some(empty), states[i].history)
    ensures states[i].phase == Idle ==> Some(states[i].mem) == Fold(exec, Some(empty), states[i].history)
  {
    hide Replay, Next, Enabled, Safe;
    FoldSafe(exec, empty, states[i].history);
    if i == 0 {
      InitOk(exec, empty);
    } else {
      HistoryGrows(exec, empty, states[i - 1], steps[i - 1]);
      RunIsDurable(exec, empty, steps, states, i - 1);
      if steps[i - 1] == Apply { LastLogged(exec, empty, states[i - 1]); }
      StepKeeps(exec, empty, states[i - 1], steps[i - 1]);
    }
  }

  lemma LastLogged<D(!new)>(exec: (D, Sql) -> Option<D>, empty: D, s: State<D>)
    requires MemoryOk(exec, empty, s) && AllSafe(exec, s.history) && Enabled(s, Apply)
    ensures Safe(exec, s.phase.sql)
  {
    hide Safe;
  }

  lemma InitOk<D>(exec: (D, Sql) -> Option<D>, empty: D)
    ensures Inv(exec, empty, Init(empty))
  {
  }

  // ---- Statements that throw ----

  // Where throwing is a matter of the text, recovery completes exactly when no record above the snapshot's LSN throws.
  lemma {:induction false} ReplayCompletesIff<D(!new)>(exec: (D, Sql) -> Option<D>, db: D, log: seq<Record>,
                                                       covered: nat,
                                                       throws: Sql -> bool)
    requires forall i, d :: 0 <= i < |log| && log[i].lsn > covered ==>
             (exec(d, log[i].sql).None? <==> throws(log[i].sql))
    ensures Replay(exec, db, log, covered).Some? <==>
            forall i :: 0 <= i < |log| && log[i].lsn > covered ==> !throws(log[i].sql)
  {
    if log != [] {
      var n := |log| - 1;
      var init, last := log[..n], log[n];
      assert forall i :: 0 <= i < n ==> init[i] == log[i];
      ReplayCompletesIff(exec, db, init, covered, throws);
      var before := Replay(exec, db, init, covered);
      if before.Some? && last.lsn > covered {
        assert exec(before.value, last.sql).None? <==> throws(last.sql);
      }
    }
  }

  // Once recovery throws, it throws whatever is appended afterwards.
  lemma {:induction false} StaysClosed<D>(exec: (D, Sql) -> Option<D>, db: D, log: seq<Record>, more: seq<Record>,
                                          covered: nat)
    requires Replay(exec, db, log, covered).None?
    ensures Replay(exec, db, log + more, covered).None?
  {
    if more == [] {
      assert log + more == log;
    } else {
      var init, last := more[..|more| - 1], more[|more| - 1];
      StaysClosed(exec, db, log, init, covered);
      assert log + more == (log + init) + [last];
      ReplayAppend(exec, db, log + init, last, covered);
    }
  }

  // execute a, execute t, crash, reopen
  function ClosingSteps(a: Sql, t: Sql): seq<Step> { [Append(a), Apply, Append(t), Apply, Crash, Reopen] }

  function ClosingStates<D>(empty: D, d: D, a: Sql, t: Sql): seq<State<D>> {
    var r1, r2 := Record(1, a), Record(2, t);
    [Init(empty),
     State(Disk(NoSnap, [r1]), Logged(a), empty, 2, [a], true),
     State(Disk(NoSnap, [r1]), Idle, d, 2, [a], true),
     State(Disk(NoSnap, [r1, r2]), Logged(t), d, 3, [a, t], true),
     State(Disk(NoSnap, [r1, r2]), Idle, d, 3, [a, t], true),
     State(Disk(NoSnap, [r1, r2]), Down, d, 3, [a, t], true),
     State(Disk(NoSnap, [r1, r2]), Down, d, 3, [a, t], true)]
  }

  // The closing run: a statement is logged before it throws, and once the process has ended, from the exception or
  // later, the database cannot be opened again, although everything before that statement is in the log.
  lemma ClosingRun<D>(exec: (D, Sql) -> Option<D>, empty: D, d: D, a: Sql, t: Sql) returns (states: seq<State<D>>)
    requires exec(empty, a) == Some(d) && exec(d, t) == None
    ensures Run(exec, empty, ClosingSteps(a, t), states)
    ensures states[4].phase == Idle && states[4].mem == d
    ensures states[6].phase == Down && Recover(exec, empty, states[6].disk) == None
  {
    states := ClosingStates(empty, d, a, t);
    var r1, r2 := Record(1, a), Record(2, t);
    assert [r1] + [r2] == [r1, r2] && [] + [r1] == [r1] && [] + [a] == [a] && [a] + [t] == [a, t];
    ReplayAppend(exec, empty, [], r1, 0);
    ReplayAppend(exec, empty, [r1], r2, 0);
    assert Recover(exec, empty, states[5].disk) == None;
  }

  // ---- Where the code falls short: a reopened log may start below the snapshot ----

  // The log after k statements appended to a freshly reopened database.
  function Session(first: nat, sqls: seq<Sql>): (r: seq<Record>)
    ensures |r| == |sqls|
  {
    seq(|sqls|, i requires 0 <= i < |sqls| => Record(first + i, sqls[i]))
  }

  lemma SessionMore(first: nat, sqls: seq<Sql>)
    requires sqls != []
    ensures var k := |sqls| - 1; Session(first, sqls) == Session(first, sqls[..k]) + [Record(first + k, sqls[k])]
  {
  }

  lemma FoldNone<D>(exec: (D, Sql) -> Option<D>, db: Option<D>)
    ensures Fold(exec, db, []) == db
  {
  }

  // How many of them the next recovery skips as already covered by the snapshot.
  function Lost<D>(disk: Disk<D>, k: nat): nat {
    var gap := SnapLsn(disk.snap) + 1 - NextLsn(disk.log);
    if gap <= 0 then 0 else if gap < k then gap else k
  }

  // Exactly what a crash costs: after reopening a disk and logging any statements, recovery yields what the disk held
  // before, followed by the statements beyond the first Lost ones, throwing where these throw.
  lemma {:induction false} RecoveryAfterReopen<D>(exec: (D, Sql) -> Option<D>, empty: D, disk: Disk<D>, sqls: seq<Sql>)
    ensures Recover(exec, empty, disk.(log := disk.log + Session(NextLsn(disk.log), sqls)))
            == Fold(exec, Recover(exec, empty, disk), sqls[Lost(disk, |sqls|)..])
  {
    hide Replay, Fold, Session;
    var first := NextLsn(disk.log);
    if sqls == [] {
      assert Session(first, sqls) == [] && sqls[Lost(disk, 0)..] == [];
      assert disk.log + Session(first, sqls) == disk.log;
      FoldNone(exec, Recover(exec, empty, disk));
    } else {
      var k := |sqls| - 1;
      var init, last := sqls[..k], sqls[k];
      RecoveryAfterReopen(exec, empty, disk, init);
      var log := disk.log + Session(first, init);
      SessionMore(first, sqls);
      assert disk.log + Session(first, sqls) == log + [Record(first + k, last)];
      ReplayAppend(exec, Base(empty, disk.snap), log, Record(first + k, last), SnapLsn(disk.snap));
      if first + k <= SnapLsn(disk.snap) {
        assert sqls[Lost(disk, |sqls|)..] == [] && init[Lost(disk, k)..] == [];
      } else {
        var kept := init[Lost(disk, k)..];
        assert sqls[Lost(disk, |sqls|)..] == kept + [last];
        FoldAppend(exec, Recover(exec, empty, disk), kept, last);
      }
    }
  }

  // So nothing is lost, whatever is executed, if and only if the reopened log continues above the snapshot:
  // otherwise any first statement that changes the database is lost.
  lemma LosslessIff<D>(exec: (D, Sql) -> Option<D>, empty: D, disk: Disk<D>, sql: Sql)
    requires Then(exec, Recover(exec, empty, disk), sql) != Recover(exec, empty, disk)
    ensures Recover(exec, empty, disk.(log := disk.log + Session(NextLsn(disk.log), [sql])))
            == Then(exec, Recover(exec, empty, disk), sql)
            <==> Continues(disk)
  {
    hide Replay;
    RecoveryAfterReopen(exec, empty, disk, [sql]);
    var db := Recover(exec, empty, disk);
    assert Fold(exec, db, []) == db;
    assert [sql][..0] == [];
    if Continues(disk) {
      assert [sql][Lost(disk, 1)..] == [sql];
    } else {
      assert [sql][Lost(disk, 1)..] == [];
    }
  }

  // create, insert, clean shutdown, reopen, insert, crash
  function LosingSteps(a: Sql, b: Sql, c: Sql): seq<Step> {
    [Append(a), Apply, Append(b), Apply, SaveSnapshot, Truncate, Crash, Reopen, Append(c), Apply, Crash]
  }

  function LosingStates<D>(empty: D, d1: D, d2: D, d3: D, a: Sql, b: Sql, c: Sql): seq<State<D>> {
    var snap, r1, r2, r3 := Snap(d2, 2), Record(1, a), Record(2, b), Record(1, c);
    [Init(empty),
     State(Disk(NoSnap, [r1]), Logged(a), empty, 2, [a], true),
     State(Disk(NoSnap, [r1]), Idle, d1, 2, [a], true),
     State(Disk(NoSnap, [r1, r2]), Logged(b), d1, 3, [a, b], true),
     State(Disk(NoSnap, [r1, r2]), Idle, d2, 3, [a, b], true),
     State(Disk(snap, [r1, r2]), Saved, d2, 3, [a, b], true),
     State(Disk(snap, []), Idle, d2, 3, [a, b], true),
     State(Disk(snap, []), Down, d2, 3, [a, b], true),
     State(Disk(snap, []), Idle, d2, 1, [a, b], false),
     State(Disk(snap, [r3]), Logged(c), d2, 2, [a, b, c], false),
     State(Disk(snap, [r3]), Idle, d3, 2, [a, b, c], false),
     State(Disk(snap, [r3]), Down, d3, 2, [a, b, c], false)]
  }

  lemma LosingStep<D>(exec: (D, Sql) -> Option<D>, empty: D, d1: D, d2: D, d3: D, a: Sql, b: Sql, c: Sql, i: nat)
    requires exec(empty, a) == Some(d1) && exec(d1, b) == Some(d2) && exec(d2, c) == Some(d3) && i < 11
    ensures var states, steps := LosingStates(empty, d1, d2, d3, a, b, c), LosingSteps(a, b, c);
            Enabled(states[i], steps[i]) && states[i + 1] == Next(exec, empty, states[i], steps[i])
  {
    assert [Record(1, a)] + [Record(2, b)] == [Record(1, a), Record(2, b)];
    if i < 3 {
    } else if i < 6 {
    } else if i < 9 {
    } else {
    }
  }

  // The losing run: the last statement was executed and acknowledged, and the next recovery does not have it.
  lemma LosingRun<D>(exec: (D, Sql) -> Option<D>, empty: D, d1: D, d2: D, d3: D, a: Sql, b: Sql, c: Sql)
    returns (states: seq<State<D>>)
    requires exec(empty, a) == Some(d1) && exec(d1, b) == Some(d2) && exec(d2, c) == Some(d3)
    ensures Run(exec, empty, LosingSteps(a, b, c), states)
    ensures states[11].history == [a, b, c]
    ensures Fold(exec, Some(empty), [a, b, c]) == Some(d3) && states[10].phase == Idle && states[10].mem == d3
    ensures Recover(exec, empty, states[11].disk) == Some(d2)
  {
    hide Next, Enabled;
    states := LosingStates(empty, d1, d2, d3, a, b, c);
    forall i | 0 <= i < 11
      ensures Enabled(states[i], LosingSteps(a, b, c)[i])
      ensures states[i + 1] == Next(exec, empty, states[i], LosingSteps(a, b, c)[i])
    {
      LosingStep(exec, empty, d1, d2, d3, a, b, c, i);
    }
    ReplayAppend(exec, d2, [], Record(1, c), 2);
    assert [] + [Record(1, c)] == [Record(1, c)];
    FoldThree(exec, empty, a, b, c);
  }

  lemma FoldThree<D>(exec: (D, Sql) -> Option<D>, empty: D, a: Sql, b: Sql, c: Sql)
    ensures Fold(exec, Some(empty), [a, b, c]) == Then(exec, Then(exec, Then(exec, Some(empty), a), b), c)
  {
    FoldAppend(exec, Some(empty), [], a);
    FoldAppend(exec, Some(empty), [a], b);
    FoldAppend(exec, Some(empty), [a, b], c);
    assert [] + [a] == [a] && [a] + [b] == [a, b] && [a, b] + [c] == [a, b, c];
  }
}
