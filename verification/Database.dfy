/** The persistent database: its two files, recovery from them, and how its methods take the steps of the protocol. */
module Database {
  import opened Values
  import opened Codec
  import opened Snapshot
  import opened Wal
  import opened Durability
  import opened Lexer
  import opened Parser
  import opened Spellings
  import opened SqlText
  import opened Numbers
  import opened Executor
  import opened ThrowingTexts
  import opened SavedTables
  import opened LogTails
  import opened SampleTexts

  // Executing logged bytes as SQL: None if that throws, or creates a table without columns.
  function Exec(stod: Stod): (Db, Sql) -> Option<Db> {
    (db: Db, sql: Sql) => ExecSql(db, BytesText(sql), stod)
  }

  // database.cpp recover, step 1: a snapshot that does not load is skipped.
  function Loads(snapshot: Option<seq<bv8>>): Disk<Db> {
    if snapshot.None? then Disk(NoSnap, [])
    else match Load(snapshot.value)
      case Failed => Disk(NoSnap, [])
      case Loaded(lsn, tables) => Disk(Snap(tables, lsn), [])
  }

  // database.cpp recover, on the contents of snapshot.dat and wal.log: None if the replay throws.
  function RecoverFiles(stod: Stod, snapshot: Option<seq<bv8>>, wal: seq<bv8>): Option<Db> {
    Recover(Exec(stod), map[], Loads(snapshot).(log := ParseLog(wal)))
  }

  // The files hold what the protocol's disk holds.
  predicate Encodes(snapshot: Option<seq<bv8>>, wal: seq<bv8>, disk: Disk<Db>) {
    && wal == EncodeLog(disk.log)
    && (if disk.snap.NoSnap? then snapshot == None
        else snapshot.Some? && Load(snapshot.value) == Loaded(disk.snap.lsn, disk.snap.db))
  }

  predicate AllSized(log: seq<Record>) { forall i :: 0 <= i < |log| ==> Wal.Sized(log[i]) }

  predicate AllReadable(log: seq<Record>) { forall i :: 0 <= i < |log| ==> Wal.Readable(log[i]) }

  lemma {:induction false} ReadableCount(log: seq<Record>)
    ensures |ReadablePrefix(log)| <= |log| && ReadablePrefix(log) == log[..|ReadablePrefix(log)|]
  {
    if log != [] && |log[0].sql| <= MAX_PAYLOAD {
      ReadableCount(log[1..]);
      assert log == [log[0]] + log[1..];
    }
  }

  lemma ReadableAll(log: seq<Record>)
    requires AllReadable(log)
    ensures AllSized(log) && ReadablePrefix(log) == log
  {
    PrefixIsAll(log);
  }

  // Recovery from the files is the protocol's recovery from the disk with the records before the first oversized one.
  lemma FilesRecover(stod: Stod, snapshot: Option<seq<bv8>>, wal: seq<bv8>, disk: Disk<Db>)
    requires Encodes(snapshot, wal, disk) && AllSized(disk.log)
    ensures RecoverFiles(stod, snapshot, wal) == Recover(Exec(stod), map[], disk.(log := ReadablePrefix(disk.log)))
  {
    hide Replay, ParseLog, EncodeLog, ReadablePrefix, Load, Exec, Wal.Sized;
    ParseLogEncoded(disk.log);
  }

  // A crash inside the write of a record, at any byte, leaves files that recover as if it had not been started.
  lemma TornAppendRecovers(stod: Stod, snapshot: Option<seq<bv8>>, wal: seq<bv8>, disk: Disk<Db>, r: Record, c: nat)
    requires Encodes(snapshot, EncodeLog(disk.log), disk) && AllReadable(disk.log + [r])
    requires |EncodeLog(disk.log)| <= c < |EncodeLog(disk.log + [r])|
    requires wal == EncodeLog(disk.log + [r])[..c]
    ensures RecoverFiles(stod, snapshot, wal) == Recover(Exec(stod), map[], disk)
  {
    hide Replay, ParseLog, EncodeLog, Load, Exec, Wal.Readable;
    CutLog(disk.log + [r], c);
    CutInLast(disk.log, r, c);
  }

  lemma NoLog()
    ensures EncodeLog([]) == []
  {
  }

  lemma LogOf(r: Record)
    ensures EncodeLog([]) == [] && EncodeLog([r]) == Encode(r)
  {
    hide Encode;
    assert [r][..0] == [];
  }

  lemma {:induction false} CutInLast(log: seq<Record>, r: Record, c: nat)
    requires |EncodeLog(log)| <= c < |EncodeLog(log + [r])|
    ensures WholeBefore(log + [r], c) == log
  {
    hide Encode, EncodeLog;
    LogOf(r);
    if log == [] {
      assert [] + [r] == [r];
    } else {
      EncodeLogCons(log[0], log[1..]);
      assert [log[0]] + log[1..] == log;
      EncodeLogCons(log[0], log[1..] + [r]);
      assert [log[0]] + (log[1..] + [r]) == log + [r];
      CutInLast(log[1..], r, c - |Encode(log[0])|);
      assert (log + [r])[1..] == log[1..] + [r];
    }
  }

  // ---- Texts that throw ----

  // By its tokens, the text is a CREATE TABLE up to a VARCHAR length that does not fit a 32-bit integer.
  predicate Throwing(sql: Sql) { TextThrows(BytesText(sql)) }

  // By its tokens, the text does not create a table without columns.
  predicate Defined(sql: Sql) { !TextCreatesEmpty(BytesText(sql)) }

  predicate DefinedAbove(log: seq<Record>, lsn: nat) {
    forall i :: 0 <= i < |log| && log[i].lsn > lsn ==> Defined(log[i].sql)
  }

  predicate ThrowsAbove(log: seq<Record>, lsn: nat) {
    exists i :: 0 <= i < |log| && log[i].lsn > lsn && Throwing(log[i].sql)
  }

  lemma ThrowsByText(stod: Stod, db: Db, sql: Sql)
    requires Defined(sql)
    ensures Exec(stod)(db, sql).None? <==> Throwing(sql)
  {
    hide ParseSql, BytesText, UpperAll, ExecStatement, TextThrows, TextCreatesEmpty;
    ThrowsIff(BytesText(sql));
    CreatesEmptyIff(BytesText(sql));
  }

  lemma SafeText(stod: Stod, sql: Sql)
    requires Defined(sql) && !Throwing(sql)
    ensures Safe(Exec(stod), sql)
  {
    hide Throwing, Defined, Exec;
    forall db: Db ensures Exec(stod)(db, sql).Some? { ThrowsByText(stod, db, sql); }
  }

  // The statements that recovery does not have, because they lie at or behind the first record it cannot read.
  function Unread(disk: Disk<Db>): seq<Sql> {
    ReadableCount(disk.log);
    Uncovered(disk.log[|ReadablePrefix(disk.log)|..], SnapLsn(disk.snap))
  }

  lemma NothingUnread(disk: Disk<Db>)
    requires AllReadable(disk.log)
    ensures Unread(disk) == []
  {
    hide ReadablePrefix, Wal.Readable;
    ReadableAll(disk.log);
    assert disk.log[|disk.log|..] == [];
  }

  // Whatever run the database made, if none of its texts throws and only anchored processes crashed, its files recover
  // to the result of all logged statements, without exactly those behind an oversized record.
  lemma FilesAreDurable(stod: Stod, steps: seq<Step>, states: seq<State<Db>>, i: nat, snapshot: Option<seq<bv8>>,
                        wal: seq<bv8>)
    requires Run(Exec(stod), map[], steps, states) && i <= |steps|
    requires forall k :: 0 <= k < i && steps[k] == Crash ==> states[k].anchored
    requires states[i].phase == Down || states[i].anchored
    requires forall k :: 0 <= k < |states[i].history| ==>
             Defined(states[i].history[k]) && !Throwing(states[i].history[k])
    requires Encodes(snapshot, wal, states[i].disk) && AllSized(states[i].disk.log)
    ensures |Unread(states[i].disk)| <= |states[i].history|
    ensures var history := states[i].history;
            RecoverFiles(stod, snapshot, wal) ==
            Fold(Exec(stod), Some(map[]), history[..|history| - |Unread(states[i].disk)|])
    ensures AllReadable(states[i].disk.log) ==>
              RecoverFiles(stod, snapshot, wal) == Fold(Exec(stod), Some(map[]), states[i].history)
    ensures RecoverFiles(stod, snapshot, wal).Some?
  {
    hide Replay, Load, EncodeLog, Exec, Defined, Throwing, Safe, RecoverFiles, ReadablePrefix, Uncovered, Fold;
    hide Wal.Sized, Wal.Readable;
    var history, disk := states[i].history, states[i].disk;
    forall k | 0 <= k < |history| ensures Safe(Exec(stod), history[k]) { SafeText(stod, history[k]); }
    FilesRecover(stod, snapshot, wal, disk);
    ReadableCount(disk.log);
    CutRecovers(Exec(stod), map[], steps, states, i, |ReadablePrefix(disk.log)|);
    if AllReadable(disk.log) {
      NothingUnread(disk);
      assert history[..|history|] == history;
    }
    FoldSafe(Exec(stod), map[], history[..|history| - |Unread(disk)|]);
  }

  // Files can be opened if and only if no text above the snapshot's LSN has a VARCHAR length out of range.
  lemma RecoveryCompletesIff(stod: Stod, snapshot: Option<seq<bv8>>, wal: seq<bv8>)
    requires DefinedAbove(ParseLog(wal), SnapLsn(Loads(snapshot).snap))
    ensures RecoverFiles(stod, snapshot, wal).Some? <==> !ThrowsAbove(ParseLog(wal), SnapLsn(Loads(snapshot).snap))
  {
    hide Replay, ParseLog, Loads, Exec, DefinedAbove;
    var disk := Loads(snapshot);
    LogCompletesIff(stod, Base(map[], disk.snap), ParseLog(wal), SnapLsn(disk.snap));
  }

  lemma LogCompletesIff(stod: Stod, db: Db, log: seq<Record>, lsn: nat)
    requires DefinedAbove(log, lsn)
    ensures Replay(Exec(stod), db, log, lsn).Some? <==> !ThrowsAbove(log, lsn)
  {
    hide Replay, Exec, Defined, Throwing;
    forall i, d: Db | 0 <= i < |log| && log[i].lsn > lsn
      ensures Exec(stod)(d, log[i].sql).None? <==> Throwing(log[i].sql)
    {
      ThrowsByText(stod, d, log[i].sql);
    }
    ReplayCompletesIff(Exec(stod), db, log, lsn, sql => Throwing(sql));
  }

  // ---- Runs of real texts ----

  function CreateSql(table: string): Sql
    requires UpperName(table)
  {
    CreateNarrow(table, DEFAULT_VARCHAR_MAX);
    TextBytes(CreateText(table))
  }

  function InsertSql(table: string, v: string): Sql
    requires UpperName(table) && Narrow(v)
  {
    InsertNarrow(table, v);
    TextBytes(InsertText(table, [[v]]))
  }

  function LengthSql(table: string, n: int): Sql
    requires UpperName(table)
  {
    CreateNarrow(table, n);
    TextBytes(LengthText(table, n))
  }

  lemma CreateExec(stod: Stod, db: Db, table: string)
    requires UpperName(table) && table !in db
    ensures Exec(stod)(db, CreateSql(table)) == Some(db[table := Table(COLUMNS, [])])
  {
    hide ExecSql, LengthText, UpperName, TextBytes, BytesText;
    CreateNarrow(table, DEFAULT_VARCHAR_MAX);
    TextRoundTrip(CreateText(table));
    CreateRuns(db, table, stod);
  }

  lemma InsertExec(stod: Stod, db: Db, table: string, v: string)
    requires UpperName(table) && Narrow(v) && |v| <= DEFAULT_VARCHAR_MAX && table in db && db[table].columns == COLUMNS
    ensures Exec(stod)(db, InsertSql(table, v)) == Some(db[table := Table(COLUMNS, db[table].rows + [[Varchar(v)]])])
  {
    hide ExecSql, InsertText, UpperName, TextBytes, BytesText, Accepted, ExecInsert;
    InsertNarrow(table, v);
    TextRoundTrip(InsertText(table, [[v]]));
    InsertRuns(db, table, [[v]], stod);
    OneAccepted(v, stod);
  }

  lemma LengthExec(stod: Stod, db: Db, table: string, n: int)
    requires UpperName(table) && !FitsInt(n)
    ensures Throwing(LengthSql(table, n)) && Exec(stod)(db, LengthSql(table, n)) == None
  {
    hide ParseSql, LengthText, TextBytes, BytesText, IsName, TextThrows;
    CreateNarrow(table, n);
    TextRoundTrip(LengthText(table, n));
    LengthParsed(table, n);
    ThrowsIff(LengthText(table, n));
  }

  // CREATE TABLE T (X VARCHAR(255)), CREATE TABLE A (X VARCHAR(n)) with any n that does not fit a 32-bit integer, and a
  // crash: T was created and logged, and the database cannot be opened.
  lemma ClosingTexts(stod: Stod, n: int) returns (states: seq<State<Db>>)
    requires !FitsInt(n)
    ensures UpperName("A") && UpperName("T")
    ensures Run(Exec(stod), map[], ClosingSteps(CreateSql("T"), LengthSql("A", n)), states)
    ensures states[4].phase == Idle && "T" in states[4].mem
    ensures states[6].phase == Down && Recover(Exec(stod), map[], states[6].disk) == None
  {
    hide Exec, CreateSql, LengthSql, UpperName, ClosingSteps, Run, Recover;
    SampleNames();
    var db: Db := map["T" := Table(COLUMNS, [])];
    CreateExec(stod, map[], "T");
    LengthExec(stod, db, "A", n);
    states := ClosingRun(Exec(stod), map[], db, CreateSql("T"), LengthSql("A", n));
  }

  // CREATE TABLE T (X VARCHAR(255)), INSERT INTO T VALUES ('V'), a clean shutdown, a reopening, INSERT INTO T VALUES
  // ('W') and a crash: recovery does not have the row that the last INSERT added.
  lemma LosingTexts(stod: Stod) returns (states: seq<State<Db>>)
    ensures UpperName("T") && Narrow("V") && Narrow("W")
    ensures Run(Exec(stod), map[], LosingSteps(CreateSql("T"), InsertSql("T", "V"), InsertSql("T", "W")), states)
    ensures states[10].phase == Idle && Some(states[10].mem) == Fold(Exec(stod), Some(map[]), states[11].history)
    ensures Recover(Exec(stod), map[], states[11].disk) != Fold(Exec(stod), Some(map[]), states[11].history)
  {
    hide Exec, CreateSql, InsertSql, UpperName, LosingSteps, Run, Recover, Fold;
    SampleNames();
    var v, w: Row := [Varchar("V")], [Varchar("W")];
    var d1: Db, d2: Db, d3: Db :=
      map["T" := Table(COLUMNS, [])], map["T" := Table(COLUMNS, [v])], map["T" := Table(COLUMNS, [v, w])];
    CreateExec(stod, map[], "T");
    InsertExec(stod, d1, "T", "V");
    assert [] + [v] == [v] && d1["T" := d2["T"]] == d2;
    InsertExec(stod, d2, "T", "W");
    assert [v] + [w] == [v, w] && d2["T" := d3["T"]] == d3;
    states := LosingRun(Exec(stod), map[], d1, d2, d3, CreateSql("T"), InsertSql("T", "V"), InsertSql("T", "W"));
    assert |d2["T"].rows| != |d3["T"].rows|;
  }

  // A row inserted first after any reopening survives a crash if and only if the reopened log continues above the
  // snapshot.
  lemma InsertSurvivesIff(stod: Stod, disk: Disk<Db>, table: string, v: string)
    requires UpperName(table) && Narrow(v) && |v| <= DEFAULT_VARCHAR_MAX
    requires var db := Recover(Exec(stod), map[], disk);
             db.Some? && table in db.value && db.value[table].columns == COLUMNS
    ensures var insert := InsertSql(table, v);
            Recover(Exec(stod), map[], disk.(log := disk.log + Session(NextLsn(disk.log), [insert])))
            == Then(Exec(stod), Recover(Exec(stod), map[], disk), insert)
            <==> Continues(disk)
  {
    hide Exec, InsertSql, UpperName, Recover, NextLsn, Session, Continues;
    var db := Recover(Exec(stod), map[], disk).value;
    InsertExec(stod, db, table, v);
    assert |db[table].rows + [[Varchar(v)]]| != |db[table].rows|;
    LosslessIff(Exec(stod), map[], disk, InsertSql(table, v));
  }

  // ---- Snapshots of what texts have built ----

  predicate RecordsFit(log: seq<Record>) { forall i :: 0 <= i < |log| ==> |log[i].sql| <= MAX_STRING }

  // The reader returns no longer text.
  lemma {:induction false} ReadRecordsFit(wal: seq<bv8>)
    ensures RecordsFit(ParseLog(wal))
    decreases |wal|
  {
    hide Crc;
    var p := Wal.Parse(wal);
    if p.Got? { ReadRecordsFit(wal[p.size..]); }
  }

  lemma ExecSavable(stod: Stod, db: Db, sql: Sql)
    requires SavableDb(db) && |sql| <= MAX_STRING && DoubleBits(stod)
    ensures Exec(stod)(db, sql).Some? ==> SavableDb(Exec(stod)(db, sql).value)
  {
    hide ExecSql, SavableDb, DoubleBits, Narrow;
    ExecKeepsSavable(db, BytesText(sql), stod);
  }

  lemma {:induction false} ReplaySavable(stod: Stod, db: Db, log: seq<Record>, lsn: nat)
    requires SavableDb(db) && RecordsFit(log) && DoubleBits(stod)
    ensures Replay(Exec(stod), db, log, lsn).Some? ==> SavableDb(Replay(Exec(stod), db, log, lsn).value)
  {
    hide Exec, SavableDb, DoubleBits;
    if log != [] {
      var n := |log| - 1;
      ReplaySavable(stod, db, log[..n], lsn);
      var before := Replay(Exec(stod), db, log[..n], lsn);
      if before.Some? { ExecSavable(stod, before.value, log[n].sql); }
    }
  }

  ghost predicate StateSavable(s: State<Db>) {
    && SavableDb(s.mem) && SavableDb(Base(map[], s.disk.snap)) && RecordsFit(s.disk.log)
    && (s.phase.Logged? ==> |s.phase.sql| <= MAX_STRING)
  }

  lemma StepSavable(stod: Stod, s: State<Db>, step: Step)
    requires StateSavable(s) && Enabled(s, step) && DoubleBits(stod) && (step.Append? ==> |step.sql| <= MAX_STRING)
    ensures StateSavable(Next(Exec(stod), map[], s, step))
  {
    hide Exec, SavableDb, DoubleBits, Replay;
    match step
    case Apply => ExecSavable(stod, s.mem, s.phase.sql);
    case Reopen => ReplaySavable(stod, Base(map[], s.disk.snap), s.disk.log, SnapLsn(s.disk.snap));
    case _ =>
  }

  lemma {:induction false} RunSavable(stod: Stod, steps: seq<Step>, states: seq<State<Db>>, i: nat)
    requires Run(Exec(stod), map[], steps, states) && i <= |steps| && DoubleBits(stod)
    requires forall k :: 0 <= k < i && steps[k].Append? ==> |steps[k].sql| <= MAX_STRING
    ensures StateSavable(states[i])
  {
    hide Exec, StateSavable, DoubleBits, Next, Enabled;
    if i == 0 {
      StartSavable();
    } else {
      RunSavable(stod, steps, states, i - 1);
      StepSavable(stod, states[i - 1], steps[i - 1]);
    }
  }

  lemma StartSavable()
    ensures StateSavable(Init(map[]))
  {
  }

  // In every run of texts of at most 10 MB, a snapshot taken at any time loads, and as the tables it was taken of, up
  // to the numbers of tables and of rows that the format can count.
  lemma SnapshotsLoad(stod: Stod, steps: seq<Step>, states: seq<State<Db>>, i: nat, order: seq<Named>, lsn: nat)
    requires Run(Exec(stod), map[], steps, states) && i <= |steps| && DoubleBits(stod)
    requires forall k :: 0 <= k < i && steps[k].Append? ==> |steps[k].sql| <= MAX_STRING
    requires Lists(order, states[i].mem) && |order| < 0x1_0000_0000 && lsn < 0x1_0000_0000_0000_0000
    requires forall k :: 0 <= k < |order| ==> |order[k].table.rows| < 0x1_0000_0000_0000_0000
    ensures BoundedTables(order) && Load(FileBytes(order, lsn)) == Loaded(lsn, states[i].mem)
  {
    hide Exec, DoubleBits, Next, Enabled, Load, FileBytes, Lists, SizedTable, AllNamesFit, SavableDb;
    RunSavable(stod, steps, states, i);
    SavableLoads(order, states[i].mem);
    LoadSaved(order, states[i].mem, lsn);
  }

  // ---- The object ----

  // database.cpp recover, step 2, record by record: a throw ends the replay.
  method ReplayLog(stod: Stod, start: Db, records: seq<Record>, lsn: nat) returns (r: Option<Db>)
    ensures r == Replay(Exec(stod), start, records, lsn)
  {
    hide ExecSql, BytesText;
    var db := start;
    for i := 0 to |records|
      invariant Replay(Exec(stod), start, records[..i], lsn) == Some(db)
    {
      assert records[..i + 1] == records[..i] + [records[i]];
      ReplayAppend(Exec(stod), start, records[..i], records[i], lsn);
      if records[i].lsn > lsn {
        var outcome := ExecSql(db, BytesText(records[i].sql), stod);
        if outcome.None? {
          StaysClosed(Exec(stod), start, records[..i + 1], records[i + 1..], lsn);
          assert records[..i + 1] + records[i + 1..] == records;
          return None;
        }
        db := outcome.value;
      }
    }
    assert records[..|records|] == records;
    return Some(db);
  }

  ghost function AfterReopen(stod: Stod, s: State<Db>): State<Db>
    requires s.phase == Down
  {
    Next(Exec(stod), map[], s, Reopen)
  }

  ghost function AfterText(stod: Stod, s: State<Db>, sql: Sql): State<Db>
    requires s.phase == Idle
  {
    Next(Exec(stod), map[], Next(Exec(stod), map[], s, Append(sql)), Apply)
  }

  class Database {
    const stod: Stod
    var tables: Db
    var wal: seq<bv8>
    var snapshot: Option<seq<bv8>>
    var nextLsn: nat
    ghost var state: State<Db>

    ghost predicate Valid()
      reads this
    {
      && state.phase == Idle
      && state.mem == tables
      && state.next == nextLsn >= 1
      && Encodes(snapshot, wal, state.disk)
    }

    constructor (stod: Stod, tables: Db, snapshot: Option<seq<bv8>>, wal: seq<bv8>, nextLsn: nat,
                 ghost state: State<Db>)
      ensures this.stod == stod && this.tables == tables && this.snapshot == snapshot && this.wal == wal
      ensures this.nextLsn == nextLsn && this.state == state
    {
      this.stod, this.tables, this.snapshot, this.wal, this.nextLsn := stod, tables, snapshot, wal, nextLsn;
      this.state := state;
    }

    // The constructor on an existing directory: recover, then open the log and number on from the last record that can
    // be read. An exception during the replay escapes it, and there is no database.
    static method Open(stod: Stod, snapshot: Option<seq<bv8>>, wal: seq<bv8>, ghost last: State<Db>)
      returns (result: Option<Database>)
      requires last.phase == Down && Encodes(snapshot, wal, last.disk) && AllSized(last.disk.log)
      ensures result.Some? <==> RecoverFiles(stod, snapshot, wal).Some?
      ensures result.Some? ==> fresh(result.value) && result.value.stod == stod
      ensures result.Some? ==> result.value.snapshot == snapshot && result.value.wal == wal
      ensures result.Some? ==> Some(result.value.tables) == RecoverFiles(stod, snapshot, wal)
      ensures result.Some? ==> result.value.nextLsn == NextLsn(ReadablePrefix(last.disk.log))
      ensures result.Some? && AllReadable(last.disk.log) ==>
                result.value.Valid() && result.value.state == AfterReopen(stod, last)
      ensures result.None? && AllReadable(last.disk.log) ==> AfterReopen(stod, last) == last
      ensures result.Some? && DoubleBits(stod) ==> SavableDb(result.value.tables)
    {
      hide Load, Replay, EncodeLog, ParseLog, Exec, ReadablePrefix, Wal.Sized, Wal.Readable, Savable;
      FilesRecover(stod, snapshot, wal, last.disk);
      ParseLogEncoded(last.disk.log);
      if AllReadable(last.disk.log) { ReadableAll(last.disk.log); }
      var db, lsn := map[], 0;
      if snapshot.Some? {
        var loaded := LoadFile(snapshot.value);
        LoadedSavable(snapshot.value);
        if loaded.Loaded? { db, lsn := loaded.tables, loaded.lsn; }
      }
      var records := ReadAll(wal);
      var replayed := ReplayLog(stod, db, records, lsn);
      if replayed.None? { return None; }
      if DoubleBits(stod) {
        ReadRecordsFit(wal);
        ReplaySavable(stod, db, records, lsn);
      }
      var next := if records == [] then 1 else records[|records| - 1].lsn + 1;
      var d := new Database(stod, replayed.value, snapshot, wal, next, AfterReopen(stod, last));
      return Some(d);
    }

    // database.cpp execute: log a mutating statement, then run it.
    method Execute(sql: string) returns (thrown: bool)
      requires Valid() && Narrow(sql) && !UndefinedSql(tables, sql)
      modifies this
      ensures Valid() && snapshot == old(snapshot)
      ensures thrown == TextThrows(sql) && (thrown ==> tables == old(tables))
      ensures DoubleBits(stod) && |sql| <= MAX_STRING && old(SavableDb(tables)) ==> SavableDb(tables)
      ensures Mutating(sql) ==> state == AfterText(stod, old(state), TextBytes(sql))
      ensures !Mutating(sql) ==> state == old(state)
    {
      hide Mutating, EncodeLog, Encode, Load, TextBytes, BytesText, ParseSql, ExecStatement, Undefined, TextThrows;
      hide Narrow, Savable;
      ThrowsIff(sql);
      if DoubleBits(stod) && |sql| <= MAX_STRING && SavableDb(tables) { ExecKeepsSavable(tables, sql, stod); }
      var logged := IsMutatingSql(sql);
      TextRoundTrip(sql);
      if logged {
        ghost var record := Record(nextLsn, TextBytes(sql));
        EncodeLogSnoc(state.disk.log, record);
        wal := AppendRecord(wal, nextLsn, TextBytes(sql));
        nextLsn := nextLsn + 1;
        state := Next(Exec(stod), map[], state, Append(TextBytes(sql)));
        state := Next(Exec(stod), map[], state, Apply);
      } else {
        UnloggedChangesNothing(tables, sql, stod);
      }
      var outcome := ExecSql(tables, sql, stod);
      thrown := outcome.None?;
      if outcome.Some? { tables := outcome.value; }
    }

    ghost function AfterSnapshot(s: State<Db>): State<Db>
      requires s.phase == Idle && s.next >= 1
    {
      Next(Exec(stod), map[], Next(Exec(stod), map[], s, SaveSnapshot), Truncate)
    }

    // database.cpp take_snapshot; order is the hash map's iteration order. A clean shutdown ends with this. If a name
    // is over the reader's limit, the file cannot be loaded, and the log is truncated all the same.
    method TakeSnapshot(order: seq<Named>)
      requires Valid() && Lists(order, tables)
      requires |order| < 0x1_0000_0000 && nextLsn <= 0x1_0000_0000_0000_0000
      requires forall i :: 0 <= i < |order| ==> SizedTable(order[i])
      modifies this
      ensures tables == old(tables) && state.anchored && state == AfterSnapshot(old(state))
      ensures Valid() <==> AllNamesFit(order)
      ensures RecoverFiles(stod, snapshot, wal) == Some(if AllNamesFit(order) then tables else map[])
    {
      hide Load, FileBytes, Lists, SizedTable, EncodeLog, Exec, Perform, Replay, AllNamesFit, ParseLog;
      LoadSaved(order, tables, nextLsn - 1);
      var file := Save(order, nextLsn - 1);
      snapshot := Some(file);
      state := Next(Exec(stod), map[], state, SaveSnapshot);
      NoLog();
      ParseNothing();
      wal := [];
      state := Next(Exec(stod), map[], state, Truncate);
      ReplayNothing(stod, tables, nextLsn - 1);
      ReplayNothing(stod, map[], 0);
    }
  }

  lemma ReplayNothing(stod: Stod, db: Db, lsn: nat)
    ensures Replay(Exec(stod), db, [], lsn) == Some(db)
  {
  }

  lemma EncodeLogSnoc(log: seq<Record>, r: Record)
    ensures EncodeLog(log + [r]) == EncodeLog(log) + Encode(r)
  {
    assert (log + [r])[..|log|] == log;
  }
}
