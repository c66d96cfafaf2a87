/** The write-ahead log: record layout, reading back, cut files and corrupted records. */
module Wal {
  import opened Bytes
  import Crc32

  const MAGIC: nat := 0xDA7ABA5E
  const MAX_PAYLOAD: nat := 10 * 1024 * 1024
  const HEADER: nat := 20

  datatype Record = Record(lsn: nat, sql: seq<bv8>)

  datatype Parsed = Stop | Got(record: Record, size: nat)

  // The bytes the checksum covers: LSN, length and payload.
  function Body(r: Record): seq<bv8> {
    Le(r.lsn, 8) + Le(|r.sql|, 4) + r.sql
  }

  function Crc(body: seq<bv8>): nat {
    WordValue(Crc32.Checksum(body))
  }

  function WordValue(x: bv32): nat { x as nat }

  // wal.cpp append: magic, CRC, LSN, length, payload.
  function Encode(r: Record): (b: seq<bv8>)
    ensures |b| == HEADER + |r.sql|
  {
    Le(MAGIC, 4) + Le(Crc(Body(r)), 4) + Body(r)
  }

  function EncodeLog(records: seq<Record>): seq<bv8> {
    if records == [] then [] else EncodeLog(records[..|records| - 1]) + Encode(records[|records| - 1])
  }

  // The fields of a record, by position: magic, CRC of all that follows it, LSN, payload length, payload.
  lemma Layout(r: Record)
    ensures var b := Encode(r);
            && b[..4] == [0x5E, 0xBA, 0x7A, 0xDA] && b[4..8] == Le(Crc(b[8..]), 4) && b[8..16] == Le(r.lsn, 8)
            && b[16..20] == Le(|r.sql|, 4) && b[20..] == r.sql
  {
    hide Crc;
    var b, head := Encode(r), Le(r.lsn, 8) + Le(|r.sql|, 4);
    assert Body(r) == head + r.sql && head[..8] == Le(r.lsn, 8) && head[8..] == Le(|r.sql|, 4);
    assert b[8..] == Body(r) && b[8..16] == Body(r)[..8] && b[16..20] == Body(r)[8..12] && b[20..] == Body(r)[12..];
    MagicBytes();
  }

  lemma MagicBytes()
    ensures Le(MAGIC, 4) == [0x5E, 0xBA, 0x7A, 0xDA]
  {
    assert Le(0xDA, 1) == [0xDA];
    assert Le(0xDA7A, 2) == [0x7A, 0xDA];
    assert Le(0xDA7ABA, 3) == [0xBA, 0x7A, 0xDA];
  }

  // wal.cpp read_record at the front of what is left of the file.
  function Parse(file: seq<bv8>): (p: Parsed)
    ensures p.Got? ==> HEADER <= p.size <= |file|
  {
    if |file| < 4 || FromLe(file[..4]) != MAGIC then Stop
    else if |file| < HEADER then Stop
    else
      var size := FromLe(file[16..20]);
      if size > MAX_PAYLOAD || |file| < HEADER + size then Stop
      else if Crc(file[8..HEADER + size]) != FromLe(file[4..8]) then Stop
      else Got(Record(FromLe(file[8..16]), file[HEADER..HEADER + size]), HEADER + size)
  }

  // The records before the first one that cannot be read.
  function ParseLog(file: seq<bv8>): seq<Record>
    decreases |file|
  {
    match Parse(file)
    case Stop => []
    case Got(record, size) => [record] + ParseLog(file[size..])
  }

  // wal.cpp append, with the checksum from the table-driven loop.
  method AppendRecord(file: seq<bv8>, lsn: nat, sql: seq<bv8>) returns (longer: seq<bv8>)
    ensures longer == file + Encode(Record(lsn, sql))
  {
    hide Le, Crc32.BitSteps, Crc32.Checksum;
    var body := Le(lsn, 8) + Le(|sql|, 4) + sql;
    var table := Crc32.InitTable();
    var crc := Crc32.Compute(table, body);
    longer := file + Le(MAGIC, 4) + Le(WordValue(crc), 4) + body;
  }

  // wal.cpp read_record
  method ReadRecord(file: seq<bv8>) returns (p: Parsed)
    ensures p == Parse(file)
  {
    hide FromLe, Crc32.BitSteps, Crc32.Checksum;
    if |file| < 4 { return Stop; }
    var magic := FromLe(file[..4]);
    if magic != MAGIC || |file| < HEADER { return Stop; }
    var crc, lsn, size := FromLe(file[4..8]), FromLe(file[8..16]), FromLe(file[16..20]);
    if size > MAX_PAYLOAD || |file| < HEADER + size { return Stop; }
    var sql := file[HEADER..HEADER + size];
    var table := Crc32.InitTable();
    var computed := Crc32.Compute(table, file[8..HEADER + size]);
    if WordValue(computed) != crc { return Stop; }
    return Got(Record(lsn, sql), HEADER + size);
  }

  // wal.cpp read_all: a loop over the read position.
  method ReadAll(file: seq<bv8>) returns (records: seq<Record>)
    ensures records == ParseLog(file)
  {
    hide Parse;
    records := [];
    var pos := 0;
    while true
      invariant 0 <= pos <= |file|
      invariant records + ParseLog(file[pos..]) == ParseLog(file)
      decreases |file| - pos
    {
      var p := ReadRecord(file[pos..]);
      if p.Stop? { return; }
      assert file[pos..][p.size..] == file[pos + p.size..];
      records := records + [p.record];
      pos := pos + p.size;
    }
  }

  // What fits the fields of a record header.
  predicate Sized(r: Record) {
    r.lsn < 0x1_0000_0000_0000_0000 && |r.sql| < 0x1_0000_0000
  }

  predicate Readable(r: Record) {
    Sized(r) && |r.sql| <= MAX_PAYLOAD
  }

  lemma CrcFits(body: seq<bv8>)
    ensures Crc(body) < 0x1_0000_0000
  {
    WordBack(Crc32.Checksum(body));
  }

  lemma CrcInjective(a: seq<bv8>, b: seq<bv8>)
    requires Crc(a) == Crc(b)
    ensures Crc32.Checksum(a) == Crc32.Checksum(b)
  {
    hide Crc32.Checksum, WordValue;
    WordBack(Crc32.Checksum(a));
    WordBack(Crc32.Checksum(b));
  }

  lemma WordBack(x: bv32)
    ensures WordValue(x) < 0x1_0000_0000 && WordValue(x) as bv32 == x
  {
  }

  // The fields of an encoded record, read back from the front of a file.
  lemma Fields(r: Record, rest: seq<bv8>)
    requires Sized(r)
    ensures var f := Encode(r) + rest;
            && |f| >= HEADER + |r.sql|
            && FromLe(f[..4]) == MAGIC
            && FromLe(f[4..8]) == Crc(Body(r))
            && FromLe(f[8..16]) == r.lsn
            && FromLe(f[16..20]) == |r.sql|
            && f[8..HEADER + |r.sql|] == Body(r)
            && f[HEADER..HEADER + |r.sql|] == r.sql
            && f[HEADER + |r.sql|..] == rest
  {
    hide Le, FromLe, Crc;
    Widths();
    CrcFits(Body(r));
    LeRoundTrip(MAGIC, 4);
    LeRoundTrip(Crc(Body(r)), 4);
    LeRoundTrip(r.lsn, 8);
    LeRoundTrip(|r.sql|, 4);
    var f := Encode(r) + rest;
    assert f[..4] == Le(MAGIC, 4);
    assert f[4..8] == Le(Crc(Body(r)), 4);
    assert f[8..16] == Le(r.lsn, 8);
    assert f[16..20] == Le(|r.sql|, 4);
  }

  // One record is read back exactly, whatever follows it, unless its payload is over the limit.
  lemma ParseEncoded(r: Record, rest: seq<bv8>)
    requires Sized(r)
    ensures Parse(Encode(r) + rest) == if |r.sql| <= MAX_PAYLOAD then Got(r, |Encode(r)|) else Stop
  {
    hide Le, FromLe, Crc, Encode;
    Fields(r, rest);
  }

  lemma {:induction false} EncodeLogCons(r: Record, records: seq<Record>)
    ensures EncodeLog([r] + records) == Encode(r) + EncodeLog(records)
  {
    hide Encode;
    var all := [r] + records;
    if records == [] {
      assert all[..0] == [];
    } else {
      EncodeLogCons(r, records[..|records| - 1]);
      assert all[..|all| - 1] == [r] + records[..|records| - 1];
      assert all[|all| - 1] == records[|records| - 1];
    }
  }

  // The records up to the first one whose payload is over the limit.
  function ReadablePrefix(records: seq<Record>): seq<Record> {
    if records == [] || |records[0].sql| > MAX_PAYLOAD then [] else [records[0]] + ReadablePrefix(records[1..])
  }

  // Reading a log returns exactly the records before the first oversized one.
  lemma {:induction false} ParseLogEncoded(records: seq<Record>)
    requires forall i :: 0 <= i < |records| ==> Sized(records[i])
    ensures ParseLog(EncodeLog(records)) == ReadablePrefix(records)
  {
    hide Parse, Encode, Sized;
    if records == [] {
      ParseNothing();
    } else {
      var rest := records[1..];
      assert records == [records[0]] + rest;
      EncodeLogCons(records[0], rest);
      ParseEncoded(records[0], EncodeLog(rest));
      var f := Encode(records[0]) + EncodeLog(rest);
      assert f[|Encode(records[0])|..] == EncodeLog(rest);
      if |records[0].sql| <= MAX_PAYLOAD { ParseLogEncoded(rest); }
    }
  }

  lemma ParseNothing()
    ensures ParseLog([]) == []
  {
  }

  lemma {:induction false} PrefixIsAll(records: seq<Record>)
    ensures ReadablePrefix(records) == records <==> forall i :: 0 <= i < |records| ==> |records[i].sql| <= MAX_PAYLOAD
  {
    if records != [] {
      PrefixIsAll(records[1..]);
      assert records == [records[0]] + records[1..];
      if ReadablePrefix(records) == records { assert ReadablePrefix(records)[1..] == records[1..]; }
    }
  }

  // A log is read back in full exactly when every payload is within the limit.
  lemma LogRoundTrip(records: seq<Record>)
    requires forall i :: 0 <= i < |records| ==> Sized(records[i])
    ensures ParseLog(EncodeLog(records)) == records <==>
            forall i :: 0 <= i < |records| ==> |records[i].sql| <= MAX_PAYLOAD
  {
    hide Sized, ParseLog, EncodeLog;
    ParseLogEncoded(records);
    PrefixIsAll(records);
  }

  // ---- A file cut short ----

  // The records that lie wholly within the first c bytes.
  function WholeBefore(records: seq<Record>, c: nat): seq<Record> {
    if records == [] || HEADER + |records[0].sql| > c then []
    else [records[0]] + WholeBefore(records[1..], c - HEADER - |records[0].sql|)
  }

  lemma ParseCut(r: Record, c: nat)
    requires Readable(r) && c < |Encode(r)|
    ensures Parse(Encode(r)[..c]) == Stop
  {
    hide Le, FromLe, Crc;
    Fields(r, []);
    var e := Encode(r);
    assert e + [] == e;
    var f := e[..c];
    if c >= 4 { assert f[..4] == e[..4]; }
    if c >= HEADER { assert f[16..20] == e[16..20]; }
  }

  // Cutting the file at any byte loses the record that was cut and nothing before it.
  lemma {:induction false} CutLog(records: seq<Record>, c: nat)
    requires forall i :: 0 <= i < |records| ==> Readable(records[i])
    requires c <= |EncodeLog(records)|
    ensures ParseLog(EncodeLog(records)[..c]) == WholeBefore(records, c)
  {
    hide Parse, Encode, Readable;
    if records == [] {
      assert EncodeLog(records)[..c] == [];
      ParseNothing();
    } else {
      var r, rest := records[0], records[1..];
      assert records == [r] + rest;
      EncodeLogCons(r, rest);
      var whole := Encode(r) + EncodeLog(rest);
      var size := |Encode(r)|;
      if c < size {
        assert whole[..c] == Encode(r)[..c];
        ParseCut(r, c);
      } else {
        var tail := EncodeLog(rest)[..c - size];
        assert whole[..c] == Encode(r) + tail;
        ParseReadable(r, tail);
        assert (Encode(r) + tail)[size..] == tail;
        CutLog(rest, c - size);
      }
    }
  }

  lemma ParseReadable(r: Record, rest: seq<bv8>)
    requires Readable(r)
    ensures Parse(Encode(r) + rest) == Got(r, |Encode(r)|)
  {
    hide Parse, Encode;
    ParseEncoded(r, rest);
  }

  // ---- A damaged record ----

  // The record with part `a` of its checksummed bytes replaced by `b`.
  function Damaged(r: Record, before: seq<bv8>, b: seq<bv8>, after: seq<bv8>): seq<bv8> {
    Le(MAGIC, 4) + Le(Crc(Body(r)), 4) + (before + b + after)
  }

  // Damage to at most four consecutive bytes of the LSN or of the payload is always noticed.
  lemma DamageDetected(r: Record, before: seq<bv8>, a: seq<bv8>, b: seq<bv8>, after: seq<bv8>, rest: seq<bv8>)
    requires Readable(r) && Body(r) == before + a + after
    requires |a| == |b| <= 4 && a != b
    requires |before| + |a| <= 8 || |before| >= 12
    ensures Parse(Damaged(r, before, b, after) + rest) == Stop
  {
    hide Le, FromLe, Crc, Crc32.Checksum;
    var body, bad := Body(r), before + b + after;
    var f, g := Encode(r) + rest, Damaged(r, before, b, after) + rest;
    Fields(r, rest);
    assert |bad| == |body| == 12 + |r.sql|;
    assert g[..4] == f[..4] && g[4..8] == f[4..8];
    assert bad[8..12] == body[8..12];
    assert g[16..20] == bad[8..12] && f[16..20] == body[8..12];
    assert g[8..HEADER + |r.sql|] == bad;
    if Crc(bad) == Crc(body) {
      CrcInjective(bad, body);
      Crc32.BurstDetected(before, a, b, after);
      assert false;
    }
  }

  // So a log with such a record in it reads as the records before it.
  lemma {:induction false} DamagedLog(records: seq<Record>, r: Record, before: seq<bv8>, a: seq<bv8>, b: seq<bv8>,
                                      after: seq<bv8>, rest: seq<bv8>)
    requires forall i :: 0 <= i < |records| ==> Readable(records[i])
    requires Readable(r) && Body(r) == before + a + after
    requires |a| == |b| <= 4 && a != b
    requires |before| + |a| <= 8 || |before| >= 12
    ensures ParseLog(EncodeLog(records) + Damaged(r, before, b, after) + rest) == records
    decreases |records|
  {
    hide Parse, Encode, Readable, Body, Damaged;
    var bad := Damaged(r, before, b, after);
    if records == [] {
      assert EncodeLog(records) + bad + rest == bad + rest;
      DamageDetected(r, before, a, b, after, rest);
    } else {
      var x, more := records[0], records[1..];
      assert records == [x] + more;
      EncodeLogCons(x, more);
      var tail := EncodeLog(more) + bad + rest;
      assert EncodeLog(records) + bad + rest == Encode(x) + tail;
      ParseReadable(x, tail);
      assert (Encode(x) + tail)[|Encode(x)|..] == tail;
      DamagedLog(more, r, before, a, b, after, rest);
    }
  }
}
