/** A crash at any byte of the log file: the torn line is cut off when the file is
    opened again, the lines left are parsed, and recovery replays their records
    (minidb/txn/wal.py:72-95 and 187-217, minidb/engine/database.py:97-119).  How a
    record is written as a line and parsed is a parameter. */
module Torn {
  import opened Basics
  import opened Wal
  import opened Recovery
  import opened Durability
  import Mvcc

  /** A line has no newline in it, and parsing it gives back its record. */
  ghost predicate Faithful<R(!new)>(line: Record<R> -> Bytes, parse: Bytes -> Parsed<Record<R>>) {
    forall r :: NEWLINE !in line(r) && parse(line(r)) == Rec(r)
  }

  function Encoded<R>(recs: seq<Record<R>>, line: Record<R> -> Bytes): (f: Bytes)
    ensures EndsLine(f)
  {
    if recs == [] then [] else Encoded(recs[..|recs| - 1], line) + (line(recs[|recs| - 1]) + [NEWLINE])
  }

  function LinesOf<R>(recs: seq<Record<R>>, line: Record<R> -> Bytes): seq<Bytes> {
    if recs == [] then [] else LinesOf(recs[..|recs| - 1], line) + [line(recs[|recs| - 1])]
  }

  // ---- reading back complete lines ----

  lemma OneLine(l: Bytes)
    requires NEWLINE !in l
    ensures Lines(l + [NEWLINE]) == [l]
  {
    var f := l + [NEWLINE];
    var n := LineLength(f);
    assert f[|l|] == NEWLINE;
    assert forall i :: 0 <= i < |l| ==> f[i] == l[i];
    assert f[..|l|] == l && f[|l| + 1..] == [];
  }

  lemma {:induction false} EncodedLines<R>(recs: seq<Record<R>>, line: Record<R> -> Bytes)
    requires forall r :: r in recs ==> NEWLINE !in line(r)
    ensures Lines(Encoded(recs, line)) == LinesOf(recs, line)
  {
    if recs == [] {
      NoLines();
    } else {
      var front, r := recs[..|recs| - 1], recs[|recs| - 1];
      EncodedLines(front, line);
      OneLine(line(r));
      AppendLines(Encoded(front, line), line(r) + [NEWLINE]);
    }
  }

  lemma {:induction false} LinesParse<R>(recs: seq<Record<R>>, line: Record<R> -> Bytes,
                                         parse: Bytes -> Parsed<Record<R>>)
    requires forall r :: r in recs ==> parse(line(r)) == Rec(r)
    ensures forall i :: 0 <= i < |LinesOf(recs, line)| ==> parse(LinesOf(recs, line)[i]) != Bad
    ensures ReadRecords(LinesOf(recs, line), parse) == recs
  {
    if recs != [] {
      var front, r := recs[..|recs| - 1], recs[|recs| - 1];
      LinesParse(front, line, parse);
      ReadSplit(LinesOf(front, line), [line(r)], parse);
      assert [line(r)][1..] == [] && ReadRecords([line(r)], parse) == [r];
      assert recs == front + [r];
    }
  }

  /** The records of a file of complete lines. */
  lemma ReadBack<R(!new)>(recs: seq<Record<R>>, line: Record<R> -> Bytes, parse: Bytes -> Parsed<Record<R>>)
    requires Faithful(line, parse)
    ensures ReadRecords(Lines(Encoded(recs, line)), parse) == recs
  {
    EncodedLines(recs, line);
    LinesParse(recs, line, parse);
  }

  // ---- the file up to some byte ----

  lemma {:induction false} CompleteBefore(f: Bytes, torn: Bytes)
    requires EndsLine(f) && NEWLINE !in torn
    ensures CompleteLines(f + torn) == f
    decreases |torn|
  {
    if torn == [] {
      assert f + torn == f;
    } else {
      var g := f + torn;
      assert g[|g| - 1] == torn[|torn| - 1] && g[..|g| - 1] == f + torn[..|torn| - 1];
      CompleteBefore(f, torn[..|torn| - 1]);
    }
  }

  /** Up to byte `b` the file holds the lines of `n` records and a piece of the next. */
  lemma {:induction false} UpToByte<R>(recs: seq<Record<R>>, line: Record<R> -> Bytes, b: nat) returns (n: nat,
                                       torn: Bytes)
    requires b <= |Encoded(recs, line)| && forall r :: r in recs ==> NEWLINE !in line(r)
    ensures n <= |recs| && Encoded(recs, line)[..b] == Encoded(recs[..n], line) + torn && NEWLINE !in torn
    ensures torn != [] ==> n < |recs| && |torn| <= |line(recs[n])|
    ensures forall j :: n < j <= |recs| ==> b < |Encoded(recs[..j], line)|
    decreases |recs|
  {
    var f := Encoded(recs, line);
    assert recs[..|recs|] == recs;
    if b == |f| {
      n, torn := |recs|, [];
      assert f[..b] == f + [];
    } else {
      var front, last := recs[..|recs| - 1], line(recs[|recs| - 1]);
      var g, l := Encoded(front, line), last + [NEWLINE];
      assert f == g + l;
      hide Encoded;
      assert forall j :: 0 <= j <= |front| ==> front[..j] == recs[..j];
      if b >= |g| {
        n, torn := |front|, last[..b - |g|];
        assert torn == l[..b - |g|] && f[..b] == g + torn;
      } else {
        n, torn := UpToByte(front, line, b);
        assert f[..b] == g[..b];
      }
    }
  }

  /** The log entries behind the first `n` records of the file. */
  lemma {:induction false} EntriesOf<R>(log: seq<Entry<R>>, n: nat, durable: nat) returns (i: nat)
    requires durable <= |log| && |Physical(log[..durable])| <= n <= |Physical(log)|
    ensures durable <= i <= |log| && Physical(log[..i]) == Physical(log)[..n]
    decreases |log|
  {
    assert log[..|log|] == log;
    if n == |Physical(log)| {
      i := |log|;
    } else {
      var front := log[..|log| - 1];
      assert front[..durable] == log[..durable];
      i := EntriesOf(front, n, durable);
      assert front[..i] == log[..i];
    }
  }

  lemma {:induction false} PhysicalPrefix<R>(log: seq<Entry<R>>, n: nat)
    requires n <= |log|
    ensures Physical(log[..n]) <= Physical(log)
    decreases |log|
  {
    if n == |log| {
      assert log[..n] == log;
    } else {
      PhysicalPrefix(log[..|log| - 1], n);
      assert log[..|log| - 1][..n] == log[..n];
    }
  }

  // ---- crash and recovery ----

  /** The log file of the engine. */
  ghost function FileBytes<R>(s: Sys<R>, line: Record<R> -> Bytes): Bytes {
    Encoded(Physical(s.log), line)
  }

  /** What of it is synced. */
  ghost function SyncedBytes<R>(s: Sys<R>, line: Record<R> -> Bytes): Bytes {
    Encoded(Physical(s.OnDisk()), line)
  }

  /** Durability down to the byte.  The crash leaves any prefix of the file that has the
      synced bytes.  Opening it again leaves the lines of the log up to some entry behind
      the synced ones, and recovery from them gives the write sets of exactly the
      transactions whose commit record is there, all acknowledged ones among them:
      exactly unless a torn line fills the last block. */
  lemma CrashAtByte<R(!new)>(s: Sys<R>, line: Record<R> -> Bytes, parse: Bytes -> Parsed<Record<R>>,
                      b: nat) returns (n: nat)
    requires SysInv(s) && Faithful(line, parse) && |SyncedBytes(s, line)| <= b <= |FileBytes(s, line)|
    ensures s.durable <= n <= |s.log| && ValidLog(s.rows, s.log[..n])
    ensures var f := FileBytes(s, line)[..b];
      && CompleteLines(f) == Encoded(Physical(s.log[..n]), line)
      && (Truncated(f) == Encoded(Physical(s.log[..n]), line) <==> NEWLINE in f[BlockStart(f)..] || NEWLINE !in f)
      && (NEWLINE in f[BlockStart(f)..] || NEWLINE !in f ==>
            ReadRecords(Lines(Truncated(f)), parse) == Physical(s.log[..n]))
    ensures var m := Recovered(s.rows, s.log[..n]);
      && Mvcc.Inv(m) && m.db == Meaning(s.rows, s.log[..n]).db
      && (forall t :: t in s.acked ==> CommittedIn(Physical(s.log[..n]), t))
  {
    var recs, f := Physical(s.log), FileBytes(s, line)[..b];
    var count, torn := UpToByte(recs, line, b);
    SyncedAreCounted(s, line, b, count);
    n := EntriesOf(s.log, count, s.durable);
    CrashKeepsExactlyCommitted(s, n);
    CompleteBefore(Encoded(recs[..count], line), torn);
    TruncationKeepsLinesExactly(f);
    ReadBack(recs[..count], line, parse);
  }

  lemma SyncedAreCounted<R>(s: Sys<R>, line: Record<R> -> Bytes, b: nat, count: nat)
    requires s.durable <= |s.log| && count <= |Physical(s.log)| && |SyncedBytes(s, line)| <= b
    requires forall j :: count < j <= |Physical(s.log)| ==> b < |Encoded(Physical(s.log)[..j], line)|
    ensures |Physical(s.log[..s.durable])| <= count
  {
    var recs, synced := Physical(s.log), Physical(s.log[..s.durable]);
    PhysicalPrefix(s.log, s.durable);
    assert recs[..|synced|] == synced;
  }

  /** Lines shorter than a block are never in the way. */
  lemma ShortLinesSuffice<R>(s: Sys<R>, line: Record<R> -> Bytes, b: nat)
    requires b <= |FileBytes(s, line)|
    requires forall r :: r in Physical(s.log) ==> NEWLINE !in line(r) && |line(r)| < BLOCK
    ensures var f := FileBytes(s, line)[..b]; NEWLINE in f[BlockStart(f)..] || NEWLINE !in f
  {
    var recs, f := Physical(s.log), FileBytes(s, line)[..b];
    var count, torn := UpToByte(recs, line, b);
    var g := Encoded(recs[..count], line);
    if g != [] {
      assert f[|g| - 1] == g[|g| - 1] == NEWLINE;
      assert |torn| < BLOCK;
      assert f[BlockStart(f)..][|g| - 1 - BlockStart(f)] == NEWLINE;
    } else {
      assert f == torn;
    }
  }
}
