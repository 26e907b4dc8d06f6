/** The write-ahead log, minidb/txn/wal.py: keys in records, the torn tail of the
    file, and reading the log back.  JSON text is not modelled: a line is a byte
    string that a parser, passed in, turns into a record. */
module Wal {
  import opened Basics

  // -----------------------------------------------------------------
  // Row keys in JSON
  // -----------------------------------------------------------------

  datatype RowKey = IntKey(n: int) | StrKey(s: string) | TupleKey(parts: seq<RowKey>)

  /** The JSON values keys are made of; `Tagged` is the object {"__tuple__": [...]}. */
  datatype Json = Num(n: int) | Str(s: string) | Tagged(items: seq<Json>)

  function EncodeKey(k: RowKey): Json {
    match k
    case IntKey(n) => Num(n)
    case StrKey(s) => Str(s)
    case TupleKey(parts) => Tagged(EncodeKeys(parts))
  }

  function EncodeKeys(ks: seq<RowKey>): (js: seq<Json>)
    ensures |js| == |ks|
  {
    if ks == [] then [] else [EncodeKey(ks[0])] + EncodeKeys(ks[1..])
  }

  function DecodeKey(j: Json): RowKey {
    match j
    case Num(n) => IntKey(n)
    case Str(s) => StrKey(s)
    case Tagged(items) => TupleKey(DecodeKeys(items))
  }

  function DecodeKeys(js: seq<Json>): (ks: seq<RowKey>)
    ensures |ks| == |js|
  {
    if js == [] then [] else [DecodeKey(js[0])] + DecodeKeys(js[1..])
  }

  lemma {:induction false} KeyRoundTrip(k: RowKey)
    ensures DecodeKey(EncodeKey(k)) == k
  {
    match k
    case IntKey(n) =>
    case StrKey(s) =>
    case TupleKey(parts) => KeysRoundTrip(parts);
  }

  lemma {:induction false} KeysRoundTrip(ks: seq<RowKey>)
    ensures DecodeKeys(EncodeKeys(ks)) == ks
  {
    if ks != [] {
      KeyRoundTrip(ks[0]);
      KeysRoundTrip(ks[1..]);
      assert EncodeKeys(ks)[1..] == EncodeKeys(ks[1..]);
    }
  }

  // -----------------------------------------------------------------
  // The torn tail
  // -----------------------------------------------------------------

  type Bytes = seq<bv8>

  const NEWLINE: bv8 := 10
  const BLOCK: nat := 4096

  predicate EndsLine(f: Bytes) {
    f == [] || f[|f| - 1] == NEWLINE
  }

  /** The longest prefix made of complete lines. */
  function CompleteLines(f: Bytes): (r: Bytes)
    ensures r <= f && EndsLine(r)
    ensures forall i :: |r| <= i < |f| ==> f[i] != NEWLINE
  {
    if EndsLine(f) then f else CompleteLines(f[..|f| - 1])
  }

  /** `bytes.rfind(b"\n")`, None for -1. */
  function LastNewline(s: Bytes): (r: Option<nat>)
    ensures r.Some? ==> r.value < |s| && s[r.value] == NEWLINE
    ensures r.Some? ==> forall i :: r.value < i < |s| ==> s[i] != NEWLINE
    ensures r == None ==> NEWLINE !in s
  {
    if s == [] then None
    else if s[|s| - 1] == NEWLINE then Some(|s| - 1)
    else LastNewline(s[..|s| - 1])
  }

  function BlockStart(f: Bytes): nat {
    if |f| <= BLOCK then 0 else |f| - BLOCK
  }

  function Truncated(f: Bytes): Bytes {
    if f == [] then f
    else
      var tail := f[BlockStart(f)..];
      if tail[|tail| - 1] == NEWLINE then f
      else
        match LastNewline(tail)
        case None => []
        case Some(i) => f[..BlockStart(f) + i + 1]
  }

  lemma TailHasNewline(f: Bytes)
    requires f != [] && NEWLINE in f[BlockStart(f)..]
    ensures Truncated(f) == CompleteLines(f)
  {
    var start, r := BlockStart(f), CompleteLines(f);
    var tail := f[start..];
    assert tail[|tail| - 1] == f[|f| - 1];
    if tail[|tail| - 1] != NEWLINE {
      var i := LastNewline(tail).value;
      assert f[start + i] == NEWLINE;
      assert |r| > start + i;
      assert r[|r| - 1] == f[|r| - 1] == tail[|r| - 1 - start] == NEWLINE;
      assert r == f[..start + i + 1];
    }
  }

  lemma TailHasNone(f: Bytes)
    requires f != [] && NEWLINE !in f[BlockStart(f)..]
    ensures Truncated(f) == []
    ensures CompleteLines(f) == [] <==> NEWLINE !in f
  {
    var r := CompleteLines(f);
    if NEWLINE in f {
      var j :| 0 <= j < |f| && f[j] == NEWLINE;
      assert |r| > j;
    }
  }

  /** Truncation keeps exactly the complete lines, unless the last line is cut
      off from every newline by more than a block: then the whole log goes. */
  lemma TruncationKeepsLinesExactly(f: Bytes)
    ensures Truncated(f) == CompleteLines(f)
            <==> NEWLINE in f[BlockStart(f)..] || NEWLINE !in f
  {
    if f != [] {
      if NEWLINE in f[BlockStart(f)..] {
        TailHasNewline(f);
      } else {
        TailHasNone(f);
      }
    }
  }

  /** Every file of at most one block is truncated correctly. */
  lemma SmallFilesKeepLines(f: Bytes)
    requires |f| <= 4096
    ensures Truncated(f) == CompleteLines(f)
  {
    TruncationKeepsLinesExactly(f);
    assert f[0..] == f;
  }

  /** One complete line followed by an unfinished one longer than a block: nothing is left. */
  lemma LongTornLineLosesLog(torn: Bytes)
    requires |torn| > 4096 && NEWLINE !in torn
    ensures Truncated([NEWLINE] + torn) == [] != CompleteLines([NEWLINE] + torn)
  {
    var f := [NEWLINE] + torn;
    assert f[BlockStart(f)..] == torn[BlockStart(f) - 1..];
    assert f[0] == NEWLINE;
  }

  class WalFile {
    var bytes: Bytes

    method TruncateTornTail()
      modifies this
      ensures bytes == Truncated(old(bytes))
    {
      if |bytes| == 0 {
        return;
      }
      var start := if |bytes| > BLOCK then |bytes| - BLOCK else 0;
      var tail := bytes[start..];
      if tail[|tail| - 1] == NEWLINE {
        return;
      }
      var lastNl := RFind(tail);
      if lastNl == -1 {
        bytes := [];
      } else {
        bytes := bytes[..start + lastNl + 1];
      }
    }

    method RFind(s: Bytes) returns (i: int)
      ensures i == (match LastNewline(s) case None => -1 case Some(n) => n)
    {
      i := |s| - 1;
      assert s[..i + 1] == s;
      while i >= 0 && s[i] != NEWLINE
        invariant -1 <= i < |s| && LastNewline(s[..i + 1]) == LastNewline(s)
      {
        assert s[..i + 1][..i] == s[..i];
        i := i - 1;
      }
      assert i >= 0 ==> s[..i + 1][i] == NEWLINE;
    }
  }

  // -----------------------------------------------------------------
  // Lines
  // -----------------------------------------------------------------

  /** Iterating over a text file: lines without their newline, a rest without
      newline counting as a line. */
  function Lines(f: Bytes): seq<Bytes>
    decreases |f|
  {
    if f == [] then []
    else
      var n := LineLength(f);
      [f[..n]] + (if n == |f| then [] else Lines(f[n + 1..]))
  }

  function LineLength(f: Bytes): (n: nat)
    ensures n <= |f| && NEWLINE !in f[..n] && (n < |f| ==> f[n] == NEWLINE)
  {
    if f == [] || f[0] == NEWLINE then 0
    else
      var m := LineLength(f[1..]);
      assert f[..m + 1] == [f[0]] + f[1..][..m];
      m + 1
  }

  lemma {:induction false} LineLengthPrefix(f: Bytes, g: Bytes)
    requires NEWLINE in f
    ensures LineLength(f + g) == LineLength(f) < |f|
  {
    if f[0] != NEWLINE {
      assert (f + g)[1..] == f[1..] + g;
      LineLengthPrefix(f[1..], g);
    }
  }

  lemma LinesSplit(f: Bytes, g: Bytes)
    requires NEWLINE in f
    ensures var n := LineLength(f); n < |f| && Lines(f + g) == [f[..n]] + Lines(f[n + 1..] + g)
  {
    LineLengthPrefix(f, g);
    var n := LineLength(f);
    assert (f + g)[n + 1..] == f[n + 1..] + g;
    assert (f + g)[..n] == f[..n];
  }

  lemma NoLines()
    ensures Lines([]) == []
  {
  }

  /** Appending to a file of complete lines appends lines. */
  lemma {:induction false} AppendLines(f: Bytes, g: Bytes)
    requires EndsLine(f)
    ensures Lines(f + g) == Lines(f) + Lines(g)
    decreases |f|
  {
    hide Lines, LineLength;
    if f == [] {
      NoLines();
      assert f + g == g;
    } else {
      assert f[|f| - 1] == NEWLINE;
      LinesSplit(f, g);
      LinesSplit(f, []);
      var rest := f[LineLength(f) + 1..];
      assert rest + [] == rest && f + [] == f;
      AppendLines(rest, g);
    }
  }

  /** An unfinished last line counts as a line. */
  lemma UnfinishedLine(f: Bytes, torn: Bytes)
    requires EndsLine(f) && torn != [] && NEWLINE !in torn
    ensures Lines(f + torn) == Lines(f) + [torn]
  {
    AppendLines(f, torn);
    var n := LineLength(torn);
    assert n < |torn| ==> NEWLINE in torn;
    assert torn[..n] == torn;
  }

  /** What the reader makes of one line. */
  datatype Parsed<T> = Blank | Rec(rec: T) | Bad

  /** The records of the log file, up to the first line that does not parse. */
  function ReadRecords<T>(lines: seq<Bytes>, parse: Bytes -> Parsed<T>): seq<T> {
    if lines == [] then []
    else
      match parse(lines[0])
      case Bad => []
      case Blank => ReadRecords(lines[1..], parse)
      case Rec(r) => [r] + ReadRecords(lines[1..], parse)
  }

  lemma {:induction false} ReadSplit<T>(a: seq<Bytes>, b: seq<Bytes>, parse: Bytes -> Parsed<T>)
    requires forall i :: 0 <= i < |a| ==> parse(a[i]) != Bad
    ensures ReadRecords(a + b, parse) == ReadRecords(a, parse) + ReadRecords(b, parse)
  {
    if a == [] {
      assert a + b == b;
    } else {
      assert (a + b)[1..] == a[1..] + b;
      ReadSplit(a[1..], b, parse);
    }
  }

  /** Reading stops at the first line that does not parse, whatever comes behind it; blank
      lines are passed over. */
  lemma ReadStops<T>(a: seq<Bytes>, l: Bytes, b: seq<Bytes>, parse: Bytes -> Parsed<T>)
    requires forall i :: 0 <= i < |a| ==> parse(a[i]) != Bad
    ensures parse(l) == Bad ==> ReadRecords(a + [l] + b, parse) == ReadRecords(a, parse)
    ensures parse(l) == Blank ==> ReadRecords(a + [l] + b, parse) == ReadRecords(a + b, parse)
  {
    ReadSplit(a, [l] + b, parse);
    ReadSplit(a, b, parse);
    assert a + [l] + b == a + ([l] + b) && ([l] + b)[1..] == b;
  }

  /** Reopening after a crash: the complete lines of the old file are read back,
      and whatever is appended afterwards is read behind them. */
  lemma ReopenAndAppend<T>(f: Bytes, g: Bytes, parse: Bytes -> Parsed<T>)
    requires NEWLINE in f[BlockStart(f)..] || NEWLINE !in f
    requires forall i :: 0 <= i < |Lines(CompleteLines(f))| ==> parse(Lines(CompleteLines(f))[i]) != Bad
    ensures ReadRecords(Lines(Truncated(f) + g), parse)
         == ReadRecords(Lines(CompleteLines(f)), parse) + ReadRecords(Lines(g), parse)
  {
    TruncationKeepsLinesExactly(f);
    AppendLines(CompleteLines(f), g);
    ReadSplit(Lines(CompleteLines(f)), Lines(g), parse);
  }

  // -----------------------------------------------------------------
  // Reading the records
  // -----------------------------------------------------------------

  datatype Record<R> =
    | BeginRec(t: TxId)
    | InsertRec(t: TxId, k: Key, row: R)
    | UpdateRec(t: TxId, k: Key, row: R)
    | DeleteRec(t: TxId, k: Key)
    | CommitRec(t: TxId)
    | AbortRec(t: TxId)
  {
    predicate IsOutcome() { CommitRec? || AbortRec? }
  }

  /** The transactions with a commit record and no abort record. */
  ghost predicate CommittedIn<R>(log: seq<Record<R>>, t: TxId) {
    CommitRec(t) in log && AbortRec(t) !in log
  }

  /** Their begin and data records, in log order. */
  function Kept<R>(log: seq<Record<R>>, committed: set<TxId>): seq<Record<R>> {
    if log == [] then []
    else
      var r := log[|log| - 1];
      Kept(log[..|log| - 1], committed) + if !r.IsOutcome() && r.t in committed then [r] else []
  }

  method ReadWal<R>(log: seq<Record<R>>) returns (committed: set<TxId>, records: seq<Record<R>>)
    ensures forall t :: t in committed <==> CommittedIn(log, t)
    ensures records == Kept(log, committed)
  {
    committed := {};
    var aborted: set<TxId> := {};
    var all: seq<Record<R>> := [];
    var i := 0;
    while i < |log|
      invariant i <= |log|
      invariant forall t :: t in committed <==> CommitRec(t) in log[..i]
      invariant forall t :: t in aborted <==> AbortRec(t) in log[..i]
      invariant forall c :: Kept(all, c) == Kept(log[..i], c)
      invariant forall r :: r in all ==> !r.IsOutcome()
    {
      var r := log[i];
      assert log[..i + 1][..i] == log[..i];
      if r.CommitRec? {
        committed := committed + {r.t};
      } else if r.AbortRec? {
        aborted := aborted + {r.t};
      } else {
        assert (all + [r])[..|all|] == all;
        all := all + [r];
      }
      i := i + 1;
    }
    assert log[..i] == log;
    committed := committed - aborted;
    records := [];
    var j := 0;
    while j < |all|
      invariant j <= |all| && records == Kept(all[..j], committed)
    {
      assert all[..j + 1][..j] == all[..j];
      if all[j].t in committed {
        records := records + [all[j]];
      }
      j := j + 1;
    }
    assert all[..j] == all;
  }
}
