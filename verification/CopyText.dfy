/**
The filtered snapshot copy: rows in COPY text format, cut into chunks anywhere,
kept or skipped by their shard key (`crates/pgshard-repl/src/copy.rs`; section
"Text Format" of the COPY reference page of the PostgreSQL documentation).
*/
module CopyText {
  import opened Wrappers
  import opened Bytes
  import opened Keyspace
  import opened Rows
  import F = Filter
  import Scalar

  const TAB: Byte := 9
  const NEWLINE: Byte := 10
  const BACKSLASH: Byte := 92
  const NULL_MARK: seq<Byte> := [92, 78]

  // ---------------------------------------------------------------- fields

  /** COPY TO: the letter that stands for a byte after a backslash, or 0. */
  function EscapeLetter(b: Byte): Byte {
    if b == 8 then 98 else if b == 12 then 102 else if b == 10 then 110 else if b == 13 then 114
    else if b == 9 then 116 else if b == 11 then 118 else if b == BACKSLASH then BACKSLASH else 0
  }

  function EscapeBytes(s: seq<Byte>): seq<Byte> {
    if s == [] then []
    else (if EscapeLetter(s[0]) != 0 then [BACKSLASH, EscapeLetter(s[0])] else [s[0]]) + EscapeBytes(s[1..])
  }

  /** COPY TO's form of one nullable value. */
  function EscapeField(v: Value): seq<Byte> {
    if v.Null? then NULL_MARK else EscapeBytes(v.bytes)
  }

  /** The byte a backslashed letter stands for; any other character is itself. */
  function Unletter(b: Byte): Byte {
    if b == 98 then 8 else if b == 102 then 12 else if b == 110 then 10 else if b == 114 then 13
    else if b == 116 then 9 else if b == 118 then 11 else b
  }

  function UnescapeBytes(s: seq<Byte>): seq<Byte> {
    if s == [] then []
    else if s[0] == BACKSLASH && |s| > 1 then [Unletter(s[1])] + UnescapeBytes(s[2..])
    else [s[0]] + UnescapeBytes(s[1..])
  }

  function UnescapeField(field: seq<Byte>): Value {
    if field == NULL_MARK then Null else Text(UnescapeBytes(field))
  }

  /** The index loop of the field decoder. */
  method CopyFieldUnescape(field: seq<Byte>) returns (v: Value)
    ensures v == UnescapeField(field)
  {
    if field == NULL_MARK {
      return Null;
    }
    var out: seq<Byte> := [];
    var i := 0;
    while i < |field|
      invariant 0 <= i <= |field|
      invariant UnescapeBytes(field) == out + UnescapeBytes(field[i..])
    {
      if field[i] == BACKSLASH && i + 1 < |field| {
        assert field[i..][2..] == field[i + 2..];
        out := out + [Unletter(field[i + 1])];
        i := i + 2;
      } else {
        assert field[i..][1..] == field[i + 1..];
        out := out + [field[i]];
        i := i + 1;
      }
    }
    return Text(out);
  }

  lemma {:induction false} UnescapeEscapeBytes(s: seq<Byte>)
    ensures UnescapeBytes(EscapeBytes(s)) == s
  {
    if s != [] {
      UnescapeEscapeBytes(s[1..]);
      var rest := EscapeBytes(s[1..]);
      if EscapeLetter(s[0]) != 0 {
        assert EscapeBytes(s)[2..] == rest;
        assert Unletter(EscapeLetter(s[0])) == s[0];
      } else {
        assert EscapeBytes(s)[1..] == rest;
      }
    }
  }

  /** NULL is never confused with the value backslash-N, nor with any other value. */
  lemma {:induction false} EscapedIsNotNull(s: seq<Byte>)
    ensures EscapeBytes(s) != NULL_MARK
  {
    if s != [] {
      if EscapeLetter(s[0]) != 0 {
        assert EscapeBytes(s)[1] == EscapeLetter(s[0]);
      } else {
        assert EscapeBytes(s)[0] == s[0];
      }
    }
  }

  /** Decoding a field undoes encoding it. */
  lemma UnescapeEscape(v: Value)
    ensures UnescapeField(EscapeField(v)) == v
  {
    if v.Text? {
      EscapedIsNotNull(v.bytes);
      UnescapeEscapeBytes(v.bytes);
    }
  }

  predicate Plain(s: seq<Byte>) {
    forall i | 0 <= i < |s| :: s[i] != TAB && s[i] != NEWLINE
  }

  lemma {:induction false} EscapedIsPlain(s: seq<Byte>)
    ensures Plain(EscapeBytes(s))
  {
    if s != [] {
      EscapedIsPlain(s[1..]);
    }
  }

  lemma FieldIsPlain(v: Value)
    ensures Plain(EscapeField(v))
  {
    if v.Text? {
      EscapedIsPlain(v.bytes);
    }
  }

  // ------------------------------------------------------------------ rows

  /** The fields of a row, tab between them. */
  function JoinFields(row: Row): seq<Byte> {
    if row == [] then []
    else if |row| == 1 then EscapeField(row[0])
    else EscapeField(row[0]) + [TAB] + JoinFields(row[1..])
  }

  /** COPY TO's form of a row, with its terminator. */
  function EncodeRow(row: Row): seq<Byte> {
    JoinFields(row) + [NEWLINE]
  }

  /** The position of `b` in `s`, or the length of `s`. */
  function Position(s: seq<Byte>, b: Byte): (p: nat)
    ensures p <= |s|
    ensures p < |s| ==> s[p] == b
    ensures forall i | 0 <= i < p :: s[i] != b
  {
    if s == [] || s[0] == b then 0 else 1 + Position(s[1..], b)
  }

  lemma {:induction false} PositionIs(s: seq<Byte>, b: Byte, p: nat)
    requires p <= |s| && (p < |s| ==> s[p] == b)
    requires forall i | 0 <= i < p :: s[i] != b
    ensures Position(s, b) == p
  {
  }

  /** The tab-separated fields of a line. */
  function SplitFields(line: seq<Byte>): (fields: seq<seq<Byte>>)
    ensures |fields| > 0
    decreases |line|
  {
    var p := Position(line, TAB);
    if p == |line| then [line] else [line[..p]] + SplitFields(line[p + 1..])
  }

  lemma {:induction false} SplitJoin(row: Row)
    requires row != []
    ensures |SplitFields(JoinFields(row))| == |row|
    ensures forall k | 0 <= k < |row| :: SplitFields(JoinFields(row))[k] == EscapeField(row[k])
  {
    var field, line := EscapeField(row[0]), JoinFields(row);
    FieldIsPlain(row[0]);
    PositionIs(line, TAB, |field|);
    if |row| > 1 {
      assert line[..|field|] == field;
      assert line[|field| + 1..] == JoinFields(row[1..]);
      SplitJoin(row[1..]);
    }
  }

  lemma {:induction false} JoinedHasNoNewline(row: Row)
    ensures NEWLINE !in JoinFields(row)
  {
    if row != [] {
      FieldIsPlain(row[0]);
      JoinedHasNoNewline(row[1..]);
    }
  }

  /** COPY FROM's reading of a line. */
  function DecodeRow(bytes: seq<Byte>): (row: Row) {
    var line := if |bytes| > 0 && bytes[|bytes| - 1] == NEWLINE then bytes[..|bytes| - 1] else bytes;
    var fields := SplitFields(line);
    seq(|fields|, k requires 0 <= k < |fields| => UnescapeField(fields[k]))
  }

  /** A row read back is the row written. */
  lemma RowRoundTrip(row: Row)
    requires row != []
    ensures DecodeRow(EncodeRow(row)) == row
  {
    assert EncodeRow(row)[..|EncodeRow(row)| - 1] == JoinFields(row);
    SplitJoin(row);
    forall k | 0 <= k < |row| ensures DecodeRow(EncodeRow(row))[k] == row[k] {
      UnescapeEscape(row[k]);
    }
  }

  // -------------------------------------------------------------- decision

  datatype CopyError =
    | MalformedCopy
    | Filtering(error: F.FilterError)

  datatype Spec = Spec(keyIndex: nat, ty: Scalar.ScalarType, hash: F.ShardFn, range: KeyRange)

  /** Whether one COPY row belongs to the range. `row` includes its terminator. */
  function Decision(spec: Spec, row: seq<Byte>): Result<bool, CopyError> {
    var line := if |row| > 0 && row[|row| - 1] == NEWLINE then row[..|row| - 1] else row;
    var fields := SplitFields(line);
    if spec.keyIndex >= |fields| then Err(MalformedCopy)
    else
      var v := UnescapeField(fields[spec.keyIndex]);
      if v.Null? then Err(Filtering(F.UnroutableCell))
      else
        var id := F.BytesKeyspaceId(v.bytes, spec.ty, spec.hash);
        if id.Err? then Err(Filtering(id.error)) else Ok(spec.range.Contains(id.value))
  }

  method RowInRange(spec: Spec, row: seq<Byte>) returns (r: Result<bool, CopyError>)
    ensures r == Decision(spec, row)
  {
    var line := if |row| > 0 && row[|row| - 1] == NEWLINE then row[..|row| - 1] else row;
    var fields := SplitFields(line);
    if spec.keyIndex >= |fields| {
      return Err(MalformedCopy);
    }
    var v := CopyFieldUnescape(fields[spec.keyIndex]);
    if v.Null? {
      return Err(Filtering(F.UnroutableCell));
    }
    if !Utf8(v.bytes) {
      return Err(Filtering(F.InvalidUtf8));
    }
    var id := F.TextKeyspaceId(v.bytes, spec.ty, spec.hash);
    if id.Err? {
      return Err(Filtering(id.error));
    }
    return Ok(spec.range.Contains(id.value));
  }

  /** The decision on an encoded row is the decision on its key value. */
  lemma DecisionOnRow(spec: Spec, row: Row)
    requires spec.keyIndex < |row|
    ensures Decision(spec, EncodeRow(row)) ==
      if row[spec.keyIndex].Null? then Err(Filtering(F.UnroutableCell))
      else
        var id := F.BytesKeyspaceId(row[spec.keyIndex].bytes, spec.ty, spec.hash);
        if id.Err? then Err(Filtering(id.error)) else Ok(spec.range.Contains(id.value))
  {
    assert EncodeRow(row)[..|EncodeRow(row)| - 1] == JoinFields(row);
    SplitJoin(row);
    UnescapeEscape(row[spec.keyIndex]);
  }

  // ---------------------------------------------------------------- stream

  function Concat(chunks: seq<seq<Byte>>): seq<Byte> {
    if chunks == [] then [] else Concat(chunks[..|chunks| - 1]) + chunks[|chunks| - 1]
  }

  /** The complete lines of `s`, each with its terminator. */
  function Lines(s: seq<Byte>): seq<seq<Byte>>
    decreases |s|
  {
    var p := Position(s, NEWLINE);
    if p == |s| then [] else [s[..p + 1]] + Lines(s[p + 1..])
  }

  /** What follows the last complete line. */
  function Rest(s: seq<Byte>): seq<Byte>
    decreases |s|
  {
    var p := Position(s, NEWLINE);
    if p == |s| then s else Rest(s[p + 1..])
  }

  datatype Outcome = Outcome(sent: seq<seq<Byte>>, error: Option<CopyError>)

  type Decider = seq<Byte> -> Result<bool, CopyError>

  function Decide(spec: Spec): Decider {
    row => Decision(spec, row)
  }

  /** The rows kept, in order, up to the first one that cannot be decided. */
  function Keep(decide: Decider, rows: seq<seq<Byte>>): Outcome {
    if rows == [] then Outcome([], None)
    else
      var before := Keep(decide, rows[..|rows| - 1]);
      if before.error.Some? then before
      else
        match decide(rows[|rows| - 1])
        case Err(e) => before.(error := Some(e))
        case Ok(keep) => if keep then before.(sent := before.sent + [rows[|rows| - 1]]) else before
  }

  /** The copy of a whole byte stream. */
  function CopyAll(spec: Spec, bytes: seq<Byte>): Outcome {
    var kept := Keep(Decide(spec), Lines(bytes));
    if kept.error.None? && Rest(bytes) != [] then kept.(error := Some(MalformedCopy)) else kept
  }

  lemma {:induction false} RestUnended(s: seq<Byte>)
    requires s != [] && s[|s| - 1] != NEWLINE
    ensures Rest(s) != []
    decreases |s|
  {
    var p := Position(s, NEWLINE);
    if p < |s| {
      assert s[p + 1..][|s| - p - 2] == s[|s| - 1];
      RestUnended(s[p + 1..]);
    }
  }

  /** A copy cut off inside a line is never taken for complete. */
  lemma CutOffFails(spec: Spec, bytes: seq<Byte>)
    requires bytes != [] && bytes[|bytes| - 1] != NEWLINE
    ensures CopyAll(spec, bytes).error.Some?
  {
    RestUnended(bytes);
  }

  lemma {:induction false} FirstLine(s: seq<Byte>, p: nat)
    requires p < |s| && s[p] == NEWLINE && forall i | 0 <= i < p :: s[i] != NEWLINE
    ensures Lines(s) == [s[..p + 1]] + Lines(s[p + 1..])
    ensures Rest(s) == Rest(s[p + 1..])
  {
    PositionIs(s, NEWLINE, p);
  }

  lemma {:induction false} NoLine(s: seq<Byte>)
    requires Position(s, NEWLINE) == |s|
    ensures Lines(s) == [] && Rest(s) == s
  {
  }

  lemma Assoc<T>(a: seq<T>, b: seq<T>, c: seq<T>)
    ensures a + (b + c) == (a + b) + c
  {
  }

  lemma FirstLineAppend(a: seq<Byte>, b: seq<Byte>, p: nat)
    requires p < |a| && a[p] == NEWLINE && forall i | 0 <= i < p :: a[i] != NEWLINE
    ensures Lines(a + b) == [a[..p + 1]] + Lines(a[p + 1..] + b)
    ensures Rest(a + b) == Rest(a[p + 1..] + b)
  {
    FirstLine(a + b, p);
    assert (a + b)[..p + 1] == a[..p + 1];
    assert (a + b)[p + 1..] == a[p + 1..] + b;
  }

  lemma {:induction false} LinesAppend(a: seq<Byte>, b: seq<Byte>)
    ensures Lines(a + b) == Lines(a) + Lines(Rest(a) + b)
    ensures Rest(a + b) == Rest(Rest(a) + b)
    decreases |a|
  {
    var p := Position(a, NEWLINE);
    if p < |a| {
      FirstLine(a, p);
      FirstLineAppend(a, b, p);
      LinesAppend(a[p + 1..], b);
      Assoc([a[..p + 1]], Lines(a[p + 1..]), Lines(Rest(a) + b));
    } else {
      NoLine(a);
      Assoc([], [], Lines(a + b));
    }
  }

  lemma {:induction false} KeepStops(decide: Decider, rows: seq<seq<Byte>>, n: nat)
    requires n <= |rows| && Keep(decide, rows[..n]).error.Some?
    ensures Keep(decide, rows) == Keep(decide, rows[..n])
  {
    if n < |rows| {
      assert rows[..|rows| - 1][..n] == rows[..n];
      KeepStops(decide, rows[..|rows| - 1], n);
    } else {
      assert rows[..n] == rows;
    }
  }

  lemma {:induction false} KeepStopsEarly(decide: Decider, done: seq<seq<Byte>>, later: seq<seq<Byte>>)
    requires Keep(decide, done).error.Some?
    ensures Keep(decide, done + later) == Keep(decide, done)
  {
    assert (done + later)[..|done|] == done;
    KeepStops(decide, done + later, |done|);
  }

  lemma {:induction false} KeepMore(decide: Decider, done: seq<seq<Byte>>, row: seq<Byte>)
    requires Keep(decide, done).error.None?
    ensures Keep(decide, done + [row]) ==
      match decide(row)
      case Err(e) => Outcome(Keep(decide, done).sent, Some(e))
      case Ok(keep) => if keep then Outcome(Keep(decide, done).sent + [row], None) else Keep(decide, done)
  {
    assert (done + [row])[..|done|] == done;
  }

  /**
  The copy loop. Whatever the cut into chunks, the rows sent, the count and the
  failure are those of the whole byte stream.
  */
  method StreamFiltered(chunks: seq<seq<Byte>>, spec: Spec) returns (r: Result<nat, CopyError>, sent: seq<seq<Byte>>)
    ensures var whole := CopyAll(spec, Concat(chunks));
      && sent == whole.sent
      && r == if whole.error.Some? then Err(whole.error.value) else Ok(|sent|)
  {
    var buf: seq<Byte> := [];
    var copied := 0;
    sent := [];
    ghost var done: seq<seq<Byte>> := [];
    for i := 0 to |chunks|
      invariant Lines(Concat(chunks[..i])) == done && Rest(Concat(chunks[..i])) == buf
      invariant Keep(Decide(spec), done) == Outcome(sent, None) && copied == |sent|
    {
      assert chunks[..i + 1][..i] == chunks[..i];
      LinesAppend(Concat(chunks[..i]), chunks[i]);
      buf := buf + chunks[i];
      ghost var total := Concat(chunks[..i + 1]);
      var nl := Position(buf, NEWLINE);
      while nl < |buf|
        invariant nl == Position(buf, NEWLINE)
        invariant Lines(total) == done + Lines(buf) && Rest(total) == Rest(buf)
        invariant Keep(Decide(spec), done) == Outcome(sent, None) && copied == |sent|
        decreases |buf|
      {
        var row := buf[..nl + 1];
        FirstLine(buf, nl);
        Assoc(done, [row], Lines(buf[nl + 1..]));
        buf := buf[nl + 1..];
        var keep := RowInRange(spec, row);
        KeepMore(Decide(spec), done, row);
        done := done + [row];
        if keep.Err? {
          CopyStops(spec, chunks, i + 1, done, Lines(buf));
          return Err(keep.error), sent;
        }
        if keep.value {
          sent := sent + [row];
          copied := copied + 1;
        }
        nl := Position(buf, NEWLINE);
      }
      NoLine(buf);
      Assoc(done, [], []);
    }
    assert chunks[..|chunks|] == chunks;
    if buf != [] {
      return Err(MalformedCopy), sent;
    }
    return Ok(copied), sent;
  }

  lemma {:induction false} ConcatSplit(chunks: seq<seq<Byte>>, n: nat) returns (tail: seq<Byte>)
    requires n <= |chunks|
    ensures Concat(chunks) == Concat(chunks[..n]) + tail
  {
    if n == |chunks| {
      assert chunks[..n] == chunks;
      tail := [];
    } else {
      var before := ConcatSplit(chunks[..|chunks| - 1], n);
      assert chunks[..|chunks| - 1][..n] == chunks[..n];
      tail := before + chunks[|chunks| - 1];
    }
  }

  /** A row that cannot be decided stops the copy, whatever comes after it. */
  lemma {:induction false} CopyStops(spec: Spec, chunks: seq<seq<Byte>>, n: nat, done: seq<seq<Byte>>, later: seq<seq<Byte>>)
    requires n <= |chunks| && Lines(Concat(chunks[..n])) == done + later
    requires Keep(Decide(spec), done).error.Some?
    ensures CopyAll(spec, Concat(chunks)) == Keep(Decide(spec), done)
  {
    var tail := ConcatSplit(chunks, n);
    var seen := Concat(chunks[..n]);
    LinesAppend(seen, tail);
    var rest := Lines(Rest(seen) + tail);
    Assoc(done, later, rest);
    KeepStopsEarly(Decide(spec), done, later + rest);
  }

  // ----------------------------------------------------------- whole tables

  function EncodeTable(rows: seq<Row>): seq<Byte> {
    if rows == [] then [] else EncodeTable(rows[..|rows| - 1]) + EncodeRow(rows[|rows| - 1])
  }

  function EncodeRows(rows: seq<Row>): (lines: seq<seq<Byte>>)
    ensures |lines| == |rows| && forall i | 0 <= i < |rows| :: lines[i] == EncodeRow(rows[i])
  {
    seq(|rows|, i requires 0 <= i < |rows| => EncodeRow(rows[i]))
  }

  lemma LineOfRow(row: Row)
    ensures Lines(EncodeRow(row)) == [EncodeRow(row)] && Rest(EncodeRow(row)) == []
  {
    JoinedHasNoNewline(row);
    var line := EncodeRow(row);
    PositionIs(line, NEWLINE, |line| - 1);
    assert line[..|line|] == line;
    assert line[|line|..] == [];
  }

  lemma {:induction false} LinesOfTable(rows: seq<Row>)
    ensures Lines(EncodeTable(rows)) == EncodeRows(rows) && Rest(EncodeTable(rows)) == []
  {
    if rows != [] {
      var init, last := rows[..|rows| - 1], rows[|rows| - 1];
      LinesOfTable(init);
      LinesAppend(EncodeTable(init), EncodeRow(last));
      assert [] + EncodeRow(last) == EncodeRow(last);
      LineOfRow(last);
      assert EncodeRows(rows) == EncodeRows(init) + [EncodeRow(last)];
    }
  }

  /** The id of a row's key value, if it is routable. */
  function RowId64(spec: Spec, row: Row): Option<U64>
    requires spec.keyIndex < |row|
  {
    if row[spec.keyIndex].Null? then None
    else
      var id := F.BytesKeyspaceId(row[spec.keyIndex].bytes, spec.ty, spec.hash);
      if id.Err? then None else Some(id.value)
  }

  ghost predicate Routable(spec: Spec, rows: seq<Row>) {
    forall i | 0 <= i < |rows| :: spec.keyIndex < |rows[i]| && RowId64(spec, rows[i]).Some?
  }

  /** The marked rows, in order. */
  function Pick<T>(rows: seq<T>, marks: seq<bool>): seq<T>
    requires |marks| == |rows|
  {
    if rows == [] then []
    else
      var n := |rows| - 1;
      if marks[n] then Pick(rows[..n], marks[..n]) + [rows[n]] else Pick(rows[..n], marks[..n])
  }

  lemma {:induction false} KeepPicks(decide: Decider, lines: seq<seq<Byte>>, marks: seq<bool>)
    requires |marks| == |lines| && forall i | 0 <= i < |lines| :: decide(lines[i]) == Ok(marks[i])
    ensures Keep(decide, lines) == Outcome(Pick(lines, marks), None)
  {
    if lines != [] {
      KeepPicks(decide, lines[..|lines| - 1], marks[..|lines| - 1]);
    }
  }

  lemma {:induction false} PickEncoded(rows: seq<Row>, marks: seq<bool>)
    requires |marks| == |rows|
    ensures Pick(EncodeRows(rows), marks) == EncodeRows(Pick(rows, marks))
  {
    if rows != [] {
      var n := |rows| - 1;
      PickEncoded(rows[..n], marks[..n]);
      assert EncodeRows(rows)[..n] == EncodeRows(rows[..n]);
      var init := Pick(rows[..n], marks[..n]);
      assert EncodeRows(init + [rows[n]]) == EncodeRows(init) + [EncodeRow(rows[n])];
    }
  }

  /** Which rows have their key in the range. */
  function InRangeMarks(spec: Spec, rows: seq<Row>): (marks: seq<bool>)
    requires Routable(spec, rows)
    ensures |marks| == |rows|
    ensures forall i | 0 <= i < |rows| :: marks[i] <==> spec.range.Contains(RowId64(spec, rows[i]).value)
  {
    seq(|rows|, i requires 0 <= i < |rows| => spec.range.Contains(RowId64(spec, rows[i]).value))
  }

  /**
  The copy forwards exactly the in-range rows, in order and byte for byte, for every
  table with routable keys and every cut of its COPY text into chunks.
  */
  lemma {:induction false} CopyForwardsInRange(spec: Spec, rows: seq<Row>, chunks: seq<seq<Byte>>)
    requires Routable(spec, rows) && Concat(chunks) == EncodeTable(rows)
    ensures CopyAll(spec, Concat(chunks)) == Outcome(EncodeRows(Pick(rows, InRangeMarks(spec, rows))), None)
  {
    var marks := InRangeMarks(spec, rows);
    forall i | 0 <= i < |rows| ensures Decide(spec)(EncodeRow(rows[i])) == Ok(marks[i]) {
      DecisionOnRow(spec, rows[i]);
    }
    LinesOfTable(rows);
    KeepPicks(Decide(spec), EncodeRows(rows), marks);
    PickEncoded(rows, marks);
  }

  lemma {:induction false} KeepFails(decide: Decider, lines: seq<seq<Byte>>, i: nat)
    requires i < |lines| && decide(lines[i]).Err?
    ensures Keep(decide, lines).error.Some?
  {
    if i < |lines| - 1 {
      KeepFails(decide, lines[..|lines| - 1], i);
    }
  }

  /** A table with a row whose key cannot be routed is never copied as if complete. */
  lemma {:induction false} UnroutableFails(spec: Spec, rows: seq<Row>, chunks: seq<seq<Byte>>, i: nat)
    requires i < |rows| && spec.keyIndex < |rows[i]| && RowId64(spec, rows[i]).None?
    requires Concat(chunks) == EncodeTable(rows)
    ensures CopyAll(spec, Concat(chunks)).error.Some?
  {
    DecisionOnRow(spec, rows[i]);
    LinesOfTable(rows);
    KeepFails(Decide(spec), EncodeRows(rows), i);
  }
}
