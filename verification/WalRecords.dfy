/** The writer's own reader of the log, on the engine's side, against the recovery of the client. It looks for
    the torn line among the non-blank ones, so a blank torn tail makes it drop the line before it. */
module WalRecords {
  import opened Common
  import opened WalText

  type Spaces = char -> bool

  predicate Blank(space: Spaces, line: string) {
    forall i :: 0 <= i < |line| ==> space(line[i])
  }

  predicate BlankFrom(space: Spaces, parts: seq<string>, from: nat) {
    forall i :: from <= i < |parts| ==> Blank(space, parts[i])
  }

  /** Blank lines carry no record, whatever else the syntax is. */
  ghost predicate SkipsBlank(space: Spaces, parse: Parser) {
    forall line :: Blank(space, line) ==> parse(line).None?
  }

  predicate Skipped(space: Spaces, parts: seq<string>, terminated: bool, i: nat)
    requires i < |parts|
  {
    Blank(space, parts[i]) || (!terminated && BlankFrom(space, parts, i + 1))
  }

  /** The lines among the first `n` that are handed to the JSON parser. */
  function Kept(space: Spaces, parts: seq<string>, terminated: bool, n: nat): seq<string>
    requires n <= |parts|
  {
    if n == 0 then []
    else
      var before := Kept(space, parts, terminated, n - 1);
      if Skipped(space, parts, terminated, n - 1) then before else before + [parts[n - 1]]
  }

  predicate Terminated(text: string) {
    text != "" && text[|text| - 1] == '\n'
  }

  function Records(space: Spaces, parse: Parser, text: string): seq<Row> {
    Rows(parse, Kept(space, Split(text), Terminated(text), |Split(text)|))
  }

  method ReadWalRecords(file: Option<string>, parse: Parser, space: Spaces) returns (records: seq<Row>)
    ensures records == if file.None? then [] else Records(space, parse, file.value)
  {
    records := [];
    if file.None? {
      return;
    }
    var raw := file.value;
    var parts := Split(raw);
    var terminated := Terminated(raw);
    for i := 0 to |parts|
      invariant records == Rows(parse, Kept(space, parts, terminated, i))
    {
      if Blank(space, parts[i]) {
        continue;
      }
      var isLastNonEmpty := BlankFrom(space, parts, i + 1);
      if isLastNonEmpty && !terminated {
        continue;
      }
      RowsOneMore(parse, Kept(space, parts, terminated, i), parts[i]);
      var record := parse(parts[i]);
      if record.Some? {
        records := records + [record.value];
      }
    }
  }

  // ---- Against the recovery's reading ------------------------------------------------

  lemma {:induction false} TailAndTermination(text: string)
    ensures Tail(text) == "" <==> text == "" || Terminated(text)
  {
    if text == "" {
    } else {
      TailAndTermination(text[1..]);
    }
  }

  /** Up to `n`, dropping blank lines only loses no record. */
  lemma {:induction false} OnlyBlanksSkipped(space: Spaces, parse: Parser, parts: seq<string>, terminated: bool, n: nat)
    requires SkipsBlank(space, parse) && n <= |parts|
    requires forall i: nat :: i < n ==> (Skipped(space, parts, terminated, i) <==> Blank(space, parts[i]))
    ensures Rows(parse, Kept(space, parts, terminated, n)) == Rows(parse, parts[..n])
  {
    if n == 0 {
    } else {
      OnlyBlanksSkipped(space, parse, parts, terminated, n - 1);
      assert parts[..n] == parts[..n - 1] + [parts[n - 1]];
      RowsOneMore(parse, parts[..n - 1], parts[n - 1]);
      RowsOneMore(parse, Kept(space, parts, terminated, n - 1), parts[n - 1]);
    }
  }

  lemma {:induction false} BlanksAddNothing(space: Spaces, parse: Parser, parts: seq<string>, from: nat, n: nat)
    requires SkipsBlank(space, parse) && from <= n <= |parts|
    requires forall i :: from <= i < n ==> Blank(space, parts[i])
    ensures Rows(parse, parts[..n]) == Rows(parse, parts[..from])
  {
    if from < n {
      BlanksAddNothing(space, parse, parts, from, n - 1);
      assert parts[..n] == parts[..n - 1] + [parts[n - 1]];
      RowsOneMore(parse, parts[..n - 1], parts[n - 1]);
    }
  }

  lemma {:induction false} SkippedAddNothing(space: Spaces, parts: seq<string>, terminated: bool, from: nat, n: nat)
    requires from <= n <= |parts|
    requires forall i: nat :: from <= i < n ==> Skipped(space, parts, terminated, i)
    ensures Kept(space, parts, terminated, n) == Kept(space, parts, terminated, from)
  {
    if from < n {
      SkippedAddNothing(space, parts, terminated, from, n - 1);
    }
  }

  /** The last complete line that is not blank. */
  predicate LastWritten(space: Spaces, lines: seq<string>, i: int) {
    0 <= i < |lines| && !Blank(space, lines[i]) && forall k :: i < k < |lines| ==> Blank(space, lines[k])
  }

  lemma {:induction false} LastWrittenExists(space: Spaces, lines: seq<string>, from: nat) returns (i: int)
    requires from < |lines| && !Blank(space, lines[from])
    ensures LastWritten(space, lines, i)
    decreases |lines| - from
  {
    if k :| from < k < |lines| && !Blank(space, lines[k]) {
      i := LastWrittenExists(space, lines, k);
    } else {
      i := from;
    }
  }

  /** The torn tail is blank, and the last line written before it holds a record. */
  ghost predicate LosesALine(space: Spaces, parse: Parser, text: string) {
    && Tail(text) != "" && Blank(space, Tail(text))
    && exists i :: LastWritten(space, CompleteLines(text), i) && parse(CompleteLines(text)[i]).Some?
  }

  lemma BlankTail(space: Spaces, parse: Parser, text: string, i: int)
    requires SkipsBlank(space, parse)
    requires Tail(text) != "" && Blank(space, Tail(text)) && LastWritten(space, CompleteLines(text), i)
    ensures Rows(parse, CompleteLines(text)) ==
            Records(space, parse, text) + if parse(CompleteLines(text)[i]).Some?
                then [parse(CompleteLines(text)[i]).value] else []
  {
    var parts, lines := Split(text), CompleteLines(text);
    TailAndTermination(text);
    assert parts == lines + [Tail(text)];
    assert lines[..|lines|] == lines;
    SkippedAddNothing(space, parts, false, i, |parts|);
    OnlyBlanksSkipped(space, parse, parts, false, i);
    BlanksAddNothing(space, parse, lines, i + 1, |lines|);
    assert lines[..i + 1] == lines[..i] + [lines[i]] && parts[..i] == lines[..i];
    RowsOneMore(parse, lines[..i], lines[i]);
  }

  /** The two readers see the same records of a file exactly when no line is lost to a blank torn tail. */
  lemma SameRecordsIff(space: Spaces, parse: Parser, text: string)
    requires SkipsBlank(space, parse)
    ensures Records(space, parse, text) == Rows(parse, CompleteLines(text)) <==> !LosesALine(space, parse, text)
  {
    var parts, lines := Split(text), CompleteLines(text);
    var n := |lines|;
    TailAndTermination(text);
    assert parts == lines + [Tail(text)] && parts[..n] == lines;
    if i :| 0 <= i < n && !Blank(space, lines[i]) && Tail(text) != "" && Blank(space, Tail(text)) {
      var last := LastWrittenExists(space, lines, i);
      BlankTail(space, parse, text, last);
      assert forall k :: LastWritten(space, lines, k) ==> k == last;
    } else {
      assert Skipped(space, parts, Terminated(text), n);
      SkippedAddNothing(space, parts, Terminated(text), n, n + 1);
      OnlyBlanksSkipped(space, parse, parts, Terminated(text), n);
    }
  }

  /** After a crash at any byte of a written log the two readers agree: a record never starts with a space. */
  lemma ReadersAgreeAfterACrash(space: Spaces, encode: Encoder, parse: Parser, rows: seq<Row>, cut: nat, m: nat)
    requires Codec(encode, parse) && SkipsBlank(space, parse)
    requires forall r :: !space(encode(r)[0])
    requires m <= |rows| && |LogText(encode, rows[..m])| <= cut <= |LogText(encode, rows)|
    requires m < |rows| ==> cut < |LogText(encode, rows[..m + 1])|
    ensures Records(space, parse, LogText(encode, rows)[..cut]) == rows[..m]
  {
    var text := LogText(encode, rows)[..cut];
    TornLog(encode, parse, rows, cut, m);
    SameRecordsIff(space, parse, text);
    if Tail(text) != "" {
      assert Tail(text)[0] == encode(rows[m])[0];
    }
  }

  /** A record appended behind a torn line is lost here too, and only there. */
  lemma AppendedIsReadIff(space: Spaces, encode: Encoder, parse: Parser, text: string, row: Row)
    requires Codec(encode, parse) && SkipsBlank(space, parse) && Unglued(encode, parse, Tail(text))
    ensures Records(space, parse, text + encode(row) + "\n") ==
            Rows(parse, CompleteLines(text)) + if Tail(text) == "" then [row] else []
  {
    AppendLine(text, encode(row));
    SameRecordsIff(space, parse, text + encode(row) + "\n");
    AppendedRow(encode, parse, text, row);
  }
}
