/** The write-ahead log as text: one record a line, the last line possibly torn by a crash.
    A record's JSON syntax is an abstract partial parse of one trimmed line. */
module WalText {
  import opened Common

  /** A parsed record with the fields the readers look at; absent or ill-typed fields are None. */
  datatype Row = Row(ts: Option<i64>, phase: Option<string>, id: Option<string>, key: Option<u64>,
      venueId: Option<string>)

  /** Trim and parse one line: None for a blank line and for invalid JSON. */
  type Parser = string -> Option<Row>

  /** `text.split('\n')`: never empty, the last piece is what follows the last newline. */
  function Split(text: string): (pieces: seq<string>)
    ensures |pieces| >= 1
  {
    if text == "" then [""]
    else
      var rest := Split(text[1..]);
      if text[0] == '\n' then [""] + rest else [[text[0]] + rest[0]] + rest[1..]
  }

  function CompleteLines(text: string): seq<string> {
    Split(text)[..|Split(text)| - 1]
  }

  function Tail(text: string): string {
    Split(text)[|Split(text)| - 1]
  }

  function Lines(lines: seq<string>): string {
    if lines == [] then "" else Lines(lines[..|lines| - 1]) + lines[|lines| - 1] + "\n"
  }

  predicate OneLine(line: string) {
    '\n' !in line
  }

  /** The text cut after its last newline. */
  function CutTornTail(text: string): string {
    if text == "" || text[|text| - 1] == '\n' then text else CutTornTail(text[..|text| - 1])
  }

  function Rows(parse: Parser, lines: seq<string>): seq<Row> {
    if lines == [] then []
    else
      var before := Rows(parse, lines[..|lines| - 1]);
      var row := parse(lines[|lines| - 1]);
      if row.Some? then before + [row.value] else before
  }

  lemma RowsOneMore(parse: Parser, lines: seq<string>, line: string)
    ensures Rows(parse, lines + [line]) == Rows(parse, lines) + if parse(line).Some? then [parse(line).value] else []
  {
    assert (lines + [line])[..|lines|] == lines;
  }

  lemma JoinRight(a: string, b: string, c: string, d: string)
    ensures a + b + c + d == a + (b + c + d)
    ensures a + b + c + d == a + b + (c + d)
  {}

  // ---- Splitting --------------------------------------------------------------------

  lemma {:induction false} SplitOneLine(tail: string)
    requires OneLine(tail)
    ensures Split(tail) == [tail]
  {
    if tail == "" {
    } else {
      assert tail[0] in tail;
      SplitOneLine(tail[1..]);
      assert [tail[0]] + tail[1..] == tail;
    }
  }

  lemma {:induction false} SplitFirstLine(line: string, rest: string)
    requires OneLine(line)
    ensures Split(line + "\n" + rest) == [line] + Split(rest)
  {
    var text := line + "\n" + rest;
    if line == "" {
      assert text[1..] == rest;
    } else {
      assert line[0] in line;
      SplitFirstLine(line[1..], rest);
      assert text[1..] == line[1..] + "\n" + rest && text[0] == line[0];
      assert [line[0]] + line[1..] == line;
      assert ([line[1..]] + Split(rest))[1..] == Split(rest);
    }
  }

  lemma {:induction false} LinesFront(line: string, lines: seq<string>)
    ensures Lines([line] + lines) == line + "\n" + Lines(lines)
  {
    if lines == [] {
      assert ([line] + lines)[..0] == [];
    } else {
      var n := |lines| - 1;
      LinesFront(line, lines[..n]);
      assert ([line] + lines)[..n + 1] == [line] + lines[..n];
    }
  }

  predicate AllOneLine(lines: seq<string>) {
    forall i :: 0 <= i < |lines| ==> OneLine(lines[i])
  }

  lemma {:induction false} SplitLines(lines: seq<string>, tail: string)
    requires AllOneLine(lines)
    ensures Split(Lines(lines) + tail) == lines + Split(tail)
  {
    if lines == [] {
      assert Lines(lines) + tail == tail;
    } else {
      var first, more := lines[0], lines[1..];
      assert [first] + more == lines;
      LinesFront(first, more);
      JoinRight(first, "\n", Lines(more), tail);
      SplitLines(more, tail);
      SplitFirstLine(first, Lines(more) + tail);
      assert [first] + (more + Split(tail)) == lines + Split(tail);
    }
  }

  lemma {:induction false} LinesConcat(a: seq<string>, b: seq<string>)
    ensures Lines(a + b) == Lines(a) + Lines(b)
  {
    if b == [] {
      assert a + b == a;
    } else {
      var n := |b| - 1;
      LinesConcat(a, b[..n]);
      assert (a + b)[..|a + b| - 1] == a + b[..n];
      JoinRight(Lines(a), Lines(b[..n]), b[n], "\n");
    }
  }

  lemma {:induction false} RowsConcat(parse: Parser, a: seq<string>, b: seq<string>)
    ensures Rows(parse, a + b) == Rows(parse, a) + Rows(parse, b)
  {
    if b == [] {
      assert a + b == a;
    } else {
      RowsConcat(parse, a, b[..|b| - 1]);
      assert (a + b)[..|a + b| - 1] == a + b[..|b| - 1];
    }
  }

  lemma {:induction false} PiecesAreOneLine(text: string, i: nat)
    requires i < |Split(text)|
    ensures OneLine(Split(text)[i])
  {
    if text == "" {
    } else {
      var rest := Split(text[1..]);
      if text[0] == '\n' {
        if i > 0 {
          PiecesAreOneLine(text[1..], i - 1);
        }
      } else {
        PiecesAreOneLine(text[1..], i);
      }
    }
  }

  /** One more character in front of the first line. */
  lemma FirstLineGrows(c: char, line: string, more: seq<string>, tail: string)
    ensures Lines([[c] + line] + more) + tail == [c] + (Lines([line] + more) + tail)
  {
    LinesFront(line, more);
    LinesFront([c] + line, more);
    assert ([c] + line) + "\n" + Lines(more) == [c] + (line + "\n" + Lines(more));
  }

  predicate IsLinesAndTail(text: string) {
    text == Lines(CompleteLines(text)) + Tail(text)
  }

  /** An empty first line adds one newline. */
  lemma EmptyLineGrows(lines: seq<string>, tail: string)
    ensures Lines([""] + lines) + tail == "\n" + (Lines(lines) + tail)
  {
    LinesFront("", lines);
    assert "" + "\n" == "\n";
    assert "\n" + Lines(lines) + tail == "\n" + (Lines(lines) + tail);
  }

  lemma NewlineInFront(text: string)
    requires text != "" && text[0] == '\n' && IsLinesAndTail(text[1..])
    ensures IsLinesAndTail(text)
  {
    var lines, tail := CompleteLines(text[1..]), Tail(text[1..]);
    assert text == "\n" + text[1..];
    assert CompleteLines(text) == [""] + lines && Tail(text) == tail;
    EmptyLineGrows(lines, tail);
  }

  lemma CharacterInFront(text: string)
    requires text != "" && text[0] != '\n' && IsLinesAndTail(text[1..])
    ensures IsLinesAndTail(text)
  {
    var rest := Split(text[1..]);
    var lines, tail := CompleteLines(text[1..]), Tail(text[1..]);
    assert text == [text[0]] + text[1..];
    if lines == [] {
      assert CompleteLines(text) == [] && Tail(text) == [text[0]] + tail;
    } else {
      assert lines == [rest[0]] + lines[1..];
      assert CompleteLines(text) == [[text[0]] + rest[0]] + lines[1..];
      FirstLineGrows(text[0], rest[0], lines[1..], tail);
    }
  }

  /** Every text is its complete lines followed by its tail. */
  lemma {:induction false} LinesAndTail(text: string)
    ensures IsLinesAndTail(text)
  {
    if text == "" {
    } else {
      LinesAndTail(text[1..]);
      if text[0] == '\n' {
        NewlineInFront(text);
      } else {
        CharacterInFront(text);
      }
    }
  }

  lemma Anatomy(text: string)
    ensures text == Lines(CompleteLines(text)) + Tail(text)
    ensures AllOneLine(CompleteLines(text)) && OneLine(Tail(text))
  {
    LinesAndTail(text);
    forall i | 0 <= i < |Split(text)|
      ensures OneLine(Split(text)[i])
    {
      PiecesAreOneLine(text, i);
    }
  }

  lemma Assembled(lines: seq<string>, tail: string)
    requires AllOneLine(lines) && OneLine(tail)
    ensures CompleteLines(Lines(lines) + tail) == lines && Tail(Lines(lines) + tail) == tail
  {
    SplitLines(lines, tail);
    SplitOneLine(tail);
  }

  lemma {:induction false} CutIsLines(whole: string, tail: string)
    requires whole == "" || whole[|whole| - 1] == '\n'
    requires OneLine(tail)
    ensures CutTornTail(whole + tail) == whole
  {
    if tail == "" {
      assert whole + tail == whole;
    } else {
      var text := whole + tail;
      CutIsLines(whole, tail[..|tail| - 1]);
      assert text[..|text| - 1] == whole + tail[..|tail| - 1];
      assert text[|text| - 1] == tail[|tail| - 1];
    }
  }

  /** Cutting a torn tail keeps the complete lines and leaves an empty tail. */
  lemma CutKeepsCompleteLines(text: string)
    ensures CompleteLines(CutTornTail(text)) == CompleteLines(text)
    ensures Tail(CutTornTail(text)) == ""
  {
    var lines := CompleteLines(text);
    Anatomy(text);
    CutIsLines(Lines(lines), Tail(text));
    Assembled(lines, "");
    assert Lines(lines) + "" == Lines(lines);
  }

  // ---- Encoded logs -----------------------------------------------------------------

  type Encoder = Row -> string

  /** A written record is one non-blank line and parses back to itself. */
  ghost predicate Codec(encode: Encoder, parse: Parser) {
    forall r :: OneLine(encode(r)) && encode(r) != "" && parse(encode(r)) == Some(r)
  }

  function Encoded(encode: Encoder, rows: seq<Row>): seq<string> {
    seq(|rows|, i requires 0 <= i < |rows| => encode(rows[i]))
  }

  function LogText(encode: Encoder, rows: seq<Row>): string {
    Lines(Encoded(encode, rows))
  }

  lemma LogTextOneMore(encode: Encoder, rows: seq<Row>, m: nat)
    requires m < |rows|
    ensures LogText(encode, rows[..m + 1]) == LogText(encode, rows[..m]) + encode(rows[m]) + "\n"
  {
    assert Encoded(encode, rows[..m + 1])[..m] == Encoded(encode, rows[..m]);
  }

  lemma {:induction false} RowsOfEncoded(encode: Encoder, parse: Parser, rows: seq<Row>)
    requires Codec(encode, parse)
    ensures Rows(parse, Encoded(encode, rows)) == rows
  {
    if rows == [] {
    } else {
      var n := |rows| - 1;
      RowsOfEncoded(encode, parse, rows[..n]);
      assert Encoded(encode, rows)[..n] == Encoded(encode, rows[..n]);
    }
  }

  lemma {:induction false} LogTextGrows(encode: Encoder, rows: seq<Row>, m: nat)
    requires m <= |rows|
    ensures LogText(encode, rows[..m]) <= LogText(encode, rows)
    decreases |rows| - m
  {
    if m == |rows| {
      assert rows[..m] == rows;
    } else {
      LogTextGrows(encode, rows, m + 1);
      LogTextOneMore(encode, rows, m);
    }
  }

  /** Any prefix of a log's bytes is its completely written records and a piece of the next. */
  lemma TornAt(encode: Encoder, parse: Parser, rows: seq<Row>, cut: nat, m: nat) returns (torn: string)
    requires Codec(encode, parse)
    requires m <= |rows| && |LogText(encode, rows[..m])| <= cut <= |LogText(encode, rows)|
    requires m < |rows| ==> cut < |LogText(encode, rows[..m + 1])|
    ensures LogText(encode, rows)[..cut] == LogText(encode, rows[..m]) + torn && OneLine(torn)
    ensures torn == "" || (m < |rows| && torn <= encode(rows[m]))
  {
    var whole, text := LogText(encode, rows[..m]), LogText(encode, rows);
    torn := text[|whole|..cut];
    LogTextGrows(encode, rows, m);
    assert text[..cut] == whole + torn;
    if m < |rows| {
      LogTextOneMore(encode, rows, m);
      LogTextGrows(encode, rows, m + 1);
      assert torn == encode(rows[m])[..|torn|];
    } else {
      assert rows[..m] == rows;
    }
  }

  /** A crash that leaves any prefix of the log's bytes leaves the rows whose newline was written. */
  lemma {:induction false} TornLog(encode: Encoder, parse: Parser, rows: seq<Row>, cut: nat, m: nat)
    requires Codec(encode, parse)
    requires m <= |rows| && |LogText(encode, rows[..m])| <= cut <= |LogText(encode, rows)|
    requires m < |rows| ==> cut < |LogText(encode, rows[..m + 1])|
    ensures Rows(parse, CompleteLines(LogText(encode, rows)[..cut])) == rows[..m]
    ensures var tail := Tail(LogText(encode, rows)[..cut]); tail == "" || (m < |rows| && tail <= encode(rows[m]))
  {
    var torn := TornAt(encode, parse, rows, cut, m);
    Assembled(Encoded(encode, rows[..m]), torn);
    RowsOfEncoded(encode, parse, rows[..m]);
  }

  // ---- Appending behind a torn line -------------------------------------------------

  /** A record written behind a torn line makes one line with it, and that line does not parse. */
  ghost predicate Unglued(encode: Encoder, parse: Parser, torn: string) {
    torn != "" ==> forall r :: parse(torn + encode(r)).None?
  }

  /** The lines of a file of which the last may be torn, and to which lines have been appended. */
  lemma GluedLines(base: string, lines: seq<string>, torn: string)
    requires lines != [] && OneLine(torn) && AllOneLine(lines)
    ensures CompleteLines(base + Lines(lines) + torn) == CompleteLines(base) + ([Tail(base) + lines[0]] + lines[1..])
    ensures Tail(base + Lines(lines) + torn) == torn
  {
    var whole, glued := CompleteLines(base), [Tail(base) + lines[0]] + lines[1..];
    Anatomy(base);
    assert base + Lines(lines) == Lines(whole + glued) by {
      LinesFront(lines[0], lines[1..]);
      assert [lines[0]] + lines[1..] == lines;
      LinesFront(Tail(base) + lines[0], lines[1..]);
      LinesConcat(whole, glued);
      Regroup(Lines(whole), Tail(base), lines[0], Lines(lines[1..]));
    }
    Assembled(whole + glued, torn);
  }

  lemma Regroup(a: string, b: string, c: string, d: string)
    ensures a + b + (c + "\n" + d) == a + (b + c + "\n" + d)
  {}

  /** The writer appends wherever the file ends: the new line is glued to a torn one. */
  lemma AppendLine(text: string, line: string)
    requires OneLine(line)
    ensures CompleteLines(text + line + "\n") == CompleteLines(text) + [Tail(text) + line]
    ensures Tail(text + line + "\n") == ""
  {
    GluedLines(text, [line], "");
    assert Lines([line]) == line + "\n" by {
      assert [line][..0] == [];
    }
    assert text + (line + "\n") + "" == text + line + "\n";
  }

  /** An appended record reads back exactly when the file ended in a newline. */
  lemma AppendedRow(encode: Encoder, parse: Parser, text: string, row: Row)
    requires Codec(encode, parse) && Unglued(encode, parse, Tail(text))
    ensures Rows(parse, CompleteLines(text + encode(row) + "\n")) ==
            Rows(parse, CompleteLines(text)) + if Tail(text) == "" then [row] else []
  {
    AppendLine(text, encode(row));
    var lines, line := CompleteLines(text), Tail(text) + encode(row);
    assert (lines + [line])[..|lines|] == lines;
    if Tail(text) == "" {
      assert line == encode(row);
    }
  }

  lemma TornEnd(base: string, torn: string)
    requires OneLine(torn)
    ensures CompleteLines(base + torn) == CompleteLines(base)
  {
    Anatomy(base);
    Assembled(CompleteLines(base), Tail(base) + torn);
    assert base + torn == Lines(CompleteLines(base)) + (Tail(base) + torn);
  }

  lemma GluedRows(encode: Encoder, parse: Parser, lines: seq<string>, torn: string, rows: seq<Row>)
    requires Codec(encode, parse) && Unglued(encode, parse, torn) && rows != []
    ensures Rows(parse, lines + ([torn + encode(rows[0])] + Encoded(encode, rows[1..]))) ==
            Rows(parse, lines) + if torn == "" then rows else rows[1..]
  {
    var glued, more := torn + encode(rows[0]), Encoded(encode, rows[1..]);
    RowsConcat(parse, lines, [glued] + more);
    if torn == "" {
      assert glued == encode(rows[0]);
      assert [glued] + more == Encoded(encode, rows);
      RowsOfEncoded(encode, parse, rows);
    } else {
      RowsConcat(parse, [glued], more);
      RowsOfEncoded(encode, parse, rows[1..]);
      assert [glued][..0] == [];
      assert Rows(parse, [glued]) == [];
    }
  }

  /** What any byte prefix of an appended file reads back as: behind a torn end the first appended record
      is lost with it, and no other. */
  lemma ReadsBack(encode: Encoder, parse: Parser, base: string, rows: seq<Row>, cut: nat, m: nat)
    requires Codec(encode, parse) && Unglued(encode, parse, Tail(base))
    requires m <= |rows| && |LogText(encode, rows[..m])| <= cut <= |LogText(encode, rows)|
    requires m < |rows| ==> cut < |LogText(encode, rows[..m + 1])|
    ensures Rows(parse, CompleteLines(base + LogText(encode, rows)[..cut])) ==
            Rows(parse, CompleteLines(base)) + if Tail(base) == "" || m == 0 then rows[..m] else rows[1..m]
  {
    var torn := TornAt(encode, parse, rows, cut, m);
    var kept := rows[..m];
    assert base + LogText(encode, rows)[..cut] == base + LogText(encode, kept) + torn;
    if m == 0 {
      assert base + LogText(encode, kept) + torn == base + torn;
      TornEnd(base, torn);
    } else {
      var lines := Encoded(encode, kept);
      assert lines[1..] == Encoded(encode, kept[1..]) && kept[1..] == rows[1..m];
      GluedLines(base, lines, torn);
      GluedRows(encode, parse, CompleteLines(base), Tail(base), kept);
    }
  }
}
