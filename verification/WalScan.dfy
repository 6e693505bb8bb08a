/** The engine's own in-flight scan: it reads the log in chunks from the end, and is meant to answer as the client's
    reverse scan does. */
module WalScan {
  import opened Common
  import opened WalText
  import opened WalInFlight

  // ---- Lines in reverse, chunk by chunk ---------------------------------------------

  /** UTF-8 decoding of one line. */
  type Decoder = string -> Option<string>

  function Reverse<T>(s: seq<T>): (r: seq<T>)
    ensures |r| == |s| && forall i :: 0 <= i < |s| ==> r[i] == s[|s| - 1 - i]
  {
    if s == [] then [] else [s[|s| - 1]] + Reverse(s[..|s| - 1])
  }

  /** The lines that hold something and can be decoded. */
  function Texts(decode: Decoder, parts: seq<string>): seq<string> {
    if parts == [] then []
    else
      var before, last := Texts(decode, parts[..|parts| - 1]), parts[|parts| - 1];
      if last != "" && decode(last).Some? then before + [decode(last).value] else before
  }

  function Text(decode: Decoder, part: string): seq<string> {
    if part != "" && decode(part).Some? then [decode(part).value] else []
  }

  lemma {:induction false} TextsFront(decode: Decoder, part: string, more: seq<string>)
    ensures Texts(decode, [part] + more) == Text(decode, part) + Texts(decode, more)
  {
    var all := [part] + more;
    if more == [] {
      assert all[..0] == [];
    } else {
      TextsFront(decode, part, more[..|more| - 1]);
      assert all[..|all| - 1] == [part] + more[..|more| - 1];
    }
  }

  lemma OneMoreLine(decode: Decoder, part: string, more: seq<string>)
    ensures Reverse(Texts(decode, [part] + more)) == Reverse(Texts(decode, more)) + Text(decode, part)
  {
    TextsFront(decode, part, more);
    if Text(decode, part) == [] {
      assert [] + Texts(decode, more) == Texts(decode, more);
    }
  }

  lemma {:induction false} OneLineJoin(line: string, text: string)
    requires OneLine(line)
    ensures Split(line + text) == [line + Split(text)[0]] + Split(text)[1..]
  {
    if line == "" {
      assert line + text == text && line + Split(text)[0] == Split(text)[0];
    } else {
      assert line[0] in line;
      OneLineJoin(line[1..], text);
      var rest := Split(line[1..] + text);
      assert rest[0] == line[1..] + Split(text)[0] && rest[1..] == Split(text)[1..];
      assert (line + text)[1..] == line[1..] + text;
      assert [line[0]] + rest[0] == line + Split(text)[0];
    }
  }

  lemma SplitJoin(a: string, b: string)
    ensures Split(a + b) == CompleteLines(a) + ([Tail(a) + Split(b)[0]] + Split(b)[1..])
  {
    Anatomy(a);
    assert a + b == Lines(CompleteLines(a)) + (Tail(a) + b);
    SplitLines(CompleteLines(a), Tail(a) + b);
    OneLineJoin(Tail(a), b);
  }

  /** Reading further to the left moves only the first piece. */
  lemma OnlyHeadMoves(a: string, b: string)
    ensures Split(a + b) == Split(a + Split(b)[0]) + Split(b)[1..]
  {
    var head := Split(b)[0];
    SplitJoin(a, b);
    SplitJoin(a, head);
    PiecesAreOneLine(b, 0);
    SplitOneLine(head);
    Reassociate(CompleteLines(a), Tail(a) + head, Split(b)[1..]);
  }

  lemma Reassociate(lines: seq<string>, line: string, more: seq<string>)
    ensures lines + ([line] + []) + more == lines + ([line] + more)
  {}

  lemma ChunkMoves(file: string, position: nat, next: nat, buffer: string)
    requires next <= position <= |file|
    ensures file[..position] + buffer == file[..next] + (file[next..position] + buffer)
  {}

  lemma HeadAndDone(a: string, b: string, done: seq<string>, whole: string)
    requires Split(whole) == Split(a + b) + done
    ensures Split(whole) == Split(a + Split(b)[0]) + (Split(b)[1..] + done)
  {
    OnlyHeadMoves(a, b);
  }

  /** What the source does with a residue in the buffer behind the loop is never reached: there is none. */
  method IterLinesReverse(file: string, chunkSize: nat, decode: Decoder) returns (lines: seq<string>)
    requires chunkSize > 0
    ensures lines == Reverse(Texts(decode, Split(file)))
  {
    lines := [];
    var position, buffer := |file|, "";
    ghost var done: seq<string> := [];
    assert file[..|file|] + "" == file;
    assert file == "" ==> Split(file) == [""] && Texts(decode, [""]) == [] by {
      assert [""][..0] == [];
    }
    while position > 0
      invariant 0 <= position <= |file|
      invariant lines == Reverse(Texts(decode, done))
      invariant if position > 0 then Split(file) == Split(file[..position] + buffer) + done
                else buffer == "" && Texts(decode, done) == Texts(decode, Split(file))
    {
      var next := if chunkSize < position then position - chunkSize else 0;
      ChunkMoves(file, position, next, buffer);
      buffer := file[next..position] + buffer;
      position := next;
      var parts := Split(buffer);
      if position > 0 {
        HeadAndDone(file[..position], buffer, done, file);
        buffer := parts[0];
        parts := parts[1..];
      } else {
        assert file[..0] + buffer == buffer;
        buffer := "";
      }
      lines := YieldReversed(lines, parts, decode, done);
      done := parts + done;
    }
    assert buffer == "";
  }

  lemma PieceYielded(decode: Decoder, tail: seq<string>, i: nat, done: seq<string>)
    requires i < |tail|
    ensures Reverse(Texts(decode, tail[i..] + done)) ==
            Reverse(Texts(decode, tail[i + 1..] + done)) + Text(decode, tail[i])
  {
    var part, more := tail[i], tail[i + 1..] + done;
    assert tail[i..] + done == [part] + more by {
      assert tail[i..] == [part] + tail[i + 1..];
    }
    OneMoreLine(decode, part, more);
  }

  /** The inner loop: the pieces from the last to the first. */
  method YieldReversed(before: seq<string>, tail: seq<string>, decode: Decoder, ghost done: seq<string>)
      returns (lines: seq<string>)
    requires before == Reverse(Texts(decode, done))
    ensures lines == Reverse(Texts(decode, tail + done))
  {
    lines := before;
    var i := |tail|;
    assert tail[i..] + done == done;
    while i > 0
      invariant 0 <= i <= |tail|
      invariant lines == Reverse(Texts(decode, tail[i..] + done))
    {
      i := i - 1;
      PieceYielded(decode, tail, i, done);
      if tail[i] == "" {
        continue;
      }
      var line := decode(tail[i]);
      if line.None? {
        continue;
      }
      lines := lines + [line.value];
    }
    assert tail[0..] == tail;
  }

  // ---- The answer -------------------------------------------------------------------

  /** A record as this reader sees it: `number` is the integer part of a numeric stamp, whole or not. */
  datatype Raw = Raw(row: Row, number: Option<int>)

  /** What a line is: no JSON, JSON on which the engine's reader raises (not an object, or a stamp that is not a
      finite number), or a record. */
  datatype Line = Nothing | Raises | Holds(raw: Raw)

  type RawParser = string -> Line

  /** The client's reader takes whole numbers only, and finds nothing in JSON that is not an object. */
  predicate Consistent(r: Raw) {
    r.row.ts.Some? ==> r.number == Some(r.row.ts.value)
  }

  function ClientParser(parse: RawParser): Parser {
    line => if parse(line).Holds? then Some(parse(line).raw.row) else None
  }

  /** A missing stamp counts, an empty id or phase does not. */
  predicate Heeded(since: int, r: Raw) {
    (r.number.None? || r.number.value >= since)
    && r.row.id.Some? && r.row.id.value != "" && r.row.phase.Some? && r.row.phase.value != ""
  }

  function Records(parse: RawParser, lines: seq<string>): seq<Raw> {
    if lines == [] then []
    else
      var before, line := Records(parse, lines[..|lines| - 1]), parse(lines[|lines| - 1]);
      if line.Holds? then before + [line.raw] else before
  }

  function LastHeeded(since: int, records: seq<Raw>): Phases {
    if records == [] then map[]
    else
      var before, r := LastHeeded(since, records[..|records| - 1]), records[|records| - 1];
      if Heeded(since, r) then before[r.row.id.value := r.row.phase.value] else before
  }

  function BusyIds(phases: Phases): set<string> {
    set id | id in phases && phases[id] != "rejected"
  }

  lemma RecordsOneMore(parse: RawParser, lines: seq<string>, line: string)
    ensures Records(parse, lines + [line]) ==
            Records(parse, lines) + if parse(line).Holds? then [parse(line).raw] else []
  {
    assert (lines + [line])[..|lines|] == lines;
  }

  /** One line of the reverse scan: an id already seen keeps the phase it has. */
  function Heard(since: int, seen: Phases, line: Line): Phases {
    if line.Holds? && Heeded(since, line.raw) && line.raw.row.id.value !in seen
    then seen[line.raw.row.id.value := line.raw.row.phase.value] else seen
  }

  lemma HeardUnderneath(since: int, records: seq<Raw>, r: Raw, seen: Phases)
    ensures LastHeeded(since, records + [r]) + seen == LastHeeded(since, records) + Heard(since, seen, Holds(r))
  {
    assert (records + [r])[..|records|] == records;
  }

  lemma ScanStep(since: int, parse: RawParser, texts: seq<string>, n: nat, seen: Phases)
    requires n < |texts|
    ensures LastHeeded(since, Records(parse, texts[..n + 1])) + seen ==
            LastHeeded(since, Records(parse, texts[..n])) + Heard(since, seen, parse(texts[n]))
  {
    var records := Records(parse, texts[..n]);
    assert texts[..n] + [texts[n]] == texts[..n + 1];
    RecordsOneMore(parse, texts[..n], texts[n]);
    if parse(texts[n]).Holds? {
      HeardUnderneath(since, records, parse(texts[n]).raw, seen);
    } else {
      assert records + [] == records;
    }
  }

  predicate SomeRaises(parse: RawParser, texts: seq<string>) {
    exists i :: 0 <= i < |texts| && parse(texts[i]).Raises?
  }

  /** The answer on a file's text: none if the scan raises. */
  function Answer(decode: Decoder, parse: RawParser, text: string, since: int): Option<set<string>> {
    var texts := Texts(decode, Split(text));
    if SomeRaises(parse, texts) then None else Some(BusyIds(LastHeeded(since, Records(parse, texts))))
  }

  method DetectInFlightOrders(file: Option<string>, chunkSize: nat, decode: Decoder, parse: RawParser, since: int)
    returns (ids: Option<set<string>>)
    requires chunkSize > 0
    ensures ids == if file.None? then Some({}) else Answer(decode, parse, file.value, since)
  {
    if file.None? {
      return Some({});
    }
    var lines := IterLinesReverse(file.value, chunkSize, decode);
    ghost var texts := Texts(decode, Split(file.value));
    var seen := ScanReversed(lines, parse, since, texts);
    if seen.None? {
      return None;
    }
    ids := Some(set id | id in seen.value && seen.value[id] != "rejected");
  }

  method HearRecord(since: int, seen: Phases, record: Raw) returns (heard: Phases)
    ensures heard == Heard(since, seen, Holds(record))
  {
    if record.number.Some? && record.number.value < since {
      return seen;
    }
    var id, phase := record.row.id, record.row.phase;
    if id.Some? && id.value != "" && phase.Some? && phase.value != "" && id.value !in seen {
      return seen[id.value := phase.value];
    }
    heard := seen;
  }

  /** The loop over the lines in reverse. */
  method ScanReversed(lines: seq<string>, parse: RawParser, since: int, ghost texts: seq<string>)
      returns (r: Option<Phases>)
    requires lines == Reverse(texts)
    ensures r == if SomeRaises(parse, texts) then None else Some(LastHeeded(since, Records(parse, texts)))
  {
    var seen: Phases := map[];
    ghost var all := LastHeeded(since, Records(parse, texts));
    assert texts[..|texts|] == texts;
    for i := 0 to |lines|
      invariant LastHeeded(since, Records(parse, texts[..|texts| - i])) + seen == all
      invariant forall k :: |texts| - i <= k < |texts| ==> !parse(texts[k]).Raises?
    {
      ScanStep(since, parse, texts, |texts| - i - 1, seen);
      var line := parse(lines[i]);
      if line.Nothing? {
        continue;
      }
      if line.Raises? {
        return None;
      }
      seen := HearRecord(since, seen, line.raw);
    }
    assert Records(parse, texts[..0]) == [] && map[] + seen == seen;
    r := Some(seen);
  }

  // ---- Against the client's scan ----------------------------------------------------

  function Rowed(records: seq<Raw>): seq<Row> {
    seq(|records|, i requires 0 <= i < |records| => records[i].row)
  }

  /** The two readers see the same records of a file that decodes. */
  lemma {:induction false} SameFileRows(decode: Decoder, parse: RawParser, parts: seq<string>)
    requires parse("").Nothing? && forall line :: decode(line) == Some(line)
    ensures Rowed(Records(parse, Texts(decode, parts))) == Rows(ClientParser(parse), parts)
  {
    if parts == [] {
    } else {
      var n := |parts| - 1;
      SameFileRows(decode, parse, parts[..n]);
      if parts[n] != "" {
        RecordsOneMore(parse, Texts(decode, parts[..n]), parts[n]);
      }
    }
  }

  lemma EmptyTailAddsNothing(parse: Parser, text: string)
    requires parse("").None?
    ensures Rows(parse, FileLines(text)) == Rows(parse, Split(text))
  {
    if Tail(text) == "" {
      assert Split(text) == CompleteLines(text) + [""];
      RowsOneMore(parse, CompleteLines(text), "");
    }
  }

  /** The record counts for one reader only. */
  predicate Divides(since: int, r: Raw) {
    Counted(since, r.row) != Heeded(since, r)
  }

  /** That is: a named record without a whole-number stamp that is missing or recent, or a recent one with an empty
      name. */
  lemma DividesIff(since: int, r: Raw)
    requires since > 0 && Consistent(r)
    ensures Divides(since, r) <==>
            r.row.id.Some? && r.row.phase.Some? &&
            var unnamed := r.row.id.value == "" || r.row.phase.value == "";
            if r.row.ts.Some? then r.row.ts.value >= since && unnamed
            else !unnamed && (r.number.None? || r.number.value >= since)
  {}

  lemma {:induction false} UndividedAgree(since: int, records: seq<Raw>)
    requires forall i :: 0 <= i < |records| ==> !Divides(since, records[i])
    ensures LastHeeded(since, records) == LastWins(since, Rowed(records))
  {
    if records == [] {
    } else {
      var n := |records| - 1;
      UndividedAgree(since, records[..n]);
      assert Rowed(records)[..n] == Rowed(records[..n]);
      assert !Divides(since, records[n]);
    }
  }

  /** On a file none of whose records divides them the two readers give the same answer, if and only if no line makes
      the engine's raise. */
  lemma ScansAgreeIff(decode: Decoder, parse: RawParser, text: string, since: int)
    requires parse("").Nothing? && forall line :: decode(line) == Some(line)
    requires forall r :: r in Records(parse, Texts(decode, Split(text))) ==> !Divides(since, r)
    ensures var answer := Answer(decode, parse, text, since);
            var busy := InFlight(LastWins(since, Rows(ClientParser(parse), FileLines(text))));
            (answer.Some? && (answer.value != {} <==> busy)) <==> !SomeRaises(parse, Texts(decode, Split(text)))
  {
    SameFileRows(decode, parse, Split(text));
    EmptyTailAddsNothing(ClientParser(parse), text);
    UndividedAgree(since, Records(parse, Texts(decode, Split(text))));
    var phases := LastWins(since, Rows(ClientParser(parse), FileLines(text)));
    if InFlight(phases) {
      var id :| id in phases && phases[id] != "rejected";
      assert id in BusyIds(phases);
    }
  }

  predicate NoneDivides(since: int, records: seq<Raw>) {
    forall i :: 0 <= i < |records| ==> !Divides(since, records[i])
  }

  /** Appended to any log that does not divide the readers, the record leaves their answers equal. */
  ghost predicate Innocuous(since: int, r: Raw) {
    forall records :: NoneDivides(since, records) ==>
      BusyIds(LastHeeded(since, records + [r])) == BusyIds(LastWins(since, Rowed(records + [r])))
  }

  lemma OneMoreRecord(since: int, records: seq<Raw>, r: Raw)
    ensures LastHeeded(since, records + [r]) ==
            if Heeded(since, r) then LastHeeded(since, records)[r.row.id.value := r.row.phase.value]
                else LastHeeded(since, records)
    ensures LastWins(since, Rowed(records + [r])) ==
            if Counted(since, r.row) then LastWins(since, Rowed(records))[r.row.id.value := r.row.phase.value]
                else LastWins(since, Rowed(records))
  {
    assert (records + [r])[..|records|] == records;
    assert Rowed(records + [r])[..|records|] == Rowed(records);
  }

  lemma {:induction false} NamelessIsNeverHeeded(since: int, records: seq<Raw>)
    ensures "" !in LastHeeded(since, records)
  {
    if records == [] {
    } else {
      NamelessIsNeverHeeded(since, records[..|records| - 1]);
    }
  }

  lemma HarmlessRecord(since: int, records: seq<Raw>, r: Raw)
    requires NoneDivides(since, records)
    requires !Divides(since, r) || (r.row.id == Some("") && r.row.phase == Some("rejected"))
    ensures BusyIds(LastHeeded(since, records + [r])) == BusyIds(LastWins(since, Rowed(records + [r])))
  {
    UndividedAgree(since, records);
    OneMoreRecord(since, records, r);
    NamelessIsNeverHeeded(since, records);
  }

  lemma HarmfulRecord(since: i64, r: Raw) returns (records: seq<Raw>)
    requires since > 0 && Divides(since, r) && !(r.row.id == Some("") && r.row.phase == Some("rejected"))
    ensures NoneDivides(since, records)
    ensures BusyIds(LastHeeded(since, records + [r])) != BusyIds(LastWins(since, Rowed(records + [r])))
  {
    var id := r.row.id.value;
    if r.row.phase == Some("rejected") {
      var submit := Raw(Row(Some(since), Some("submit"), Some(id), None, None), Some(since));
      records := [submit];
      assert records[..0] == [] && LastHeeded(since, records) == map[id := "submit"];
    } else {
      records := [];
    }
    UndividedAgree(since, records);
    OneMoreRecord(since, records, r);
    assert id in BusyIds(LastHeeded(since, records + [r])) <==> id !in BusyIds(LastWins(since, Rowed(records + [r])));
  }

  /** A record parts the readers on some log exactly when it divides them and is not the rejection of a nameless
      order. */
  lemma InnocuousIff(since: i64, r: Raw)
    requires since > 0
    ensures Innocuous(since, r) <==>
            !Divides(since, r) || (r.row.id == Some("") && r.row.phase == Some("rejected"))
  {
    if !Divides(since, r) || (r.row.id == Some("") && r.row.phase == Some("rejected")) {
      forall records | NoneDivides(since, records)
        ensures BusyIds(LastHeeded(since, records + [r])) == BusyIds(LastWins(since, Rowed(records + [r])))
      {
        HarmlessRecord(since, records, r);
      }
    } else {
      var records := HarmfulRecord(since, r);
    }
  }
}
