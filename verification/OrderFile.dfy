/** The order log as the file it is, over any number of crashes and restarts. The writer appends wherever the
    file ends and nothing repairs a torn end, so what a crash leaves decides what the next session can log. */
module OrderFile {
  import opened Common
  import opened WalText
  import opened OrderSession
  import opened OrderCrash

  /** One life of the client: the day and the file it started on, and what it has done since. */
  datatype Session = Session(day: int, base: string, ops: seq<Op>)

  function Begin(parse: Parser, s: Session): Sys {
    Restarted(s.day, Rows(parse, CompleteLines(s.base)))
  }

  /** The live map and the rows meant to be logged, after the first `k` operations. */
  function Live(parse: Parser, s: Session, k: nat): Sys
    requires k <= |s.ops|
  {
    After(Begin(parse, s), s.ops[..k])
  }

  /** The rows the session has appended. */
  function Appended(parse: Parser, s: Session, k: nat): (rows: seq<Row>)
    requires k <= |s.ops|
    ensures Live(parse, s, k).log == Begin(parse, s).log + rows
  {
    LogGrows(Begin(parse, s), s.ops[..k]);
    Live(parse, s, k).log[|Begin(parse, s).log|..]
  }

  lemma {:induction false} LogGrows(start: Sys, ops: seq<Op>)
    ensures start.log <= After(start, ops).log
  {
    if ops == [] {
    } else {
      LogGrows(start, ops[..|ops| - 1]);
    }
  }

  /** The file as the session has written it, cut behind its first `cut` bytes. */
  function Left(encode: Encoder, parse: Parser, s: Session, cut: nat): string {
    var text := LogText(encode, Appended(parse, s, |s.ops|));
    s.base + if cut <= |text| then text[..cut] else text
  }

  /** The first `cut` bytes the session wrote hold the rows of its first `k` operations and no more. */
  ghost predicate Leaves(encode: Encoder, parse: Parser, s: Session, cut: nat, k: nat) {
    && k <= |s.ops|
    && |LogText(encode, Appended(parse, s, k))| <= cut <= |LogText(encode, Appended(parse, s, |s.ops|))|
    && (k < |s.ops| ==> cut < |LogText(encode, Appended(parse, s, k + 1))|)
  }

  function Reloaded(encode: Encoder, parse: Parser, s: Session, cut: nat): Orders {
    LoadFile(s.day, Some(Left(encode, parse, s, cut)), parse)
  }

  /** Whatever byte the session's writing is cut at, the file restores the live map of the last operation whose
      row was completely written. */
  ghost predicate Survives(encode: Encoder, parse: Parser, s: Session) {
    forall k, cut :: Leaves(encode, parse, s, cut, k) ==>
        RefinesOn(s.day, Live(parse, s, k), Reloaded(encode, parse, s, cut))
  }

  // ---- What recovery is held to -----------------------------------------------------

  /** Keys and venue ids: status is not part of the refinement. */
  function Facts(orders: Orders): map<string, (u64, Option<string>)> {
    map id | id in orders :: (orders[id].key, orders[id].venueId)
  }

  lemma SameFactsIff(day: int, s: Sys, a: Orders, b: Orders)
    requires RefinesOn(day, s, a)
    ensures RefinesOn(day, s, b) <==> Facts(a) == Facts(b)
  {
    if Facts(a) == Facts(b) {
      forall id
        ensures RefinesAt(day, s, b, id)
      {
        assert RefinesAt(day, s, a, id);
        assert id in Facts(a) <==> id in Facts(b);
        if id in b {
          assert Facts(a)[id] == Facts(b)[id];
        }
      }
    } else if RefinesOn(day, s, b) {
      assert forall id :: RefinesAt(day, s, a, id) && RefinesAt(day, s, b, id) ==> (id in a <==> id in b);
      forall id | id in a
        ensures Facts(a)[id] == Facts(b)[id]
      {
        assert RefinesAt(day, s, a, id) && RefinesAt(day, s, b, id);
      }
    }
  }

  lemma FactsStep(day: int, a: Orders, b: Orders, row: Row)
    requires Facts(a) == Facts(b)
    ensures Facts(ApplyRow(day, a, row)) == Facts(ApplyRow(day, b, row))
  {
    forall id
      ensures id in a <==> id in b
      ensures id in a ==> a[id].key == b[id].key && a[id].venueId == b[id].venueId
    {
      assert id in Facts(a) <==> id in Facts(b);
      if id in a {
        assert Facts(a)[id] == Facts(b)[id];
      }
    }
  }

  lemma {:induction false} FactsAfter(day: int, a: seq<Row>, b: seq<Row>, more: seq<Row>)
    requires Facts(Load(day, a)) == Facts(Load(day, b))
    ensures Facts(Load(day, a + more)) == Facts(Load(day, b + more))
  {
    if more == [] {
      assert a + more == a && b + more == b;
    } else {
      var n := |more| - 1;
      FactsAfter(day, a, b, more[..n]);
      assert (a + more)[..|a + more| - 1] == a + more[..n] && (b + more)[..|b + more| - 1] == b + more[..n];
      FactsStep(day, Load(day, a + more[..n]), Load(day, b + more[..n]), more[n]);
    }
  }

  /** The first row of the session adds something to what recovery is held to. */
  predicate FirstRowMatters(parse: Parser, s: Session) {
    var rows := Appended(parse, s, |s.ops|);
    rows != [] && Facts(Load(s.day, Begin(parse, s).log + rows[..1])) != Facts(Load(s.day, Begin(parse, s).log))
  }

  /** A new order always does. */
  lemma FreshSubmitMatters(parse: Parser, s: Session, id: string)
    requires Appended(parse, s, |s.ops|) != [] && IsSubmit(s.day, Appended(parse, s, |s.ops|)[0], id)
    requires id !in Load(s.day, Begin(parse, s).log)
    ensures FirstRowMatters(parse, s)
  {
    var log, row := Begin(parse, s).log, Appended(parse, s, |s.ops|)[0];
    assert Appended(parse, s, |s.ops|)[..1] == [row];
    OneMoreRow(s.day, log, row, id);
    assert id in Facts(Load(s.day, log + [row])) && id !in Facts(Load(s.day, log));
  }

  // ---- One session ------------------------------------------------------------------

  lemma AppendedPrefix(parse: Parser, s: Session, k: nat)
    requires k <= |s.ops|
    ensures var rows, kept := Appended(parse, s, |s.ops|), Appended(parse, s, k);
            |kept| <= |rows| && rows[..|kept|] == kept
  {
    LogIsKept(Begin(parse, s), s.ops, k);
    assert s.ops[..|s.ops|] == s.ops;
  }

  lemma NextAppended(encode: Encoder, parse: Parser, s: Session, cut: nat, k: nat)
    requires Leaves(encode, parse, s, cut, k)
    ensures var rows, kept := Appended(parse, s, |s.ops|), Appended(parse, s, k);
            && |kept| <= |rows| && rows[..|kept|] == kept
            && (|kept| < |rows| ==> cut < |LogText(encode, rows[..|kept| + 1])|)
  {
    AppendedPrefix(parse, s, k);
    if k < |s.ops| {
      AppendedPrefix(parse, s, k + 1);
      AfterOne(Begin(parse, s), s.ops, k);
      var kept, next := Appended(parse, s, k), Appended(parse, s, k + 1);
      assert next != kept;
      assert |next| == |kept| + 1;
    }
  }

  /** Of the rows appended to a file, those that read back: all but the first if the file ended in a torn line. */
  function ReadableRows(base: string, appended: seq<Row>): seq<Row> {
    if Tail(base) == "" || appended == [] then appended else appended[1..]
  }

  lemma CutReads(encode: Encoder, parse: Parser, base: string, rows: seq<Row>, cut: nat, kept: seq<Row>)
    requires Codec(encode, parse) && Unglued(encode, parse, Tail(base))
    requires |kept| <= |rows| && rows[..|kept|] == kept
    requires |LogText(encode, kept)| <= cut <= |LogText(encode, rows)|
    requires |kept| < |rows| ==> cut < |LogText(encode, rows[..|kept| + 1])|
    ensures Rows(parse, CompleteLines(base + LogText(encode, rows)[..cut])) ==
            Rows(parse, CompleteLines(base)) + ReadableRows(base, kept)
  {
    ReadsBack(encode, parse, base, rows, cut, |kept|);
    assert kept != [] ==> rows[1..|kept|] == kept[1..];
  }

  lemma CutFile(encode: Encoder, parse: Parser, s: Session, cut: nat, k: nat)
    requires Codec(encode, parse) && Unglued(encode, parse, Tail(s.base)) && Leaves(encode, parse, s, cut, k)
    ensures Rows(parse, CompleteLines(Left(encode, parse, s, cut))) ==
            Rows(parse, CompleteLines(s.base)) + ReadableRows(s.base, Appended(parse, s, k))
  {
    NextAppended(encode, parse, s, cut, k);
    CutReads(encode, parse, s.base, Appended(parse, s, |s.ops|), cut, Appended(parse, s, k));
  }

  /** The rows a cut file is restored from. */
  lemma CutRows(encode: Encoder, parse: Parser, s: Session, cut: nat, k: nat)
    requires Codec(encode, parse) && Unglued(encode, parse, Tail(s.base)) && Leaves(encode, parse, s, cut, k)
    ensures Reloaded(encode, parse, s, cut) ==
            Load(s.day, Begin(parse, s).log + ReadableRows(s.base, Appended(parse, s, k)))
  {
    CutFile(encode, parse, s, cut, k);
  }

  lemma LiveRefines(parse: Parser, s: Session, k: nat)
    requires EnabledRun(s.day, Begin(parse, s), s.ops) && k <= |s.ops|
    ensures RefinesOn(s.day, Live(parse, s, k), Load(s.day, Begin(parse, s).log + Appended(parse, s, k)))
  {
    var live := Live(parse, s, k);
    RefinesAlong(s.day, Begin(parse, s).log, s.ops, k);
    forall id
      ensures RefinesAt(s.day, live, Load(s.day, live.log), id)
    {
      assert LogRefinesAt(s.day, live, id);
    }
  }

  lemma {:induction false} LeavesExists(encode: Encoder, parse: Parser, s: Session, cut: nat, from: nat)
      returns (k: nat)
    requires from <= |s.ops|
    requires |LogText(encode, Appended(parse, s, from))| <= cut <= |LogText(encode, Appended(parse, s, |s.ops|))|
    ensures from <= k && Leaves(encode, parse, s, cut, k)
    decreases |s.ops| - from
  {
    if from < |s.ops| && |LogText(encode, Appended(parse, s, from + 1))| <= cut {
      k := LeavesExists(encode, parse, s, cut, from + 1);
    } else {
      k := from;
    }
  }

  /** Cut right behind its first row, a session is left with exactly that row. */
  lemma FirstRowLeft(encode: Encoder, parse: Parser, s: Session) returns (k: nat, cut: nat)
    requires Codec(encode, parse) && Appended(parse, s, |s.ops|) != []
    ensures Leaves(encode, parse, s, cut, k) && Appended(parse, s, k) == Appended(parse, s, |s.ops|)[..1]
  {
    var rows := Appended(parse, s, |s.ops|);
    cut := |LogText(encode, rows[..1])|;
    LogTextGrows(encode, rows, 1);
    assert s.ops[..0] == [] && Appended(parse, s, 0) == [];
    k := LeavesExists(encode, parse, s, cut, 0);
    NextAppended(encode, parse, s, cut, k);
    var kept := Appended(parse, s, k);
    assert kept != [];
    assert kept[..1] == rows[..1];
    if |kept| > 1 {
      LogTextIsLonger(encode, kept, 1);
    }
  }

  lemma LogTextIsLonger(encode: Encoder, rows: seq<Row>, m: nat)
    requires m < |rows|
    ensures |LogText(encode, rows[..m])| < |LogText(encode, rows)|
  {
    LogTextOneMore(encode, rows, m);
    LogTextGrows(encode, rows, m + 1);
  }

  /** A session survives every crash if and only if it found the file ending in a newline, or its first row
      would have changed nothing. */
  lemma SurvivesIff(encode: Encoder, parse: Parser, s: Session)
    requires Codec(encode, parse) && Unglued(encode, parse, Tail(s.base))
    requires EnabledRun(s.day, Begin(parse, s), s.ops)
    ensures Survives(encode, parse, s) <==> Tail(s.base) == "" || !FirstRowMatters(parse, s)
  {
    if Tail(s.base) == "" || !FirstRowMatters(parse, s) {
      forall k, cut | Leaves(encode, parse, s, cut, k)
        ensures RefinesOn(s.day, Live(parse, s, k), Reloaded(encode, parse, s, cut))
      {
        HarmlessCut(encode, parse, s, cut, k);
      }
    } else {
      var k, cut := FirstRowLeft(encode, parse, s);
      var first := Appended(parse, s, k);
      CutRows(encode, parse, s, cut, k);
      LiveRefines(parse, s, k);
      assert first[1..] == [] && Begin(parse, s).log + [] == Begin(parse, s).log;
      SameFactsIff(s.day, Live(parse, s, k), Load(s.day, Begin(parse, s).log + first), Reloaded(encode, parse, s, cut));
    }
  }

  lemma HarmlessCut(encode: Encoder, parse: Parser, s: Session, cut: nat, k: nat)
    requires Codec(encode, parse) && Unglued(encode, parse, Tail(s.base))
    requires EnabledRun(s.day, Begin(parse, s), s.ops) && Leaves(encode, parse, s, cut, k)
    ensures Tail(s.base) == "" || !FirstRowMatters(parse, s) ==>
              RefinesOn(s.day, Live(parse, s, k), Reloaded(encode, parse, s, cut))
  {
    var log, kept := Begin(parse, s).log, Appended(parse, s, k);
    CutRows(encode, parse, s, cut, k);
    LiveRefines(parse, s, k);
    if Tail(s.base) != "" && kept != [] && !FirstRowMatters(parse, s) {
      AppendedPrefix(parse, s, k);
      assert kept[..1] == Appended(parse, s, |s.ops|)[..1];
      SkippingIsHarmless(s.day, log, kept);
      SameFactsIff(s.day, Live(parse, s, k), Load(s.day, log + kept), Load(s.day, log + kept[1..]));
    }
  }

  lemma SkippingIsHarmless(day: int, log: seq<Row>, rows: seq<Row>)
    requires rows != [] && Facts(Load(day, log + rows[..1])) == Facts(Load(day, log))
    ensures Facts(Load(day, log + rows)) == Facts(Load(day, log + rows[1..]))
  {
    FactsAfter(day, log, log + rows[..1], rows[1..]);
    assert log + rows[..1] + rows[1..] == log + rows;
  }

  // ---- Any number of sessions -------------------------------------------------------

  /** An operation, or a crash that loses the file's last bytes and a restart on some day. */
  datatype Act = Do(op: Op) | Crash(lost: nat, day: int)

  function FileText(encode: Encoder, parse: Parser, s: Session): string {
    s.base + LogText(encode, Appended(parse, s, |s.ops|))
  }

  function Next(encode: Encoder, parse: Parser, s: Session, act: Act): Session {
    match act
    case Do(op) => s.(ops := s.ops + [op])
    case Crash(lost, day) =>
      var text := FileText(encode, parse, s);
      Session(day, if lost <= |text| then text[..|text| - lost] else "", [])
  }

  /** From a file that does not exist yet. */
  function Reach(encode: Encoder, parse: Parser, day: int, acts: seq<Act>): Session {
    if acts == [] then Session(day, "", [])
    else Next(encode, parse, Reach(encode, parse, day, acts[..|acts| - 1]), acts[|acts| - 1])
  }

  predicate EnabledNext(parse: Parser, s: Session, act: Act) {
    act.Do? ==> Enabled(s.day, Live(parse, s, |s.ops|), act.op)
  }

  predicate EnabledActs(encode: Encoder, parse: Parser, day: int, acts: seq<Act>) {
    forall k :: 0 <= k < |acts| ==> EnabledNext(parse, Reach(encode, parse, day, acts[..k]), acts[k])
  }

  /** Beginnings of written records, one behind the other. */
  ghost predicate Fragments(encode: Encoder, line: string)
    decreases |line|
  {
    line == "" || exists n, r :: 1 <= n <= |line| && line[..n] <= encode(r) && Fragments(encode, line[n..])
  }

  /** What the writer's syntax promises: nothing parses that has a record behind the beginnings of others. */
  ghost predicate NeverReadsGlued(encode: Encoder, parse: Parser) {
    forall line :: Fragments(encode, line) ==> Unglued(encode, parse, line)
  }

  ghost predicate AllFragments(encode: Encoder, lines: seq<string>) {
    forall i :: 0 <= i < |lines| ==> Fragments(encode, lines[i])
  }

  lemma {:induction false} FragmentsOfPrefix(encode: Encoder, line: string, j: nat)
    requires Fragments(encode, line) && j <= |line|
    ensures Fragments(encode, line[..j])
    decreases |line|
  {
    if j == 0 {
    } else {
      var n, r :| 1 <= n <= |line| && line[..n] <= encode(r) && Fragments(encode, line[n..]);
      if j <= n {
        assert line[..j][..j] <= encode(r) && line[..j][j..] == "";
      } else {
        FragmentsOfPrefix(encode, line[n..], j - n);
        assert line[..j][..n] == line[..n] && line[..j][n..] == line[n..][..j - n];
      }
    }
  }

  lemma {:induction false} FragmentsGrow(encode: Encoder, line: string, row: Row)
    requires Fragments(encode, line)
    ensures Fragments(encode, line + encode(row))
    decreases |line|
  {
    var whole := line + encode(row);
    if line == "" {
      assert whole == encode(row) && whole[..|whole|] == whole && whole[|whole|..] == "";
    } else {
      var n, r :| 1 <= n <= |line| && line[..n] <= encode(r) && Fragments(encode, line[n..]);
      FragmentsGrow(encode, line[n..], row);
      assert whole[..n] == line[..n] && whole[n..] == line[n..] + encode(row);
    }
  }

  lemma {:induction false} SplitOfPrefix(text: string, j: nat)
    requires j <= |text|
    ensures |Split(text[..j])| <= |Split(text)|
    ensures forall i :: 0 <= i < |Split(text[..j])| ==> Split(text[..j])[i] <= Split(text)[i]
  {
    if j == 0 {
      assert text[..j] == "";
    } else {
      SplitOfPrefix(text[1..], j - 1);
      assert text[..j][1..] == text[1..][..j - 1] && text[..j][0] == text[0];
    }
  }

  lemma PrefixIsFragments(encode: Encoder, text: string, j: nat)
    requires AllFragments(encode, Split(text)) && j <= |text|
    ensures AllFragments(encode, Split(text[..j]))
  {
    SplitOfPrefix(text, j);
    forall i | 0 <= i < |Split(text[..j])|
      ensures Fragments(encode, Split(text[..j])[i])
    {
      var whole, piece := Split(text)[i], Split(text[..j])[i];
      FragmentsOfPrefix(encode, whole, |piece|);
      assert whole[..|piece|] == piece;
    }
  }

  lemma LineIsFragments(encode: Encoder, parse: Parser, text: string, row: Row)
    requires Codec(encode, parse) && AllFragments(encode, Split(text))
    ensures AllFragments(encode, Split(text + encode(row) + "\n"))
  {
    AppendLine(text, encode(row));
    FragmentsGrow(encode, Tail(text), row);
    assert Fragments(encode, "");
  }

  lemma {:induction false} LogIsFragments(encode: Encoder, parse: Parser, base: string, rows: seq<Row>)
    requires Codec(encode, parse) && AllFragments(encode, Split(base))
    ensures AllFragments(encode, Split(base + LogText(encode, rows)))
  {
    if rows == [] {
      assert base + LogText(encode, rows) == base;
    } else {
      var n := |rows| - 1;
      var text := base + LogText(encode, rows[..n]);
      LogIsFragments(encode, parse, base, rows[..n]);
      LogTextOneMore(encode, rows, n);
      assert rows[..n + 1] == rows;
      assert base + LogText(encode, rows) == text + encode(rows[n]) + "\n";
      LineIsFragments(encode, parse, text, rows[n]);
    }
  }

  lemma {:induction false} ReachIsFragments(encode: Encoder, parse: Parser, day: int, acts: seq<Act>)
    requires Codec(encode, parse)
    ensures AllFragments(encode, Split(Reach(encode, parse, day, acts).base))
  {
    if acts == [] {
    } else {
      var before := Reach(encode, parse, day, acts[..|acts| - 1]);
      ReachIsFragments(encode, parse, day, acts[..|acts| - 1]);
      var last := acts[|acts| - 1];
      if last.Crash? {
        LogIsFragments(encode, parse, before.base, Appended(parse, before, |before.ops|));
        var text := FileText(encode, parse, before);
        if last.lost <= |text| {
          PrefixIsFragments(encode, text, |text| - last.lost);
        }
      }
    }
  }

  lemma EnabledMore(day: int, start: Sys, ops: seq<Op>, op: Op)
    requires EnabledRun(day, start, ops) && Enabled(day, After(start, ops), op)
    ensures EnabledRun(day, start, ops + [op])
  {
    var more := ops + [op];
    assert more[..|ops|] == ops;
    assert forall k :: 0 <= k < |ops| ==> more[..k] == ops[..k];
  }

  lemma {:induction false} ReachIsEnabled(encode: Encoder, parse: Parser, day: int, acts: seq<Act>)
    requires EnabledActs(encode, parse, day, acts)
    ensures var s := Reach(encode, parse, day, acts); EnabledRun(s.day, Begin(parse, s), s.ops)
  {
    if acts == [] {
    } else {
      var n := |acts| - 1;
      assert forall k :: 0 <= k < n ==> acts[..n][..k] == acts[..k];
      ReachIsEnabled(encode, parse, day, acts[..n]);
      var before := Reach(encode, parse, day, acts[..n]);
      assert EnabledNext(parse, before, acts[n]);
      if acts[n].Do? {
        assert before.ops[..|before.ops|] == before.ops;
        EnabledMore(before.day, Begin(parse, before), before.ops, acts[n].op);
      }
    }
  }

  /** After any number of operations, crashes and restarts, the session survives every further crash if and only if
      it found the file ending in a newline, or its first row changes nothing. */
  lemma RunsSurviveIff(encode: Encoder, parse: Parser, day: int, acts: seq<Act>)
    requires Codec(encode, parse) && NeverReadsGlued(encode, parse) && EnabledActs(encode, parse, day, acts)
    ensures var s := Reach(encode, parse, day, acts);
            Survives(encode, parse, s) <==> Tail(s.base) == "" || !FirstRowMatters(parse, s)
  {
    var s := Reach(encode, parse, day, acts);
    ReachIsFragments(encode, parse, day, acts);
    ReachIsEnabled(encode, parse, day, acts);
    assert Fragments(encode, Tail(s.base));
    SurvivesIff(encode, parse, s);
  }

  // ---- An engine that restarts alone ------------------------------------------------

  /** The live client and the rows it means to be logged, beside the file. */
  datatype World = World(day: int, sys: Sys, text: string)

  /** An operation; a crash of the engine alone, which loses the file's last bytes and keeps the client's map; a crash
      of both and a restart on some day. */
  datatype WorldAct = Perform(op: Op) | EngineCrash(bytes: nat) | BothCrash(bytes: nat, newDay: int)

  function CutEnd(text: string, bytes: nat): string {
    if bytes <= |text| then text[..|text| - bytes] else ""
  }

  function Readable(parse: Parser, text: string): seq<Row> {
    Rows(parse, CompleteLines(text))
  }

  /** The row the operation logs, if any. */
  function RowsOf(s: Sys, op: Op): (rows: seq<Row>)
    ensures OrderCrash.Step(s, op).log == s.log + rows && |rows| <= 1
  {
    OrderCrash.Step(s, op).log[|s.log|..]
  }

  function WorldStep(encode: Encoder, parse: Parser, w: World, act: WorldAct): World {
    match act
    case Perform(op) => World(w.day, OrderCrash.Step(w.sys, op), w.text + LogText(encode, RowsOf(w.sys, op)))
    case EngineCrash(bytes) => w.(text := CutEnd(w.text, bytes))
    case BothCrash(bytes, day) =>
      var left := CutEnd(w.text, bytes);
      World(day, Restarted(day, Readable(parse, left)), left)
  }

  function Opened(parse: Parser, day: int, text: string): World {
    World(day, Restarted(day, Readable(parse, text)), text)
  }

  /** A restart now would find the live map. */
  ghost predicate Restores(parse: Parser, w: World) {
    RefinesOn(w.day, w.sys, LoadFile(w.day, Some(w.text), parse))
  }

  /** No append behind a torn line of a row that matters, and no engine crash that loses one. */
  predicate Harmless(parse: Parser, w: World, act: WorldAct) {
    var restored := Load(w.day, Readable(parse, w.text));
    match act
    case Perform(op) =>
      var rows := RowsOf(w.sys, op);
      rows == [] || Tail(w.text) == "" || Facts(ApplyRow(w.day, restored, rows[0])) == Facts(restored)
    case EngineCrash(bytes) => Facts(Load(w.day, Readable(parse, CutEnd(w.text, bytes)))) == Facts(restored)
    case BothCrash(_, _) => true
  }

  predicate WorldEnabled(w: World, act: WorldAct) {
    act.Perform? ==> Enabled(w.day, w.sys, act.op)
  }

  predicate EnabledFrom(encode: Encoder, parse: Parser, w: World, acts: seq<WorldAct>)
    decreases |acts|
  {
    acts == [] || (WorldEnabled(w, acts[0]) &&
        EnabledFrom(encode, parse, WorldStep(encode, parse, w, acts[0]), acts[1..]))
  }

  ghost predicate AlwaysRestores(encode: Encoder, parse: Parser, w: World, acts: seq<WorldAct>)
    decreases |acts|
  {
    Restores(parse, w) && (acts == [] || AlwaysRestores(encode, parse, WorldStep(encode, parse, w, acts[0]), acts[1..]))
  }

  predicate AlwaysHarmless(encode: Encoder, parse: Parser, w: World, acts: seq<WorldAct>)
    decreases |acts|
  {
    acts == [] || (Harmless(parse, w, acts[0]) &&
        AlwaysHarmless(encode, parse, WorldStep(encode, parse, w, acts[0]), acts[1..]))
  }

  ghost predicate Sound(encode: Encoder, w: World) {
    Refines(w.day, w.sys) && AllFragments(encode, Split(w.text))
  }

  lemma RefinesOnItsRows(day: int, s: Sys)
    requires Refines(day, s)
    ensures RefinesOn(day, s, Load(day, s.log))
  {
    forall id
      ensures RefinesAt(day, s, Load(day, s.log), id)
    {
      assert LogRefinesAt(day, s, id);
    }
  }

  /** The file restores the live map exactly when it and the meant rows give the same facts. */
  lemma RestoresIff(encode: Encoder, parse: Parser, w: World)
    requires Sound(encode, w)
    ensures Restores(parse, w) <==> Facts(Load(w.day, Readable(parse, w.text))) == Facts(Load(w.day, w.sys.log))
  {
    RefinesOnItsRows(w.day, w.sys);
    SameFactsIff(w.day, w.sys, Load(w.day, w.sys.log), LoadFile(w.day, Some(w.text), parse));
  }

  lemma RestartRefines(day: int, log: seq<Row>)
    ensures Refines(day, Restarted(day, log))
  {
    CrashRefinement(day, log, []);
  }

  lemma OperationKeepsRefines(day: int, s: Sys, op: Op)
    requires Refines(day, s) && Enabled(day, s, op)
    ensures Refines(day, OrderCrash.Step(s, op))
  {
    forall id
      ensures LogRefinesAt(day, OrderCrash.Step(s, op), id)
    {
      StepRefinesAt(day, s, op, id);
    }
  }

  lemma CutIsFragments(encode: Encoder, text: string, bytes: nat)
    requires AllFragments(encode, Split(text))
    ensures AllFragments(encode, Split(CutEnd(text, bytes)))
  {
    if bytes <= |text| {
      PrefixIsFragments(encode, text, |text| - bytes);
    }
  }

  lemma WorldStepIsSound(encode: Encoder, parse: Parser, w: World, act: WorldAct)
    requires Codec(encode, parse) && Sound(encode, w) && WorldEnabled(w, act)
    ensures Sound(encode, WorldStep(encode, parse, w, act))
  {
    match act {
      case Perform(op) =>
        OperationKeepsRefines(w.day, w.sys, op);
        LogIsFragments(encode, parse, w.text, RowsOf(w.sys, op));
      case EngineCrash(bytes) => CutIsFragments(encode, w.text, bytes);
      case BothCrash(bytes, day) =>
        CutIsFragments(encode, w.text, bytes);
        RestartRefines(day, Readable(parse, CutEnd(w.text, bytes)));
    }
  }

  lemma OneLogged(encode: Encoder, parse: Parser, text: string, row: Row)
    requires Codec(encode, parse) && Unglued(encode, parse, Tail(text))
    ensures Readable(parse, text + LogText(encode, [row])) ==
            Readable(parse, text) + if Tail(text) == "" then [row] else []
  {
    AppendedRow(encode, parse, text, row);
    LogTextOneMore(encode, [row], 0);
    assert [row][..1] == [row] && [row][..0] == [];
    assert LogText(encode, [row]) == encode(row) + "\n";
    assert text + LogText(encode, [row]) == text + encode(row) + "\n";
  }

  /** Whether file and meant rows still give the same facts after one more row is meant. */
  lemma OneRowIsFaithfulIff(encode: Encoder, parse: Parser, day: int, text: string, log: seq<Row>, row: Row)
    requires Codec(encode, parse) && Unglued(encode, parse, Tail(text))
    requires Facts(Load(day, Readable(parse, text))) == Facts(Load(day, log))
    ensures var restored := Load(day, Readable(parse, text));
            Facts(Load(day, Readable(parse, text + LogText(encode, [row])))) == Facts(Load(day, log + [row])) <==>
            Tail(text) == "" || Facts(ApplyRow(day, restored, row)) == Facts(restored)
  {
    var read := Readable(parse, text);
    OneLogged(encode, parse, text, row);
    OneMoreRow(day, log, row, "");
    OneMoreRow(day, read, row, "");
    FactsStep(day, Load(day, read), Load(day, log), row);
    assert read + [] == read;
  }

  lemma PerformIsFaithfulIff(encode: Encoder, parse: Parser, w: World, op: Op)
    requires Codec(encode, parse) && Unglued(encode, parse, Tail(w.text))
    requires Facts(Load(w.day, Readable(parse, w.text))) == Facts(Load(w.day, w.sys.log))
    ensures var next := WorldStep(encode, parse, w, Perform(op));
            Facts(Load(w.day, Readable(parse, next.text))) == Facts(Load(w.day, next.sys.log)) <==>
            Harmless(parse, w, Perform(op))
  {
    var rows := RowsOf(w.sys, op);
    if rows == [] {
      assert w.text + LogText(encode, rows) == w.text && w.sys.log + rows == w.sys.log;
    } else {
      assert rows == [rows[0]];
      OneRowIsFaithfulIff(encode, parse, w.day, w.text, w.sys.log, rows[0]);
    }
  }

  lemma WorldStepRestoresIff(encode: Encoder, parse: Parser, w: World, act: WorldAct)
    requires Codec(encode, parse) && NeverReadsGlued(encode, parse)
    requires Sound(encode, w) && WorldEnabled(w, act) && Restores(parse, w)
    ensures Restores(parse, WorldStep(encode, parse, w, act)) <==> Harmless(parse, w, act)
  {
    var next := WorldStep(encode, parse, w, act);
    assert Fragments(encode, Tail(w.text));
    WorldStepIsSound(encode, parse, w, act);
    RestoresIff(encode, parse, w);
    RestoresIff(encode, parse, next);
    if act.Perform? {
      PerformIsFaithfulIff(encode, parse, w, act.op);
    }
  }

  lemma {:induction false} AlwaysRestoresFrom(encode: Encoder, parse: Parser, w: World, acts: seq<WorldAct>)
    requires Codec(encode, parse) && NeverReadsGlued(encode, parse)
    requires Sound(encode, w) && Restores(parse, w) && EnabledFrom(encode, parse, w, acts)
    ensures AlwaysRestores(encode, parse, w, acts) <==> AlwaysHarmless(encode, parse, w, acts)
    decreases |acts|
  {
    if acts == [] {
    } else {
      var next := WorldStep(encode, parse, w, acts[0]);
      WorldStepIsSound(encode, parse, w, acts[0]);
      WorldStepRestoresIff(encode, parse, w, acts[0]);
      if Restores(parse, next) {
        AlwaysRestoresFrom(encode, parse, next, acts[1..]);
      }
    }
  }

  /** From an absent file, whoever crashes whenever: the file restores the live map at every moment of a run if and
      only if every append of a row that matters found the file ending in a newline, and no engine crash lost one. */
  lemma AlwaysRestoresIff(encode: Encoder, parse: Parser, day: int, acts: seq<WorldAct>)
    requires Codec(encode, parse) && NeverReadsGlued(encode, parse)
    requires EnabledFrom(encode, parse, Opened(parse, day, ""), acts)
    ensures AlwaysRestores(encode, parse, Opened(parse, day, ""), acts)
       <==> AlwaysHarmless(encode, parse, Opened(parse, day, ""), acts)
  {
    var w := Opened(parse, day, "");
    RestartRefines(day, Readable(parse, ""));
    assert Fragments(encode, "");
    RestoresIff(encode, parse, w);
    AlwaysRestoresFrom(encode, parse, w, acts);
  }

  /** Behind a torn line a submit of an order that the file does not restore is never harmless. */
  lemma FreshSubmitIsHarmful(encode: Encoder, parse: Parser, w: World, id: string, key: u64, ts: i64)
    requires Enabled(w.day, w.sys, Submit(id, key, ts)) && id !in w.sys.live && !w.sys.frozen
    requires Tail(w.text) != "" && id !in Load(w.day, Readable(parse, w.text))
    ensures !Harmless(parse, w, Perform(Submit(id, key, ts)))
  {
    var restored, row := Load(w.day, Readable(parse, w.text)), SubmitRow(id, key, ts);
    assert RowsOf(w.sys, Submit(id, key, ts)) == [row];
    assert id in Facts(ApplyRow(w.day, restored, row)) && id !in Facts(restored);
  }

  /** A crash keeps a prefix of the file, shorter by the bytes it loses, and what then lives is what that restores. */
  lemma CrashLeavesPrefix(encode: Encoder, parse: Parser, w: World, s: Session, bytes: nat, day: int)
    ensures var t := WorldStep(encode, parse, w, BothCrash(bytes, day));
            && t.text <= w.text && |t.text| == (if bytes <= |w.text| then |w.text| - bytes else 0)
            && t.sys.live == LoadFile(day, Some(t.text), parse) && !t.sys.frozen
    ensures var t := WorldStep(encode, parse, w, EngineCrash(bytes));
            && t.text <= w.text && |t.text| == (if bytes <= |w.text| then |w.text| - bytes else 0) && t.sys == w.sys
    ensures var t, text := Next(encode, parse, s, Crash(bytes, day)), FileText(encode, parse, s);
            && t.base <= text && |t.base| == (if bytes <= |text| then |text| - bytes else 0)
            && Live(parse, t, 0).live == LoadFile(day, Some(t.base), parse)
  {}

  // ---- The duplicate order ----------------------------------------------------------

  /** A submit is torn by a crash; the next session's first submit is written completely, and it crashes too. */
  function TornThenSubmit(a: string, b: string, key: u64, ts: i64, lost: nat, day: int): seq<Act> {
    [Do(Submit(a, key, ts)), Crash(lost, day), Do(Submit(b, key, ts)), Crash(0, day)]
  }

  lemma ReachOne(encode: Encoder, parse: Parser, day: int, acts: seq<Act>, k: nat)
    requires k < |acts|
    ensures Reach(encode, parse, day, acts[..k + 1]) ==
            Next(encode, parse, Reach(encode, parse, day, acts[..k]), acts[k])
  {
    assert acts[..k + 1][..k] == acts[..k];
  }

  lemma OneSubmit(encode: Encoder, parse: Parser, day: int, base: string, id: string, key: u64, ts: i64)
    requires Rows(parse, CompleteLines(base)) == []
    ensures var s := Session(day, base, [Submit(id, key, ts)]);
            && id in Live(parse, s, 1).live &&
                FileText(encode, parse, s) == base + encode(SubmitRow(id, key, ts)) + "\n"
  {
    var s := Session(day, base, [Submit(id, key, ts)]);
    var start, row := Begin(parse, s), SubmitRow(id, key, ts);
    assert s.ops[..1] == s.ops && s.ops[..0] == [];
    assert start == Sys(map[], false, [], map[]);
    AfterOne(start, s.ops, 0);
    assert After(start, s.ops[..0]) == start;
    assert Live(parse, s, 1).log == [] + [row] == [row];
    assert Appended(parse, s, 1) == [row];
    LogTextOneMore(encode, [row], 0);
    assert [row][..1] == [row] && [row][..0] == [];
    assert LogText(encode, [row]) == encode(row) + "\n";
    assert base + (encode(row) + "\n") == base + encode(row) + "\n";
  }

  lemma TornSubmit(encode: Encoder, parse: Parser, day: int, a: string, b: string, key: u64, ts: i64, lost: nat)
    requires Codec(encode, parse) && 1 <= lost <= |encode(SubmitRow(a, key, ts))|
    ensures var torn := encode(SubmitRow(a, key, ts))[..|encode(SubmitRow(a, key, ts))| + 1 - lost];
            && Reach(encode, parse, day, TornThenSubmit(a, b, key, ts, lost, day)[..2]) == Session(day, torn, [])
            && torn != "" && CompleteLines(torn) == [] && Tail(torn) == torn
  {
    var acts, line := TornThenSubmit(a, b, key, ts, lost, day), encode(SubmitRow(a, key, ts));
    var torn := line[..|line| + 1 - lost];
    assert acts[..0] == [];
    ReachOne(encode, parse, day, acts, 0);
    ReachOne(encode, parse, day, acts, 1);
    assert [] + [Submit(a, key, ts)] == [Submit(a, key, ts)];
    OneSubmit(encode, parse, day, "", a, key, ts);
    assert ("" + line + "\n")[..|line| + 1 - lost] == torn;
    SplitOneLine(torn);
  }

  /** The second order is live when the second crash comes, was written to the last byte and never rejected,
      and its resend is a new order. */
  lemma ResendIsADuplicate(encode: Encoder, parse: Parser, day: int, a: string, b: string, key: u64, ts: i64, lost: nat)
    requires Codec(encode, parse) && NeverReadsGlued(encode, parse)
    requires 1 <= lost <= |encode(SubmitRow(a, key, ts))|
    ensures var acts := TornThenSubmit(a, b, key, ts, lost, day);
            var last, reborn := Reach(encode, parse, day, acts[..3]), Reach(encode, parse, day, acts);
            && b in Live(parse, last, |last.ops|).live
            && InsertOutcome(Begin(parse, reborn).live, false, b, key) == Created(b)
  {
    var acts, row := TornThenSubmit(a, b, key, ts, lost, day), SubmitRow(b, key, ts);
    TornSubmit(encode, parse, day, a, b, key, ts, lost);
    var torn := Reach(encode, parse, day, acts[..2]).base;
    ReachOne(encode, parse, day, acts, 2);
    ReachOne(encode, parse, day, acts, 3);
    assert acts[..4] == acts && [] + [Submit(b, key, ts)] == [Submit(b, key, ts)];
    OneSubmit(encode, parse, day, torn, b, key, ts);
    var text := torn + encode(row) + "\n";
    assert text[..|text| - 0] == text;
    ReachIsFragments(encode, parse, day, acts[..2]);
    assert Fragments(encode, Tail(torn));
    AppendedRow(encode, parse, torn, row);
    assert Rows(parse, CompleteLines(text)) == [];
  }
}
