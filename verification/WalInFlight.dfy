/** The second reader of the order log: a reverse scan that asks whether any order is in flight since
    JST midnight, and its agreement with the recovery of the idempotency map. */
module WalInFlight {
  import opened Common
  import opened WalText
  import opened OrderSession

  const NINE_HOURS_MS := 32_400_000

  function JstDay(now: int): int {
    (now + NINE_HOURS_MS) / DAY_MS * DAY_MS - NINE_HOURS_MS
  }

  /** Time of day on a JST clock. */
  function JstClock(now: int): int {
    (now + NINE_HOURS_MS) % DAY_MS
  }

  /** The cutoff is the latest midnight of a clock nine hours ahead of UTC. */
  lemma JstDayIsMidnight(now: int)
    ensures (JstDay(now) + 9 * 60 * 60 * 1000) % (24 * 60 * 60 * 1000) == 0
    ensures JstDay(now) <= now < JstDay(now) + 24 * 60 * 60 * 1000
    ensures JstClock(now) == now - JstDay(now)
  {}

  type Phases = map<string, string>

  predicate Counted(since: int, row: Row) {
    Stamp(row) >= since && row.id.Some? && row.phase.Some?
  }

  /** Forward, the last row of an id wins. */
  function LastWins(since: int, rows: seq<Row>): Phases {
    if rows == [] then map[]
    else
      var before, row := LastWins(since, rows[..|rows| - 1]), rows[|rows| - 1];
      if Counted(since, row) then before[row.id.value := row.phase.value] else before
  }

  predicate InFlight(phases: Phases) {
    exists id :: id in phases && phases[id] != "rejected"
  }

  /** `str::lines`: an empty last piece is not a line, an unterminated one is. */
  function FileLines(text: string): seq<string> {
    if Tail(text) == "" then CompleteLines(text) else Split(text)
  }

  /** One row of the reverse scan: an id already seen keeps the phase it has. */
  function Visit(since: int, phases: Phases, row: Row): Phases {
    if Counted(since, row) && row.id.value !in phases then phases[row.id.value := row.phase.value] else phases
  }

  /** Visiting a row after all later ones is putting it underneath them. */
  lemma VisitGoesUnderneath(since: int, rows: seq<Row>, row: Row, seen: Phases)
    ensures LastWins(since, rows + [row]) + seen == LastWins(since, rows) + Visit(since, seen, row)
  {
    assert (rows + [row])[..|rows|] == rows;
  }

  method HasWalInFlightOrdersAt(file: Option<string>, parse: Parser, since: int) returns (busy: bool)
    ensures busy <==> file.Some? && InFlight(LastWins(since, Rows(parse, FileLines(file.value))))
  {
    if file.None? {
      return false;
    }
    var lines := FileLines(file.value);
    var latest: Phases := map[];
    ghost var all := LastWins(since, Rows(parse, lines));
    assert lines[..|lines|] == lines;
    var i := |lines|;
    while i > 0
      invariant 0 <= i <= |lines|
      invariant LastWins(since, Rows(parse, lines[..i])) + latest == all
    {
      i := i - 1;
      assert lines[..i] + [lines[i]] == lines[..i + 1];
      RowsOneMore(parse, lines[..i], lines[i]);
      var row := parse(lines[i]);
      if row.None? {
        assert Rows(parse, lines[..i]) + [] == Rows(parse, lines[..i]);
        continue;
      }
      VisitGoesUnderneath(since, Rows(parse, lines[..i]), row.value, latest);
      if Stamp(row.value) < since {
        continue;
      }
      if row.value.id.Some? && row.value.phase.Some? {
        if row.value.id.value !in latest {
          latest := latest[row.value.id.value := row.value.phase.value];
        }
      }
    }
    assert Rows(parse, lines[..0]) == [];
    assert map[] + latest == latest;
    busy := exists id :: id in latest && latest[id] != "rejected";
  }

  // ---- What the map means -----------------------------------------------------------

  /** Row `k` is the last counted row of `id`. */
  ghost predicate LastCounted(since: int, rows: seq<Row>, id: string, k: int) {
    0 <= k < |rows| && Counted(since, rows[k]) && rows[k].id == Some(id)
    && forall h :: k < h < |rows| && Counted(since, rows[h]) ==> rows[h].id != Some(id)
  }

  lemma {:induction false} LastWinsMeaning(since: int, rows: seq<Row>, id: string, i: int) returns (k: int)
    requires 0 <= i < |rows| && Counted(since, rows[i]) && rows[i].id == Some(id)
    ensures i <= k && LastCounted(since, rows, id, k)
    ensures id in LastWins(since, rows) && LastWins(since, rows)[id] == rows[k].phase.value
  {
    var n := |rows| - 1;
    if Counted(since, rows[n]) && rows[n].id == Some(id) {
      k := n;
    } else {
      k := LastWinsMeaning(since, rows[..n], id, i);
    }
  }

  /** ... and no id is held without such a row. */
  lemma {:induction false} OnlyCountedIds(since: int, rows: seq<Row>, id: string)
    requires id in LastWins(since, rows)
    ensures exists i :: 0 <= i < |rows| && Counted(since, rows[i]) && rows[i].id == Some(id)
  {
    var n := |rows| - 1;
    if Counted(since, rows[n]) && rows[n].id == Some(id) {
    } else {
      OnlyCountedIds(since, rows[..n], id);
    }
  }

  // ---- The two readers --------------------------------------------------------------

  /** Timestamps never go back and are not in the future. */
  predicate Ordered(rows: seq<Row>, now: int) {
    forall i, j :: 0 <= i <= j < |rows| ==> Stamp(rows[i]) <= Stamp(rows[j]) <= now
  }

  lemma RestoredIsInFlight(rows: seq<Row>, now: int, id: string)
    requires Ordered(rows, now) && JstDay(now) <= UtcDay(now)
    requires id in Load(UtcDay(now), rows)
    ensures id in LastWins(JstDay(now), rows) && LastWins(JstDay(now), rows)[id] != "rejected"
  {
    RestoredIff(UtcDay(now), rows, id);
    var i :| Survives(UtcDay(now), rows, id, i);
    var k := LastWinsMeaning(JstDay(now), rows, id, i);
    assert InDay(UtcDay(now), rows[k]);
  }

  /** The UTC day lies inside the JST day from JST 09:00 on, and only then. */
  lemma WindowsNest(now: int)
    ensures JstDay(now) <= UtcDay(now) <==> JstClock(now) >= NINE_HOURS_MS
  {}

  ghost predicate ReadersAgree(now: int) {
    forall rows :: Ordered(rows, now) && Load(UtcDay(now), rows) != map[] ==> InFlight(LastWins(JstDay(now), rows))
  }

  /** Over all ordered logs, a non-empty recovered map means orders in flight exactly from JST 09:00 to midnight. */
  lemma ReadersAgreeIff(now: i64)
    requires now >= 0
    ensures ReadersAgree(now) <==> JstClock(now) >= NINE_HOURS_MS
  {
    WindowsNest(now);
    if JstClock(now) >= NINE_HOURS_MS {
      forall rows | Ordered(rows, now) && Load(UtcDay(now), rows) != map[]
        ensures InFlight(LastWins(JstDay(now), rows))
      {
        var id :| id in Load(UtcDay(now), rows);
        RestoredIsInFlight(rows, now, id);
      }
    } else {
      var row := Row(Some(UtcDay(now)), Some("submit"), Some("x"), Some(1), None);
      var rows := [row];
      assert rows[..0] == [];
      assert IsSubmit(UtcDay(now), row, "x");
      assert Ordered(rows, now) && "x" in Load(UtcDay(now), rows);
      assert LastWins(JstDay(now), rows) == map[];
    }
  }

  /** The agreement on files: for a newline-terminated log both readers see the same rows. */
  lemma ReadersAgreeOnFiles(text: string, parse: Parser, now: int)
    requires Tail(text) == "" && Ordered(Rows(parse, CompleteLines(text)), now)
    requires JstClock(now) >= NINE_HOURS_MS
    ensures LoadFile(UtcDay(now), Some(text), parse) != map[] ==>
              InFlight(LastWins(JstDay(now), Rows(parse, FileLines(text))))
  {
    WindowsNest(now);
    var rows := Rows(parse, CompleteLines(text));
    if id :| id in Load(UtcDay(now), rows) {
      RestoredIsInFlight(rows, now, id);
    }
  }

  // ---- Where the readers part -------------------------------------------------------

  /** The scan finds the id in flight. */
  predicate Busy(phases: Phases, id: string) {
    id in phases && phases[id] != "rejected"
  }

  /** The unterminated line is a rejection of the id stamped since the cutoff. */
  predicate TornRejection(parse: Parser, text: string, since: int, id: string) {
    Tail(text) != "" && parse(Tail(text)).Some? &&
    var row := parse(Tail(text)).value;
    Counted(since, row) && row.id == Some(id) && row.phase == Some("rejected")
  }

  lemma TailComesLast(parse: Parser, text: string, since: int)
    ensures LastWins(since, Rows(parse, FileLines(text))) ==
            var phases, tail := LastWins(since, Rows(parse, CompleteLines(text))), parse(Tail(text));
            if Tail(text) != "" && tail.Some? && Counted(since, tail.value)
            then phases[tail.value.id.value := tail.value.phase.value] else phases
  {
    if Tail(text) != "" {
      var lines, rows := CompleteLines(text), Rows(parse, CompleteLines(text));
      assert FileLines(text) == lines + [Tail(text)];
      assert (lines + [Tail(text)])[..|lines|] == lines;
      if parse(Tail(text)).Some? {
        assert (rows + [parse(Tail(text)).value])[..|rows|] == rows;
      }
    }
  }

  /** On a file with a torn line, complete lines in order, from JST 09:00 on: a restored id is in flight for the scan
      exactly when the torn line is not a rejection of it. */
  lemma TornReadersAgreeIff(text: string, parse: Parser, now: int, id: string)
    requires Ordered(Rows(parse, CompleteLines(text)), now) && JstClock(now) >= NINE_HOURS_MS
    requires id in LoadFile(UtcDay(now), Some(text), parse)
    ensures Busy(LastWins(JstDay(now), Rows(parse, FileLines(text))), id) <==>
            !TornRejection(parse, text, JstDay(now), id)
  {
    WindowsNest(now);
    RestoredIsInFlight(Rows(parse, CompleteLines(text)), now, id);
    TailComesLast(parse, text, JstDay(now));
  }

  /** Whatever the order of the stamps: a restored id is not in flight for the scan exactly when its last counted row is
      a rejection stamped outside the UTC day. */
  lemma UnorderedReadersAgreeIff(rows: seq<Row>, now: int, id: string) returns (k: int)
    requires JstDay(now) <= UtcDay(now) && id in Load(UtcDay(now), rows)
    ensures LastCounted(JstDay(now), rows, id, k)
    ensures Busy(LastWins(JstDay(now), rows), id) <==>
            !(rows[k].phase == Some("rejected") && !InDay(UtcDay(now), rows[k]))
  {
    RestoredIff(UtcDay(now), rows, id);
    var i :| Survives(UtcDay(now), rows, id, i);
    k := LastWinsMeaning(JstDay(now), rows, id, i);
    assert k > i && rows[k].phase == Some("rejected") ==> !IsReject(UtcDay(now), rows[k], id);
  }

  /** A submit appended behind a torn line is lost to the scan as well: the order is in flight for it exactly when the
      file ended in a newline. */
  lemma AppendedIsInFlightIff(encode: Encoder, parse: Parser, text: string, row: Row, since: int, id: string)
    requires Codec(encode, parse) && Unglued(encode, parse, Tail(text))
    requires Counted(since, row) && row.id == Some(id) && row.phase == Some("submit")
    requires !Busy(LastWins(since, Rows(parse, CompleteLines(text))), id)
    ensures Busy(LastWins(since, Rows(parse, FileLines(text + encode(row) + "\n"))), id) <==> Tail(text) == ""
  {
    var rows := Rows(parse, CompleteLines(text));
    AppendLine(text, encode(row));
    AppendedRow(encode, parse, text, row);
    assert (rows + [row])[..|rows|] == rows;
    assert rows + [] == rows;
  }

  /** A rejection whose newline is missing is seen by this reader and not by recovery. */
  lemma TornRejectionDivides(encode: Encoder, parse: Parser, id: string, key: u64, now: i64)
    requires Codec(encode, parse) && ValidId(id) && key != 0
    requires now >= 0 && JstClock(now) >= NINE_HOURS_MS
    ensures var submit := Row(Some(now), Some("submit"), Some(id), Some(key), None);
            var reject := Row(Some(now), Some("rejected"), Some(id), None, None);
            var text := encode(submit) + "\n" + encode(reject);
            && id in LoadFile(UtcDay(now), Some(text), parse)
            && !InFlight(LastWins(JstDay(now), Rows(parse, FileLines(text))))
  {
    var submit := Row(Some(now), Some("submit"), Some(id), Some(key), None);
    var reject := Row(Some(now), Some("rejected"), Some(id), None, None);
    var text := encode(submit) + "\n" + encode(reject);
    WindowsNest(now);
    SplitFirstLine(encode(submit), encode(reject));
    SplitOneLine(encode(reject));
    assert Split(text) == Encoded(encode, [submit, reject]);
    assert CompleteLines(text) == Encoded(encode, [submit]);
    RowsOfEncoded(encode, parse, [submit, reject]);
    RowsOfEncoded(encode, parse, [submit]);
    assert [submit][..0] == [] && [submit, reject][..1] == [submit];
    assert LastWins(JstDay(now), [submit]) == map[id := "submit"];
    assert LastWins(JstDay(now), [submit, reject]) == map[id := "rejected"];
  }

  /** A clock stepped back over UTC midnight hides a rejection from recovery only. */
  lemma ClockStepBackDivides(id: string, key: u64, now: i64)
    requires ValidId(id) && key != 0
    requires now >= 2 * DAY_MS && JstClock(now) >= NINE_HOURS_MS
    ensures var rows := [Row(Some(now), Some("submit"), Some(id), Some(key), None),
                         Row(Some(UtcDay(now) - 1), Some("rejected"), Some(id), None, None)];
            id in Load(UtcDay(now), rows) && !InFlight(LastWins(JstDay(now), rows))
  {
    var submit := Row(Some(now), Some("submit"), Some(id), Some(key), None);
    var reject := Row(Some(UtcDay(now) - 1), Some("rejected"), Some(id), None, None);
    assert JstDay(now) == UtcDay(now) - NINE_HOURS_MS;
    assert [submit][..0] == [] && [submit, reject][..1] == [submit];
    assert Load(UtcDay(now), [submit]) == map[id := Record(None, key, "SUBMITTED")];
    assert LastWins(JstDay(now), [submit]) == map[id := "submit"];
    assert LastWins(JstDay(now), [submit, reject]) == map[id := "rejected"];
  }
}
