/** Crash refinement: the live map and the rows of its log side by side. */
module OrderCrash {
  import opened Common
  import opened WalText
  import opened OrderSession

  datatype Op =
    | Submit(id: string, key: u64, ts: i64)
    | Venue(id: string, given: Option<string>, ts: i64)
    | Status(id: string, status: string)
    | ListEntry(venueId: string, status: string, pick: Option<string>)
    | Rejected(id: string, ts: i64)
    | OtherRow(row: Row)
    | Freeze

  /** `listed` names the orders whose venue id came from a list reply, which is never logged, with the venue id
      that an acceptance has logged for them since. */
  datatype Sys = Sys(live: Orders, frozen: bool, log: seq<Row>, listed: map<string, Option<string>>)

  function SubmitRow(id: string, key: u64, ts: i64): Row {
    Row(Some(ts), Some("submit"), Some(id), Some(key), None)
  }

  function AcceptedRow(id: string, venueId: Option<string>, ts: i64): Row {
    Row(Some(ts), Some("accepted"), Some(id), None, venueId)
  }

  function RejectedRow(id: string, ts: i64): Row {
    Row(Some(ts), Some("rejected"), Some(id), None, None)
  }

  /** What the writer promises: rows of the same day, keys that are not zero, validated ids;
      the other rows it writes are order changes and cancellations. */
  predicate Enabled(day: int, s: Sys, op: Op) {
    match op
    case Submit(id, key, ts) => ValidId(id) && key != 0 && day <= ts < day + DAY_MS
    case Venue(id, _, ts) => ValidId(id) && day <= ts < day + DAY_MS
    case Status(id, _) => ValidId(id)
    case ListEntry(venueId, _, pick) => MayPick(s.live, venueId, pick)
    case Rejected(_, ts) => day <= ts < day + DAY_MS
    case OtherRow(row) => row.phase.Some? && row.phase.value !in {"submit", "accepted", "rejected"}
    case Freeze => true
  }

  function Step(s: Sys, op: Op): Sys {
    match op
    case Submit(id, key, ts) =>
      if InsertOutcome(s.live, s.frozen, id, key).Created? then
        s.(live := s.live[id := Record(None, key, "SUBMITTED")], log := s.log + [SubmitRow(id, key, ts)])
      else s
    case Venue(id, venueId, ts) =>
      s.(live := if venueId.Some? && id in s.live && s.live[id].venueId.None?
                 then s.live[id := s.live[id].(venueId := venueId)] else s.live,
         log := s.log + [AcceptedRow(id, venueId, ts)],
         listed := if id in s.listed && s.listed[id].None? then s.listed[id := venueId] else s.listed)
    case Status(id, status) =>
      if id in s.live then s.(live := s.live[id := s.live[id].(status := status)]) else s
    case ListEntry(venueId, status, pick) =>
      if MayPick(s.live, venueId, pick) then
        s.(live := AfterList(s.live, venueId, status, pick),
           listed := if pick.Some? && s.live[pick.value].venueId.None? then s.listed[pick.value := None] else s.listed)
      else s
    case Rejected(id, ts) => s.(log := s.log + [RejectedRow(id, ts)])
    case OtherRow(row) => s.(log := s.log + [row])
    case Freeze => s.(frozen := true)
  }

  /** The real map takes the same step; `rows` is what gets logged, `pick` the list reply's choice. */
  method Perform(state: OrderSessionState, op: Op, ghost log: seq<Row>, ghost listed: map<string, Option<string>>)
    returns (rows: seq<Row>, pick: Option<string>)
    requires (op.Submit? || op.Venue? || op.Status?) ==> ValidId(op.id)
    modifies state
    ensures var done := if op.ListEntry? then op.(pick := pick) else op;
            && (op.ListEntry? ==> MayPick(old(state.orders), op.venueId, pick))
            && var after := Step(Sys(old(state.orders), old(state.frozen), log, listed), done);
               state.orders == after.live && state.frozen == after.frozen && log + rows == after.log
  {
    rows, pick := [], None;
    match op {
      case Submit(id, key, ts) =>
        var outcome := state.TryInsert(id, key);
        if outcome.Created? { rows := [SubmitRow(id, key, ts)]; }
      case Venue(id, venueId, ts) =>
        if venueId.Some? {
          var _ := state.UpdateVenueOrderId(id, venueId.value);
        }
        rows := [AcceptedRow(id, venueId, ts)];
      case Status(id, status) =>
        state.UpdateStatus(id, status);
      case ListEntry(venueId, status, _) =>
        pick := state.UpdateVenueOrderIdFromList(venueId, status);
      case Rejected(id, ts) =>
        rows := [RejectedRow(id, ts)];
      case OtherRow(row) =>
        rows := [row];
      case Freeze =>
        state.Freeze();
    }
  }

  function After(s: Sys, ops: seq<Op>): Sys {
    if ops == [] then s else Step(After(s, ops[..|ops| - 1]), ops[|ops| - 1])
  }

  predicate EnabledRun(day: int, s: Sys, ops: seq<Op>) {
    forall k :: 0 <= k < |ops| ==> Enabled(day, After(s, ops[..k]), ops[k])
  }

  /** A process that has just restored itself from any log whatever. */
  function Restarted(day: int, log: seq<Row>): Sys {
    Sys(Load(day, log), false, log, map[])
  }

  /** The id's latest submit-or-rejected row of the day is a rejection. */
  predicate Dead(day: int, rows: seq<Row>, id: string) {
    rows != [] &&
    var last := rows[|rows| - 1];
    IsReject(day, last, id) || (!IsSubmit(day, last, id) && Dead(day, rows[..|rows| - 1], id))
  }

  ghost predicate RefinesAt(day: int, s: Sys, restored: Orders, id: string) {
    && (id in restored <==> id in s.live && !Dead(day, s.log, id))
    && (id in restored ==>
          restored[id].key == s.live[id].key &&
          restored[id].venueId == if id in s.listed then s.listed[id] else s.live[id].venueId)
  }

  /** The restored map is the live one on ids, keys and venue ids, minus the dead ids, and with logged venue ids
      in the place of those that came from a list reply. */
  ghost predicate RefinesOn(day: int, s: Sys, restored: Orders) {
    forall id :: RefinesAt(day, s, restored, id)
  }

  ghost predicate ListedIsKnown(s: Sys, id: string) {
    id in s.listed ==> id in s.live && s.live[id].venueId.Some?
  }

  ghost predicate LogRefinesAt(day: int, s: Sys, id: string) {
    RefinesAt(day, s, Load(day, s.log), id) && ListedIsKnown(s, id)
  }

  ghost predicate Refines(day: int, s: Sys) {
    forall id :: LogRefinesAt(day, s, id)
  }

  lemma {:induction false} RestoredIsNotDead(day: int, rows: seq<Row>, id: string)
    requires id in Load(day, rows)
    ensures !Dead(day, rows, id)
  {
    var n := |rows| - 1;
    if !IsSubmit(day, rows[n], id) {
      RestoredIsNotDead(day, rows[..n], id);
    }
  }

  lemma OneMoreRow(day: int, rows: seq<Row>, row: Row, id: string)
    ensures Load(day, rows + [row]) == ApplyRow(day, Load(day, rows), row)
    ensures Dead(day, rows + [row], id) <==> IsReject(day, row, id) || (!IsSubmit(day, row, id) && Dead(day, rows, id))
  {
    assert (rows + [row])[..|rows|] == rows;
  }

  lemma SubmitRefinesAt(day: int, s: Sys, other: string, key: u64, ts: i64, id: string)
    requires LogRefinesAt(day, s, id) && Enabled(day, s, Submit(other, key, ts))
    ensures LogRefinesAt(day, Step(s, Submit(other, key, ts)), id)
  {
    OneMoreRow(day, s.log, SubmitRow(other, key, ts), id);
  }

  lemma VenueRefinesAt(day: int, s: Sys, other: string, venueId: Option<string>, ts: i64, id: string)
    requires LogRefinesAt(day, s, id) && Enabled(day, s, Venue(other, venueId, ts))
    ensures LogRefinesAt(day, Step(s, Venue(other, venueId, ts)), id)
  {
    OneMoreRow(day, s.log, AcceptedRow(other, venueId, ts), id);
  }

  lemma RejectedRefinesAt(day: int, s: Sys, other: string, ts: i64, id: string)
    requires LogRefinesAt(day, s, id) && Enabled(day, s, Rejected(other, ts))
    ensures LogRefinesAt(day, Step(s, Rejected(other, ts)), id)
  {
    OneMoreRow(day, s.log, RejectedRow(other, ts), id);
  }

  lemma OtherRowRefinesAt(day: int, s: Sys, row: Row, id: string)
    requires LogRefinesAt(day, s, id) && Enabled(day, s, OtherRow(row))
    ensures LogRefinesAt(day, Step(s, OtherRow(row)), id)
  {
    OneMoreRow(day, s.log, row, id);
  }

  lemma ListEntryRefinesAt(day: int, s: Sys, op: Op, id: string)
    requires op.ListEntry? && LogRefinesAt(day, s, id)
    ensures LogRefinesAt(day, Step(s, op), id)
  {}

  lemma StepRefinesAt(day: int, s: Sys, op: Op, id: string)
    requires LogRefinesAt(day, s, id) && Enabled(day, s, op)
    ensures LogRefinesAt(day, Step(s, op), id)
  {
    match op {
      case Submit(other, key, ts) => SubmitRefinesAt(day, s, other, key, ts, id);
      case Venue(other, venueId, ts) => VenueRefinesAt(day, s, other, venueId, ts, id);
      case ListEntry(_, _, _) => ListEntryRefinesAt(day, s, op, id);
      case Rejected(other, ts) => RejectedRefinesAt(day, s, other, ts, id);
      case OtherRow(row) => OtherRowRefinesAt(day, s, row, id);
      case Status(_, _) =>
      case Freeze =>
    }
  }

  /** At every moment of every run, on top of any initial log. */
  lemma {:induction false} CrashRefinement(day: int, log: seq<Row>, ops: seq<Op>)
    requires EnabledRun(day, Restarted(day, log), ops)
    ensures Refines(day, After(Restarted(day, log), ops))
  {
    if ops == [] {
      forall id | id in Load(day, log)
        ensures !Dead(day, log, id)
      {
        RestoredIsNotDead(day, log, id);
      }
    } else {
      var n := |ops| - 1;
      assert forall k :: 0 <= k < n ==> ops[..n][..k] == ops[..k];
      CrashRefinement(day, log, ops[..n]);
      forall id
        ensures LogRefinesAt(day, After(Restarted(day, log), ops), id)
      {
        StepRefinesAt(day, After(Restarted(day, log), ops[..n]), ops[n], id);
      }
    }
  }

  lemma AfterOne(start: Sys, ops: seq<Op>, k: nat)
    requires k < |ops|
    ensures After(start, ops[..k + 1]) == Step(After(start, ops[..k]), ops[k])
    ensures var before, after := After(start, ops[..k]).log, After(start, ops[..k + 1]).log;
            before <= after && |after| <= |before| + 1
  {
    assert ops[..k + 1][..k] == ops[..k];
  }

  // ---- What an insert is answered ---------------------------------------------------

  lemma {:induction false} FrozenIff(start: Sys, ops: seq<Op>)
    ensures After(start, ops).frozen <==> start.frozen || Freeze in ops
  {
    if ops == [] {
    } else {
      var n := |ops| - 1;
      FrozenIff(start, ops[..n]);
      assert ops == ops[..n] + [ops[n]];
    }
  }

  /** The venue order that the operations give the id first. */
  function FirstVenue(ops: seq<Op>, id: string): Option<string> {
    if ops == [] then None
    else
      var before, last := FirstVenue(ops[..|ops| - 1], id), ops[|ops| - 1];
      if before.Some? then before
      else if last.Venue? && last.id == id then last.given
      else if last.ListEntry? && last.pick == Some(id) then Some(last.venueId)
      else None
  }

  lemma OneOpKeepsRecord(s: Sys, op: Op, id: string)
    requires id in s.live && (op.ListEntry? ==> MayPick(s.live, op.venueId, op.pick))
    ensures var after := Step(s, op).live;
            && id in after && after[id].key == s.live[id].key
            && after[id].venueId == if s.live[id].venueId.Some? then s.live[id].venueId else FirstVenue([op], id)
  {
    assert [op][..0] == [];
  }

  lemma {:induction false} RecordIsKept(day: int, s: Sys, ops: seq<Op>, id: string)
    requires EnabledRun(day, s, ops) && id in s.live
    ensures var live := After(s, ops).live;
            && id in live && live[id].key == s.live[id].key
            && live[id].venueId == if s.live[id].venueId.Some? then s.live[id].venueId else FirstVenue(ops, id)
  {
    if ops == [] {
    } else {
      var n := |ops| - 1;
      assert forall k :: 0 <= k < n ==> ops[..n][..k] == ops[..k];
      RecordIsKept(day, s, ops[..n], id);
      assert Enabled(day, After(s, ops[..n]), ops[n]);
      OneOpKeepsRecord(After(s, ops[..n]), ops[n], id);
      assert [ops[n]][..0] == [];
    }
  }

  lemma {:induction false} AfterConcat(start: Sys, a: seq<Op>, b: seq<Op>)
    ensures After(start, a + b) == After(After(start, a), b)
  {
    if b == [] {
      assert a + b == a;
    } else {
      AfterConcat(start, a, b[..|b| - 1]);
      assert (a + b)[..|a + b| - 1] == a + b[..|b| - 1];
    }
  }

  lemma EnabledSuffix(day: int, start: Sys, a: seq<Op>, b: seq<Op>)
    requires EnabledRun(day, start, a + b)
    ensures EnabledRun(day, After(start, a), b)
  {
    forall k | 0 <= k < |b|
      ensures Enabled(day, After(After(start, a), b[..k]), b[k])
    {
      AfterConcat(start, a, b[..k]);
      assert (a + b)[..|a| + k] == a + b[..k];
      assert Enabled(day, After(start, (a + b)[..|a| + k]), (a + b)[|a| + k]);
    }
  }

  /** An operation of the run created the id's record. */
  predicate MadeBy(start: Sys, ops: seq<Op>, id: string, c: nat) {
    c < |ops| && ops[c].Submit? && ops[c].id == id
    && !After(start, ops[..c]).frozen && id !in After(start, ops[..c]).live
  }

  /** A record made by an operation keeps its key, and its venue order is the first one given since. */
  lemma RecordStands(day: int, start: Sys, ops: seq<Op>, c: nat, id: string)
    requires EnabledRun(day, start, ops) && MadeBy(start, ops, id, c)
    ensures var live := After(start, ops).live;
            id in live && live[id].key == ops[c].key && live[id].venueId == FirstVenue(ops[c + 1..], id)
  {
    var first, since := ops[..c + 1], ops[c + 1..];
    assert first + since == ops;
    AfterOne(start, ops, c);
    AfterConcat(start, first, since);
    EnabledSuffix(day, start, first, since);
    RecordIsKept(day, After(start, first), since, id);
  }

  /** Once an insert has made a record, and while the session is not frozen, the same id and key is a replay, and the
      id with any other key a conflict, both with the venue order first given since. A frozen session refuses all. */
  lemma AnswersStand(day: int, start: Sys, ops: seq<Op>, c: nat, id: string, key: u64)
    requires EnabledRun(day, start, ops) && MadeBy(start, ops, id, c)
    ensures var s := After(start, ops);
            var venue := FirstVenue(ops[c + 1..], id);
            if start.frozen || Freeze in ops then InsertOutcome(s.live, s.frozen, id, key) == SessionFrozen
            else if key == ops[c].key then InsertOutcome(s.live, s.frozen, id, key) == IdempotentReplay(venue)
            else InsertOutcome(s.live, s.frozen, id, key) == Conflict(venue)
  {
    FrozenIff(start, ops);
    RecordStands(day, start, ops, c, id);
  }

  lemma {:induction false} MakerExists(start: Sys, ops: seq<Op>, id: string) returns (c: nat)
    requires id !in start.live && id in After(start, ops).live
    ensures MadeBy(start, ops, id, c)
  {
    var n := |ops| - 1;
    AfterOne(start, ops, n);
    assert ops[..n + 1] == ops;
    if id in After(start, ops[..n]).live {
      c := MakerExists(start, ops[..n], id);
      assert ops[..n][..c] == ops[..c];
    } else {
      c := n;
    }
  }

  lemma KnownIff(day: int, start: Sys, ops: seq<Op>, id: string)
    requires EnabledRun(day, start, ops) && id !in start.live
    ensures id in After(start, ops).live <==> exists c :: MadeBy(start, ops, id, c)
  {
    if id in After(start, ops).live {
      var c := MakerExists(start, ops, id);
    } else if c :| MadeBy(start, ops, id, c) {
      RecordStands(day, start, ops, c, id);
    }
  }

  /** The operation is addressed to the status of the id's record. */
  predicate SetsStatus(op: Op, id: string) {
    (op.Status? && op.id == id) || (op.ListEntry? && op.pick == Some(id))
  }

  lemma OneOpSetsStatus(s: Sys, op: Op, id: string)
    requires id in s.live && (op.ListEntry? ==> MayPick(s.live, op.venueId, op.pick))
    ensures var after := Step(s, op).live;
            id in after && after[id].status == if SetsStatus(op, id) then op.status else s.live[id].status
  {}

  lemma {:induction false} StatusIsKept(day: int, s: Sys, ops: seq<Op>, id: string)
    requires EnabledRun(day, s, ops) && id in s.live && forall k :: 0 <= k < |ops| ==> !SetsStatus(ops[k], id)
    ensures id in After(s, ops).live && After(s, ops).live[id].status == s.live[id].status
  {
    if ops != [] {
      var n := |ops| - 1;
      assert forall k :: 0 <= k < n ==> ops[..n][..k] == ops[..k];
      StatusIsKept(day, s, ops[..n], id);
      assert Enabled(day, After(s, ops[..n]), ops[n]);
      OneOpSetsStatus(After(s, ops[..n]), ops[n], id);
    }
  }

  /** A record's status is the one that was set last, and SUBMITTED until one is set; acceptances set none. */
  lemma StatusIs(day: int, start: Sys, ops: seq<Op>, id: string, i: nat)
    requires EnabledRun(day, start, ops) && i < |ops| && forall k :: i < k < |ops| ==> !SetsStatus(ops[k], id)
    requires MadeBy(start, ops, id, i) || (SetsStatus(ops[i], id) && id in After(start, ops[..i]).live)
    ensures var live := After(start, ops).live;
            id in live && live[id].status == if SetsStatus(ops[i], id) then ops[i].status else "SUBMITTED"
  {
    var first, since := ops[..i + 1], ops[i + 1..];
    assert first + since == ops;
    AfterOne(start, ops, i);
    AfterConcat(start, first, since);
    EnabledSuffix(day, start, first, since);
    assert Enabled(day, After(start, ops[..i]), ops[i]);
    if SetsStatus(ops[i], id) {
      OneOpSetsStatus(After(start, ops[..i]), ops[i], id);
    }
    StatusIsKept(day, After(start, first), since, id);
  }

  /** What an operation logs: every acceptance, rejection and other row, whatever the map says, a submit that makes a
      record, and nothing for a status, a list entry or a freeze. */
  function Logs(s: Sys, op: Op): seq<Row> {
    match op
    case Submit(id, key, ts) =>
      if s.frozen || id in s.live then [] else [Row(Some(ts), Some("submit"), Some(id), Some(key), None)]
    case Venue(id, given, ts) => [Row(Some(ts), Some("accepted"), Some(id), None, given)]
    case Rejected(id, ts) => [Row(Some(ts), Some("rejected"), Some(id), None, None)]
    case OtherRow(row) => [row]
    case _ => []
  }

  /** The log grows by that, operation by operation. */
  lemma LogIs(start: Sys, ops: seq<Op>, k: nat)
    requires k < |ops|
    ensures var s := After(start, ops[..k]);
            After(start, ops[..k + 1]).log == s.log + Logs(s, ops[k])
  {
    AfterOne(start, ops, k);
    assert After(start, ops[..k]).log + [] == After(start, ops[..k]).log;
  }

  /** An insert makes a record exactly if the session is not frozen and no insert of the id has made one before. */
  lemma CreatedIff(day: int, start: Sys, ops: seq<Op>, id: string, key: u64)
    requires EnabledRun(day, start, ops) && id !in start.live
    ensures var s := After(start, ops);
            InsertOutcome(s.live, s.frozen, id, key) == Created(id) <==>
            !start.frozen && Freeze !in ops && forall c :: !MadeBy(start, ops, id, c)
  {
    FrozenIff(start, ops);
    KnownIff(day, start, ops, id);
  }

  lemma {:induction false} LogIsKept(start: Sys, ops: seq<Op>, k: nat)
    requires k <= |ops|
    ensures After(start, ops[..k]).log <= After(start, ops).log
    decreases |ops| - k
  {
    if k == |ops| {
      assert ops[..k] == ops;
    } else {
      AfterOne(start, ops, k);
      LogIsKept(start, ops, k + 1);
    }
  }

  lemma RefinesAlong(day: int, log: seq<Row>, ops: seq<Op>, k: nat)
    requires EnabledRun(day, Restarted(day, log), ops) && k <= |ops|
    ensures Refines(day, After(Restarted(day, log), ops[..k]))
  {
    assert forall i :: 0 <= i < k ==> ops[..k][..i] == ops[..i];
    CrashRefinement(day, log, ops[..k]);
  }

  /** What a resend of an id meets after a restart with `restored`: a new order exactly for ids never live or last
      rejected, and for the others what the live map would have answered. */
  lemma ResendAfterCrash(day: int, s: Sys, restored: Orders, id: string, key: u64)
    requires RefinesOn(day, s, restored)
    ensures var outcome := InsertOutcome(restored, false, id, key);
            && (outcome.Created? <==> id !in s.live || Dead(day, s.log, id))
            && (!outcome.Created? && id !in s.listed ==> outcome == InsertOutcome(s.live, false, id, key))
  {
    assert RefinesAt(day, s, restored, id);
  }

  function RejectedThenAccepted(id: string, key: u64, venueId: string, ts: i64): seq<Op> {
    [Submit(id, key, ts), Rejected(id, ts), Venue(id, Some(venueId), ts)]
  }

  lemma RejectedThenAcceptedRuns(day: int, id: string, key: u64, venueId: string, ts: i64)
    ensures var start, ops := Restarted(day, []), RejectedThenAccepted(id, key, venueId, ts);
            var r1, r2, r3 := SubmitRow(id, key, ts), RejectedRow(id, ts), AcceptedRow(id, Some(venueId), ts);
            && After(start, ops[..0]) == start
            && After(start, ops[..1]) == Sys(map[id := Record(None, key, "SUBMITTED")], false, [r1], map[])
            && After(start, ops[..2]) == Sys(map[id := Record(None, key, "SUBMITTED")], false, [r1, r2], map[])
            && After(start, ops[..3]) ==
                Sys(map[id := Record(Some(venueId), key, "SUBMITTED")], false, [r1, r2, r3], map[])
  {
    var start, ops := Restarted(day, []), RejectedThenAccepted(id, key, venueId, ts);
    assert ops[..0] == [];
    AfterOne(start, ops, 0);
    AfterOne(start, ops, 1);
    AfterOne(start, ops, 2);
  }

  /** "Minus the ids whose last row is rejected" is too little: a rejected order that is accepted later
      has an accepted row last, is known live, and is still not restored. */
  lemma AcceptedAfterRejectedIsNotRestored(day: int, id: string, key: u64, venueId: string, ts: i64)
    requires ValidId(id) && key != 0 && day <= ts < day + DAY_MS
    ensures var ops := RejectedThenAccepted(id, key, venueId, ts);
            var s := After(Restarted(day, []), ops);
            && EnabledRun(day, Restarted(day, []), ops)
            && id in s.live && IsAccept(day, s.log[|s.log| - 1], id)
            && id !in Load(day, s.log)
  {
    var ops := RejectedThenAccepted(id, key, venueId, ts);
    var r1, r2, r3 := SubmitRow(id, key, ts), RejectedRow(id, ts), AcceptedRow(id, Some(venueId), ts);
    RejectedThenAcceptedRuns(day, id, key, venueId, ts);
    assert ops[..3] == ops;
    assert [r1] + [r2] == [r1, r2] && [r1, r2] + [r3] == [r1, r2, r3];
    OneMoreRow(day, [r1], r2, id);
    OneMoreRow(day, [r1, r2], r3, id);
  }
}
