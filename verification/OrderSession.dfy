/** The order idempotency map and its recovery from the write-ahead log. */
module OrderSession {
  import opened Common
  import opened WalText

  const DAY_MS := 86_400_000

  datatype Record = Record(venueId: Option<string>, key: u64, status: string)

  type Orders = map<string, Record>

  datatype Outcome =
    | Created(id: string)
    | IdempotentReplay(venueId: Option<string>)
    | Conflict(venueId: Option<string>)
    | SessionFrozen

  /** `ClientOrderId::try_new`: 1 to 36 printable ASCII characters. */
  predicate ValidId(s: string) {
    1 <= |s| <= 36 && forall i :: 0 <= i < |s| ==> ' ' <= s[i] <= '~'
  }

  type ClientOrderId = s: string | ValidId(s) witness "x"

  // ---- Rows -------------------------------------------------------------------------

  function Stamp(row: Row): int {
    if row.ts.Some? then row.ts.value else 0
  }

  /** The UTC day that starts at `day` (epoch milliseconds). */
  predicate InDay(day: int, row: Row) {
    day <= Stamp(row) < day + DAY_MS
  }

  function UtcDay(now: int): int {
    now / DAY_MS * DAY_MS
  }

  /** The window starts at a UTC midnight, and the moment it is taken at lies in it. */
  lemma UtcDayIsMidnight(now: int)
    ensures UtcDay(now) % (24 * 60 * 60 * 1000) == 0 && UtcDay(now) <= now < UtcDay(now) + 24 * 60 * 60 * 1000
  {}

  /** A row is in the window exactly when its stamp falls on the same UTC day; a missing stamp is the epoch's. */
  lemma InDayIff(now: int, row: Row)
    ensures InDay(UtcDay(now), row) <==>
            (if row.ts.Some? then row.ts.value else 0) / (24 * 60 * 60 * 1000) == now / (24 * 60 * 60 * 1000)
  {
    var stamp := Stamp(row);
    if stamp / DAY_MS == now / DAY_MS {
      assert stamp / DAY_MS * DAY_MS <= stamp < stamp / DAY_MS * DAY_MS + DAY_MS;
    }
  }

  /** The longest id and the outermost characters are valid; nothing, one character more or one beyond is not. */
  lemma ValidIdEdges(id: string, c: char)
    requires ValidId(id)
    ensures ValidId(" ") && ValidId("~") && !ValidId("")
    ensures ValidId(seq(36, i => 'x')) && !ValidId(seq(37, i => 'x'))
    ensures |id| < 36 ==> (ValidId(id + [c]) <==> 32 <= c as int <= 126)
    ensures |id| >= 36 ==> !ValidId(id + [c])
  {
    assert forall i :: 0 <= i < |id| ==> (id + [c])[i] == id[i];
    assert (id + [c])[|id|] == c;
  }

  predicate IsSubmit(day: int, row: Row, id: string) {
    InDay(day, row) && row.phase == Some("submit") && row.id == Some(id) && row.key.Some? && row.key.value != 0 &&
        ValidId(id)
  }

  predicate IsAccept(day: int, row: Row, id: string) {
    InDay(day, row) && row.phase == Some("accepted") && row.id == Some(id)
  }

  predicate IsReject(day: int, row: Row, id: string) {
    InDay(day, row) && row.phase == Some("rejected") && row.id == Some(id)
  }

  // ---- Replay -----------------------------------------------------------------------

  function Accepted(r: Record, venueId: Option<string>): Record {
    r.(venueId := if r.venueId.None? then venueId else r.venueId, status := "ACCEPTED")
  }

  function ApplyRow(day: int, orders: Orders, row: Row): Orders {
    if !InDay(day, row) || row.phase.None? || row.id.None? then orders
    else
      var id := row.id.value;
      var key := if row.key.Some? then row.key.value else 0;
      if row.phase.value == "submit" then
        if key == 0 || !ValidId(id) then orders else orders[id := Record(None, key, "SUBMITTED")]
      else if row.phase.value == "accepted" then
        if id in orders then orders[id := Accepted(orders[id], row.venueId)] else orders
      else if row.phase.value == "rejected" then orders - {id}
      else orders
  }

  function Load(day: int, rows: seq<Row>): Orders {
    if rows == [] then map[] else ApplyRow(day, Load(day, rows[..|rows| - 1]), rows[|rows| - 1])
  }

  /** `file` is None when the log does not exist or cannot be read. */
  function LoadFile(day: int, file: Option<string>, parse: Parser): Orders {
    if file.None? then map[] else Load(day, Rows(parse, CompleteLines(file.value)))
  }

  // ---- What recovery means, for every log --------------------------------------------

  /** Row `i` is a valid submit of `id` with no rejection of it later that day. */
  ghost predicate Survives(day: int, rows: seq<Row>, id: string, i: int) {
    0 <= i < |rows| && IsSubmit(day, rows[i], id) && forall k :: i < k < |rows| ==> !IsReject(day, rows[k], id)
  }

  /** ... and it is the last submit. */
  ghost predicate Governs(day: int, rows: seq<Row>, id: string, i: int) {
    Survives(day, rows, id, i) && forall k :: i < k < |rows| ==> !IsSubmit(day, rows[k], id)
  }

  /** Row `k` is the first acceptance after `i` that names a venue order. */
  ghost predicate FirstGiven(day: int, rows: seq<Row>, id: string, i: int, k: int) {
    0 <= i < k < |rows| && IsAccept(day, rows[k], id) && rows[k].venueId.Some?
    && forall h :: i < h < k && IsAccept(day, rows[h], id) ==> rows[h].venueId.None?
  }

  lemma {:induction false} RestoredIff(day: int, rows: seq<Row>, id: string)
    ensures id in Load(day, rows) <==> exists i :: Survives(day, rows, id, i)
  {
    if rows == [] {
    } else {
      var n := |rows| - 1;
      RestoredIff(day, rows[..n], id);
      if i :| Survives(day, rows[..n], id, i) && !IsReject(day, rows[n], id) {
        assert Survives(day, rows, id, i);
      }
      if IsSubmit(day, rows[n], id) {
        assert Survives(day, rows, id, n);
      }
      if i :| Survives(day, rows, id, i) {
        assert i < n ==> Survives(day, rows[..n], id, i);
      }
    }
  }

  /** The restored record, given the submit that governs it. */
  ghost predicate RestoredAs(day: int, rows: seq<Row>, id: string, i: int, r: Record) {
    && Governs(day, rows, id, i)
    && Some(r.key) == rows[i].key
    && (forall k :: FirstGiven(day, rows, id, i, k) ==> r.venueId == rows[k].venueId)
    && (r.venueId.Some? ==> exists k :: FirstGiven(day, rows, id, i, k))
    && r.status == (if exists k :: i < k < |rows| && IsAccept(day, rows[k], id) then "ACCEPTED" else "SUBMITTED")
  }

  /** A restored id has one governing submit, which fixes its key, venue order and status. */
  lemma {:induction false} RestoredRecord(day: int, rows: seq<Row>, id: string) returns (i: int)
    requires id in Load(day, rows)
    ensures RestoredAs(day, rows, id, i, Load(day, rows)[id])
  {
    var n := |rows| - 1;
    var row := rows[n];
    if IsSubmit(day, row, id) {
      i := n;
    } else {
      i := RestoredRecord(day, rows[..n], id);
      RestoredAsExtends(day, rows, id, i, Load(day, rows[..n])[id]);
    }
  }

  lemma RestoredAsExtends(day: int, rows: seq<Row>, id: string, i: int, r: Record)
    requires rows != [] && RestoredAs(day, rows[..|rows| - 1], id, i, r)
    requires !IsSubmit(day, rows[|rows| - 1], id) && !IsReject(day, rows[|rows| - 1], id)
    ensures RestoredAs(day, rows, id, i,
              if IsAccept(day, rows[|rows| - 1], id) then Accepted(r, rows[|rows| - 1].venueId) else r)
  {
    var n := |rows| - 1;
    var r' := if IsAccept(day, rows[n], id) then Accepted(r, rows[n].venueId) else r;
    assert forall k :: 0 <= k < n ==> rows[..n][k] == rows[k];
    forall k | FirstGiven(day, rows, id, i, k)
      ensures r'.venueId == rows[k].venueId
    {
      if k < n {
        assert FirstGiven(day, rows[..n], id, i, k);
      }
    }
    if r.venueId.Some? {
      var h :| FirstGiven(day, rows[..n], id, i, h);
      assert FirstGiven(day, rows, id, i, h);
    } else if r'.venueId.Some? {
      forall h | i < h < n && IsAccept(day, rows[h], id)
        ensures rows[h].venueId.None?
      {
        if rows[h].venueId.Some? {
          var f := FirstGivenExists(day, rows[..n], id, i, h);
        }
      }
      assert FirstGiven(day, rows, id, i, n);
    }
    if k :| i < k < n && IsAccept(day, rows[..n][k], id) {
      assert IsAccept(day, rows[k], id);
    }
  }

  lemma {:induction false} FirstGivenExists(day: int, rows: seq<Row>, id: string, i: int, k: int) returns (f: int)
    requires 0 <= i < k < |rows| && IsAccept(day, rows[k], id) && rows[k].venueId.Some?
    ensures FirstGiven(day, rows, id, i, f)
    decreases k
  {
    if h :| i < h < k && IsAccept(day, rows[h], id) && rows[h].venueId.Some? {
      f := FirstGivenExists(day, rows, id, i, h);
    } else {
      f := k;
    }
  }

  /** An unterminated last line never matters. */
  lemma TornTailNeverMatters(day: int, text: string, parse: Parser)
    ensures LoadFile(day, Some(text), parse) == LoadFile(day, Some(CutTornTail(text)), parse)
  {
    CutKeepsCompleteLines(text);
  }

  // ---- The live map -----------------------------------------------------------------

  function InsertOutcome(orders: Orders, frozen: bool, id: string, key: u64): Outcome {
    if frozen then SessionFrozen
    else if id !in orders then Created(id)
    else if orders[id].key == key then IdempotentReplay(orders[id].venueId)
    else Conflict(orders[id].venueId)
  }

  /** The record whose venue order a `GetOrderList` entry settles: one that already has it,
      otherwise any one that has none; which one is the map's iteration order. */
  predicate MayPick(orders: Orders, venueId: string, pick: Option<string>) {
    match pick
    case None =>
      forall id :: id in orders ==> orders[id].venueId.Some? && orders[id].venueId != Some(venueId)
    case Some(id) =>
      id in orders &&
      (orders[id].venueId == Some(venueId) ||
       (orders[id].venueId.None? && forall other :: other in orders ==> orders[other].venueId != Some(venueId)))
  }

  function AfterList(orders: Orders, venueId: string, status: string, pick: Option<string>): Orders
    requires MayPick(orders, venueId, pick)
  {
    match pick
    case None => orders
    case Some(id) => orders[id := orders[id].(venueId := Some(venueId), status := status)]
  }

  class OrderSessionState {
    var orders: Orders
    var frozen: bool

    constructor ()
      ensures orders == map[] && !frozen
    {
      orders := map[];
      frozen := false;
    }

    constructor LoadFromWal(file: Option<string>, parse: Parser, now: int)
      ensures orders == LoadFile(UtcDay(now), file, parse) && !frozen
    {
      orders := map[];
      frozen := false;
      new;
      var day := UtcDay(now);
      if file.None? {
        return;
      }
      var lines := Split(file.value);
      var n := |lines|;
      var i := 0;
      while i < n
        invariant 0 <= i < n
        invariant orders == Load(day, Rows(parse, lines[..i])) && !frozen
        decreases n - i
      {
        if i == n - 1 {
          break;
        }
        assert lines[..i + 1][..i] == lines[..i];
        var row := parse(lines[i]);
        i := i + 1;
        if row.None? {
          continue;
        }
        ghost var before := Rows(parse, lines[..i - 1]);
        assert (before + [row.value])[..|before|] == before;
        ReplayRow(day, row.value);
      }
    }

    method ReplayRow(day: int, row: Row)
      modifies this
      ensures orders == ApplyRow(day, old(orders), row) && frozen == old(frozen)
    {
      if !InDay(day, row) {
        return;
      }
      if row.phase.None? {
        return;
      }
      if row.id.None? {
        return;
      }
      var id := row.id.value;
      match row.phase.value {
        case "submit" =>
          var key := if row.key.Some? then row.key.value else 0;
          if key == 0 {
            return;
          }
          if !ValidId(id) {
            return;
          }
          orders := orders[id := Record(None, key, "SUBMITTED")];
        case "accepted" =>
          if id in orders {
            var r := orders[id];
            if r.venueId.None? {
              r := r.(venueId := row.venueId);
            }
            orders := orders[id := r.(status := "ACCEPTED")];
          }
        case "rejected" =>
          orders := orders - {id};
        case _ =>
      }
    }

    method Freeze()
      modifies this
      ensures frozen && orders == old(orders)
    {
      frozen := true;
    }

    method TryInsert(id: ClientOrderId, key: u64) returns (outcome: Outcome)
      modifies this
      ensures outcome == InsertOutcome(old(orders), old(frozen), id, key)
      ensures orders == if outcome.Created? then old(orders)[id := Record(None, key, "SUBMITTED")] else old(orders)
      ensures frozen == old(frozen)
    {
      if frozen {
        return SessionFrozen;
      }
      if id in orders {
        var r := orders[id];
        if r.key == key {
          return IdempotentReplay(r.venueId);
        } else {
          return Conflict(r.venueId);
        }
      }
      orders := orders[id := Record(None, key, "SUBMITTED")];
      outcome := Created(id);
    }

    /** Only None to Some: a venue order id once known is never overwritten. */
    method UpdateVenueOrderId(id: ClientOrderId, venueId: string) returns (updated: bool)
      modifies this
      ensures updated <==> id in old(orders) && old(orders)[id].venueId.None?
      ensures orders == if updated then old(orders)[id := old(orders)[id].(venueId := Some(venueId))] else old(orders)
      ensures frozen == old(frozen)
    {
      updated := false;
      if id in orders {
        if orders[id].venueId.None? {
          orders := orders[id := orders[id].(venueId := Some(venueId))];
          updated := true;
        }
      }
    }

    method UpdateStatus(id: ClientOrderId, status: string)
      modifies this
      ensures orders == if id in old(orders) then old(orders)[id := old(orders)[id].(status := status)] else old(orders)
      ensures frozen == old(frozen)
    {
      if id in orders {
        orders := orders[id := orders[id].(status := status)];
      }
    }

    method UpdateVenueOrderIdFromList(venueId: string, status: string) returns (pick: Option<string>)
      modifies this
      ensures MayPick(old(orders), venueId, pick)
      ensures orders == AfterList(old(orders), venueId, status, pick) && frozen == old(frozen)
    {
      if id :| id in orders && orders[id].venueId == Some(venueId) {
        orders := orders[id := orders[id].(status := status)];
        return Some(id);
      }
      if id :| id in orders && orders[id].venueId.None? {
        orders := orders[id := orders[id].(venueId := Some(venueId), status := status)];
        return Some(id);
      }
      pick := None;
    }
  }

  // ---- List completion --------------------------------------------------------------

  function Unknown(orders: Orders): set<string> {
    set id | id in orders && orders[id].venueId.None?
  }

  predicate Knows(orders: Orders, venueId: string) {
    exists id :: id in orders && orders[id].venueId == Some(venueId)
  }

  predicate Injective(orders: Orders) {
    forall a, b :: a in orders && b in orders && a != b && orders[a].venueId.Some? ==>
        orders[a].venueId != orders[b].venueId
  }

  /** `states` is a run of list entries `venueIds` in some iteration order of the map. */
  ghost predicate ListRun(states: seq<Orders>, venueIds: seq<string>, statuses: seq<string>,
      picks: seq<Option<string>>)
  {
    |states| == |venueIds| + 1 && |statuses| == |picks| == |venueIds| &&
    forall i :: 0 <= i < |venueIds| ==>
      MayPick(states[i], venueIds[i], picks[i]) &&
          states[i + 1] == AfterList(states[i], venueIds[i], statuses[i], picks[i])
  }

  /** No record is added or dropped, no key changes and a known venue order id stays. */
  predicate Completes(before: Orders, after: Orders) {
    before.Keys == after.Keys &&
    forall id :: id in before ==>
      after[id].key == before[id].key && (before[id].venueId.Some? ==> after[id].venueId == before[id].venueId)
  }

  lemma OneListEntry(orders: Orders, venueId: string, status: string, pick: Option<string>)
    requires MayPick(orders, venueId, pick) && !Knows(orders, venueId)
    ensures var after := AfterList(orders, venueId, status, pick);
            && Completes(orders, after)
            && (Injective(orders) ==> Injective(after))
            && (pick.None? <==> Unknown(orders) == {})
            && (pick.Some? ==> pick.value in Unknown(orders) && Unknown(after) == Unknown(orders) - {pick.value})
            && (pick.None? ==> Unknown(after) == {})
            && (forall other :: other != venueId && !Knows(orders, other) ==> !Knows(after, other))
  {
    var after := AfterList(orders, venueId, status, pick);
    if pick.None? {
      if id :| id in Unknown(orders) {
        assert false;
      }
    } else {
      assert pick.value in Unknown(orders);
      forall other | other != venueId && !Knows(orders, other)
        ensures !Knows(after, other)
      {
        if id :| id in after && after[id].venueId == Some(other) {
          assert id in orders && orders[id].venueId == Some(other);
        }
      }
    }
  }

  /** A list entry changes one record at most: its status becomes the entry's, its venue order the entry's, its key
      stays. A venue order already known is never given to another record. */
  lemma ListEntryTouchesOne(orders: Orders, venueId: string, status: string, pick: Option<string>)
    requires MayPick(orders, venueId, pick)
    ensures var after := AfterList(orders, venueId, status, pick);
            && after.Keys == orders.Keys
            && (forall id :: id in orders && Some(id) != pick ==> after[id] == orders[id])
            && (pick.Some? ==> pick.value in orders
                               && after[pick.value] == Record(Some(venueId), orders[pick.value].key, status))
            && (Knows(orders, venueId) ==> pick.Some? && orders[pick.value].venueId == Some(venueId))
            && (pick.None? ==> !Knows(orders, venueId) && Unknown(orders) == {})
  {
    if id :| id in orders && orders[id].venueId == Some(venueId) {
      assert Knows(orders, venueId);
    }
    if id :| id in Unknown(orders) && pick.None? {
      assert false;
    }
  }

  /** k distinct new venue orders settle exactly min(k, number unknown) records, in any iteration order. */
  lemma {:induction false} ListCompletion(states: seq<Orders>, venueIds: seq<string>, statuses: seq<string>,
      picks: seq<Option<string>>)
    requires ListRun(states, venueIds, statuses, picks)
    requires forall i, j :: 0 <= i < j < |venueIds| ==> venueIds[i] != venueIds[j]
    requires forall i :: 0 <= i < |venueIds| ==> !Knows(states[0], venueIds[i])
    ensures var k, u := |venueIds|, |Unknown(states[0])|;
            |Unknown(states[k])| == u - (if k < u then k else u)
    ensures Completes(states[0], states[|venueIds|])
    ensures Injective(states[0]) ==> Injective(states[|venueIds|])
    decreases |venueIds|
  {
    if venueIds == [] {
    } else {
      OneListEntry(states[0], venueIds[0], statuses[0], picks[0]);
      ListCompletion(states[1..], venueIds[1..], statuses[1..], picks[1..]);
    }
  }
}
