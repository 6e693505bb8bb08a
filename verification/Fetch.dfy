/** Request and reply over the shared broadcast: a fetch waits among everybody's events for its own. */
module Fetch {
  import opened Common

  /** What `recv` may return; a trade that does not parse is None. */
  datatype Incoming<T> =
    | TradesFetched(requestId: string, trades: seq<Option<T>>, isLast: bool)
    | Klines(requestId: string, klines: seq<Option<T>>)
    | EngineError(errorRequestId: Option<string>, code: string, message: string)
    | ConnectionDropped
    | OtherEvent
    | Lagged(dropped: nat)
    | Closed

  datatype Error =
    | InvalidRequest(code: string, message: string)
    | LaggedBy(dropped: nat)
    | EngineRestarting
    | SendFailed
    | Timeout

  function Parsed<T>(trades: seq<Option<T>>): seq<T> {
    if trades == [] then []
    else if trades[0].Some? then [trades[0].value] + Parsed(trades[1..])
    else Parsed(trades[1..])
  }

  /** Nothing of a trade that does not parse, the trade of one that does, and the parts in order. */
  lemma {:induction false} ParsedParts<T>(a: seq<Option<T>>, b: seq<Option<T>>)
    ensures Parsed(a + b) == Parsed(a) + Parsed(b)
    ensures Parsed<T>([None]) == []
    ensures forall x: T :: Parsed([Some(x)]) == [x]
  {
    if a == [] {
      assert a + b == b;
    } else {
      ParsedParts(a[1..], b);
      assert (a + b)[1..] == a[1..] + b;
    }
  }

  ghost predicate PicksOut<T(!new)>(trades: seq<Option<T>>, result: seq<T>, at: seq<nat>) {
    |at| == |result| && forall i :: 0 <= i < |at| ==> at[i] < |trades| && trades[at[i]] == Some(result[i])
  }

  predicate Ascending(at: seq<nat>) {
    forall i, j :: 0 <= i < j < |at| ==> at[i] < at[j]
  }

  ghost predicate MissesNone<T(!new)>(trades: seq<Option<T>>, at: seq<nat>) {
    forall k :: 0 <= k < |trades| && trades[k].Some? ==> k in at
  }

  /** The result is what stands at the positions `at`: exactly those where a trade parses, in order. */
  ghost predicate Selects<T(!new)>(trades: seq<Option<T>>, result: seq<T>, at: seq<nat>) {
    PicksOut(trades, result, at) && Ascending(at) && MissesNone(trades, at)
  }

  function Shifted(at: seq<nat>): (r: seq<nat>)
    ensures |r| == |at| && forall i :: 0 <= i < |at| ==> r[i] == at[i] + 1
  {
    seq(|at|, i requires 0 <= i < |at| => at[i] + 1)
  }

  lemma SkipFront<T(!new)>(trades: seq<Option<T>>, result: seq<T>, at: seq<nat>)
    requires trades != [] && trades[0].None? && Selects(trades[1..], result, at)
    ensures Selects(trades, result, Shifted(at))
  {
    forall k | 0 <= k < |trades| && trades[k].Some?
      ensures k in Shifted(at)
    {
      var i :| 0 <= i < |at| && at[i] == k - 1;
      assert Shifted(at)[i] == k;
    }
  }

  lemma FrontMissesNone<T(!new)>(trades: seq<Option<T>>, at: seq<nat>)
    requires trades != [] && MissesNone(trades[1..], at)
    ensures MissesNone(trades, [0] + Shifted(at))
  {
    var all := [0] + Shifted(at);
    forall k | 0 <= k < |trades| && trades[k].Some?
      ensures k in all
    {
      if k == 0 {
        assert all[0] == k;
      } else {
        assert trades[1..][k - 1].Some?;
        var i :| 0 <= i < |at| && at[i] == k - 1;
        assert all[i + 1] == k;
      }
    }
  }

  lemma FrontPicksOut<T(!new)>(trades: seq<Option<T>>, result: seq<T>, at: seq<nat>)
    requires trades != [] && trades[0].Some? && PicksOut(trades[1..], result, at)
    ensures PicksOut(trades, [trades[0].value] + result, [0] + Shifted(at))
  {
    var all := [0] + Shifted(at);
    forall i | 0 <= i < |all|
      ensures all[i] < |trades| && trades[all[i]] == Some(([trades[0].value] + result)[i])
    {
      if i > 0 {
        assert all[i] == at[i - 1] + 1 && trades[1..][at[i - 1]] == Some(result[i - 1]);
      }
    }
  }

  lemma TakeFront<T(!new)>(trades: seq<Option<T>>, result: seq<T>, at: seq<nat>)
    requires trades != [] && trades[0].Some? && Selects(trades[1..], result, at)
    ensures Selects(trades, [trades[0].value] + result, [0] + Shifted(at))
  {
    FrontMissesNone(trades, at);
    FrontPicksOut(trades, result, at);
  }

  lemma {:induction false} ParsedSelects<T(!new)>(trades: seq<Option<T>>) returns (at: seq<nat>)
    ensures Selects(trades, Parsed(trades), at)
  {
    if trades == [] {
      at := [];
    } else {
      at := ParsedSelects(trades[1..]);
      if trades[0].Some? {
        TakeFront(trades, Parsed(trades[1..]), at);
        at := [0] + Shifted(at);
      } else {
        SkipFront(trades, Parsed(trades[1..]), at);
        at := Shifted(at);
      }
    }
  }

  predicate OwnChunk<T>(rid: string, ev: Incoming<T>) {
    ev.TradesFetched? && ev.requestId == rid
  }

  predicate OwnError<T>(rid: string, ev: Incoming<T>) {
    ev.EngineError? && ev.errorRequestId == Some(rid)
  }

  /** The event ends the fetch without trades. */
  predicate Aborts<T>(rid: string, ev: Incoming<T>) {
    OwnError(rid, ev) || ev.Lagged? || ev.ConnectionDropped? || ev.Closed?
  }

  /** Somebody else's event. */
  predicate Foreign<T>(rid: string, ev: Incoming<T>) {
    !OwnChunk(rid, ev) && !Aborts(rid, ev)
  }

  function Failure<T>(rid: string, ev: Incoming<T>): Error
    requires Aborts(rid, ev)
  {
    match ev
    case EngineError(_, code, message) => InvalidRequest(code, message)
    case Lagged(n) => LaggedBy(n)
    case _ => EngineRestarting
  }

  /** The parsable trades of the request's own chunks, in order. */
  function Collected<T>(rid: string, events: seq<Incoming<T>>): seq<T> {
    if events == [] then []
    else
      var before, last := Collected(rid, events[..|events| - 1]), events[|events| - 1];
      if OwnChunk(rid, last) then before + Parsed(last.trades) else before
  }

  /** Event `k` decides the fetch: the first own last chunk or the first abort. */
  ghost predicate Decides<T(!new)>(rid: string, events: seq<Incoming<T>>, k: int) {
    && 0 <= k < |events| && Decisive(rid, events[k])
    && forall i :: 0 <= i < k ==> !Decisive(rid, events[i])
  }

  predicate Decisive<T>(rid: string, ev: Incoming<T>) {
    Aborts(rid, ev) || (OwnChunk(rid, ev) && ev.isLast)
  }

  /** What decides a fetch, by the event's own fields. */
  lemma DecisiveIff<T(!new)>(rid: string, ev: Incoming<T>)
    ensures Decisive(rid, ev) <==>
            match ev
            case TradesFetched(id, _, last) => id == rid && last
            case EngineError(id, _, _) => id == Some(rid)
            case Lagged(_) => true
            case ConnectionDropped => true
            case Closed => true
            case _ => false
    ensures Foreign(rid, ev) <==>
            match ev
            case TradesFetched(id, _, _) => id != rid
            case EngineError(id, _, _) => id != Some(rid)
            case Klines(_, _) => true
            case OtherEvent => true
            case _ => false
  {}

  function Outcome<T>(rid: string, events: seq<Incoming<T>>, soFar: seq<T>): Result<seq<T>, Error> {
    if events == [] then Err(Timeout)
    else if Aborts(rid, events[0]) then Err(Failure(rid, events[0]))
    else if OwnChunk(rid, events[0]) then
      var now := soFar + Parsed(events[0].trades);
      if events[0].isLast then Ok(now) else Outcome(rid, events[1..], now)
    else Outcome(rid, events[1..], soFar)
  }

  /** `events` is what the receiver gets after subscribing; running out of them is the timeout. */
  method FetchTrades<T(!new)>(rid: string, sent: bool, events: seq<Incoming<T>>) returns (r: Result<seq<T>, Error>)
    ensures !sent ==> r == Err(SendFailed)
    ensures sent ==> r == Outcome(rid, events, [])
  {
    if !sent {
      return Err(SendFailed);
    }
    var accumulated: seq<T> := [];
    for i := 0 to |events|
      invariant Outcome(rid, events, []) == Outcome(rid, events[i..], accumulated)
    {
      assert events[i..][0] == events[i] && events[i..][1..] == events[i + 1..];
      var ev := events[i];
      match ev {
        case TradesFetched(id, trades, isLast) =>
          if id == rid {
            var parsed := ParseTrades(trades);
            accumulated := accumulated + parsed;
            if isLast {
              return Ok(accumulated);
            }
          }
        case EngineError(id, code, message) =>
          if id == Some(rid) {
            return Err(InvalidRequest(code, message));
          }
        case Lagged(n) =>
          return Err(LaggedBy(n));
        case ConnectionDropped =>
          return Err(EngineRestarting);
        case Closed =>
          return Err(EngineRestarting);
        case _ =>
      }
    }
    r := Err(Timeout);
  }

  method ParseTrades<T>(trades: seq<Option<T>>) returns (parsed: seq<T>)
    ensures parsed == Parsed(trades)
  {
    parsed := [];
    for i := 0 to |trades|
      invariant parsed + Parsed(trades[i..]) == Parsed(trades)
    {
      assert trades[i..][0] == trades[i] && trades[i..][1..] == trades[i + 1..];
      if trades[i].Some? {
        assert Parsed(trades[i..]) == [trades[i].value] + Parsed(trades[i + 1..]);
        parsed := parsed + [trades[i].value];
      }
    }
    assert trades[|trades|..] == [];
  }

  // ---- The outcome as a function, and what it promises -------------------------------

  lemma {:induction false} CollectedFront<T(!new)>(rid: string, ev: Incoming<T>, events: seq<Incoming<T>>)
    ensures Collected(rid, [ev] + events) ==
            (if OwnChunk(rid, ev) then Parsed(ev.trades) else []) + Collected(rid, events)
  {
    var all := [ev] + events;
    if events == [] {
      assert all[..0] == [];
    } else {
      CollectedFront(rid, ev, events[..|events| - 1]);
      assert all[..|all| - 1] == [ev] + events[..|events| - 1];
    }
  }

  /** The first decisive event settles the outcome. */
  lemma {:induction false} DecisionSettles<T(!new)>(rid: string, events: seq<Incoming<T>>, soFar: seq<T>, k: int)
    requires Decides(rid, events, k)
    ensures Outcome(rid, events, soFar) ==
            match events[k]
            case TradesFetched(_, _, _) => Ok(soFar + Collected(rid, events[..k + 1]))
            case EngineError(_, code, message) => Err(InvalidRequest(code, message))
            case Lagged(n) => Err(LaggedBy(n))
            case _ => Err(EngineRestarting)
    decreases k
  {
    var ev, rest := events[0], events[1..];
    assert events[..k + 1] == [ev] + rest[..k];
    CollectedFront(rid, ev, rest[..k]);
    var head := if OwnChunk(rid, ev) then Parsed(ev.trades) else [];
    assert soFar + (head + Collected(rid, rest[..k])) == soFar + head + Collected(rid, rest[..k]);
    if k == 0 {
      assert soFar + head + [] == soFar + head;
    } else {
      assert !Decisive(rid, ev);
      assert forall i :: 0 <= i < |rest| ==> rest[i] == events[i + 1];
      assert soFar + [] == soFar;
      DecisionSettles(rid, rest, soFar + head, k - 1);
    }
  }

  lemma {:induction false} UndecidedTimesOut<T(!new)>(rid: string, events: seq<Incoming<T>>, soFar: seq<T>)
    requires forall k :: 0 <= k < |events| ==> !Decisive(rid, events[k])
    ensures Outcome(rid, events, soFar) == Err(Timeout)
    decreases events
  {
    if events == [] {
    } else {
      UndecidedTimesOut(rid, events[1..], if OwnChunk(rid, events[0]) then soFar + Parsed(events[0].trades) else soFar);
    }
  }

  lemma {:induction false} FirstDecisive<T(!new)>(rid: string, events: seq<Incoming<T>>, k: nat) returns (d: int)
    requires k < |events| && Decisive(rid, events[k])
    ensures Decides(rid, events, d)
  {
    if i :| 0 <= i < k && Decisive(rid, events[i]) {
      d := FirstDecisive(rid, events, i);
    } else {
      d := k;
    }
  }

  /** The request's own last chunk comes first, at `k`, and these are the trades of its chunks up to it. */
  ghost predicate Finishes<T(!new)>(rid: string, events: seq<Incoming<T>>, result: seq<T>, k: int) {
    Decides(rid, events, k) && !Aborts(rid, events[k]) && result == Collected(rid, events[..k + 1])
  }

  /** Ok means all or nothing: the decisive event is the request's own last chunk, nothing was lost before it,
      and the value is the in-order concatenation of its own chunks, no more and no less. */
  lemma OkIff<T(!new)>(rid: string, events: seq<Incoming<T>>, result: seq<T>)
    ensures Outcome(rid, events, []) == Ok(result) <==> exists k :: Finishes(rid, events, result, k)
  {
    if k :| 0 <= k < |events| && Decisive(rid, events[k]) {
      var d := FirstDecisive(rid, events, k);
      DecisionSettles(rid, events, [], d);
      assert [] + Collected(rid, events[..d + 1]) == Collected(rid, events[..d + 1]);
      assert forall e :: Decides(rid, events, e) ==> e == d;
      assert Outcome(rid, events, []) == Ok(result) ==> Finishes(rid, events, result, d);
    } else {
      UndecidedTimesOut(rid, events, []);
    }
  }

  /** All trades of the request's own chunks, parsable or not, in order. */
  function OwnTrades<T>(rid: string, events: seq<Incoming<T>>): seq<Option<T>> {
    if events == [] then []
    else
      var before, last := OwnTrades(rid, events[..|events| - 1]), events[|events| - 1];
      if last.TradesFetched? && last.requestId == rid then before + last.trades else before
  }

  lemma {:induction false} CollectedIsParsed<T(!new)>(rid: string, events: seq<Incoming<T>>)
    ensures Collected(rid, events) == Parsed(OwnTrades(rid, events))
  {
    if events == [] {
    } else {
      var before, last := events[..|events| - 1], events[|events| - 1];
      CollectedIsParsed(rid, before);
      if OwnChunk(rid, last) {
        ParsedParts(OwnTrades(rid, before), last.trades);
      }
    }
  }

  /** An Ok loses no parsable trade of the request's chunks, adds none and keeps their order. */
  lemma OkSelects<T(!new)>(rid: string, events: seq<Incoming<T>>, result: seq<T>) returns (k: nat, at: seq<nat>)
    requires Outcome(rid, events, []) == Ok(result)
    ensures k < |events| && events[k].TradesFetched? && events[k].requestId == rid && events[k].isLast
    ensures Selects(OwnTrades(rid, events[..k + 1]), result, at)
  {
    OkIff(rid, events, result);
    k :| Finishes(rid, events, result, k);
    CollectedIsParsed(rid, events[..k + 1]);
    at := ParsedSelects(OwnTrades(rid, events[..k + 1]));
  }

  function Own<T>(rid: string, events: seq<Incoming<T>>): seq<Incoming<T>> {
    if events == [] then []
    else if Foreign(rid, events[0]) then Own(rid, events[1..])
    else [events[0]] + Own(rid, events[1..])
  }

  /** Isolation: other requests' events may be deleted, inserted and reordered among ours without effect. */
  lemma {:induction false} ForeignEventsDoNotMatter<T(!new)>(rid: string, events: seq<Incoming<T>>, soFar: seq<T>)
    ensures Outcome(rid, events, soFar) == Outcome(rid, Own(rid, events), soFar)
    decreases events
  {
    if events == [] {
    } else {
      var now := if OwnChunk(rid, events[0]) then soFar + Parsed(events[0].trades) else soFar;
      ForeignEventsDoNotMatter(rid, events[1..], now);
      if !Foreign(rid, events[0]) {
        assert Own(rid, events)[1..] == Own(rid, events[1..]);
      }
    }
  }

  /** Two requests on one broadcast do not see each other. */
  lemma RequestsAreIsolated<T(!new)>(rid: string, a: seq<Incoming<T>>, b: seq<Incoming<T>>)
    requires Own(rid, a) == Own(rid, b)
    ensures Outcome(rid, a, []) == Outcome(rid, b, [])
  {
    ForeignEventsDoNotMatter(rid, a, []);
    ForeignEventsDoNotMatter(rid, b, []);
  }

  // ---- Subscribing before sending ---------------------------------------------------

  /** The receiver subscribed at `at` sees `log[at..]`; the engine answers only what has been sent. */
  ghost predicate AnswersFollow<T(!new)>(rid: string, log: seq<Incoming<T>>, sentAt: nat) {
    forall i :: 0 <= i < sentAt && i < |log| ==> !OwnChunk(rid, log[i]) && !OwnError(rid, log[i])
  }

  function Chunks<T>(rid: string, events: seq<Incoming<T>>): seq<Incoming<T>> {
    if events == [] then []
    else if OwnChunk(rid, events[0]) || OwnError(rid, events[0]) then [events[0]] + Chunks(rid, events[1..])
    else Chunks(rid, events[1..])
  }

  /** Subscribed no later than sent, the receiver gets every reply of the whole timeline. */
  lemma {:induction false} NoReplyMissed<T(!new)>(rid: string, log: seq<Incoming<T>>, subscribedAt: nat, sentAt: nat)
    requires subscribedAt <= sentAt && subscribedAt <= |log| && AnswersFollow(rid, log, sentAt)
    ensures Chunks(rid, log[subscribedAt..]) == Chunks(rid, log)
    decreases log
  {
    if subscribedAt > 0 {
      assert !OwnChunk(rid, log[0]) && !OwnError(rid, log[0]);
      NoReplyMissed(rid, log[1..], subscribedAt - 1, sentAt - 1);
      assert log[1..][subscribedAt - 1..] == log[subscribedAt..];
    } else {
      assert log[0..] == log;
    }
  }

  lemma {:induction false} NothingOfOurs<T(!new)>(rid: string, events: seq<Incoming<T>>)
    requires forall i :: 0 <= i < |events| ==> !OwnChunk(rid, events[i])
    ensures Collected(rid, events) == []
  {
    if events == [] {
    } else {
      NothingOfOurs(rid, events[..|events| - 1]);
    }
  }

  lemma {:induction false} CollectedConcat<T(!new)>(rid: string, a: seq<Incoming<T>>, b: seq<Incoming<T>>)
    ensures Collected(rid, a + b) == Collected(rid, a) + Collected(rid, b)
  {
    if b == [] {
      assert a + b == a;
    } else {
      CollectedConcat(rid, a, b[..|b| - 1]);
      assert (a + b)[..|a + b| - 1] == a + b[..|b| - 1];
    }
  }

  /** Event `k` of the timeline decides for a receiver subscribed at `at`. */
  ghost predicate DecidesFrom<T(!new)>(rid: string, log: seq<Incoming<T>>, at: nat, k: int) {
    at <= k < |log| && Decisive(rid, log[k]) && forall i :: at <= i < k ==> !Decisive(rid, log[i])
  }

  lemma DecidesShift<T(!new)>(rid: string, log: seq<Incoming<T>>, at: nat, k: nat)
    requires at + k < |log|
    ensures Decides(rid, log[at..], k) <==> DecidesFrom(rid, log, at, at + k)
  {
    var events := log[at..];
    assert Decides(rid, events, k) ==> forall i :: at <= i < at + k ==> log[i] == events[i - at];
    assert forall i :: 0 <= i < k ==> events[i] == log[at + i];
  }

  lemma CollectedFrom<T(!new)>(rid: string, log: seq<Incoming<T>>, at: nat, k: nat)
    requires at + k < |log| && forall i :: 0 <= i < at ==> !OwnChunk(rid, log[i])
    ensures Collected(rid, log[..at + k + 1]) == Collected(rid, log[at..][..k + 1])
  {
    var before, seen := log[..at], log[at..][..k + 1];
    NothingOfOurs(rid, before);
    CollectedConcat(rid, before, seen);
    assert log[..at + k + 1] == before + seen;
  }

  /** The same over a timeline, for a receiver subscribed at `at`: the chunks are all there are. */
  ghost predicate Completes<T(!new)>(rid: string, log: seq<Incoming<T>>, at: nat, result: seq<T>, k: int) {
    DecidesFrom(rid, log, at, k) && !Aborts(rid, log[k]) && result == Collected(rid, log[..k + 1])
  }

  lemma FinishesShift<T(!new)>(rid: string, log: seq<Incoming<T>>, at: nat, result: seq<T>, k: nat)
    requires at + k < |log| && forall i :: 0 <= i < at ==> !OwnChunk(rid, log[i])
    ensures Finishes(rid, log[at..], result, k) <==> Completes(rid, log, at, result, at + k)
  {
    DecidesShift(rid, log, at, k);
    CollectedFrom(rid, log, at, k);
    assert log[at..][k] == log[at + k];
  }

  /** Over the whole timeline, subscribed no later than sent: Ok carries the parsable trades of every own chunk there
      is up to the first last one, exactly if neither an own error nor a lag, drop or close came first. */
  lemma TimelineOkIff<T(!new)>(rid: string, log: seq<Incoming<T>>, subscribedAt: nat, sentAt: nat, result: seq<T>)
    requires subscribedAt <= sentAt && subscribedAt <= |log| && AnswersFollow(rid, log, sentAt)
    ensures Outcome(rid, log[subscribedAt..], []) == Ok(result) <==>
            exists k :: Completes(rid, log, subscribedAt, result, k)
  {
    var at, events := subscribedAt, log[subscribedAt..];
    OkIff(rid, events, result);
    if k :| Finishes(rid, events, result, k) {
      FinishesShift(rid, log, at, result, k);
    }
    if k :| Completes(rid, log, at, result, k) {
      FinishesShift(rid, log, at, result, k - at);
    }
  }

  // ---- The single-reply loop, for contrast ------------------------------------------

  /** `fetch_klines` keeps waiting through a lag: its answer is one event, so it is whole or missing. */
  method FetchKlines<T(!new)>(rid: string, sent: bool, events: seq<Incoming<T>>) returns (r: Result<seq<T>, Error>)
    ensures !sent ==> r == Err(SendFailed)
    ensures sent ==> r == KlinesOutcome(rid, events)
  {
    if !sent {
      return Err(SendFailed);
    }
    var i := 0;
    while i < |events|
      invariant 0 <= i <= |events|
      invariant KlinesOutcome(rid, events) == KlinesOutcome(rid, events[i..])
    {
      assert events[i..][0] == events[i] && events[i..][1..] == events[i + 1..];
      match events[i] {
        case Klines(id, klines) =>
          if id == rid {
            var parsed := ParseTrades(klines);
            return Ok(parsed);
          }
        case EngineError(id, code, message) =>
          if id == Some(rid) {
            return Err(InvalidRequest(code, message));
          }
        case ConnectionDropped =>
          return Err(EngineRestarting);
        case Closed =>
          return Err(EngineRestarting);
        case _ =>
      }
      i := i + 1;
    }
    r := Err(Timeout);
  }

  function KlinesOutcome<T>(rid: string, events: seq<Incoming<T>>): Result<seq<T>, Error> {
    if events == [] then Err(Timeout)
    else
      match events[0]
      case Klines(id, klines) => if id == rid then Ok(Parsed(klines)) else KlinesOutcome(rid, events[1..])
      case EngineError(id, code, message) =>
        if id == Some(rid) then Err(InvalidRequest(code, message)) else KlinesOutcome(rid, events[1..])
      case ConnectionDropped => Err(EngineRestarting)
      case Closed => Err(EngineRestarting)
      case _ => KlinesOutcome(rid, events[1..])
  }

  /** A kline reply carries exactly the parsable klines, in order. */
  lemma KlinesAreSelected<T(!new)>(rid: string, events: seq<Incoming<T>>, k: nat) returns (at: seq<nat>)
    requires k < |events| && events[k].Klines? && events[k].requestId == rid
    requires forall i :: 0 <= i < k ==> !Answers(rid, events[i])
    ensures KlinesOutcome(rid, events).Ok? && Selects(events[k].klines, KlinesOutcome(rid, events).value, at)
  {
    FirstAnswerSettles(rid, events, k);
    at := ParsedSelects(events[k].klines);
  }

  lemma AnswersIff<T(!new)>(rid: string, ev: Incoming<T>)
    ensures Answers(rid, ev) <==>
            match ev
            case Klines(id, _) => id == rid
            case EngineError(id, _, _) => id == Some(rid)
            case ConnectionDropped => true
            case Closed => true
            case _ => false
  {}

  function WithoutLags<T>(events: seq<Incoming<T>>): seq<Incoming<T>> {
    if events == [] then []
    else if events[0].Lagged? then WithoutLags(events[1..])
    else [events[0]] + WithoutLags(events[1..])
  }

  predicate Answers<T>(rid: string, ev: Incoming<T>) {
    (ev.Klines? && ev.requestId == rid) || (Aborts(rid, ev) && !ev.Lagged?)
  }

  /** The first answer settles it: an own reply in whole, else the failure; without one it times out. */
  lemma {:induction false} FirstAnswerSettles<T(!new)>(rid: string, events: seq<Incoming<T>>, k: nat)
    requires k <= |events| && forall i :: 0 <= i < k ==> !Answers(rid, events[i])
    requires k < |events| ==> Answers(rid, events[k])
    ensures KlinesOutcome(rid, events) ==
            if k == |events| then Err(Timeout)
            else
              match events[k]
              case Klines(_, klines) => Ok(Parsed(klines))
              case EngineError(_, code, message) => Err(InvalidRequest(code, message))
              case _ => Err(EngineRestarting)
    decreases k
  {
    if k == 0 {
    } else {
      assert !Answers(rid, events[0]);
      FirstAnswerSettles(rid, events[1..], k - 1);
    }
  }

  /** Lags change nothing the kline loop returns. */
  lemma {:induction false} KlinesIgnoreLags<T(!new)>(rid: string, events: seq<Incoming<T>>)
    ensures KlinesOutcome(rid, events) == KlinesOutcome(rid, WithoutLags(events))
    decreases events
  {
    if events == [] {
    } else {
      KlinesIgnoreLags(rid, events[1..]);
      if !events[0].Lagged? {
        assert WithoutLags(events)[1..] == WithoutLags(events[1..]);
      }
    }
  }
}
