/** The per-backend sequence tracker. One table is shared by every depth stream of a backend;
    an entry is keyed by ticker and engine session and holds the last applied sequence id. */
module DepthTracker {
  import opened Common

  type Key = (string, string)

  type Table = map<Key, i64>

  datatype Op =
    | Snapshot(ticker: string, session: string, id: i64)
    | Diff(ticker: string, session: string, id: i64, prev: i64)
    | Reset(ticker: string)

  predicate Accepts(t: Table, ticker: string, session: string, prev: i64) {
    (ticker, session) in t && t[(ticker, session)] == prev
  }

  function AfterDiff(t: Table, ticker: string, session: string, id: i64, prev: i64): Table {
    if Accepts(t, ticker, session, prev) then t[(ticker, session) := id] else t
  }

  function WithoutTicker(t: Table, ticker: string): Table {
    map k | k in t && k.0 != ticker :: t[k]
  }

  function Apply(t: Table, op: Op): Table {
    match op
    case Snapshot(ticker, session, id) => t[(ticker, session) := id]
    case Diff(ticker, session, id, prev) => AfterDiff(t, ticker, session, id, prev)
    case Reset(ticker) => WithoutTicker(t, ticker)
  }

  class Tracker {
    var state: Table

    constructor ()
      ensures state == map[]
    {
      state := map[];
    }

    /** Always accepted. Entries of the ticker's other sessions stay, whatever the comment in the source says. */
    method OnSnapshot(ticker: string, session: string, id: i64) returns (accepted: bool)
      modifies this
      ensures accepted
      ensures state == old(state)[(ticker, session) := id]
    {
      state := state[(ticker, session) := id];
      accepted := true;
    }

    method OnDiff(ticker: string, session: string, id: i64, prev: i64) returns (accepted: bool)
      modifies this
      ensures accepted == old(Accepts(state, ticker, session, prev))
      ensures state == if accepted then old(state)[(ticker, session) := id] else old(state)
    {
      var key := (ticker, session);
      if key !in state {
        return false;
      }
      if state[key] != prev {
        return false;
      }
      state := state[key := id];
      accepted := true;
    }

    method ResetTicker(ticker: string)
      modifies this
      ensures state == WithoutTicker(old(state), ticker)
    {
      state := map k | k in state && k.0 != ticker :: state[k];
    }

    method ResetAll()
      modifies this
      ensures state == map[]
    {
      state := map[];
    }

    /** One tracker call made by some stream of the backend. */
    method Do(op: Op) returns (accepted: bool)
      modifies this
      ensures state == Apply(old(state), op)
      ensures accepted == (op.Diff? ==> old(Accepts(state, op.ticker, op.session, op.prev)))
    {
      accepted := true;
      match op {
        case Snapshot(ticker, session, id) =>
          accepted := OnSnapshot(ticker, session, id);
        case Diff(ticker, session, id, prev) =>
          accepted := OnDiff(ticker, session, id, prev);
        case Reset(ticker) =>
          ResetTicker(ticker);
      }
    }
  }

  // ---- Tickers do not interfere -----------------------------------------------------

  ghost predicate AgreeOn(a: Table, b: Table, ticker: string) {
    forall s :: ((ticker, s) in a <==> (ticker, s) in b) && ((ticker, s) in a ==> a[(ticker, s)] == b[(ticker, s)])
  }

  /** The answers given to `ticker`'s diffs, in order, when the whole run `ops` is made on `t`. */
  function Decisions(t: Table, ops: seq<Op>, ticker: string): seq<bool>
    decreases ops
  {
    if ops == [] then []
    else
      var op := ops[0];
      var rest := Decisions(Apply(t, op), ops[1..], ticker);
      if op.Diff? && op.ticker == ticker then [Accepts(t, op.ticker, op.session, op.prev)] + rest else rest
  }

  function Final(t: Table, ops: seq<Op>): Table
    decreases ops
  {
    if ops == [] then t else Final(Apply(t, ops[0]), ops[1..])
  }

  function OnlyTicker(ops: seq<Op>, ticker: string): seq<Op> {
    if ops == [] then []
    else if ops[0].ticker == ticker then [ops[0]] + OnlyTicker(ops[1..], ticker)
    else OnlyTicker(ops[1..], ticker)
  }

  /** A call about another ticker leaves this ticker's entries alone. */
  lemma OtherTickerIsSilent(t: Table, op: Op, ticker: string)
    requires op.ticker != ticker
    ensures AgreeOn(t, Apply(t, op), ticker)
  {}

  /** In any interleaved run, what a ticker is answered, and the entries it ends with, are those
      of the run with every other ticker's calls (their resets included) removed. */
  lemma {:induction false} TickersDoNotInterfere(t: Table, u: Table, ops: seq<Op>, ticker: string)
    requires AgreeOn(t, u, ticker)
    ensures Decisions(t, ops, ticker) == Decisions(u, OnlyTicker(ops, ticker), ticker)
    ensures AgreeOn(Final(t, ops), Final(u, OnlyTicker(ops, ticker)), ticker)
    decreases ops
  {
    if ops == [] {
    } else {
      var op := ops[0];
      if op.ticker == ticker {
        assert AgreeOn(Apply(t, op), Apply(u, op), ticker);
        TickersDoNotInterfere(Apply(t, op), Apply(u, op), ops[1..], ticker);
        assert OnlyTicker(ops, ticker)[0] == op && OnlyTicker(ops, ticker)[1..] == OnlyTicker(ops[1..], ticker);
      } else {
        OtherTickerIsSilent(t, op, ticker);
        TickersDoNotInterfere(Apply(t, op), u, ops[1..], ticker);
      }
    }
  }
}
