/** The receive loop of one depth stream: a step machine over what the broadcast delivers,
    interleaved with other streams' calls on the shared tracker. The server is a function from
    (session, sequence id) to a book; the channel may lose, repeat and reorder at will. */
module DepthStream {
  import opened Common
  import opened DepthBook
  import T = DepthTracker

  datatype Config = Config(venue: string, ticker: string, market: string)

  /** What `recv` may return. */
  datatype Incoming =
    | DepthSnapshot(venue: string, ticker: string, market: string, session: string, id: i64,
                    bids: seq<Level>, asks: seq<Level>)
    | DepthDiff(venue: string, ticker: string, market: string, session: string, id: i64, prevId: i64,
                bids: seq<Level>, asks: seq<Level>)
    | DepthGap(venue: string, ticker: string, market: string)
    | EngineDisconnected(venue: string, ticker: string, stream: string, market: string, reason: Option<string>)
    | EngineError(code: string, message: string)
    | ConnectionDropped
    | OtherEvent
    | Lagged(dropped: nat)
    | Closed

  /** What the stream yields. */
  datatype Event =
    | Connected
    | DepthReceived(id: u64, book: Book)
    | Disconnected(reason: string)

  /** A delivery to this stream, or a call made by another stream of the backend on the shared tracker. */
  datatype Act = Recv(ev: Incoming) | Peer(op: T.Op)

  /** The event yielded and the number of attempts to send a snapshot request. */
  datatype Reaction = Reaction(yielded: Option<Event>, requests: nat)

  datatype State = State(table: T.Table, book: Book, open: bool)

  const SILENT := Reaction(None, 0)
  const ASK := Reaction(None, 1)

  predicate Mine(cfg: Config, venue: string, ticker: string, market: string) {
    venue == cfg.venue && ticker == cfg.ticker && (market == "" || market == cfg.market)
  }

  // ---- The step machine -------------------------------------------------------------

  function StepEvent(cfg: Config, s: State, ev: Incoming): (State, Reaction) {
    match ev
    case DepthSnapshot(venue, ticker, market, session, id, bids, asks) =>
      if !Mine(cfg, venue, ticker, market) then (s, SILENT)
      else
        var book := BuildBook(bids, asks);
        (State(s.table[(ticker, session) := id], book, true), Reaction(Some(DepthReceived(AsU64(id), book)), 0))
    case DepthDiff(venue, ticker, market, session, id, prevId, bids, asks) =>
      if !Mine(cfg, venue, ticker, market) then (s, SILENT)
      else if !T.Accepts(s.table, ticker, session, prevId) then (s, ASK)
      else
        var book := ApplyDiff(s.book, bids, asks);
        (State(s.table[(ticker, session) := id], book, true), Reaction(Some(DepthReceived(AsU64(id), book)), 0))
    case DepthGap(venue, ticker, market) =>
      if !Mine(cfg, venue, ticker, market) then (s, SILENT)
      else (s.(table := T.WithoutTicker(s.table, cfg.ticker)), ASK)
    case EngineDisconnected(venue, ticker, stream, market, reason) =>
      if !Mine(cfg, venue, ticker, market) || stream != "depth" then (s, SILENT)
      else
        var why := if reason.Some? then reason.value else "engine disconnected";
        (s.(open := false), Reaction(Some(Disconnected(why)), 0))
    case EngineError(code, message) =>
      if code == "stream_error" then (s, SILENT)
      else (s.(open := false), Reaction(Some(Disconnected(message)), 0))
    case Lagged(_) => (s.(table := T.WithoutTicker(s.table, cfg.ticker)), ASK)
    case ConnectionDropped => (s.(open := false), Reaction(Some(Disconnected("engine connection closed")), 0))
    case Closed => (s.(open := false), Reaction(Some(Disconnected("engine connection closed")), 0))
    case OtherEvent => (s, SILENT)
  }

  function Step(cfg: Config, s: State, act: Act): (State, Reaction) {
    match act
    case Peer(op) => (s.(table := T.Apply(s.table, op)), SILENT)
    case Recv(ev) => if s.open then StepEvent(cfg, s, ev) else (s, SILENT)
  }

  function After(cfg: Config, s: State, acts: seq<Act>): State {
    if acts == [] then s
    else Step(cfg, After(cfg, s, acts[..|acts| - 1]), acts[|acts| - 1]).0
  }

  function ReactionAt(cfg: Config, s: State, acts: seq<Act>, k: nat): Reaction
    requires k < |acts|
  {
    Step(cfg, After(cfg, s, acts[..k]), acts[k]).1
  }

  function Start(table: T.Table): State {
    State(table, EMPTY_BOOK, true)
  }

  lemma AfterOne(cfg: Config, s: State, acts: seq<Act>, k: nat)
    requires k < |acts|
    ensures After(cfg, s, acts[..k + 1]) == Step(cfg, After(cfg, s, acts[..k]), acts[k]).0
  {
    assert acts[..k + 1][..k] == acts[..k];
  }

  // ---- The loop ---------------------------------------------------------------------

  /** One delivery handled on the real tracker and the real book; `more` is false when the stream returns. */
  method Handle(cfg: Config, tracker: T.Tracker, depth: Depth, ev: Incoming)
    returns (reaction: Reaction, more: bool)
    modifies tracker, depth
    ensures (State(tracker.state, depth.Contents(), more), reaction)
         == StepEvent(cfg, State(old(tracker.state), old(depth.Contents()), true), ev)
  {
    reaction, more := SILENT, true;
    match ev {
      case DepthSnapshot(venue, ticker, market, session, id, bids, asks) =>
        if !Mine(cfg, venue, ticker, market) { return; }
        var _ := tracker.OnSnapshot(ticker, session, id);
        var built := BuildBook(bids, asks);
        depth.bids, depth.asks := built.bids, built.asks;
        reaction := Reaction(Some(DepthReceived(AsU64(id), built)), 0);
      case DepthDiff(venue, ticker, market, session, id, prevId, bids, asks) =>
        if !Mine(cfg, venue, ticker, market) { return; }
        var accepted := tracker.OnDiff(ticker, session, id, prevId);
        if !accepted { return ASK, true; }
        depth.ApplyDiffLevels(bids, asks);
        reaction := Reaction(Some(DepthReceived(AsU64(id), depth.Contents())), 0);
      case DepthGap(venue, ticker, market) =>
        if !Mine(cfg, venue, ticker, market) { return; }
        tracker.ResetTicker(cfg.ticker);
        reaction := ASK;
      case EngineDisconnected(venue, ticker, stream, market, reason) =>
        if !Mine(cfg, venue, ticker, market) { return; }
        if stream != "depth" { return; }
        var why := if reason.Some? then reason.value else "engine disconnected";
        return Reaction(Some(Disconnected(why)), 0), false;
      case Lagged(_) =>
        tracker.ResetTicker(cfg.ticker);
        reaction := ASK;
      case ConnectionDropped =>
        return Reaction(Some(Disconnected("engine connection closed")), 0), false;
      case Closed =>
        return Reaction(Some(Disconnected("engine connection closed")), 0), false;
      case EngineError(code, message) =>
        if code != "stream_error" {
          return Reaction(Some(Disconnected(message)), 0), false;
        }
      case OtherEvent =>
    }
  }

  /** `subscribed` is the outcome of sending the Subscribe command. */
  method Stream(cfg: Config, tracker: T.Tracker, subscribed: Option<string>, acts: seq<Act>)
    returns (greeting: Event, reactions: seq<Reaction>)
    modifies tracker
    ensures subscribed.Some? ==>
            greeting == Disconnected(subscribed.value) && reactions == [] && tracker.state == old(tracker.state)
    ensures subscribed.None? ==> greeting == Connected
    ensures |reactions| <= |acts|
    ensures forall k :: 0 <= k < |reactions| ==> reactions[k] == ReactionAt(cfg, Start(old(tracker.state)), acts, k)
    ensures tracker.state == After(cfg, Start(old(tracker.state)), acts[..|reactions|]).table
    ensures subscribed.None? && |reactions| < |acts| ==>
            !After(cfg, Start(old(tracker.state)), acts[..|reactions|]).open
  {
    reactions := [];
    if subscribed.Some? {
      return Disconnected(subscribed.value), [];
    }
    greeting := Connected;
    var depth := new Depth(EMPTY_BOOK);
    ghost var start := Start(tracker.state);
    var i := 0;
    while i < |acts|
      invariant 0 <= i <= |acts| && |reactions| == i
      invariant fresh(depth)
      invariant State(tracker.state, depth.Contents(), true) == After(cfg, start, acts[..i])
      invariant forall k :: 0 <= k < i ==> reactions[k] == ReactionAt(cfg, start, acts, k)
    {
      AfterOne(cfg, start, acts, i);
      match acts[i] {
        case Peer(op) =>
          var _ := tracker.Do(op);
          reactions := reactions + [SILENT];
        case Recv(ev) =>
          var reaction, more := Handle(cfg, tracker, depth, ev);
          reactions := reactions + [reaction];
          if !more {
            return;
          }
      }
      i := i + 1;
    }
  }

  // ---- Whose events, and how a stream ends ------------------------------------------

  /** Events of another venue, ticker or market, and events of no depth stream, change nothing and yield nothing. */
  lemma ForeignIsSilent(cfg: Config, s: State, ev: Incoming)
    requires ev.DepthSnapshot? || ev.DepthDiff? || ev.DepthGap? || ev.EngineDisconnected? ==>
               || ev.venue != cfg.venue || ev.ticker != cfg.ticker || (ev.market != "" && ev.market != cfg.market)
               || (ev.EngineDisconnected? && ev.stream != "depth")
    requires ev.EngineError? ==> ev.code == "stream_error"
    requires !ev.ConnectionDropped? && !ev.Closed? && !ev.Lagged?
    ensures Step(cfg, s, Recv(ev)) == (s, Reaction(None, 0))
  {}

  /** A snapshot of the stream's venue, ticker and market, or of no market, is served at once, bids and asks, and
      tracked under its session. */
  lemma OwnSnapshotIsServed(cfg: Config, s: State, ev: Incoming)
    requires s.open && ev.DepthSnapshot? && ev.venue == cfg.venue && ev.ticker == cfg.ticker
    requires ev.market == "" || ev.market == cfg.market
    ensures var (t, r) := Step(cfg, s, Recv(ev));
            && t.open && t.book.bids == BuildSide(ev.bids) && t.book.asks == BuildSide(ev.asks)
            && (cfg.ticker, ev.session) in t.table && t.table[(cfg.ticker, ev.session)] == ev.id
            && r.requests == 0 && r.yielded == Some(DepthReceived(AsU64(ev.id), t.book))
  {}

  /** A diff of the stream's own is served if it follows on from what is tracked, and is answered with one request,
      and no change, if not. */
  lemma OwnDiffIsServedOrRefused(cfg: Config, s: State, ev: Incoming)
    requires s.open && ev.DepthDiff? && ev.venue == cfg.venue && ev.ticker == cfg.ticker
    requires ev.market == "" || ev.market == cfg.market
    ensures var (t, r) := Step(cfg, s, Recv(ev));
            var key := (cfg.ticker, ev.session);
            if key in s.table && s.table[key] == ev.prevId then
              && t.table == s.table[key := ev.id] && t.open
              && t.book == Book(ApplyLevels(s.book.bids, ev.bids), ApplyLevels(s.book.asks, ev.asks))
              && r == Reaction(Some(DepthReceived(AsU64(ev.id), t.book)), 0)
            else t == s && r == Reaction(None, 1)
  {}

  /** A gap of the stream's own, or a lag, forgets the ticker's sessions, keeps the book and makes one request. */
  lemma GapOrLagForgets(cfg: Config, s: State, ev: Incoming, key: T.Key)
    requires s.open
    requires ev.Lagged? || (ev.DepthGap? && ev.venue == cfg.venue && ev.ticker == cfg.ticker
                            && (ev.market == "" || ev.market == cfg.market))
    ensures var (t, r) := Step(cfg, s, Recv(ev));
            && t.open && t.book == s.book && r == Reaction(None, 1)
            && (key in t.table <==> key in s.table && key.0 != cfg.ticker)
            && (key in t.table ==> t.table[key] == s.table[key])
  {}

  /** By its own fields: the event ends the stream. */
  predicate Ends(cfg: Config, act: Act) {
    act.Recv? &&
    match act.ev
    case EngineDisconnected(venue, ticker, stream, market, _) =>
      venue == cfg.venue && ticker == cfg.ticker && stream == "depth" && (market == "" || market == cfg.market)
    case EngineError(code, _) => code != "stream_error"
    case ConnectionDropped => true
    case Closed => true
    case _ => false
  }

  function Reason(act: Act): string {
    if act.Peer? then ""
    else
      match act.ev
      case EngineDisconnected(_, _, _, _, reason) => if reason.Some? then reason.value else "engine disconnected"
      case EngineError(_, message) => message
      case _ => "engine connection closed"
  }

  lemma {:induction false} OpenIff(cfg: Config, s: State, acts: seq<Act>)
    requires s.open
    ensures After(cfg, s, acts).open <==> forall k :: 0 <= k < |acts| ==> !Ends(cfg, acts[k])
  {
    if acts == [] {
    } else {
      var n := |acts| - 1;
      OpenIff(cfg, s, acts[..n]);
      assert forall k :: 0 <= k < n ==> acts[..n][k] == acts[k];
    }
  }

  /** The first event that ends the stream is answered with one Disconnected carrying its reason and no request; no
      earlier one is, and what comes later is not answered at all. */
  lemma EndIsAnsweredOnce(cfg: Config, s: State, acts: seq<Act>, first: nat, k: nat)
    requires s.open && first < |acts| && k < |acts|
    requires Ends(cfg, acts[first]) && forall i :: 0 <= i < first ==> !Ends(cfg, acts[i])
    ensures k == first ==> ReactionAt(cfg, s, acts, k) == Reaction(Some(Disconnected(Reason(acts[k]))), 0)
    ensures k < first ==> ReactionAt(cfg, s, acts, k).yielded.None? || YieldsBook(ReactionAt(cfg, s, acts, k))
    ensures k > first ==> ReactionAt(cfg, s, acts, k) == Reaction(None, 0)
    ensures k > first ==> After(cfg, s, acts[..k]).book == After(cfg, s, acts[..first]).book
  {
    OpenIff(cfg, s, acts[..k]);
    assert forall i :: 0 <= i < k ==> acts[..k][i] == acts[i];
    if k > first {
      assert Ends(cfg, acts[..k][first]);
      ClosedKeepsBook(cfg, s, acts, first, k);
    }
  }

  lemma {:induction false} ClosedKeepsBook(cfg: Config, s: State, acts: seq<Act>, first: nat, k: nat)
    requires s.open && first < k <= |acts|
    requires Ends(cfg, acts[first]) && forall i :: 0 <= i < first ==> !Ends(cfg, acts[i])
    ensures !After(cfg, s, acts[..k]).open && After(cfg, s, acts[..k]).book == After(cfg, s, acts[..first]).book
  {
    AfterOne(cfg, s, acts, k - 1);
    if k == first + 1 {
      OpenIff(cfg, s, acts[..first]);
      assert forall i :: 0 <= i < first ==> acts[..first][i] == acts[i];
    } else {
      ClosedKeepsBook(cfg, s, acts, first, k - 1);
    }
  }

  // ---- Hypotheses on the channel ----------------------------------------------------

  type Server = (string, i64) -> Book

  predicate MySnapshot(cfg: Config, act: Act) {
    act.Recv? && act.ev.DepthSnapshot? && Mine(cfg, act.ev.venue, act.ev.ticker, act.ev.market)
  }

  predicate MyDiff(cfg: Config, act: Act) {
    act.Recv? && act.ev.DepthDiff? && Mine(cfg, act.ev.venue, act.ev.ticker, act.ev.market)
  }

  /** A gap signal for this stream, or a lag of the receiver. */
  predicate Resets(cfg: Config, act: Act) {
    act.Recv? && (act.ev.Lagged? || (act.ev.DepthGap? && Mine(cfg, act.ev.venue, act.ev.ticker, act.ev.market)))
  }

  /** The payload is true of the server's books: nothing is said about when or how often it arrives. */
  ghost predicate FaithfulAct(cfg: Config, server: Server, act: Act) {
    && (MySnapshot(cfg, act) ==> BuildBook(act.ev.bids, act.ev.asks) == server(act.ev.session, act.ev.id))
    && (MyDiff(cfg, act) ==>
          ApplyDiff(server(act.ev.session, act.ev.prevId), act.ev.bids, act.ev.asks) ==
              server(act.ev.session, act.ev.id))
  }

  ghost predicate Faithful(cfg: Config, server: Server, acts: seq<Act>) {
    forall k :: 0 <= k < |acts| ==> FaithfulAct(cfg, server, acts[k])
  }

  /** The engine sessions that this stream's own snapshots and diffs name. */
  function OwnSessions(cfg: Config, acts: seq<Act>): set<string> {
    set k | 0 <= k < |acts| && (MySnapshot(cfg, acts[k]) || MyDiff(cfg, acts[k])) :: acts[k].ev.session
  }

  /** Another stream's call on the ticker: a reset, or about a session that is not this stream's. The engine gives
      another market of the same symbol a session of its own. */
  predicate KeepsOff(cfg: Config, own: set<string>, act: Act) {
    act.Peer? && act.op.ticker == cfg.ticker && !act.op.Reset? ==> act.op.session !in own
  }

  predicate PeersKeepOff(cfg: Config, own: set<string>, acts: seq<Act>) {
    forall k :: 0 <= k < |acts| ==> KeepsOff(cfg, own, acts[k])
  }

  predicate NamesOnly(cfg: Config, own: set<string>, act: Act) {
    MySnapshot(cfg, act) || MyDiff(cfg, act) ==> act.ev.session in own
  }

  predicate AllNameOnly(cfg: Config, own: set<string>, acts: seq<Act>) {
    forall k :: 0 <= k < |acts| ==> NamesOnly(cfg, own, acts[k])
  }

  lemma OwnSessionsAreNamed(cfg: Config, acts: seq<Act>)
    ensures AllNameOnly(cfg, OwnSessions(cfg, acts), acts)
  {
    forall k | 0 <= k < |acts| && (MySnapshot(cfg, acts[k]) || MyDiff(cfg, acts[k]))
      ensures acts[k].ev.session in OwnSessions(cfg, acts)
    {}
  }

  /** No entry of a session of this stream. */
  predicate Untracked(cfg: Config, own: set<string>, table: T.Table) {
    forall session :: session in own ==> (cfg.ticker, session) !in table
  }

  /** A snapshot of `session` arrived, with no gap or lag after it. */
  predicate Seen(cfg: Config, past: seq<Act>, session: string) {
    past != [] &&
    var last := past[|past| - 1];
    !Resets(cfg, last) && ((MySnapshot(cfg, last) && last.ev.session == session) ||
        Seen(cfg, past[..|past| - 1], session))
  }

  /** The session of the latest snapshot, none after a gap or lag. */
  function Current(cfg: Config, past: seq<Act>): Option<string> {
    if past == [] then None
    else
      var last := past[|past| - 1];
      if Resets(cfg, last) then None
      else if MySnapshot(cfg, last) then Some(last.ev.session)
      else Current(cfg, past[..|past| - 1])
  }

  /** A newer session's snapshot has taken over from `session`. */
  predicate Superseded(cfg: Config, past: seq<Act>, session: string) {
    Seen(cfg, past, session) && Current(cfg, past) != Some(session)
  }

  predicate NoSupersededDiff(cfg: Config, acts: seq<Act>) {
    forall k :: 0 <= k < |acts| && MyDiff(cfg, acts[k]) ==> !Superseded(cfg, acts[..k], acts[k].ev.session)
  }

  // ---- Book agreement over whole runs -----------------------------------------------

  /** A tracked session of this stream has been seen, and the current one's entry names the local book. */
  ghost predicate Lockstep(cfg: Config, server: Server, own: set<string>, s: State, past: seq<Act>) {
    && (forall x :: x in own && (cfg.ticker, x) in s.table ==> Seen(cfg, past, x))
    && (Current(cfg, past).Some? ==>
          var cur := Current(cfg, past).value;
          cur in own && ((cfg.ticker, cur) in s.table ==> s.book == server(cur, s.table[(cfg.ticker, cur)])))
  }

  lemma LockstepHolds(cfg: Config, server: Server, start: State, acts: seq<Act>, k: nat)
    requires k <= |acts|
    requires Untracked(cfg, OwnSessions(cfg, acts), start.table) && PeersKeepOff(cfg, OwnSessions(cfg, acts), acts)
    requires Faithful(cfg, server, acts) && NoSupersededDiff(cfg, acts)
    ensures After(cfg, start, acts[..k]).open ==>
              Lockstep(cfg, server, OwnSessions(cfg, acts), After(cfg, start, acts[..k]), acts[..k])
  {
    OwnSessionsAreNamed(cfg, acts);
    LockstepFor(cfg, server, OwnSessions(cfg, acts), start, acts, k);
  }

  lemma {:induction false} LockstepFor(cfg: Config, server: Server, own: set<string>, start: State, acts: seq<Act>,
      k: nat)
    requires k <= |acts| && AllNameOnly(cfg, own, acts)
    requires Untracked(cfg, own, start.table) && PeersKeepOff(cfg, own, acts)
    requires Faithful(cfg, server, acts) && NoSupersededDiff(cfg, acts)
    ensures After(cfg, start, acts[..k]).open ==> Lockstep(cfg, server, own, After(cfg, start, acts[..k]), acts[..k])
  {
    if k == 0 {
    } else {
      LockstepFor(cfg, server, own, start, acts, k - 1);
      AfterOne(cfg, start, acts, k - 1);
      assert acts[..k][..k - 1] == acts[..k - 1];
      if After(cfg, start, acts[..k]).open {
        LockstepStep(cfg, server, own, After(cfg, start, acts[..k - 1]), acts[..k - 1], acts[k - 1], acts[..k]);
      }
    }
  }

  lemma LockstepStep(cfg: Config, server: Server, own: set<string>, s: State, past: seq<Act>, act: Act, now: seq<Act>)
    requires Lockstep(cfg, server, own, s, past) && now == past + [act] && s.open
    requires KeepsOff(cfg, own, act) && NamesOnly(cfg, own, act) && FaithfulAct(cfg, server, act)
    requires MyDiff(cfg, act) ==> !Superseded(cfg, past, act.ev.session)
    ensures Step(cfg, s, act).0.open ==> Lockstep(cfg, server, own, Step(cfg, s, act).0, now)
  {
    assert now[..|now| - 1] == past && now[|now| - 1] == act;
    forall x
      ensures Seen(cfg, now, x) ==
              (!Resets(cfg, act) && ((MySnapshot(cfg, act) && act.ev.session == x) || Seen(cfg, past, x)))
    {}
  }

  ghost predicate Right(server: Server, act: Act, reaction: Reaction) {
    reaction.yielded.Some? && reaction.yielded.value.DepthReceived? ==>
      && act.Recv? && (act.ev.DepthSnapshot? || act.ev.DepthDiff?)
      && reaction.yielded == Some(DepthReceived(AsU64(act.ev.id), server(act.ev.session, act.ev.id)))
  }

  /** Whatever is lost, repeated or reordered, every book yielded is the server's book at its sequence id. Other
      streams may reset the ticker, and track its other sessions. */
  lemma BookAgreement(cfg: Config, server: Server, start: State, acts: seq<Act>, k: nat)
    requires k < |acts|
    requires Untracked(cfg, OwnSessions(cfg, acts), start.table) && PeersKeepOff(cfg, OwnSessions(cfg, acts), acts)
    requires Faithful(cfg, server, acts) && NoSupersededDiff(cfg, acts)
    ensures Right(server, acts[k], ReactionAt(cfg, start, acts, k))
  {
    LockstepHolds(cfg, server, start, acts, k);
    if MyDiff(cfg, acts[k]) {
      assert acts[k].ev.session in OwnSessions(cfg, acts);
    }
  }

  // ---- Where agreement stops --------------------------------------------------------

  predicate IsAccepted(s: State, act: Act) {
    act.Recv? && act.ev.DepthDiff? && T.Accepts(s.table, act.ev.ticker, act.ev.session, act.ev.prevId)
  }

  /** An accepted diff is answered with the server's book exactly when the local book and the book it follows on from
      differ only on prices it names. */
  lemma AcceptedDiffIsRightIff(cfg: Config, server: Server, s: State, act: Act)
    requires s.open && MyDiff(cfg, act) && FaithfulAct(cfg, server, act) && IsAccepted(s, act)
    ensures Right(server, act, Step(cfg, s, act).1) <==>
            BooksSameElsewhere(s.book, server(act.ev.session, act.ev.prevId), act.ev.bids, act.ev.asks)
  {
    DiffMeetsIff(s.book, server(act.ev.session, act.ev.prevId), act.ev.bids, act.ev.asks);
  }

  /** `next` is a diff of the session of snapshot `first`, following on from it. */
  predicate FollowsOn(cfg: Config, first: Act, next: Act) {
    && MySnapshot(cfg, first) && MyDiff(cfg, next)
    && next.ev.session == first.ev.session && next.ev.prevId == first.ev.id && next.ev.id > next.ev.prevId
  }

  /** A tracker entry outlives its stream. A second stream on the ticker starts from an empty book, and answers the
      session's next diff rightly exactly when that diff names every price of the book. */
  lemma LeftoverEntryIsRightIff(cfg: Config, server: Server, table: T.Table, first: Act, next: Act)
    requires FollowsOn(cfg, first, next) && FaithfulAct(cfg, server, first) && FaithfulAct(cfg, server, next)
    ensures var second := Start(After(cfg, Start(table), [first]).table);
            && IsAccepted(second, next)
            && (Right(server, next, Step(cfg, second, next).1) <==>
                BooksSameElsewhere(EMPTY_BOOK, server(first.ev.session, first.ev.id), next.ev.bids, next.ev.asks))
  {
    assert [first][..0] == [];
    assert After(cfg, Start(table), [first]) == Step(cfg, Start(table), first).0;
    AcceptedDiffIsRightIff(cfg, server, Start(After(cfg, Start(table), [first]).table), next);
  }

  /** The older session's entry survives a newer snapshot. A late diff of it is applied to the newer book, and is
      answered rightly exactly when the two books differ only on prices it names. */
  lemma SupersededDiffIsRightIff(cfg: Config, server: Server, start: State, first: Act, second: Act, late: Act)
    requires start.open && FollowsOn(cfg, first, late) && MySnapshot(cfg, second) &&
             first.ev.session != second.ev.session
    requires FaithfulAct(cfg, server, first) && FaithfulAct(cfg, server, second) && FaithfulAct(cfg, server, late)
    ensures var s := After(cfg, start, [first, second]);
            && Superseded(cfg, [first, second], late.ev.session) && IsAccepted(s, late)
            && (Right(server, late, Step(cfg, s, late).1) <==>
                BooksSameElsewhere(server(second.ev.session, second.ev.id), server(first.ev.session, first.ev.id),
                    late.ev.bids, late.ev.asks))
  {
    TwoSnapshots(cfg, start, first, second);
    AcceptedDiffIsRightIff(cfg, server, After(cfg, start, [first, second]), late);
  }

  lemma TwoSnapshots(cfg: Config, start: State, first: Act, second: Act)
    requires start.open && MySnapshot(cfg, first) && MySnapshot(cfg, second) && first.ev.session != second.ev.session
    ensures var s := After(cfg, start, [first, second]);
            && s.open && s.book == BuildBook(second.ev.bids, second.ev.asks)
            && (cfg.ticker, first.ev.session) in s.table && s.table[(cfg.ticker, first.ev.session)] == first.ev.id
    ensures Superseded(cfg, [first, second], first.ev.session)
  {
    assert [first, second][..1] == [first] && [first][..0] == [];
    assert After(cfg, start, [first]) == Step(cfg, start, first).0;
    assert After(cfg, start, [first, second]) == Step(cfg, Step(cfg, start, first).0, second).0;
    assert Seen(cfg, [first], first.ev.session);
  }

  /** A server with one price in session "a", a second one from id 8 and a third from id 9 on, and another book in the
      other sessions. */
  function Ladder(session: string, id: i64): Book {
    if session != "a" then Book(map[9 := 4], map[])
    else if id < 8 then Book(map[1 := 5], map[])
    else if id == 8 then Book(map[1 := 5, 2 := 3], map[])
    else Book(map[1 := 5, 2 := 3, 3 := 6], map[])
  }

  function SnapshotOf(cfg: Config, session: string, id: i64, price: int, qty: int): Act {
    Recv(DepthSnapshot(cfg.venue, cfg.ticker, cfg.market, session, id, [Level(Some(price), Some(qty))], []))
  }

  function LadderDiff(cfg: Config): Act {
    Recv(DepthDiff(cfg.venue, cfg.ticker, cfg.market, "a", 8, 7, [Level(Some(2), Some(3))], []))
  }

  function LadderDiffOnTop(cfg: Config): Act {
    Recv(DepthDiff(cfg.venue, cfg.ticker, cfg.market, "a", 9, 8, [Level(Some(3), Some(6))], []))
  }

  lemma OneLevel(side: Side, price: int, qty: int)
    requires qty != 0
    ensures ApplyLevels(side, [Level(Some(price), Some(qty))]) == side[price := qty]
    ensures BuildSide([Level(Some(price), Some(qty))]) == map[price := qty]
  {
    var levels := [Level(Some(price), Some(qty))];
    assert levels[..0] == [];
  }

  lemma LadderIsFaithful(cfg: Config)
    ensures FaithfulAct(cfg, Ladder, SnapshotOf(cfg, "a", 7, 1, 5))
    ensures FaithfulAct(cfg, Ladder, SnapshotOf(cfg, "b", 1, 9, 4))
    ensures FaithfulAct(cfg, Ladder, LadderDiff(cfg))
    ensures FaithfulAct(cfg, Ladder, LadderDiffOnTop(cfg))
    ensures FollowsOn(cfg, SnapshotOf(cfg, "a", 7, 1, 5), LadderDiff(cfg))
  {
    OneLevel(map[], 1, 5);
    OneLevel(map[], 9, 4);
    OneLevel(map[1 := 5], 2, 3);
    OneLevel(map[1 := 5, 2 := 3], 3, 6);
  }

  /** A stream gets a snapshot and ends; the next one on the ticker gets the session's next diff first. */
  lemma SecondStreamServesWrongBook(cfg: Config)
    ensures var first, next := SnapshotOf(cfg, "a", 7, 1, 5), LadderDiff(cfg);
            var second := Start(After(cfg, Start(map[]), [first]).table);
            && Step(cfg, second, next).1 == Reaction(Some(DepthReceived(8, Book(map[2 := 3], map[]))), 0)
            && !Right(Ladder, next, Step(cfg, second, next).1)
  {
    var first, next := SnapshotOf(cfg, "a", 7, 1, 5), LadderDiff(cfg);
    LadderIsFaithful(cfg);
    LeftoverEntryIsRightIff(cfg, Ladder, map[], first, next);
    OneLevel(map[], 2, 3);
    assert 1 !in EMPTY_BOOK.bids && 1 in Ladder("a", 8).bids;
  }

  /** Snapshots of two sessions, then the first session's next diff, late. */
  lemma LateDiffServesWrongBook(cfg: Config, start: State)
    requires start.open
    ensures var first, second, late := SnapshotOf(cfg, "a", 7, 1, 5), SnapshotOf(cfg, "b", 1, 9, 4), LadderDiff(cfg);
            var s := After(cfg, start, [first, second]);
            && Step(cfg, s, late).1 == Reaction(Some(DepthReceived(8, Book(map[9 := 4, 2 := 3], map[]))), 0)
            && !Right(Ladder, late, Step(cfg, s, late).1)
  {
    var first, second, late := SnapshotOf(cfg, "a", 7, 1, 5), SnapshotOf(cfg, "b", 1, 9, 4), LadderDiff(cfg);
    LadderIsFaithful(cfg);
    SupersededDiffIsRightIff(cfg, Ladder, start, first, second, late);
    TwoSnapshots(cfg, start, first, second);
    OneLevel(map[], 9, 4);
    OneLevel(map[9 := 4], 2, 3);
    assert 9 !in Ladder("a", 8).bids;
  }

  /** Two streams on one session share its entry: what one takes, the other misses. The diff behind it is then
      answered rightly exactly when it names every price on which the two books differ. */
  lemma SharedSessionIsRightIff(cfg: Config, server: Server, start: State, first: Act, taken: i64, next: Act)
    requires start.open && MySnapshot(cfg, first) && MyDiff(cfg, next)
    requires next.ev.session == first.ev.session && next.ev.prevId == taken
    requires FaithfulAct(cfg, server, first) && FaithfulAct(cfg, server, next)
    ensures var peer := Peer(T.Diff(cfg.ticker, first.ev.session, taken, first.ev.id));
            var s := After(cfg, start, [first, peer]);
            && !KeepsOff(cfg, OwnSessions(cfg, [first, peer, next]), peer)
            && s.open && s.book == BuildBook(first.ev.bids, first.ev.asks) && IsAccepted(s, next)
            && (Right(server, next, Step(cfg, s, next).1) <==>
                BooksSameElsewhere(server(first.ev.session, first.ev.id), server(first.ev.session, taken),
                                   next.ev.bids, next.ev.asks))
  {
    var peer := Peer(T.Diff(cfg.ticker, first.ev.session, taken, first.ev.id));
    assert [first, peer][..1] == [first] && [first][..0] == [];
    assert After(cfg, start, [first]) == Step(cfg, start, first).0;
    assert After(cfg, start, [first, peer]) == Step(cfg, Step(cfg, start, first).0, peer).0;
    assert [first, peer, next][0] == first && first.ev.session in OwnSessions(cfg, [first, peer, next]);
    AcceptedDiffIsRightIff(cfg, server, After(cfg, start, [first, peer]), next);
  }

  /** A peer takes diff 7 to 8 of the session; this stream accepts 8 to 9 on its book of 7. */
  lemma SharedSessionServesWrongBook(cfg: Config, start: State)
    requires start.open
    ensures var first, next := SnapshotOf(cfg, "a", 7, 1, 5), LadderDiffOnTop(cfg);
            var s := After(cfg, start, [first, Peer(T.Diff(cfg.ticker, "a", 8, 7))]);
            && Step(cfg, s, next).1 == Reaction(Some(DepthReceived(9, Book(map[1 := 5, 3 := 6], map[]))), 0)
            && !Right(Ladder, next, Step(cfg, s, next).1)
  {
    var first, next := SnapshotOf(cfg, "a", 7, 1, 5), LadderDiffOnTop(cfg);
    LadderIsFaithful(cfg);
    SharedSessionIsRightIff(cfg, Ladder, start, first, 8, next);
    OneLevel(map[], 1, 5);
    OneLevel(map[1 := 5], 3, 6);
    assert 2 in Ladder("a", 9).bids;
  }

  // ---- Self-stabilisation -----------------------------------------------------------

  /** A delivery that is not about this stream and does not end it, or a peer call that spares `session`. */
  predicate Ignored(cfg: Config, session: string, act: Act) {
    match act
    case Peer(op) => op.ticker != cfg.ticker || (!op.Reset? && op.session != session)
    case Recv(DepthSnapshot(v, t, m, _, _, _, _)) => !Mine(cfg, v, t, m)
    case Recv(DepthDiff(v, t, m, _, _, _, _, _)) => !Mine(cfg, v, t, m)
    case Recv(DepthGap(v, t, m)) => !Mine(cfg, v, t, m)
    case Recv(EngineDisconnected(v, t, stream, m, _)) => !Mine(cfg, v, t, m) || stream != "depth"
    case Recv(EngineError(code, _)) => code == "stream_error"
    case Recv(OtherEvent) => true
    case Recv(_) => false
  }

  /** The sequence id of the latest snapshot or diff of this stream. */
  function LastId(cfg: Config, acts: seq<Act>, default: i64): i64 {
    if acts == [] then default
    else
      var last := acts[|acts| - 1];
      if MySnapshot(cfg, last) || MyDiff(cfg, last) then last.ev.id else LastId(cfg, acts[..|acts| - 1], default)
  }

  /** A snapshot, then diffs of its session each following the one before, with foreign traffic in between. */
  predicate Contiguous(cfg: Config, acts: seq<Act>) {
    acts != [] && MySnapshot(cfg, acts[0]) &&
    forall k :: 0 < k < |acts| ==>
      Ignored(cfg, acts[0].ev.session, acts[k]) ||
      (MyDiff(cfg, acts[k]) && acts[k].ev.session == acts[0].ev.session &&
          acts[k].ev.prevId == LastId(cfg, acts[..k], 0))
  }

  ghost predicate Synced(cfg: Config, server: Server, s: State, session: string, id: i64) {
    s.open && (cfg.ticker, session) in s.table && s.table[(cfg.ticker, session)] == id && s.book == server(session, id)
  }

  lemma ContiguousStep(cfg: Config, server: Server, s: State, session: string, last: i64, act: Act)
    requires Synced(cfg, server, s, session, last) && FaithfulAct(cfg, server, act)
    requires Ignored(cfg, session, act) || (MyDiff(cfg, act) && act.ev.session == session && act.ev.prevId == last)
    ensures Synced(cfg, server, Step(cfg, s, act).0, session, if MyDiff(cfg, act) then act.ev.id else last)
    ensures Step(cfg, s, act).1 ==
            if Ignored(cfg, session, act) then SILENT
                else Reaction(Some(DepthReceived(AsU64(act.ev.id), server(session, act.ev.id))), 0)
  {}

  lemma {:induction false} StaysSynced(cfg: Config, server: Server, s: State, acts: seq<Act>, n: nat)
    requires s.open && Contiguous(cfg, acts) && Faithful(cfg, server, acts)
    requires 1 <= n <= |acts|
    ensures Synced(cfg, server, After(cfg, s, acts[..n]), acts[0].ev.session, LastId(cfg, acts[..n], 0))
  {
    AfterOne(cfg, s, acts, n - 1);
    assert acts[..n][..n - 1] == acts[..n - 1];
    if n == 1 {
      assert acts[..0] == [];
    } else {
      StaysSynced(cfg, server, s, acts, n - 1);
      ContiguousStep(cfg, server, After(cfg, s, acts[..n - 1]), acts[0].ev.session, LastId(cfg, acts[..n - 1], 0),
          acts[n - 1]);
    }
  }

  /** From any open state at all, such a run is accepted whole: each of its messages is answered with the
      server's book, nothing is requested, and the stream ends on the last book. */
  lemma SelfStabilises(cfg: Config, server: Server, s: State, acts: seq<Act>, k: nat)
    requires s.open && Contiguous(cfg, acts) && Faithful(cfg, server, acts) && k < |acts|
    ensures Synced(cfg, server, After(cfg, s, acts), acts[0].ev.session, LastId(cfg, acts, 0))
    ensures ReactionAt(cfg, s, acts, k) ==
              if Ignored(cfg, acts[0].ev.session, acts[k]) then SILENT
              else Reaction(Some(DepthReceived(AsU64(acts[k].ev.id), server(acts[0].ev.session, acts[k].ev.id))), 0)
  {
    StaysSynced(cfg, server, s, acts, |acts|);
    assert acts[..|acts|] == acts;
    if k > 0 {
      StaysSynced(cfg, server, s, acts, k);
      ContiguousStep(cfg, server, After(cfg, s, acts[..k]), acts[0].ev.session, LastId(cfg, acts[..k], 0), acts[k]);
    } else {
      assert acts[..0] == [];
    }
  }

  predicate YieldsBook(r: Reaction) {
    r.yielded.Some? && r.yielded.value.DepthReceived?
  }

  lemma QuietStep(cfg: Config, own: set<string>, s: State, act: Act)
    requires !s.open || Untracked(cfg, own, s.table)
    requires KeepsOff(cfg, own, act) && NamesOnly(cfg, own, act) && !MySnapshot(cfg, act)
    ensures var t := Step(cfg, s, act).0; !t.open || Untracked(cfg, own, t.table)
    ensures !YieldsBook(Step(cfg, s, act).1)
  {}

  lemma ResetClears(cfg: Config, own: set<string>, s: State, act: Act)
    requires Resets(cfg, act)
    ensures var t := Step(cfg, s, act).0; !t.open || Untracked(cfg, own, t.table)
  {}

  lemma {:induction false} QuietFor(cfg: Config, own: set<string>, s: State, acts: seq<Act>, j: nat, k: nat)
    requires j < k <= |acts| && PeersKeepOff(cfg, own, acts) && AllNameOnly(cfg, own, acts)
    requires Resets(cfg, acts[j]) && forall i :: j < i < k ==> !MySnapshot(cfg, acts[i])
    ensures var t := After(cfg, s, acts[..k]); !t.open || Untracked(cfg, own, t.table)
  {
    var last := k - 1;
    AfterOne(cfg, s, acts, last);
    var before := After(cfg, s, acts[..last]);
    if last == j {
      ResetClears(cfg, own, before, acts[last]);
    } else {
      QuietFor(cfg, own, s, acts, j, last);
      assert KeepsOff(cfg, own, acts[last]) && NamesOnly(cfg, own, acts[last]);
      QuietStep(cfg, own, before, acts[last]);
    }
  }

  /** After a gap or lag nothing is accepted or yielded until the next snapshot, whatever the state before it. */
  lemma QuietUntilSnapshot(cfg: Config, s: State, acts: seq<Act>, j: nat, k: nat)
    requires j < k < |acts| && PeersKeepOff(cfg, OwnSessions(cfg, acts), acts)
    requires Resets(cfg, acts[j]) && forall i :: j < i <= k ==> !MySnapshot(cfg, acts[i])
    ensures !YieldsBook(ReactionAt(cfg, s, acts, k))
    ensures var t := After(cfg, s, acts[..k]); !t.open || Untracked(cfg, OwnSessions(cfg, acts), t.table)
  {
    var own := OwnSessions(cfg, acts);
    OwnSessionsAreNamed(cfg, acts);
    QuietFor(cfg, own, s, acts, j, k);
    assert KeepsOff(cfg, own, acts[k]) && NamesOnly(cfg, own, acts[k]);
    QuietStep(cfg, own, After(cfg, s, acts[..k]), acts[k]);
  }

  // ---- Requests ---------------------------------------------------------------------

  function Requests(cfg: Config, s: State, acts: seq<Act>): nat {
    if acts == [] then 0
    else Requests(cfg, s, acts[..|acts| - 1]) + ReactionAt(cfg, s, acts, |acts| - 1).requests
  }

  function Books(cfg: Config, s: State, acts: seq<Act>): nat {
    if acts == [] then 0
    else Books(cfg, s, acts[..|acts| - 1]) + if YieldsBook(ReactionAt(cfg, s, acts, |acts| - 1)) then 1 else 0
  }

  function Count(cfg: Config, acts: seq<Act>, p: Act -> bool): nat {
    if acts == [] then 0
    else Count(cfg, acts[..|acts| - 1], p) + if p(acts[|acts| - 1]) then 1 else 0
  }

  lemma OneMessageAnswered(cfg: Config, s: State, act: Act)
    requires s.open && Step(cfg, s, act).0.open
    ensures var r := Step(cfg, s, act).1;
            && r.requests + (if YieldsBook(r) then 1 else 0)
               == (if MySnapshot(cfg, act) then 1 else 0) + (if MyDiff(cfg, act) then 1 else 0)
                   + (if Resets(cfg, act) then 1 else 0)
            && (MySnapshot(cfg, act) ==> YieldsBook(r)) && (Resets(cfg, act) ==> r.requests == 1)
  {}

  lemma ClosedStaysClosed(cfg: Config, s: State, act: Act)
    ensures Step(cfg, s, act).0.open ==> s.open
  {}

  /** While the stream is open, its own snapshots, diffs, gaps and lags are each answered once: with a book or
      with one request. Requests are the gaps, the lags and the diffs that got no book. */
  lemma {:induction false} EachMessageAnsweredOnce(cfg: Config, s: State, acts: seq<Act>)
    requires After(cfg, s, acts).open
    ensures Requests(cfg, s, acts) + Books(cfg, s, acts) ==
            Count(cfg, acts, a => MySnapshot(cfg, a)) + Count(cfg, acts, a => MyDiff(cfg, a))
                + Count(cfg, acts, a => Resets(cfg, a))
    ensures Books(cfg, s, acts) >= Count(cfg, acts, a => MySnapshot(cfg, a))
    ensures Requests(cfg, s, acts) >= Count(cfg, acts, a => Resets(cfg, a))
  {
    if acts == [] {
    } else {
      var n := |acts| - 1;
      ClosedStaysClosed(cfg, After(cfg, s, acts[..n]), acts[n]);
      EachMessageAnsweredOnce(cfg, s, acts[..n]);
      OneMessageAnswered(cfg, After(cfg, s, acts[..n]), acts[n]);
    }
  }

  /** Diffs of this stream that were not accepted when they came. */
  function Refused(cfg: Config, s: State, acts: seq<Act>): nat {
    if acts == [] then 0
    else
      var n := |acts| - 1;
      var refused := MyDiff(cfg, acts[n]) && !IsAccepted(After(cfg, s, acts[..n]), acts[n]);
      Refused(cfg, s, acts[..n]) + if refused then 1 else 0
  }

  lemma OneRequest(cfg: Config, s: State, act: Act)
    requires s.open && Step(cfg, s, act).0.open
    ensures Step(cfg, s, act).1.requests ==
            (if Resets(cfg, act) then 1 else 0) + (if MyDiff(cfg, act) && !IsAccepted(s, act) then 1 else 0)
  {}

  /** One request for each gap, each lag and each refused diff, and for nothing else. */
  lemma {:induction false} RequestsAreRefusals(cfg: Config, s: State, acts: seq<Act>)
    requires After(cfg, s, acts).open
    ensures Requests(cfg, s, acts) == Count(cfg, acts, a => Resets(cfg, a)) + Refused(cfg, s, acts)
  {
    if acts == [] {
    } else {
      var n := |acts| - 1;
      ClosedStaysClosed(cfg, After(cfg, s, acts[..n]), acts[n]);
      RequestsAreRefusals(cfg, s, acts[..n]);
      OneRequest(cfg, After(cfg, s, acts[..n]), acts[n]);
    }
  }

  /** Every book ever held or yielded is free of zero quantities. */
  lemma {:induction false} RunsStoreNoZero(cfg: Config, s: State, acts: seq<Act>)
    requires NoZero(s.book)
    ensures NoZero(After(cfg, s, acts).book)
  {
    if acts == [] {
    } else {
      var n := |acts| - 1;
      RunsStoreNoZero(cfg, s, acts[..n]);
      var act := acts[n];
      if act.Recv? && (act.ev.DepthSnapshot? || act.ev.DepthDiff?) {
        BooksStoreNoZero(After(cfg, s, acts[..n]).book, act.ev.bids, act.ev.asks);
      }
    }
  }
}
