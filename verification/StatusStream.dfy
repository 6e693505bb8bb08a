/** The merged status stream and the order in which a reconnect reaches the update loop. */
module StatusStream {
  import opened Venue

  datatype Message =
    | VenueMessage(venue: string, ev: VenueEvent)
    | Connected
    | Restarting(flag: bool)

  /** What the select of the loop may wake up with. */
  datatype Wake =
    | RestartChanged(flag: bool)
    | ConnectionChanged(present: bool)
    | WatchClosed
    | Received(event: EngineEvent)
    | Lagged
    | EventsClosed

  const REHELLOS := [VenueMessage(TACHIBANA, EngineRehello), VenueMessage(KABU_STATION, EngineRehello), Connected]

  predicate HasMachine(venue: string) {
    venue == TACHIBANA || venue == KABU_STATION
  }

  /** `map_engine_event_to_message` on venue events; the other arms are not part of this model. */
  function ToMessages(classify: Classify, ev: EngineEvent): seq<Message> {
    if !ev.Unrelated? && HasMachine(ev.venue) then [VenueMessage(ev.venue, ToVenueEvent(classify, ev).value)] else []
  }

  /** Every Connected comes right after the two rehellos. */
  predicate RehellosFirst(messages: seq<Message>) {
    forall p :: 0 <= p < |messages| && messages[p].Connected? ==>
      2 <= p && messages[p - 2] == VenueMessage(TACHIBANA, EngineRehello) &&
          messages[p - 1] == VenueMessage(KABU_STATION, EngineRehello)
  }

  /** The loop's state: messages yielded, whether there is a receiver, whether it still runs. */
  datatype Loop = Loop(yielded: seq<Message>, receiving: bool, running: bool)

  function Woken(classify: Classify, l: Loop, wake: Wake): Loop {
    if !l.running then l
    else
      match wake
      case RestartChanged(flag) => l.(yielded := l.yielded + [Restarting(flag)])
      case ConnectionChanged(present) =>
        if present then l.(yielded := l.yielded + REHELLOS, receiving := true) else l
      case WatchClosed => l.(running := false)
      case Received(ev) => if l.receiving then l.(yielded := l.yielded + ToMessages(classify, ev)) else l
      case Lagged => l
      case EventsClosed => l.(receiving := false)
  }

  function Begin(connected: bool, restarting: bool): Loop {
    Loop((if connected then REHELLOS else []) + (if restarting then [Restarting(true)] else []), connected, true)
  }

  function Run(classify: Classify, l: Loop, wakes: seq<Wake>): Loop {
    if wakes == [] then l else Woken(classify, Run(classify, l, wakes[..|wakes| - 1]), wakes[|wakes| - 1])
  }

  lemma AppendKeepsOrder(messages: seq<Message>, more: seq<Message>)
    requires RehellosFirst(messages) && RehellosFirst(more)
    ensures RehellosFirst(messages + more)
  {
    var all := messages + more;
    forall p | |messages| <= p < |all| && all[p].Connected?
      ensures 2 <= p && all[p - 2] == REHELLOS[0] && all[p - 1] == REHELLOS[1]
    {
      var q := p - |messages|;
      assert more[q].Connected? && all[p - 2] == more[q - 2] && all[p - 1] == more[q - 1];
    }
  }

  lemma WokenKeepsOrder(classify: Classify, l: Loop, wake: Wake)
    requires RehellosFirst(l.yielded)
    ensures RehellosFirst(Woken(classify, l, wake).yielded)
  {
    match wake {
      case RestartChanged(flag) => AppendKeepsOrder(l.yielded, [Restarting(flag)]);
      case ConnectionChanged(_) => AppendKeepsOrder(l.yielded, REHELLOS);
      case Received(ev) => AppendKeepsOrder(l.yielded, ToMessages(classify, ev));
      case _ =>
    }
  }

  /** Whatever the loop wakes up with, a Connected comes only behind its two rehellos. */
  lemma {:induction false} StreamPutsRehellosFirst(classify: Classify, connected: bool, restarting: bool,
      wakes: seq<Wake>)
    ensures RehellosFirst(Run(classify, Begin(connected, restarting), wakes).yielded)
  {
    if wakes == [] {
    } else {
      StreamPutsRehellosFirst(classify, connected, restarting, wakes[..|wakes| - 1]);
      WokenKeepsOrder(classify, Run(classify, Begin(connected, restarting), wakes[..|wakes| - 1]), wakes[|wakes| - 1]);
    }
  }

  method EngineStatusStream(classify: Classify, connected: bool, restarting: bool, wakes: seq<Wake>)
    returns (messages: seq<Message>)
    ensures messages == Run(classify, Begin(connected, restarting), wakes).yielded
    ensures RehellosFirst(messages)
  {
    StreamPutsRehellosFirst(classify, connected, restarting, wakes);
    messages := [];
    var receiving := false;
    if connected {
      receiving := true;
      messages := messages + [VenueMessage(TACHIBANA, EngineRehello), VenueMessage(KABU_STATION, EngineRehello)];
      messages := messages + [Connected];
    }
    if restarting {
      messages := messages + [Restarting(true)];
    }
    ghost var start := Begin(connected, restarting);
    for i := 0 to |wakes|
      invariant Loop(messages, receiving, true) == Run(classify, start, wakes[..i])
    {
      assert wakes[..i + 1][..i] == wakes[..i];
      match wakes[i] {
        case RestartChanged(flag) =>
          messages := messages + [Restarting(flag)];
        case ConnectionChanged(present) =>
          if present {
            receiving := true;
            ghost var before := messages;
            messages := messages + [VenueMessage(TACHIBANA, EngineRehello), VenueMessage(KABU_STATION, EngineRehello)];
            messages := messages + [Connected];
            assert messages == before + REHELLOS;
          }
        case WatchClosed =>
          StoppedStays(classify, start, wakes, i + 1);
          return;
        case Received(ev) =>
          if receiving {
            messages := messages + ToMessages(classify, ev);
          }
        case Lagged =>
        case EventsClosed =>
          receiving := false;
      }
    }
    assert wakes[..|wakes|] == wakes;
  }

  lemma {:induction false} StoppedStays(classify: Classify, l: Loop, wakes: seq<Wake>, i: nat)
    requires i <= |wakes| && !Run(classify, l, wakes[..i]).running
    ensures Run(classify, l, wakes) == Run(classify, l, wakes[..i])
  {
    if i == |wakes| {
      assert wakes[..i] == wakes;
    } else {
      var n := |wakes| - 1;
      assert wakes[..n][..i] == wakes[..i];
      StoppedStays(classify, l, wakes[..n], i);
    }
  }

  // ---- What is yielded, wake by wake -------------------------------------------------

  /** The stream still runs when wake `k` comes. */
  predicate StillRuns(wakes: seq<Wake>, k: nat) {
    forall i :: 0 <= i < k && i < |wakes| ==> !wakes[i].WatchClosed?
  }

  /** A receiver is there when wake `k` comes: the latest change of it, if any, was a connection. */
  predicate HasReceiver(connected: bool, wakes: seq<Wake>, k: nat)
    requires k <= |wakes|
  {
    if k == 0 then connected
    else
      match wakes[k - 1]
      case ConnectionChanged(present) => present || HasReceiver(connected, wakes, k - 1)
      case EventsClosed => false
      case _ => HasReceiver(connected, wakes, k - 1)
  }

  /** The message of a venue event, for the two venues that have a machine. */
  function VenueMessageOf(classify: Classify, ev: EngineEvent): seq<Message> {
    match ev
    case VenueReady(v) => if HasMachine(v) then [VenueMessage(v, VenueEvent.Ready)] else []
    case VenueLoginStarted(v) => if HasMachine(v) then [VenueMessage(v, LoginStarted)] else []
    case VenueLoginCancelled(v) => if HasMachine(v) then [VenueMessage(v, LoginCancelled)] else []
    case VenueError(v, code, message) =>
      if HasMachine(v) then [VenueMessage(v, LoginError(classify(code), message, code == "market_closed"))] else []
    case Unrelated => []
  }

  /** What wake `k` adds. */
  function Added(classify: Classify, connected: bool, wakes: seq<Wake>, k: nat): seq<Message>
    requires k < |wakes|
  {
    if !StillRuns(wakes, k) then []
    else
      match wakes[k]
      case RestartChanged(flag) => [Restarting(flag)]
      case ConnectionChanged(present) =>
        if present then
          [VenueMessage("tachibana", EngineRehello), VenueMessage("kabu_station", EngineRehello), Connected]
        else []
      case Received(ev) => if HasReceiver(connected, wakes, k) then VenueMessageOf(classify, ev) else []
      case _ => []
  }

  lemma {:induction false} LoopState(classify: Classify, connected: bool, restarting: bool, wakes: seq<Wake>, k: nat)
    requires k <= |wakes|
    ensures var l := Run(classify, Begin(connected, restarting), wakes[..k]);
            l.running == StillRuns(wakes, k) && (l.running ==> l.receiving == HasReceiver(connected, wakes, k))
  {
    if k == 0 {
    } else {
      LoopState(classify, connected, restarting, wakes, k - 1);
      assert wakes[..k][..k - 1] == wakes[..k - 1];
    }
  }

  /** Wake by wake, the messages yielded are those of restart flags, of connections and of the venue events received
      while there is a receiver, each at its own wake and in its order, until a watch closes. */
  lemma EachWakeAdds(classify: Classify, connected: bool, restarting: bool, wakes: seq<Wake>, k: nat)
    requires k < |wakes|
    ensures Run(classify, Begin(connected, restarting), wakes[..k + 1]).yielded ==
            Run(classify, Begin(connected, restarting), wakes[..k]).yielded + Added(classify, connected, wakes, k)
  {
    LoopState(classify, connected, restarting, wakes, k);
    assert wakes[..k + 1][..k] == wakes[..k];
    var before := Run(classify, Begin(connected, restarting), wakes[..k]).yielded;
    assert before + [] == before;
  }

  /** Before any wake: a connection that is already there, then a restart that is. */
  lemma GreetingIs(classify: Classify, connected: bool, restarting: bool)
    ensures var greeting := Run(classify, Begin(connected, restarting), []).yielded;
            var rehellos := [VenueMessage("tachibana", EngineRehello), VenueMessage("kabu_station", EngineRehello)];
            greeting == (if connected then rehellos + [Connected] else []) +
                        (if restarting then [Restarting(true)] else [])
  {}

  // ---- The update loop --------------------------------------------------------------

  /** A message of the stream, or something the user did to one venue. */
  datatype Act = Stream(msg: Message) | User(venue: string, input: Input)

  datatype App = App(tachibana: VenueState, kabu: VenueState)

  function FeedVenue(a: App, venue: string, input: Input): App {
    if venue == TACHIBANA then a.(tachibana := Feed(a.tachibana, input))
    else if venue == KABU_STATION then a.(kabu := Feed(a.kabu, input))
    else a
  }

  function Update(a: App, act: Act): App {
    match act
    case User(venue, input) => FeedVenue(a, venue, input)
    case Stream(VenueMessage(venue, ev)) => FeedVenue(a, venue, Event(ev))
    case Stream(_) => a
  }

  function AppAfter(a: App, acts: seq<Act>): App {
    if acts == [] then a else Update(AppAfter(a, acts[..|acts| - 1]), acts[|acts| - 1])
  }

  function StreamPart(acts: seq<Act>): seq<Message> {
    if acts == [] then []
    else
      var before, last := StreamPart(acts[..|acts| - 1]), acts[|acts| - 1];
      if last.Stream? then before + [last.msg] else before
  }

  function Machine(a: App, venue: string): VenueState
    requires HasMachine(venue)
  {
    if venue == TACHIBANA then a.tachibana else a.kabu
  }

  /** Claims, logouts, failed sends, dismissals, and a Ready synthesised for the venue. */
  predicate UserOrReady(acts: seq<Act>) {
    forall k :: 0 <= k < |acts| && acts[k].User? ==> acts[k].input.Event? ==>
        acts[k].input.ev.Dismissed? || acts[k].input.ev.Ready?
  }

  /** The stream's latest message about the venue is a rehello. */
  predicate RehelloLast(messages: seq<Message>, venue: string) {
    messages != [] &&
    var last := messages[|messages| - 1];
    if last.VenueMessage? && last.venue == venue then last.ev.EngineRehello?
        else RehelloLast(messages[..|messages| - 1], venue)
  }

  /** A Ready was synthesised for the venue after its latest rehello, with no claim or logout behind it. */
  predicate ReadySlippedIn(acts: seq<Act>, venue: string) {
    acts != [] &&
    var last := acts[|acts| - 1];
    if last == Stream(VenueMessage(venue, EngineRehello)) then false
    else if last == User(venue, Event(VenueEvent.Ready)) then true
    else if last == User(venue, Claim) || last == User(venue, Logout) then false
    else ReadySlippedIn(acts[..|acts| - 1], venue)
  }

  lemma OneUpdate(a: App, act: Act, venue: string)
    requires HasMachine(venue)
    ensures Machine(Update(a, act), venue) ==
            match act
            case User(v, input) => if v == venue then Feed(Machine(a, venue), input) else Machine(a, venue)
            case Stream(VenueMessage(v, ev)) => if v == venue then Next(Machine(a, venue), ev) else Machine(a, venue)
            case Stream(_) => Machine(a, venue)
  {}

  lemma {:induction false} ReadyAfterRehelloIff(a: App, acts: seq<Act>, venue: string)
    requires HasMachine(venue) && UserOrReady(acts) && RehelloLast(StreamPart(acts), venue)
    ensures Machine(AppAfter(a, acts), venue).Ready? <==> ReadySlippedIn(acts, venue)
  {
    var before, last := acts[..|acts| - 1], acts[|acts| - 1];
    OneUpdate(AppAfter(a, before), last, venue);
    if last != Stream(VenueMessage(venue, EngineRehello)) {
      ReadyAfterRehelloIff(a, before, venue);
    }
  }

  lemma {:induction false} StreamPartGrows(acts: seq<Act>, k: nat)
    requires k <= |acts|
    ensures StreamPart(acts[..k]) <= StreamPart(acts)
  {
    if k == |acts| {
      assert acts[..k] == acts;
    } else {
      StreamPartGrows(acts[..|acts| - 1], k);
      assert acts[..|acts| - 1][..k] == acts[..k];
    }
  }

  predicate BothRehellos(messages: seq<Message>) {
    2 <= |messages| && messages[|messages| - 2] == REHELLOS[0] && messages[|messages| - 1] == REHELLOS[1]
  }

  lemma BothRehellosAreLast(messages: seq<Message>)
    requires BothRehellos(messages)
    ensures RehelloLast(messages, TACHIBANA) && RehelloLast(messages, KABU_STATION)
  {
    var n := |messages|;
    assert TACHIBANA[0] != KABU_STATION[0];
    assert messages[..n - 1][n - 2] == REHELLOS[0];
    assert RehelloLast(messages[..n - 1], TACHIBANA);
  }

  lemma RehellosBefore(messages: seq<Message>, n: nat)
    requires RehellosFirst(messages) && n < |messages| && messages[n].Connected?
    ensures BothRehellos(messages[..n])
  {}

  lemma MessageInStream(acts: seq<Act>, k: nat)
    requires k < |acts| && acts[k].Stream?
    ensures StreamPart(acts[..k]) + [acts[k].msg] <= StreamPart(acts)
  {
    assert acts[..k + 1][..k] == acts[..k];
    StreamPartGrows(acts, k + 1);
  }

  lemma PrefixThen(before: seq<Message>, msg: Message, all: seq<Message>)
    requires before + [msg] <= all
    ensures |before| < |all| && all[|before|] == msg && all[..|before|] == before
  {
    assert all[|before|] == (before + [msg])[|before|];
  }

  lemma RehellosAtConnected(acts: seq<Act>, k: nat)
    requires RehellosFirst(StreamPart(acts)) && k < |acts| && acts[k] == Stream(Connected)
    ensures BothRehellos(StreamPart(acts[..k]))
  {
    var all, before := StreamPart(acts), StreamPart(acts[..k]);
    MessageInStream(acts, k);
    PrefixThen(before, Connected, all);
    RehellosBefore(all, |before|);
  }

  /** However the stream's messages interleave with the user and with synthesised Readies, a venue is Ready when a
      Connected is handled exactly when such a Ready slipped in behind its rehello. */
  lemma ReadyAtConnectedIff(a: App, acts: seq<Act>, k: nat, venue: string)
    requires HasMachine(venue) && UserOrReady(acts) && RehellosFirst(StreamPart(acts))
    requires k < |acts| && acts[k] == Stream(Connected)
    ensures Machine(AppAfter(a, acts[..k]), venue).Ready? <==> ReadySlippedIn(acts[..k], venue)
  {
    RehellosAtConnected(acts, k);
    BothRehellosAreLast(StreamPart(acts[..k]));
    ReadyAfterRehelloIff(a, acts[..k], venue);
  }

  /** Nothing is synthesised. */
  predicate UserOnly(acts: seq<Act>) {
    forall k :: 0 <= k < |acts| && acts[k].User? ==> acts[k].input.Event? ==> acts[k].input.ev.Dismissed?
  }

  lemma {:induction false} NothingSlipsIn(acts: seq<Act>, venue: string)
    requires UserOnly(acts)
    ensures !ReadySlippedIn(acts, venue)
  {
    if acts == [] {
    } else {
      NothingSlipsIn(acts[..|acts| - 1], venue);
    }
  }

  /** From the stream and the user alone, no venue is Ready when a Connected is handled. */
  lemma NoVenueReadyAtConnected(a: App, acts: seq<Act>, k: nat)
    requires UserOnly(acts) && RehellosFirst(StreamPart(acts))
    requires k < |acts| && acts[k] == Stream(Connected)
    ensures !AppAfter(a, acts[..k]).tachibana.Ready? && !AppAfter(a, acts[..k]).kabu.Ready?
  {
    ReadyAtConnectedIff(a, acts, k, TACHIBANA);
    ReadyAtConnectedIff(a, acts, k, KABU_STATION);
    NothingSlipsIn(acts[..k], TACHIBANA);
    NothingSlipsIn(acts[..k], KABU_STATION);
  }

  /** A Ready synthesised by an earlier Connected and delivered between the rehellos of the next one. */
  lemma SynthesisedReadyIntervenes(a: App)
    ensures var acts := [Stream(REHELLOS[0]), User(TACHIBANA, Event(VenueEvent.Ready)), Stream(REHELLOS[1]),
            Stream(Connected)];
            RehellosFirst(StreamPart(acts)) && AppAfter(a, acts[..3]).tachibana.Ready?
  {
    var acts := [Stream(REHELLOS[0]), User(TACHIBANA, Event(VenueEvent.Ready)), Stream(REHELLOS[1]), Stream(Connected)];
    assert acts[..3][..2] == acts[..2] && acts[..2][..1] == acts[..1] && acts[..1][..0] == [];
    assert StreamPart(acts[..1]) == [REHELLOS[0]];
    assert StreamPart(acts[..2]) == [REHELLOS[0]];
    assert StreamPart(acts[..3]) == REHELLOS[..2];
    assert acts[..4] == acts && acts[..4][..3] == acts[..3];
    assert StreamPart(acts) == REHELLOS;
    ReadyAtConnectedIff(a, acts, 3, TACHIBANA);
    assert ReadySlippedIn(acts[..2], TACHIBANA);
  }
}
