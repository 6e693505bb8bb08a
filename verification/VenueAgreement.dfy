/** Two consumers of one event stream, over any number of connections: the bridge that keeps the ready cache,
    and the update loop that drives a venue's machine. The loop subscribes later than the bridge, so events
    can pass it by; a Ready synthesised from the cache is meant to make up for them. */
module VenueAgreement {
  import opened Venue

  /** One event at the bridge. */
  function Bridge(cache: set<string>, ev: EngineEvent): set<string> {
    match ev
    case VenueReady(v) => cache + {v}
    case VenueLoginStarted(v) => cache - {v}
    case VenueLoginCancelled(v) => cache - {v}
    case VenueError(v, _, _) => cache - {v}
    case Unrelated => cache
  }

  /** Where the update loop is with the current connection: still on the one before, subscribed to this one,
      past the rehellos, past the Connected message. */
  datatype Phase = Behind | Subscribed | Greeted | Live

  /** Who decided the machine's state last. */
  datatype Source = Engine | User | Reset | Bootstrap

  /** One venue's view: the events of the current connection, how many of them the bridge has processed and how
      many the update loop has handled or missed, and how many synthesised Readies are on their way. */
  datatype Sys = Sys(log: seq<EngineEvent>, bridged: nat, handled: nat, cache: set<string>,
                     machine: VenueState, phase: Phase, source: Source, pending: nat)

  datatype Act =
    | Reconnect
    | Publish(ev: EngineEvent)
    | BridgeRecv
    | OldMessage(late: VenueEvent)
    | Subscribe
    | Rehello
    | Connected(contended: bool)
    | StatusRecv
    | Restart(contended: bool)
    | DepthConnected
    | Deliver
    | Ui(input: Input)

  const START := Sys([], 0, 0, {}, Idle, Behind, Reset, 0)

  /** The non-blocking look into the cache, which says no when the bridge holds the lock. */
  predicate Probe(venue: string, s: Sys, contended: bool) {
    venue in s.cache && !contended
  }

  function Step(classify: Classify, venue: string, s: Sys, act: Act): Sys {
    match act
    case Reconnect => Sys([], 0, 0, {}, s.machine, Behind, s.source, s.pending)
    case Publish(ev) => s.(log := s.log + [ev])
    case BridgeRecv =>
      if s.bridged < |s.log| then s.(bridged := s.bridged + 1, cache := Bridge(s.cache, s.log[s.bridged])) else s
    case OldMessage(ev) =>
      if s.phase.Behind? || s.phase.Subscribed? then s.(machine := Next(s.machine, ev)) else s
    case Subscribe => if s.phase.Behind? then s.(phase := Subscribed, handled := |s.log|) else s
    case Rehello =>
      if !s.phase.Subscribed? then s
      else s.(phase := Greeted, machine := Next(s.machine, EngineRehello), source := Reset)
    case Connected(contended) =>
      if s.phase.Live? then s
      else s.(phase := if s.phase.Greeted? then Live else s.phase,
              pending := s.pending + if Probe(venue, s, contended) && !s.machine.Ready? then 1 else 0)
    case StatusRecv =>
      if !s.phase.Live? || s.handled >= |s.log| then s
      else if !About(s.log[s.handled], venue) then s.(handled := s.handled + 1)
      else
        var machine := Next(s.machine, ToVenueEvent(classify, s.log[s.handled]).value);
        s.(handled := s.handled + 1, machine := machine, source := Engine)
    case Restart(contended) =>
      s.(machine := Idle, source := Reset, pending := s.pending + if Probe(venue, s, contended) then 1 else 0)
    case DepthConnected => if s.machine.Error? && venue == TACHIBANA then s.(pending := s.pending + 1) else s
    case Deliver =>
      if s.pending == 0 then s
      else s.(machine := Next(s.machine, VenueEvent.Ready), source := Bootstrap, pending := s.pending - 1)
    case Ui(input) =>
      if input.Event? && !input.ev.Dismissed? then s
      else s.(machine := Feed(s.machine, input), source := if input.Claim? || input.Logout? then User else s.source)
  }

  function From(classify: Classify, venue: string, s: Sys, acts: seq<Act>): Sys
    decreases |acts|
  {
    if acts == [] then s else From(classify, venue, Step(classify, venue, s, acts[0]), acts[1..])
  }

  function After(classify: Classify, venue: string, acts: seq<Act>): Sys {
    From(classify, venue, START, acts)
  }

  lemma {:induction false} FromConcat(classify: Classify, venue: string, s: Sys, a: seq<Act>, b: seq<Act>)
    ensures From(classify, venue, s, a + b) == From(classify, venue, From(classify, venue, s, a), b)
    decreases |a|
  {
    if a == [] {
      assert a + b == b;
    } else {
      FromConcat(classify, venue, Step(classify, venue, s, a[0]), a[1..], b);
      assert (a + b)[1..] == a[1..] + b;
    }
  }

  /** The venue's latest event says ready. */
  predicate SaysReady(log: seq<EngineEvent>, venue: string) {
    log != [] &&
    var last := log[|log| - 1];
    if About(last, venue) then last.VenueReady? else SaysReady(log[..|log| - 1], venue)
  }

  predicate SaysReadyAt(log: seq<EngineEvent>, n: nat, venue: string) {
    n <= |log| && SaysReady(log[..n], venue)
  }

  // ---- The bridge -------------------------------------------------------------------

  datatype Delivery = Event(ev: EngineEvent) | Lagged | Closed

  /** The events that reach it: lags leave a hole, closing ends it. */
  function Delivered(deliveries: seq<Delivery>): seq<EngineEvent> {
    if deliveries == [] || deliveries[0].Closed? then []
    else if deliveries[0].Lagged? then Delivered(deliveries[1..])
    else [deliveries[0].ev] + Delivered(deliveries[1..])
  }

  function BridgeAll(cache: set<string>, events: seq<EngineEvent>): set<string> {
    if events == [] then cache else Bridge(BridgeAll(cache, events[..|events| - 1]), events[|events| - 1])
  }

  lemma {:induction false} BridgeAllFront(cache: set<string>, ev: EngineEvent, events: seq<EngineEvent>)
    ensures BridgeAll(cache, [ev] + events) == BridgeAll(Bridge(cache, ev), events)
  {
    var all := [ev] + events;
    if events == [] {
      assert all[..0] == [];
    } else {
      BridgeAllFront(cache, ev, events[..|events| - 1]);
      assert all[..|all| - 1] == [ev] + events[..|events| - 1];
    }
  }

  /** Started on a drained cache, the bridge caches exactly the venues whose latest event says ready. */
  lemma {:induction false} BridgeKeepsLatest(events: seq<EngineEvent>, venue: string)
    ensures venue in BridgeAll({}, events) <==> SaysReady(events, venue)
  {
    if events == [] {
    } else {
      BridgeKeepsLatest(events[..|events| - 1], venue);
    }
  }

  method VenueReadyBridge(deliveries: seq<Delivery>) returns (cache: set<string>)
    ensures cache == BridgeAll({}, Delivered(deliveries))
    ensures forall venue :: venue in cache <==> SaysReady(Delivered(deliveries), venue)
  {
    cache := {};
    var i := 0;
    while i < |deliveries| && !deliveries[i].Closed?
      invariant 0 <= i <= |deliveries|
      invariant BridgeAll(cache, Delivered(deliveries[i..])) == BridgeAll({}, Delivered(deliveries))
    {
      assert deliveries[i..][0] == deliveries[i] && deliveries[i..][1..] == deliveries[i + 1..];
      if deliveries[i].Event? {
        BridgeAllFront(cache, deliveries[i].ev, Delivered(deliveries[i + 1..]));
        match deliveries[i].ev {
          case VenueReady(venue) => cache := cache + {venue};
          case VenueError(venue, _, _) => cache := cache - {venue};
          case VenueLoginStarted(venue) => cache := cache - {venue};
          case VenueLoginCancelled(venue) => cache := cache - {venue};
          case Unrelated =>
        }
      }
      i := i + 1;
    }
    forall venue
      ensures venue in cache <==> SaysReady(Delivered(deliveries), venue)
    {
      BridgeKeepsLatest(Delivered(deliveries), venue);
    }
  }

  // ---- Every reachable state --------------------------------------------------------

  predicate Coherent(venue: string, s: Sys) {
    && s.bridged <= |s.log| && s.handled <= |s.log|
    && (venue in s.cache <==> SaysReadyAt(s.log, s.bridged, venue))
    && (s.phase.Greeted? || s.phase.Live? ==>
          && (s.machine.Ready? <==> s.source.Bootstrap? || (s.source.Engine? && SaysReadyAt(s.log, s.handled, venue)))
          && (s.machine.Error? ==> s.source.Engine? && !SaysReadyAt(s.log, s.handled, venue)))
  }

  lemma BridgeStep(venue: string, s: Sys)
    requires Coherent(venue, s) && s.bridged < |s.log|
    ensures venue in Bridge(s.cache, s.log[s.bridged]) <==> SaysReadyAt(s.log, s.bridged + 1, venue)
  {
    assert s.log[..s.bridged + 1][..s.bridged] == s.log[..s.bridged];
  }

  lemma HandledStep(venue: string, log: seq<EngineEvent>, n: nat)
    requires n < |log|
    ensures SaysReadyAt(log, n + 1, venue) <==>
            if About(log[n], venue) then log[n].VenueReady? else SaysReadyAt(log, n, venue)
  {
    assert log[..n + 1][..n] == log[..n];
  }

  lemma PublishStep(venue: string, log: seq<EngineEvent>, ev: EngineEvent, n: nat)
    requires n <= |log|
    ensures SaysReadyAt(log + [ev], n, venue) == SaysReadyAt(log, n, venue)
  {
    assert (log + [ev])[..n] == log[..n];
  }

  lemma StepIsCoherent(classify: Classify, venue: string, s: Sys, act: Act)
    requires Coherent(venue, s)
    ensures Coherent(venue, Step(classify, venue, s, act))
  {
    match act {
      case Publish(ev) =>
        PublishStep(venue, s.log, ev, s.bridged);
        PublishStep(venue, s.log, ev, s.handled);
      case BridgeRecv => if s.bridged < |s.log| { BridgeStep(venue, s); }
      case StatusRecv => if s.handled < |s.log| { HandledStep(venue, s.log, s.handled); }
      case _ =>
    }
  }

  lemma {:induction false} FromIsCoherent(classify: Classify, venue: string, s: Sys, acts: seq<Act>)
    requires Coherent(venue, s)
    ensures Coherent(venue, From(classify, venue, s, acts))
    decreases |acts|
  {
    if acts == [] {
    } else {
      StepIsCoherent(classify, venue, s, acts[0]);
      FromIsCoherent(classify, venue, Step(classify, venue, s, acts[0]), acts[1..]);
    }
  }

  lemma RunsAreCoherent(classify: Classify, venue: string, acts: seq<Act>)
    ensures Coherent(venue, After(classify, venue, acts))
  {
    FromIsCoherent(classify, venue, START, acts);
  }

  // ---- When machine and cache agree --------------------------------------------------

  /** The act decides the machine's state. */
  predicate Decides(venue: string, s: Sys, act: Act) {
    match act
    case Rehello => s.phase.Subscribed?
    case StatusRecv => s.phase.Live? && s.handled < |s.log| && About(s.log[s.handled], venue)
    case Restart(_) => true
    case Deliver => s.pending > 0
    case Ui(input) => input.Claim? || input.Logout?
    case _ => false
  }

  /** A Ready is synthesised where the cache is seen to hold the venue: at a Connected of the current connection only
      for a machine that is not Ready yet, at a restart always; and by the depth stream for Tachibana's error alone,
      without a look. Until it is delivered nothing else takes it back, the next connection included. */
  lemma SynthesisedIff(classify: Classify, venue: string, s: Sys, act: Act)
    requires Coherent(venue, s)
    ensures var added := Step(classify, venue, s, act).pending - s.pending;
            var cached := SaysReadyAt(s.log, s.bridged, venue);
            && (added == 1 <==>
                  || (act.Connected? && !s.phase.Live? && cached && !act.contended && !s.machine.Ready?)
                  || (act.Restart? && cached && !act.contended)
                  || (act.DepthConnected? && s.machine.Error? && venue == "tachibana"))
            && (added == -1 <==> act.Deliver? && s.pending > 0)
            && -1 <= added <= 1
  {}

  /** A ready event left over from the connection before makes the machine Ready, with nothing cached on this one,
      until the rehello; a late error stays an error until then, too. */
  lemma LeftoversEndAtRehello(classify: Classify, venue: string, s: Sys, ev: VenueEvent)
    requires s.phase.Behind?
    ensures var t := From(classify, venue, s, [OldMessage(ev)]);
            && (ev.Ready? ==> t.machine.Ready?)
            && (ev.LoginError? ==> t.machine == Error(ev.cls, ev.message, ev.marketClosed))
            && t.cache == s.cache && t.pending == s.pending
    ensures From(classify, venue, s, [OldMessage(ev), Subscribe, Rehello]).machine == Idle
  {
    var t := Step(classify, venue, s, OldMessage(ev));
    assert [OldMessage(ev), Subscribe, Rehello][1..] == [Subscribe, Rehello] && [Subscribe, Rehello][1..] == [Rehello];
    assert From(classify, venue, t, [Subscribe, Rehello]).machine == Idle;
  }

  predicate NoDecisions(classify: Classify, venue: string, s: Sys, acts: seq<Act>)
    decreases |acts|
  {
    acts == [] || (!Decides(venue, s, acts[0]) &&
        NoDecisions(classify, venue, Step(classify, venue, s, acts[0]), acts[1..]))
  }

  /** What the latest event handled or missed says about the venue. */
  predicate Said(venue: string, s: Sys) {
    SaysReadyAt(s.log, s.handled, venue)
  }

  predicate Established(s: Sys) {
    s.phase.Greeted? || s.phase.Live?
  }

  lemma UndecidedStep(classify: Classify, venue: string, s: Sys, act: Act)
    requires Coherent(venue, s) && !Decides(venue, s, act)
    ensures var t := Step(classify, venue, s, act);
            && t.source == s.source
            && (Established(t) ==> Established(s) && Said(venue, t) == Said(venue, s))
  {
    match act {
      case Publish(ev) => PublishStep(venue, s.log, ev, s.handled);
      case StatusRecv => if s.handled < |s.log| { HandledStep(venue, s.log, s.handled); }
      case _ =>
    }
  }

  lemma {:induction false} UndecidedRun(classify: Classify, venue: string, s: Sys, acts: seq<Act>)
    requires Coherent(venue, s) && NoDecisions(classify, venue, s, acts)
    ensures var t := From(classify, venue, s, acts);
            && t.source == s.source
            && (Established(t) ==> Established(s) && Said(venue, t) == Said(venue, s))
    decreases |acts|
  {
    if acts == [] {
    } else {
      UndecidedStep(classify, venue, s, acts[0]);
      StepIsCoherent(classify, venue, s, acts[0]);
      UndecidedRun(classify, venue, Step(classify, venue, s, acts[0]), acts[1..]);
    }
  }

  /** Every live run has a last decision. */
  lemma LastDecision(classify: Classify, venue: string, acts: seq<Act>)
      returns (before: seq<Act>, act: Act, after: seq<Act>)
    requires Established(After(classify, venue, acts))
    ensures acts == before + [act] + after
    ensures var s := After(classify, venue, before);
            Decides(venue, s, act) && NoDecisions(classify, venue, Step(classify, venue, s, act), after)
  {
    var found;
    found, before, act, after := LastDecisionFrom(classify, venue, START, acts);
    if !found {
      UndecidedRun(classify, venue, START, acts);
    }
  }

  lemma {:induction false} LastDecisionFrom(classify: Classify, venue: string, s: Sys, acts: seq<Act>)
    returns (found: bool, before: seq<Act>, act: Act, after: seq<Act>)
    ensures !found ==> NoDecisions(classify, venue, s, acts)
    ensures found ==> acts == before + [act] + after
    ensures found ==> var t := From(classify, venue, s, before);
                      Decides(venue, t, act) && NoDecisions(classify, venue, Step(classify, venue, t, act), after)
    decreases |acts|
  {
    before, after, act := [], [], Deliver;
    if acts == [] {
      found := false;
    } else {
      var next := Step(classify, venue, s, acts[0]);
      found, before, act, after := LastDecisionFrom(classify, venue, next, acts[1..]);
      if found {
        assert ([acts[0]] + before)[1..] == before;
        before := [acts[0]] + before;
        assert acts == [acts[0]] + acts[1..];
      } else if Decides(venue, s, acts[0]) {
        found, before, act, after := true, [], acts[0], acts[1..];
      }
    }
  }

  /** For every run, whether machine and cache agree at its end was settled at the last decision: an engine event makes
      them agree, a synthesised Ready exactly if the latest event then said ready, a rehello, restart, claim or logout
      exactly if it did not. */
  lemma AgreementIff(classify: Classify, venue: string, before: seq<Act>, act: Act, after: seq<Act>)
    requires Decides(venue, After(classify, venue, before), act)
    requires NoDecisions(classify, venue, Step(classify, venue, After(classify, venue, before), act), after)
    ensures var t := Step(classify, venue, After(classify, venue, before), act);
            var s := After(classify, venue, before + [act] + after);
            s.phase.Live? && s.bridged == s.handled ==>
              ((s.machine.Ready? <==> venue in s.cache) <==>
               (act.StatusRecv? || (if act.Deliver? then Said(venue, t) else !Said(venue, t))))
  {
    var t := Step(classify, venue, After(classify, venue, before), act);
    RunsAreCoherent(classify, venue, before);
    StepIsCoherent(classify, venue, After(classify, venue, before), act);
    UndecidedRun(classify, venue, t, after);
    FromIsCoherent(classify, venue, t, after);
    FromConcat(classify, venue, START, before, [act] + after);
    assert before + [act] + after == before + ([act] + after) && ([act] + after)[1..] == after;
  }

  // ---- Synthesised readiness --------------------------------------------------------

  /** What can go wrong between a look into the cache and the delivery of what is synthesised from it. */
  datatype Lapse =
    | LateConnected
    | ContendedConnected
    | LateGreetedRestart
    | LateRestart
    | ContendedRestart
    | ClearedError
    | CarriedOver
    | Overtaken

  /** The look happens with the bridge not level with the update loop, or with the lock taken; the depth stream
      clears an error; a rehello comes with a Ready on its way; or an event that is no ready overtakes it. */
  predicate Lapses(venue: string, s: Sys, act: Act, lapse: Lapse) {
    match lapse
    case LateConnected => act.Connected? && s.phase.Greeted? && s.bridged != s.handled
    case ContendedConnected => act.Connected? && s.phase.Greeted? && act.contended
    case LateGreetedRestart => act.Restart? && s.phase.Greeted? && s.bridged != s.handled
    case LateRestart => act.Restart? && s.phase.Live? && s.bridged != s.handled
    case ContendedRestart => act.Restart? && s.phase.Live? && act.contended
    case ClearedError => act.DepthConnected? && s.phase.Live? && s.machine.Error? && venue == TACHIBANA
    case CarriedOver => act.Rehello? && s.phase.Subscribed? && s.pending > 0
    case Overtaken =>
      act.StatusRecv? && s.phase.Live? && s.pending > 0 && s.handled < |s.log|
      && About(s.log[s.handled], venue) && !s.log[s.handled].VenueReady?
  }

  predicate NoLapse(venue: string, s: Sys, act: Act, but: set<Lapse>) {
    forall l: Lapse :: l !in but ==> !Lapses(venue, s, act, l)
  }

  /** No lapse along the run, except perhaps those named. */
  predicate CarefulBut(classify: Classify, venue: string, s: Sys, acts: seq<Act>, but: set<Lapse>)
    decreases |acts|
  {
    acts == [] || (NoLapse(venue, s, acts[0], but) &&
        CarefulBut(classify, venue, Step(classify, venue, s, acts[0]), acts[1..], but))
  }

  predicate Bootstrapped(venue: string, s: Sys) {
    && (Established(s) && (s.pending > 0 || s.machine.Ready?) ==> Said(venue, s))
    && (s.phase.Live? && s.pending == 0 && !s.source.User? && Said(venue, s) ==> s.machine.Ready?)
    && (s.phase.Greeted? ==> !s.source.Engine?)
  }

  lemma StepIsBootstrapped(classify: Classify, venue: string, s: Sys, act: Act)
    requires Coherent(venue, s) && Bootstrapped(venue, s) && NoLapse(venue, s, act, {})
    ensures Bootstrapped(venue, Step(classify, venue, s, act))
  {
    assert forall l: Lapse :: !Lapses(venue, s, act, l);
    match act {
      case Publish(ev) => PublishStep(venue, s.log, ev, s.handled);
      case StatusRecv =>
        assert !Lapses(venue, s, act, Overtaken);
        if s.handled < |s.log| { HandledStep(venue, s.log, s.handled); }
      case Connected(_) => assert !Lapses(venue, s, act, LateConnected) && !Lapses(venue, s, act, ContendedConnected);
      case Restart(_) =>
        assert !Lapses(venue, s, act, LateGreetedRestart) && !Lapses(venue, s, act, LateRestart);
        assert !Lapses(venue, s, act, ContendedRestart);
      case DepthConnected => assert !Lapses(venue, s, act, ClearedError);
      case Rehello => assert !Lapses(venue, s, act, CarriedOver);
      case _ =>
    }
  }

  lemma {:induction false} CarefulIsBootstrapped(classify: Classify, venue: string, s: Sys, acts: seq<Act>)
    requires Coherent(venue, s) && Bootstrapped(venue, s) && CarefulBut(classify, venue, s, acts, {})
    ensures Bootstrapped(venue, From(classify, venue, s, acts))
    decreases |acts|
  {
    if acts == [] {
    } else {
      StepIsCoherent(classify, venue, s, acts[0]);
      StepIsBootstrapped(classify, venue, s, acts[0]);
      CarefulIsBootstrapped(classify, venue, Step(classify, venue, s, acts[0]), acts[1..]);
    }
  }

  /** Live, nothing on its way, and no claim or logout has spoken last. */
  predicate Settled(s: Sys) {
    s.phase.Live? && s.pending == 0 && !s.source.User?
  }

  /** The synthesis closes the gap of the late subscription: without a lapse, whatever was published before the
      update loop subscribed, a settled machine is Ready exactly when the engine's latest event says so, hence, with
      the consumers level, exactly when the venue is cached. */
  lemma BootstrapClosesTheGap(classify: Classify, venue: string, acts: seq<Act>)
    requires CarefulBut(classify, venue, START, acts, {})
    ensures var s := After(classify, venue, acts);
            Settled(s) ==>
              && (s.machine.Ready? <==> Said(venue, s))
              && (s.bridged == s.handled ==> (s.machine.Ready? <==> venue in s.cache))
  {
    CarefulIsBootstrapped(classify, venue, START, acts);
    RunsAreCoherent(classify, venue, acts);
  }

  /** From any reachable state, a restart and the delivery of what it synthesises make the machine Ready exactly when
      the bridge's latest word is ready: it repeats the latest handled event exactly when that is the same. */
  lemma RestartRepeatsTheBridge(classify: Classify, venue: string, acts: seq<Act>)
    ensures var s := After(classify, venue, acts);
            var t := Step(classify, venue, Step(classify, venue, s, Restart(false)), Deliver);
            s.pending == 0 ==>
              && (t.machine.Ready? <==> SaysReadyAt(s.log, s.bridged, venue))
              && (s.bridged == s.handled ==> (t.machine.Ready? <==> Said(venue, s)))
  {
    RunsAreCoherent(classify, venue, acts);
  }

  /** The depth stream's reconnect clears an Error banner with a Ready: with the consumers level the venue is
      never cached at that point, so the machine and the cache always part. */
  lemma DepthReconnectPartsThem(classify: Classify, acts: seq<Act>)
    ensures var s := After(classify, TACHIBANA, acts);
            var t := Step(classify, TACHIBANA, Step(classify, TACHIBANA, s, DepthConnected), Deliver);
            s.phase.Live? && s.bridged == s.handled && s.machine.Error? ==> t.machine.Ready? && TACHIBANA !in t.cache
  {
    RunsAreCoherent(classify, TACHIBANA, acts);
  }

  // ---- What each lapse costs --------------------------------------------------------

  /** A run from the start, careful but for `but`, that ends in `s`. */
  predicate Leads(classify: Classify, venue: string, acts: seq<Act>, s: Sys, but: Lapse) {
    CarefulBut(classify, venue, START, acts, {but}) && After(classify, venue, acts) == s
  }

  lemma {:induction false} CarefulConcat(classify: Classify, venue: string, s: Sys, a: seq<Act>, act: Act,
      but: set<Lapse>)
    requires CarefulBut(classify, venue, s, a, but) && NoLapse(venue, From(classify, venue, s, a), act, but)
    ensures CarefulBut(classify, venue, s, a + [act], but)
    decreases |a|
  {
    if a == [] {
      assert a + [act] == [act] && [act][1..] == [];
    } else {
      CarefulConcat(classify, venue, Step(classify, venue, s, a[0]), a[1..], act, but);
      assert (a + [act])[1..] == a[1..] + [act];
    }
  }

  lemma Then(classify: Classify, venue: string, but: Lapse, acts: seq<Act>, s: Sys, act: Act) returns (more: seq<Act>)
    requires Leads(classify, venue, acts, s, but) && NoLapse(venue, s, act, {but})
    ensures more == acts + [act] && Leads(classify, venue, more, Step(classify, venue, s, act), but)
  {
    more := acts + [act];
    CarefulConcat(classify, venue, START, acts, act, {but});
    FromConcat(classify, venue, START, acts, [act]);
    assert [act][1..] == [];
  }

  /** The ready event passes the update loop by; the rehellos are handled, the bridge has not seen it. */
  lemma ReadyPassesBy(classify: Classify, venue: string, but: Lapse) returns (acts: seq<Act>)
    ensures Leads(classify, venue, acts, Sys([VenueReady(venue)], 0, 1, {}, Idle, Greeted, Reset, 0), but)
  {
    acts := [];
    var log := [VenueReady(venue)];
    acts := Then(classify, venue, but, acts, START, Publish(VenueReady(venue)));
    assert [] + [VenueReady(venue)] == log;
    acts := Then(classify, venue, but, acts, START.(log := log), Subscribe);
    acts := Then(classify, venue, but, acts, START.(log := log, handled := 1, phase := Subscribed), Rehello);
  }

  lemma BridgeCatchesUp(classify: Classify, venue: string, but: Lapse) returns (acts: seq<Act>)
    ensures Leads(classify, venue, acts, Sys([VenueReady(venue)], 1, 1, {venue}, Idle, Greeted, Reset, 0), but)
  {
    acts := ReadyPassesBy(classify, venue, but);
    acts := Then(classify, venue, but, acts, Sys([VenueReady(venue)], 0, 1, {}, Idle, Greeted, Reset, 0), BridgeRecv);
    assert {} + {venue} == {venue};
  }

  /** ... and the Ready synthesised at Connected arrives: live, level, ready and cached. */
  lemma ComesUpReady(classify: Classify, venue: string, but: Lapse) returns (acts: seq<Act>)
    ensures Leads(classify, venue, acts, UpReady(venue), but)
  {
    acts := BridgeCatchesUp(classify, venue, but);
    var s := Sys([VenueReady(venue)], 1, 1, {venue}, Idle, Greeted, Reset, 0);
    acts := Then(classify, venue, but, acts, s, Connected(false));
    acts := Then(classify, venue, but, acts, s.(phase := Live, pending := 1), Deliver);
  }

  function UpReady(venue: string): Sys {
    Sys([VenueReady(venue)], 1, 1, {venue}, VenueState.Ready, Live, Bootstrap, 0)
  }

  predicate Disagrees(venue: string, s: Sys) {
    Settled(s) && s.bridged == s.handled == |s.log| && s.machine.Ready? != (venue in s.cache)
  }

  lemma LateConnectedCosts(classify: Classify, venue: string) returns (acts: seq<Act>, s: Sys)
    ensures Leads(classify, venue, acts, s, LateConnected) && Disagrees(venue, s) && s.machine.Idle?
  {
    acts := ReadyPassesBy(classify, venue, LateConnected);
    s := Sys([VenueReady(venue)], 0, 1, {}, Idle, Greeted, Reset, 0);
    acts := Then(classify, venue, LateConnected, acts, s, Connected(false));
    s := s.(phase := Live);
    acts := Then(classify, venue, LateConnected, acts, s, BridgeRecv);
    s := Step(classify, venue, s, BridgeRecv);
  }

  lemma ContendedConnectedCosts(classify: Classify, venue: string) returns (acts: seq<Act>, s: Sys)
    ensures Leads(classify, venue, acts, s, ContendedConnected) && Disagrees(venue, s) && s.machine.Idle?
  {
    acts := BridgeCatchesUp(classify, venue, ContendedConnected);
    s := Sys([VenueReady(venue)], 1, 1, {venue}, Idle, Greeted, Reset, 0);
    acts := Then(classify, venue, ContendedConnected, acts, s, Connected(true));
    s := Step(classify, venue, s, Connected(true));
  }

  /** A restart between rehello and Connected, with an error the bridge has yet to see. */
  lemma LateGreetedRestartCosts(classify: Classify, venue: string) returns (acts: seq<Act>, s: Sys)
    ensures Leads(classify, venue, acts, s, LateGreetedRestart) && Disagrees(venue, s) && s.machine.Ready?
  {
    var l, log := LateGreetedRestart, [VenueReady(venue), VenueError(venue, "", "")];
    acts := [];
    acts := Then(classify, venue, l, acts, START, Publish(log[0]));
    acts := Then(classify, venue, l, acts, START.(log := [log[0]]), Publish(log[1]));
    assert [] + [log[0]] == [log[0]] && [log[0]] + [log[1]] == log;
    acts := Then(classify, venue, l, acts, START.(log := log), BridgeRecv);
    assert {} + {venue} == {venue};
    acts, s := RestartBetween(classify, venue, acts);
  }

  lemma RestartBetween(classify: Classify, venue: string, before: seq<Act>) returns (acts: seq<Act>, s: Sys)
    requires Leads(classify, venue, before,
                   Sys([VenueReady(venue), VenueError(venue, "", "")], 1, 0, {venue}, Idle, Behind, Reset, 0),
                   LateGreetedRestart)
    ensures Leads(classify, venue, acts, s, LateGreetedRestart) && Disagrees(venue, s) && s.machine.Ready?
  {
    var l, log := LateGreetedRestart, [VenueReady(venue), VenueError(venue, "", "")];
    s := Sys(log, 1, 0, {venue}, Idle, Behind, Reset, 0);
    acts := Then(classify, venue, l, before, s, Subscribe);
    s := s.(phase := Subscribed, handled := 2);
    acts := Then(classify, venue, l, acts, s, Rehello);
    s := s.(phase := Greeted);
    acts := Then(classify, venue, l, acts, s, Restart(false));
    s := s.(pending := 1);
    acts := Then(classify, venue, l, acts, s, Deliver);
    s := s.(pending := 0, machine := VenueState.Ready, source := Bootstrap);
    acts := Then(classify, venue, l, acts, s, BridgeRecv);
    s := s.(bridged := 2, cache := {venue} - {venue});
    acts := Then(classify, venue, l, acts, s, Connected(false));
    s := s.(phase := Live);
  }

  /** A restart after an error the bridge has yet to see. */
  lemma LateRestartCosts(classify: Classify, venue: string) returns (acts: seq<Act>, s: Sys)
    ensures Leads(classify, venue, acts, s, LateRestart) && Disagrees(venue, s) && s.machine.Ready?
  {
    var l, error := LateRestart, VenueError(venue, "", "");
    acts := ComesUpReady(classify, venue, l);
    acts := Then(classify, venue, l, acts, UpReady(venue), Publish(error));
    s := UpReady(venue).(log := [VenueReady(venue), error]);
    assert [VenueReady(venue)] + [error] == s.log;
    acts := Then(classify, venue, l, acts, s, StatusRecv);
    s := s.(handled := 2, machine := Next(s.machine, ToVenueEvent(classify, error).value), source := Engine);
    acts := Then(classify, venue, l, acts, s, Restart(false));
    s := s.(machine := Idle, source := Reset, pending := 1);
    acts := Then(classify, venue, l, acts, s, BridgeRecv);
    s := s.(bridged := 2, cache := {venue} - {venue});
    acts := Then(classify, venue, l, acts, s, Deliver);
    s := Step(classify, venue, s, Deliver);
  }

  lemma ContendedRestartCosts(classify: Classify, venue: string) returns (acts: seq<Act>, s: Sys)
    ensures Leads(classify, venue, acts, s, ContendedRestart) && Disagrees(venue, s) && s.machine.Idle?
  {
    acts := ComesUpReady(classify, venue, ContendedRestart);
    acts := Then(classify, venue, ContendedRestart, acts, UpReady(venue), Restart(true));
    s := Step(classify, venue, UpReady(venue), Restart(true));
  }

  /** The depth stream clears the banner of an error both consumers have seen. */
  lemma ClearedErrorCosts(classify: Classify) returns (acts: seq<Act>, s: Sys)
    ensures Leads(classify, TACHIBANA, acts, s, ClearedError) && Disagrees(TACHIBANA, s) && s.machine.Ready?
  {
    var l, error := ClearedError, VenueError(TACHIBANA, "", "");
    acts := ComesUpReady(classify, TACHIBANA, l);
    acts := Then(classify, TACHIBANA, l, acts, UpReady(TACHIBANA), Publish(error));
    s := UpReady(TACHIBANA).(log := [VenueReady(TACHIBANA), error]);
    assert [VenueReady(TACHIBANA)] + [error] == s.log;
    acts := Then(classify, TACHIBANA, l, acts, s, StatusRecv);
    s := s.(handled := 2, machine := Next(s.machine, ToVenueEvent(classify, error).value), source := Engine);
    acts := Then(classify, TACHIBANA, l, acts, s, BridgeRecv);
    s := s.(bridged := 2, cache := {TACHIBANA} - {TACHIBANA});
    acts := Then(classify, TACHIBANA, l, acts, s, DepthConnected);
    s := s.(pending := 1);
    acts := Then(classify, TACHIBANA, l, acts, s, Deliver);
    s := Step(classify, TACHIBANA, s, Deliver);
  }

  /** A restart just before the connection is lost: the Ready it synthesised arrives on the next connection. */
  lemma CarriedOverCosts(classify: Classify, venue: string) returns (acts: seq<Act>, s: Sys)
    ensures Leads(classify, venue, acts, s, CarriedOver) && Disagrees(venue, s) && s.machine.Ready?
  {
    var l := CarriedOver;
    acts := ComesUpReady(classify, venue, l);
    acts := Then(classify, venue, l, acts, UpReady(venue), Restart(false));
    s := UpReady(venue).(machine := Idle, source := Reset, pending := 1);
    acts := Then(classify, venue, l, acts, s, Reconnect);
    s := START.(pending := 1);
    acts := Then(classify, venue, l, acts, s, Subscribe);
    s := s.(phase := Subscribed);
    acts := Then(classify, venue, l, acts, s, Rehello);
    s := s.(phase := Greeted);
    acts := Then(classify, venue, l, acts, s, Connected(false));
    s := s.(phase := Live);
    acts := Then(classify, venue, l, acts, s, Deliver);
    s := Step(classify, venue, s, Deliver);
  }

  /** An error overtakes the Ready that a restart synthesised. */
  lemma OvertakenCosts(classify: Classify, venue: string) returns (acts: seq<Act>, s: Sys)
    ensures Leads(classify, venue, acts, s, Overtaken) && Disagrees(venue, s) && s.machine.Ready?
  {
    var l, error := Overtaken, VenueError(venue, "", "");
    acts := ComesUpReady(classify, venue, l);
    acts := Then(classify, venue, l, acts, UpReady(venue), Restart(false));
    s := UpReady(venue).(machine := Idle, source := Reset, pending := 1);
    acts := Then(classify, venue, l, acts, s, Publish(error));
    s := s.(log := [VenueReady(venue), error]);
    assert [VenueReady(venue)] + [error] == s.log;
    acts := Then(classify, venue, l, acts, s, BridgeRecv);
    s := s.(bridged := 2, cache := {venue} - {venue});
    acts := Then(classify, venue, l, acts, s, StatusRecv);
    s := s.(handled := 2, machine := Next(s.machine, ToVenueEvent(classify, error).value), source := Engine);
    acts := Then(classify, venue, l, acts, s, Deliver);
    s := Step(classify, venue, s, Deliver);
  }

  /** No condition can be spared: for each lapse there is a run from the start with no other lapse that ends settled and
      level, with machine and cache apart. */
  lemma EveryLapseCosts(classify: Classify, venue: string, lapse: Lapse) returns (acts: seq<Act>)
    requires lapse.ClearedError? ==> venue == TACHIBANA
    ensures CarefulBut(classify, venue, START, acts, {lapse}) && Disagrees(venue, After(classify, venue, acts))
  {
    var s;
    match lapse {
      case LateConnected => acts, s := LateConnectedCosts(classify, venue);
      case ContendedConnected => acts, s := ContendedConnectedCosts(classify, venue);
      case LateGreetedRestart => acts, s := LateGreetedRestartCosts(classify, venue);
      case LateRestart => acts, s := LateRestartCosts(classify, venue);
      case ContendedRestart => acts, s := ContendedRestartCosts(classify, venue);
      case ClearedError => acts, s := ClearedErrorCosts(classify);
      case CarriedOver => acts, s := CarriedOverCosts(classify, venue);
      case Overtaken => acts, s := OvertakenCosts(classify, venue);
    }
  }
}
