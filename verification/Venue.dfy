/** The venue lifecycle machine, its login claims, and the venue events of the engine's stream. */
module Venue {
  import opened Common

  const TACHIBANA := "tachibana"
  const KABU_STATION := "kabu_station"

  datatype VenueState =
    | Idle
    | LoginInFlight
    | Ready
    | Error(cls: nat, message: string, marketClosed: bool)

  datatype VenueEvent =
    | LoginStarted
    | LoginCancelled
    | LoginError(cls: nat, message: string, marketClosed: bool)
    | Ready
    | EngineRehello
    | Dismissed

  function Next(s: VenueState, ev: VenueEvent): VenueState {
    match ev
    case EngineRehello => Idle
    case LoginStarted => LoginInFlight
    case Ready => VenueState.Ready
    case LoginCancelled => Idle
    case LoginError(cls, message, marketClosed) => Error(cls, message, marketClosed)
    case Dismissed => if s.Error? then Idle else s
  }

  /** What the update loop may do to one venue's machine. */
  datatype Input =
    | Event(ev: VenueEvent)
    | Claim
    | Logout
    | IpcFailed

  function Feed(s: VenueState, input: Input): VenueState {
    match input
    case Event(ev) => Next(s, ev)
    case Claim => LoginInFlight
    case Logout => Idle
    case IpcFailed => if s.LoginInFlight? then Idle else s
  }

  class VenueMachine {
    var state: VenueState

    constructor ()
      ensures state == Idle
    {
      state := Idle;
    }

    method TryClaimLoginInFlight() returns (claimed: bool)
      modifies this
      ensures claimed <==> !old(state).LoginInFlight?
      ensures state == Feed(old(state), Claim)
    {
      if state.LoginInFlight? {
        return false;
      }
      state := LoginInFlight;
      claimed := true;
    }

    method Handle(input: Input)
      modifies this
      ensures state == Feed(old(state), input)
    {
      match input {
        case Event(ev) => state := Next(state, ev);
        case Claim => var _ := TryClaimLoginInFlight();
        case Logout => state := Idle;
        case IpcFailed =>
          if state.LoginInFlight? {
            state := Idle;
          }
      }
    }
  }

  // ---- Login claims over runs -------------------------------------------------------

  function FeedAll(s: VenueState, inputs: seq<Input>): VenueState {
    if inputs == [] then s else Feed(FeedAll(s, inputs[..|inputs| - 1]), inputs[|inputs| - 1])
  }

  // ---- What fixes the state ---------------------------------------------------------

  /** The input says what the state is, whatever it was. */
  predicate Speaks(input: Input) {
    input.Claim? || input.Logout? || (input.Event? && !input.ev.Dismissed?)
  }

  /** A failed send, or a dismissal, comes after input `i`. */
  predicate FailsAfter(inputs: seq<Input>, i: int)
    requires i >= -1
  {
    exists j :: i < j < |inputs| && inputs[j].IpcFailed?
  }

  predicate DismissedAfter(inputs: seq<Input>, i: int)
    requires i >= -1
  {
    exists j :: i < j < |inputs| && inputs[j] == Event(Dismissed)
  }

  /** `i` is the last input that speaks. */
  predicate SpeaksLast(inputs: seq<Input>, i: int) {
    0 <= i < |inputs| && Speaks(inputs[i]) && forall j :: i < j < |inputs| ==> !Speaks(inputs[j])
  }

  /** After any run the last input that speaks fixes the state: a start or claim leaves a login in flight unless a send
      has failed since, an error shows its fields unless dismissed since, a ready is ready, and a cancel, rehello or
      logout is idle. */
  lemma {:induction false} LastInputFixesState(s: VenueState, inputs: seq<Input>, i: nat)
    requires SpeaksLast(inputs, i)
    ensures FeedAll(s, inputs) ==
            match inputs[i]
            case Claim => if FailsAfter(inputs, i) then Idle else LoginInFlight
            case Event(LoginStarted) => if FailsAfter(inputs, i) then Idle else LoginInFlight
            case Event(LoginError(cls, message, marketClosed)) =>
              if DismissedAfter(inputs, i) then Idle else Error(cls, message, marketClosed)
            case Event(Ready) => VenueState.Ready
            case _ => Idle
  {
    var n := |inputs| - 1;
    var before := inputs[..n];
    if i == n {
    } else {
      assert SpeaksLast(before, i);
      LastInputFixesState(s, before, i);
      if j :| i < j < n && inputs[j].IpcFailed? {
        assert before[j].IpcFailed?;
      }
      if j :| i < j < n && inputs[j] == Event(Dismissed) {
        assert before[j] == Event(Dismissed);
      }
      assert FailsAfter(inputs, i) <==> FailsAfter(before, i) || inputs[n].IpcFailed?;
      assert DismissedAfter(inputs, i) <==> DismissedAfter(before, i) || inputs[n] == Event(Dismissed);
    }
  }

  /** Before anything speaks, only a failed send and a dismissal change the state they are for. */
  lemma {:induction false} NothingSaid(s: VenueState, inputs: seq<Input>)
    requires forall j :: 0 <= j < |inputs| ==> !Speaks(inputs[j])
    ensures FeedAll(s, inputs) ==
            if s.LoginInFlight? && FailsAfter(inputs, -1) then Idle
            else if s.Error? && DismissedAfter(inputs, -1) then Idle
            else s
  {
    if inputs == [] {
    } else {
      var n := |inputs| - 1;
      var before := inputs[..n];
      NothingSaid(s, before);
      assert !Speaks(inputs[n]);
      if j :| -1 < j < n && inputs[j].IpcFailed? {
        assert before[j].IpcFailed?;
      }
      if j :| -1 < j < n && inputs[j] == Event(Dismissed) {
        assert before[j] == Event(Dismissed);
      }
      assert FailsAfter(inputs, -1) <==> FailsAfter(before, -1) || inputs[n].IpcFailed?;
      assert DismissedAfter(inputs, -1) <==> DismissedAfter(before, -1) || inputs[n] == Event(Dismissed);
    }
  }

  /** A login that was cancelled, failed, went through, was cut off by a rehello, logged out or never sent can be
      claimed again. */
  lemma EndedLoginCanBeClaimed(s: VenueState, inputs: seq<Input>, i: nat)
    requires SpeaksLast(inputs, i)
    requires FailsAfter(inputs, i) || !(inputs[i].Claim? || inputs[i] == Event(LoginStarted))
    ensures !FeedAll(s, inputs).LoginInFlight?
    ensures Claimed(s, inputs + [Claim]) == Claimed(s, inputs) + 1
  {
    LastInputFixesState(s, inputs, i);
    assert (inputs + [Claim])[..|inputs|] == inputs;
  }

  /** Claims that returned true. */
  function Claimed(s: VenueState, inputs: seq<Input>): nat {
    if inputs == [] then 0
    else
      var before, last := inputs[..|inputs| - 1], inputs[|inputs| - 1];
      Claimed(s, before) + if last.Claim? && !FeedAll(s, before).LoginInFlight? then 1 else 0
  }

  /** Logins the engine started on its own. */
  function Started(s: VenueState, inputs: seq<Input>): nat {
    if inputs == [] then 0
    else
      var before, last := inputs[..|inputs| - 1], inputs[|inputs| - 1];
      Started(s, before) + if last == Event(LoginStarted) && !FeedAll(s, before).LoginInFlight? then 1 else 0
  }

  /** Inputs that took the machine out of LoginInFlight. */
  function LeftFlight(s: VenueState, inputs: seq<Input>): nat {
    if inputs == [] then 0
    else
      var before := inputs[..|inputs| - 1];
      LeftFlight(s, before) + if FeedAll(s, before).LoginInFlight? && !FeedAll(s, inputs).LoginInFlight? then 1 else 0
  }

  function Flight(s: VenueState): nat {
    if s.LoginInFlight? then 1 else 0
  }

  /** The in-flight slot is conserved: whoever takes it, by a claim or by the engine, must have had it given back. */
  lemma {:induction false} FlightSlotIsConserved(s: VenueState, inputs: seq<Input>)
    ensures Flight(s) + Claimed(s, inputs) + Started(s, inputs) == LeftFlight(s, inputs) + Flight(FeedAll(s, inputs))
    ensures Claimed(s, inputs) <= LeftFlight(s, inputs) + 1
  {
    if inputs == [] {
    } else {
      FlightSlotIsConserved(s, inputs[..|inputs| - 1]);
    }
  }

  // ---- Events of the engine ---------------------------------------------------------

  datatype EngineEvent =
    | VenueReady(venue: string)
    | VenueLoginStarted(venue: string)
    | VenueLoginCancelled(venue: string)
    | VenueError(venue: string, code: string, message: string)
    | Unrelated

  type Classify = string -> nat

  /** The venue arms of the event dispatch: the message for one of the two venues with a machine. */
  function ToVenueEvent(classify: Classify, ev: EngineEvent): Option<VenueEvent> {
    match ev
    case VenueReady(_) => Some(VenueEvent.Ready)
    case VenueLoginStarted(_) => Some(LoginStarted)
    case VenueLoginCancelled(_) => Some(LoginCancelled)
    case VenueError(_, code, message) => Some(LoginError(classify(code), message, code == "market_closed"))
    case Unrelated => None
  }

  predicate About(ev: EngineEvent, venue: string) {
    !ev.Unrelated? && ev.venue == venue
  }

  /** An engine event handled in any state leaves the venue ready, logging in, idle, or in an error that carries its
      class, its message word for word, and whether it says that the market is closed. */
  lemma EngineEventShows(classify: Classify, s: VenueState, ev: EngineEvent)
    requires !ev.Unrelated?
    ensures FeedAll(s, [Event(ToVenueEvent(classify, ev).value)]) ==
            match ev
            case VenueReady(_) => VenueState.Ready
            case VenueLoginStarted(_) => LoginInFlight
            case VenueLoginCancelled(_) => Idle
            case VenueError(_, code, message) => Error(classify(code), message, code == "market_closed")
  {
    var inputs := [Event(ToVenueEvent(classify, ev).value)];
    assert inputs[..0] == [];
  }
}
