/** The ranked-lock discipline of the mode switch, over any number of threads, and its guard. */
module LockOrder {
  import opened Common

  function RankOf(name: string): Option<nat> {
    match name
    case "MODE_SWITCHING" => Some(0)
    case "APP_MODE" => Some(1)
    case "CURRENT_PATH" => Some(2)
    case _ => None
  }

  /** The flag ranks below the mode's lock and that below the path's; no other name is ranked. */
  lemma RanksAscend(name: string)
    ensures RankOf("MODE_SWITCHING").Some? && RankOf("APP_MODE").Some? && RankOf("CURRENT_PATH").Some?
    ensures RankOf("MODE_SWITCHING").value < RankOf("APP_MODE").value < RankOf("CURRENT_PATH").value
    ensures RankOf(name).Some? ==> name in {"MODE_SWITCHING", "APP_MODE", "CURRENT_PATH"}
  {}

  /** The check made on every acquisition: equal ranks pass, a lower one than the recorded does not. */
  predicate InOrder(index: Option<nat>, rank: nat) {
    index.None? || index.value <= rank
  }

  function Recorded(index: Option<nat>, rank: nat): Option<nat> {
    if index.Some? && index.value > rank then index else Some(rank)
  }

  /** The record is the highest rank of all acquisitions, in whatever order they came. */
  function RecordedAll(index: Option<nat>, ranks: seq<nat>): Option<nat> {
    if ranks == [] then index else Recorded(RecordedAll(index, ranks[..|ranks| - 1]), ranks[|ranks| - 1])
  }

  lemma {:induction false} RecordIsHighest(ranks: seq<nat>)
    ensures RecordedAll(None, ranks).None? <==> ranks == []
    ensures ranks != [] ==> RecordedAll(None, ranks).value in ranks
    ensures forall r :: r in ranks ==> r <= RecordedAll(None, ranks).value
  {
    if ranks == [] {
    } else {
      var n := |ranks| - 1;
      RecordIsHighest(ranks[..n]);
      assert ranks == ranks[..n] + [ranks[n]];
    }
  }

  /** An acquisition passes the check exactly when no rank above its own has been acquired before. */
  lemma InOrderIff(ranks: seq<nat>, rank: nat)
    ensures InOrder(RecordedAll(None, ranks), rank) <==> forall r :: r in ranks ==> r <= rank
  {
    RecordIsHighest(ranks);
  }

  /** One thread's record of the highest rank acquired. */
  class LockOrderTracker {
    var index: Option<nat>

    constructor ()
      ensures index == None
    {
      index := None;
    }

    /** `ok` is the debug assertion: a debug build stops where it is false, a release build goes on. */
    method Acquire(name: string) returns (ok: bool)
      modifies this
      ensures RankOf(name).None? ==> ok && index == old(index)
      ensures RankOf(name).Some? ==> ok == InOrder(old(index), RankOf(name).value)
      ensures RankOf(name).Some? ==> index == Recorded(old(index), RankOf(name).value)
    {
      ok := true;
      var rank := RankOf(name);
      if rank.None? {
        return;
      }
      var next := rank.value;
      var newMax := next;
      if index.Some? {
        ok := index.value <= next;
        if index.value > next {
          newMax := index.value;
        }
      }
      index := Some(newMax);
    }

    method Reset()
      modifies this
      ensures index == None
    {
      index := None;
    }
  }

  // ---- Threads and locks ------------------------------------------------------------

  const FLAG := "MODE_SWITCHING"
  const APP := "APP_MODE"
  const PATH := "CURRENT_PATH"

  /** The two mutexes. The third name is a flag that is taken or refused at once: nobody waits for it. */
  predicate IsMutex(name: string) {
    name == APP || name == PATH
  }

  datatype Thread = Thread(held: set<string>, waiting: Option<string>, index: Option<nat>)

  /** The threads and the one that has the mode-switch guard. */
  datatype Sys = Sys(threads: map<nat, Thread>, owner: Option<nat>)

  datatype Act =
    | Spawn(t: nat)
    | TryGuard(t: nat)
    | DropGuard(t: nat)
    | Request(t: nat, name: string)
    | Grant(t: nat)
    | Release(t: nat, name: string)
    | Reset(t: nat)

  const NOBODY := Sys(map[], None)

  predicate Free(s: Sys, name: string) {
    forall t :: t in s.threads ==> name !in s.threads[t].held
  }

  /** A blocked thread does nothing. */
  predicate Runs(s: Sys, t: nat) {
    t in s.threads && s.threads[t].waiting.None?
  }

  /** A request records the rank and then blocks until granted; taking the guard records its rank, dropping it resets
      the record. */
  function Step(s: Sys, act: Act): Sys {
    match act
    case Spawn(t) => if t in s.threads then s else s.(threads := s.threads[t := Thread({}, None, None)])
    case TryGuard(t) =>
      if !Runs(s, t) || s.owner.Some? then s
      else Sys(s.threads[t := s.threads[t].(index := Recorded(s.threads[t].index, RankOf(FLAG).value))], Some(t))
    case DropGuard(t) =>
      if !Runs(s, t) || s.owner != Some(t) then s
      else Sys(s.threads[t := s.threads[t].(index := None)], None)
    case Request(t, name) =>
      if !Runs(s, t) || !IsMutex(name) then s
      else
        var th := s.threads[t];
        s.(threads := s.threads[t := th.(waiting := Some(name), index := Recorded(th.index, RankOf(name).value))])
    case Grant(t) =>
      if t !in s.threads || s.threads[t].waiting.None? || !Free(s, s.threads[t].waiting.value) then s
      else
        var th := s.threads[t];
        s.(threads := s.threads[t := th.(held := th.held + {th.waiting.value}, waiting := None)])
    case Release(t, name) =>
      if !Runs(s, t) then s else s.(threads := s.threads[t := s.threads[t].(held := s.threads[t].held - {name})])
    case Reset(t) =>
      if !Runs(s, t) then s else s.(threads := s.threads[t := s.threads[t].(index := None)])
  }

  function From(s: Sys, acts: seq<Act>): Sys
    decreases |acts|
  {
    if acts == [] then s else From(Step(s, acts[0]), acts[1..])
  }

  /** The acquisitions pass the check. */
  predicate Checked(s: Sys, act: Act) {
    match act
    case TryGuard(t) => Runs(s, t) && s.owner.None? ==> InOrder(s.threads[t].index, RankOf(FLAG).value)
    case Request(t, name) => Runs(s, t) && IsMutex(name) ==> InOrder(s.threads[t].index, RankOf(name).value)
    case _ => true
  }

  /** The act empties the thread's record. */
  predicate Resets(s: Sys, act: Act, t: nat) {
    Runs(s, t) && (act == Reset(t) || (act == DropGuard(t) && s.owner == Some(t)))
  }

  /** Resets happen without the path's lock. */
  predicate CarefulReset(s: Sys, act: Act) {
    (act.Reset? || act.DropGuard?) && Resets(s, act, act.t) ==> PATH !in s.threads[act.t].held
  }

  predicate CheckedFrom(s: Sys, acts: seq<Act>)
    decreases |acts|
  {
    acts == [] || (Checked(s, acts[0]) && CheckedFrom(Step(s, acts[0]), acts[1..]))
  }

  predicate DisciplinedFrom(s: Sys, acts: seq<Act>)
    decreases |acts|
  {
    acts == [] || (Checked(s, acts[0]) && CarefulReset(s, acts[0]) && DisciplinedFrom(Step(s, acts[0]), acts[1..]))
  }

  predicate WaitsFor(s: Sys, t: nat, u: nat) {
    t in s.threads && u in s.threads && s.threads[t].waiting.Some? && s.threads[t].waiting.value in s.threads[u].held
  }

  /** A closed chain of waiting threads. */
  ghost predicate Cycle(s: Sys, ts: seq<nat>) {
    |ts| >= 1
    && (forall i :: 0 <= i < |ts| - 1 ==> WaitsFor(s, ts[i], ts[i + 1]))
    && WaitsFor(s, ts[|ts| - 1], ts[0])
  }

  /** A thread waits for a lock it holds: the mutexes are not re-entrant. */
  predicate SelfWait(s: Sys) {
    exists t :: t in s.threads && WaitsFor(s, t, t)
  }

  ghost predicate Exclusive(s: Sys) {
    forall t, u, name :: t in s.threads && u in s.threads && t != u && name in s.threads[t].held ==>
        name !in s.threads[u].held
  }

  ghost predicate Ranked(s: Sys) {
    && Exclusive(s)
    && (forall t, name :: t in s.threads && name in s.threads[t].held ==> IsMutex(name))
    && (forall t :: t in s.threads && PATH in s.threads[t].held ==> s.threads[t].index == RankOf(PATH))
    && (forall t :: t in s.threads && s.threads[t].index.Some? ==> s.threads[t].index.value <= 2)
    && (forall t :: t in s.threads && s.threads[t].waiting.Some? ==>
          IsMutex(s.threads[t].waiting.value) && s.threads[t].index == RankOf(s.threads[t].waiting.value))
  }

  lemma StepKeepsRanked(s: Sys, act: Act)
    requires Ranked(s) && Checked(s, act) && CarefulReset(s, act)
    ensures Ranked(Step(s, act))
  {
    match act {
      case Request(t, name) => RequestKeepsRanked(s, t, name);
      case Grant(t) => GrantKeepsRanked(s, t);
      case _ =>
    }
  }

  lemma RequestKeepsRanked(s: Sys, t: nat, name: string)
    requires Ranked(s) && Checked(s, Request(t, name))
    ensures Ranked(Step(s, Request(t, name)))
  {}

  lemma GrantKeepsRanked(s: Sys, t: nat)
    requires Ranked(s)
    ensures Ranked(Step(s, Grant(t)))
  {}

  lemma {:induction false} DisciplineKeepsRanked(s: Sys, acts: seq<Act>)
    requires Ranked(s) && DisciplinedFrom(s, acts)
    ensures Ranked(From(s, acts))
    decreases acts
  {
    if acts == [] {
    } else {
      StepKeepsRanked(s, acts[0]);
      DisciplineKeepsRanked(Step(s, acts[0]), acts[1..]);
    }
  }

  /** In a disciplined run a record is none or a rank: the flag passes the check only with no mutex recorded, the mode's
      lock unless the path's is recorded, and the path's lock always. */
  lemma ChecksOf(s: Sys, t: nat)
    requires Ranked(s) && Runs(s, t)
    ensures var index := s.threads[t].index;
            && (index.None? || index == RankOf(FLAG) || index == RankOf(APP) || index == RankOf(PATH))
            && (s.owner.None? ==> (Checked(s, TryGuard(t)) <==> index != RankOf(APP) && index != RankOf(PATH)))
            && (Checked(s, Request(t, APP)) <==> index != RankOf(PATH))
            && Checked(s, Request(t, PATH))
  {}

  /** The guard stays with its owner until the owner drops it, whoever else tries. */
  lemma {:induction false} OwnerKeepsGuard(s: Sys, acts: seq<Act>, t: nat)
    requires s.owner == Some(t) && DropGuard(t) !in acts
    ensures From(s, acts).owner == Some(t)
    decreases |acts|
  {
    if acts != [] {
      assert acts == [acts[0]] + acts[1..];
      OwnerKeepsGuard(Step(s, acts[0]), acts[1..], t);
    }
  }

  /** Dropped by its owner the guard is free, and the next running thread that tries has it. */
  lemma DroppedGuardIsTaken(s: Sys, t: nat, u: nat)
    requires s.owner == Some(t) && Runs(s, t) && Runs(s, u)
    ensures Step(s, DropGuard(t)).owner == None && From(s, [DropGuard(t), TryGuard(u)]).owner == Some(u)
  {
    assert [DropGuard(t), TryGuard(u)][1..] == [TryGuard(u)];
    assert From(Step(s, DropGuard(t)), [TryGuard(u)]).owner == Some(u);
  }

  function WaitRank(s: Sys, t: nat): int {
    if t in s.threads && s.threads[t].waiting.Some? && RankOf(s.threads[t].waiting.value).Some?
    then RankOf(s.threads[t].waiting.value).value else -1
  }

  /** Along a wait for a thread that waits itself, but not for its own lock, the rank waited for goes strictly up. */
  lemma RankRises(s: Sys, t: nat, u: nat)
    requires Ranked(s) && WaitsFor(s, t, u) && s.threads[u].waiting.Some? && !WaitsFor(s, u, u)
    ensures WaitRank(s, t) < WaitRank(s, u)
  {}

  lemma {:induction false} RankRisesAlong(s: Sys, ts: seq<nat>, i: nat)
    requires Ranked(s) && !SelfWait(s) && Cycle(s, ts) && i < |ts|
    ensures WaitRank(s, ts[0]) + i <= WaitRank(s, ts[i])
  {
    if i == 0 {
    } else {
      RankRisesAlong(s, ts, i - 1);
      assert WaitsFor(s, ts[i - 1], ts[i]);
      assert i < |ts| - 1 ==> WaitsFor(s, ts[i], ts[i + 1]);
      RankRises(s, ts[i - 1], ts[i]);
    }
  }

  /** In every run of any number of disciplined threads a cyclic wait is nothing but a thread waiting for its own lock,
      which the check lets through. */
  lemma CyclicWaitIff(acts: seq<Act>)
    requires DisciplinedFrom(NOBODY, acts)
    ensures (exists ts :: Cycle(From(NOBODY, acts), ts)) <==> SelfWait(From(NOBODY, acts))
  {
    var s := From(NOBODY, acts);
    DisciplineKeepsRanked(NOBODY, acts);
    if t :| t in s.threads && WaitsFor(s, t, t) {
      assert Cycle(s, [t]);
    } else if ts :| Cycle(s, ts) {
      NoLongerCycle(s, ts);
    }
  }

  lemma NoLongerCycle(s: Sys, ts: seq<nat>)
    requires Ranked(s) && !SelfWait(s)
    ensures !Cycle(s, ts)
  {
    if Cycle(s, ts) {
      var n := |ts|;
      RankRisesAlong(s, ts, n - 1);
      assert n > 1 ==> WaitsFor(s, ts[0], ts[1]);
      RankRises(s, ts[n - 1], ts[0]);
      assert false;
    }
  }

  /** The equal rank that the check lets through. */
  lemma OwnLockIsWaitedFor(name: string)
    requires IsMutex(name)
    ensures var acts := [Spawn(0), Request(0, name), Grant(0), Request(0, name)];
            DisciplinedFrom(NOBODY, acts) && SelfWait(From(NOBODY, acts))
  {
    var acts := [Spawn(0), Request(0, name), Grant(0), Request(0, name)];
    var s1 := Step(NOBODY, Spawn(0));
    var s2 := Step(s1, Request(0, name));
    var s3 := Step(s2, Grant(0));
    var s4 := Step(s3, Request(0, name));
    assert s2.threads[0] == Thread({}, Some(name), RankOf(name));
    assert s3.threads[0] == Thread({name}, None, RankOf(name));
    assert WaitsFor(s4, 0, 0);
    assert acts[1..][1..][1..][1..] == [];
    assert acts[1..][1..][1..] == [Request(0, name)] && acts[1..][1..] == [Grant(0), Request(0, name)];
    assert From(s3, [Request(0, name)]) == s4 && DisciplinedFrom(s3, [Request(0, name)]);
    assert From(s2, acts[1..][1..]) == s4 && DisciplinedFrom(s2, acts[1..][1..]);
    assert From(s1, acts[1..]) == s4 && DisciplinedFrom(s1, acts[1..]);
  }

  /** Whoever asks for a lock holds none. */
  predicate LeafFrom(s: Sys, acts: seq<Act>)
    decreases |acts|
  {
    acts == [] || ((acts[0].Request? && Runs(s, acts[0].t) ==> s.threads[acts[0].t].held == {})
                   && LeafFrom(Step(s, acts[0]), acts[1..]))
  }

  predicate WaitersHoldNothing(s: Sys) {
    forall t :: t in s.threads && s.threads[t].waiting.Some? ==> s.threads[t].held == {}
  }

  lemma {:induction false} LeafWaiters(s: Sys, acts: seq<Act>)
    requires WaitersHoldNothing(s) && LeafFrom(s, acts)
    ensures WaitersHoldNothing(From(s, acts))
    decreases |acts|
  {
    if acts == [] {
    } else {
      LeafWaiters(Step(s, acts[0]), acts[1..]);
    }
  }

  /** Locks taken one at a time never end in a cyclic wait, recorded or not, checked or not. */
  lemma LeafLocksNeverDeadlock(acts: seq<Act>, ts: seq<nat>)
    requires LeafFrom(NOBODY, acts)
    ensures !Cycle(From(NOBODY, acts), ts)
  {
    LeafWaiters(NOBODY, acts);
    var s := From(NOBODY, acts);
    assert Cycle(s, ts) && |ts| > 1 ==> WaitsFor(s, ts[0], ts[1]);
  }

  // ---- Resets that do harm ----------------------------------------------------------

  predicate NoResets(acts: seq<Act>) {
    forall k :: 0 <= k < |acts| ==> !acts[k].Reset? && !acts[k].DropGuard?
  }

  /** The run passes every check, resets nothing, and ends in a cyclic wait of several threads. */
  ghost predicate Deadlocks(s: Sys, acts: seq<Act>) {
    CheckedFrom(s, acts) && NoResets(acts) && !SelfWait(From(s, acts)) && exists ts :: Cycle(From(s, acts), ts)
  }

  /** Thread `t` runs, holds the path's lock and has no record of it. */
  ghost predicate Exposed(s: Sys, t: nat) {
    && Runs(s, t) && PATH in s.threads[t].held && s.threads[t].index.None?
    && Exclusive(s) && !SelfWait(s)
    && (forall u :: u in s.threads && s.threads[u].index.Some? ==> s.threads[u].index.value <= 2)
    && (forall u :: u in s.threads && s.threads[u].waiting.Some? ==> IsMutex(s.threads[u].waiting.value))
  }

  lemma Prepend(s: Sys, act: Act, acts: seq<Act>)
    requires Checked(s, act) && !act.Reset? && !act.DropGuard? && Deadlocks(Step(s, act), acts)
    ensures Deadlocks(s, [act] + acts)
  {
    assert ([act] + acts)[1..] == acts;
  }

  lemma StillNoSelfWait(s: Sys, t: nat, name: string)
    requires !SelfWait(s) && Runs(s, t) && IsMutex(name) && name !in s.threads[t].held
    ensures !SelfWait(Step(s, Request(t, name)))
  {
    var next := Step(s, Request(t, name));
    forall u | u in next.threads
      ensures !WaitsFor(next, u, u)
    {
      assert u in s.threads && !WaitsFor(s, u, u);
    }
  }

  /** Somebody holding the other lock already waits for the path's. */
  lemma LastRequest(s: Sys, t: nat, v: nat) returns (acts: seq<Act>)
    requires Exposed(s, t) && v in s.threads && APP in s.threads[v].held && s.threads[v].waiting == Some(PATH)
    requires APP !in s.threads[t].held
    ensures Deadlocks(s, acts)
  {
    acts := [Request(t, APP)];
    var next := Step(s, Request(t, APP));
    StillNoSelfWait(s, t, APP);
    assert WaitsFor(next, t, v) && WaitsFor(next, v, t);
    assert Cycle(next, [t, v]);
    assert acts[1..] == [];
    assert From(s, acts) == next;
  }

  /** Somebody holding the other lock runs on and asks for the path's. */
  lemma HolderRequests(s: Sys, t: nat, v: nat) returns (acts: seq<Act>)
    requires Exposed(s, t) && Runs(s, v) && v != t && APP in s.threads[v].held
    ensures Deadlocks(s, acts)
  {
    var act := Request(v, PATH);
    StillNoSelfWait(s, v, PATH);
    assert Exposed(Step(s, act), t);
    acts := LastRequest(Step(s, act), t, v);
    Prepend(s, act, acts);
    acts := [act] + acts;
  }

  lemma {:induction false} FreshThread(used: set<nat>) returns (u: nat)
    ensures u !in used && forall t :: t in used ==> t < u
  {
    if used == {} {
      u := 0;
    } else {
      var t :| t in used;
      u := FreshThread(used - {t});
      assert forall x :: x in used ==> x == t || x in used - {t};
      if u <= t {
        u := t + 1;
      }
    }
  }

  /** Nobody holds the other lock: a new thread takes it. */
  lemma NewcomerTakesIt(s: Sys, t: nat, u: nat) returns (acts: seq<Act>)
    requires Exposed(s, t) && Free(s, APP) && u !in s.threads
    ensures Deadlocks(s, acts)
  {
    var s1 := Step(s, Spawn(u));
    assert Exposed(s1, t) by {
      forall v | v in s1.threads
        ensures !WaitsFor(s1, v, v)
      {
        assert v in s.threads ==> !WaitsFor(s, v, v);
      }
    }
    assert Free(s1, APP);
    StillNoSelfWait(s1, u, APP);
    var s2 := Step(s1, Request(u, APP));
    assert Exposed(s2, t) && Free(s2, APP);
    var s3 := Step(s2, Grant(u));
    assert Exposed(s3, t) by {
      forall v | v in s3.threads
        ensures !WaitsFor(s3, v, v)
      {
        assert v in s2.threads && !WaitsFor(s2, v, v);
      }
    }
    acts := HolderRequests(s3, t, u);
    Prepend(s2, Grant(u), acts);
    Prepend(s1, Request(u, APP), [Grant(u)] + acts);
    Prepend(s, Spawn(u), [Request(u, APP)] + ([Grant(u)] + acts));
    acts := [Spawn(u)] + ([Request(u, APP)] + ([Grant(u)] + acts));
  }

  lemma OwnerReleasesIt(s: Sys, t: nat, u: nat) returns (acts: seq<Act>)
    requires Exposed(s, t) && APP in s.threads[t].held && u !in s.threads
    ensures Deadlocks(s, acts)
  {
    var act := Release(t, APP);
    var next := Step(s, act);
    assert Exposed(next, t) by {
      forall v | v in next.threads
        ensures !WaitsFor(next, v, v)
      {
        assert v in s.threads && !WaitsFor(s, v, v);
      }
    }
    acts := NewcomerTakesIt(next, t, u);
    Prepend(s, act, acts);
    acts := [act] + acts;
  }

  /** Whatever the others do, a thread that holds the path's lock without a record of it can be run into a deadlock. */
  lemma ExposedDeadlocks(s: Sys, t: nat) returns (acts: seq<Act>)
    requires Exposed(s, t)
    ensures Deadlocks(s, acts)
  {
    var u := FreshThread(s.threads.Keys);
    if APP in s.threads[t].held {
      acts := OwnerReleasesIt(s, t, u);
    } else if v :| v in s.threads && APP in s.threads[v].held {
      if s.threads[v].waiting.None? {
        acts := HolderRequests(s, t, v);
      } else {
        assert !WaitsFor(s, v, v);
        acts := LastRequest(s, t, v);
      }
    } else {
      acts := NewcomerTakesIt(s, t, u);
    }
  }

  lemma {:induction false} CheckedIsDisciplined(s: Sys, acts: seq<Act>)
    requires CheckedFrom(s, acts) && NoResets(acts)
    ensures DisciplinedFrom(s, acts)
    decreases |acts|
  {
    if acts == [] {
    } else {
      CheckedIsDisciplined(Step(s, acts[0]), acts[1..]);
    }
  }

  lemma ResetExposes(s: Sys, act: Act, t: nat)
    requires Ranked(s) && !SelfWait(s) && Resets(s, act, t) && PATH in s.threads[t].held
    ensures Exposed(Step(s, act), t)
  {
    var next := Step(s, act);
    forall v | v in next.threads
      ensures !WaitsFor(next, v, v)
    {
      assert v in s.threads && !WaitsFor(s, v, v);
    }
  }

  /** A reset, by hand or by dropping the guard, can end in a deadlock of several threads with every check passed
      exactly when the thread holds the path's lock: then there is such an extension in every case, and with any other
      locks there is none. */
  lemma ResetIsHarmfulIff(acts: seq<Act>, act: Act, t: nat)
    requires DisciplinedFrom(NOBODY, acts) && !SelfWait(From(NOBODY, acts))
    requires Resets(From(NOBODY, acts), act, t)
    ensures var s := From(NOBODY, acts);
            (exists more :: Deadlocks(Step(s, act), more)) <==> PATH in s.threads[t].held
  {
    var s := From(NOBODY, acts);
    var next := Step(s, act);
    DisciplineKeepsRanked(NOBODY, acts);
    if PATH in s.threads[t].held {
      ResetExposes(s, act, t);
      var more := ExposedDeadlocks(next, t);
    } else if more :| Deadlocks(next, more) {
      StepKeepsRanked(s, act);
      CheckedIsDisciplined(next, more);
      DisciplineKeepsRanked(next, more);
      var ts :| Cycle(From(next, more), ts);
      NoLongerCycle(From(next, more), ts);
    }
  }

  /** The guard's owner takes the path's lock and drops the guard. */
  lemma DroppingTheGuardDeadlocks() returns (more: seq<Act>)
    ensures var acts := [Spawn(0), TryGuard(0), Request(0, PATH), Grant(0)];
            var s := From(NOBODY, acts);
            && DisciplinedFrom(NOBODY, acts) && s.owner == Some(0)
            && Resets(s, DropGuard(0), 0) && Deadlocks(Step(s, DropGuard(0)), more)
  {
    var acts := [Spawn(0), TryGuard(0), Request(0, PATH), Grant(0)];
    var s1 := Step(NOBODY, Spawn(0));
    var s2 := Step(s1, TryGuard(0));
    var s3 := Step(s2, Request(0, PATH));
    var s4 := Step(s3, Grant(0));
    assert s2 == Sys(map[0 := Thread({}, None, Some(0))], Some(0));
    assert s3 == Sys(map[0 := Thread({}, Some(PATH), Some(2))], Some(0));
    assert {} + {PATH} == {PATH};
    assert s4 == Sys(map[0 := Thread({PATH}, None, Some(2))], Some(0));
    assert acts[1..][1..][1..][1..] == [];
    assert acts[1..][1..][1..] == [Grant(0)] && acts[1..][1..] == [Request(0, PATH), Grant(0)];
    assert From(s3, [Grant(0)]) == s4 && DisciplinedFrom(s3, [Grant(0)]);
    assert From(s2, acts[1..][1..]) == s4 && DisciplinedFrom(s2, acts[1..][1..]);
    assert From(s1, acts[1..]) == s4 && DisciplinedFrom(s1, acts[1..]);
    ResetIsHarmfulIff(acts, DropGuard(0), 0);
    more :| Deadlocks(Step(s4, DropGuard(0)), more);
  }

  // ---- The guard --------------------------------------------------------------------

  /** The flag, the guards alive, and how many were handed out. */
  datatype Guards = Guards(switching: bool, alive: set<nat>, issued: nat)

  datatype GuardAct = TryAcquire | Drop(guard: nat)

  function GuardStep(g: Guards, act: GuardAct): Guards {
    match act
    case TryAcquire => if g.switching then g else Guards(true, g.alive + {g.issued}, g.issued + 1)
    case Drop(guard) => if guard in g.alive then Guards(false, g.alive - {guard}, g.issued) else g
  }

  class ModeSwitch {
    var switching: bool
    ghost var alive: set<nat>
    ghost var issued: nat

    ghost function View(): Guards
      reads this
    {
      Guards(switching, alive, issued)
    }

    constructor ()
      ensures View() == Guards(false, {}, 0)
    {
      switching, alive, issued := false, {}, 0;
    }

    /** Compare-and-exchange of the flag. */
    method Acquire() returns (acquired: bool)
      modifies this
      ensures acquired <==> !old(switching)
      ensures acquired ==> switching && alive == old(alive) + {old(issued)}
      ensures View() == GuardStep(old(View()), TryAcquire)
    {
      if switching {
        return false;
      }
      switching := true;
      alive, issued := alive + {issued}, issued + 1;
      acquired := true;
    }

    /** Dropping a guard clears the flag and resets the dropping thread's tracker, whatever it still holds. */
    method DropGuard(ghost guard: nat, tracker: LockOrderTracker)
      requires guard in alive
      modifies this, tracker
      ensures View() == GuardStep(old(View()), Drop(guard))
      ensures !switching && guard !in alive && tracker.index == None
    {
      switching := false;
      alive := alive - {guard};
      tracker.Reset();
    }
  }

  function GuardsAfter(acts: seq<GuardAct>): Guards {
    if acts == [] then Guards(false, {}, 0) else GuardStep(GuardsAfter(acts[..|acts| - 1]), acts[|acts| - 1])
  }

  /** At most one guard is alive, and the flag says whether one is. */
  lemma {:induction false} OneGuardAlive(acts: seq<GuardAct>)
    ensures var g := GuardsAfter(acts);
            && |g.alive| == (if g.switching then 1 else 0)
            && (forall id :: id in g.alive ==> id < g.issued)
  {
    if acts == [] {
    } else {
      OneGuardAlive(acts[..|acts| - 1]);
    }
  }

  /** Whatever came before, an attempt leaves a guard alive, and dropping the one that is leaves none. */
  lemma AttemptThenDrop(acts: seq<GuardAct>, guard: nat)
    ensures GuardsAfter(acts + [TryAcquire]).switching
    ensures guard in GuardsAfter(acts).alive ==> !GuardsAfter(acts + [Drop(guard)]).switching
    ensures guard !in GuardsAfter(acts).alive ==> GuardsAfter(acts + [Drop(guard)]) == GuardsAfter(acts)
  {
    assert (acts + [TryAcquire])[..|acts|] == acts && (acts + [Drop(guard)])[..|acts|] == acts;
  }
}
