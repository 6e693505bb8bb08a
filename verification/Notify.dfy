/** Toast dedupe with exponential backoff and a pruned cache. Time is a parameter in nanoseconds. */
module Notify {
  import opened Common

  const SEC := 1_000_000_000
  const TTL_SECS := 300
  const MAX_U32 := 0xFFFF_FFFF

  datatype Status = Primary | Secondary | Success | Danger | Warning

  datatype Toast = Toast(title: string, body: string, status: Status)

  datatype DedupeState = DedupeState(emittedAt: int, seenAt: int, suppressed: nat, level: nat)

  type Cache = map<Toast, DedupeState>

  /** A toast put on screen and the number of retries its text reports. */
  datatype Shown = Shown(toast: Toast, retries: nat)

  function Elapsed(since: int, now: int): nat {
    if since <= now then now - since else 0
  }

  function Pow2(n: nat): nat {
    if n == 0 then 1 else 2 * Pow2(n - 1)
  }

  function Min(a: int, b: int): int {
    if a < b then a else b
  }

  function Window(status: Status, level: nat): int {
    if status.Danger? then Min(30 * Pow2(Min(level, 5)), 300) * SEC else 10 * SEC
  }

  function Decimal(n: nat): string {
    if n < 10 then [n as char + '0'] else Decimal(n / 10) + [(n % 10) as char + '0']
  }

  function Aggregate(base: Toast, n: nat): Toast {
    var retries := if n == 1 then "1 retry" else Decimal(n) + " retries";
    base.(body := base.body + " (still failing, " + retries + ")")
  }

  /** The number a digit string stands for. */
  function Value(digits: string): int {
    if digits == "" then 0 else Value(digits[..|digits| - 1]) * 10 + (digits[|digits| - 1] as int - '0' as int)
  }

  /** The count in a text reads back as the count: digits only, no leading zero. */
  lemma {:induction false} DecimalReadsBack(n: nat)
    ensures Value(Decimal(n)) == n && Decimal(n) != ""
    ensures forall i :: 0 <= i < |Decimal(n)| ==> '0' <= Decimal(n)[i] <= '9'
    ensures n > 0 ==> Decimal(n)[0] != '0'
  {
    var digits := Decimal(n);
    if n < 10 {
      assert digits[..0] == "";
    } else {
      DecimalReadsBack(n / 10);
      assert digits[..|digits| - 1] == Decimal(n / 10);
    }
  }

  /** An aggregated toast keeps title and status, and its text is the base text and the number of retries. */
  lemma AggregateText(base: Toast, n: nat)
    ensures var shown := Aggregate(base, n);
            && shown.title == base.title && shown.status == base.status
            && (n == 1 ==> shown.body == base.body + " (still failing, 1 retry)")
            && (n != 1 ==> shown.body == base.body + " (still failing, " + Decimal(n) + " retries)")
  {
    var tail := " (still failing, ";
    if n == 1 {
      assert base.body + tail + "1 retry" + ")" == base.body + " (still failing, 1 retry)";
    } else {
      assert base.body + tail + (Decimal(n) + " retries") + ")" == base.body + tail + Decimal(n) + " retries)";
    }
  }

  function Prune(cache: Cache, now: int): Cache {
    map k | k in cache && Elapsed(cache[k].seenAt, now) / SEC <= TTL_SECS :: cache[k]
  }

  /** One push on a cache that has been pruned. */
  function PushOn(cache: Cache, key: Toast, now: int): (Cache, Option<Shown>) {
    if key !in cache then (cache[key := DedupeState(now, now, 0, 0)], Some(Shown(key, 0)))
    else
      var st := cache[key];
      if Elapsed(st.emittedAt, now) < Window(key.status, st.level) then
        (cache[key := st.(seenAt := now, suppressed := Min(st.suppressed + 1, MAX_U32))], None)
      else if key.status.Danger? && st.suppressed > 0 then
        (cache[key := DedupeState(now, now, 0, Min(st.level + 1, 5))],
            Some(Shown(Aggregate(key, st.suppressed), st.suppressed)))
      else
        (cache[key := DedupeState(now, now, 0, 0)], Some(Shown(key, 0)))
  }

  class Notifications {
    var toasts: seq<Toast>
    var cache: Cache

    constructor ()
      ensures toasts == [] && cache == map[]
    {
      toasts, cache := [], map[];
    }

    method Push(toast: Toast, now: int)
      modifies this
      ensures var step := PushOn(Prune(old(cache), now), toast, now);
              cache == step.0 && toasts == old(toasts) + if step.1.Some? then [step.1.value.toast] else []
    {
      PruneCache(now);
      if toast in cache {
        var st := cache[toast].(seenAt := now);
        var window := Window(toast.status, st.level);
        if Elapsed(st.emittedAt, now) < window {
          cache := cache[toast := st.(suppressed := Min(st.suppressed + 1, MAX_U32))];
          return;
        }
        var retried := toast.status.Danger? && st.suppressed > 0;
        var shown := toast;
        if retried {
          shown := Aggregate(toast, st.suppressed);
        }
        var level := 0;
        if retried {
          level := Min(st.level + 1, 5);
        }
        cache := cache[toast := DedupeState(now, now, 0, level)];
        toasts := toasts + [shown];
        return;
      }
      cache := cache[toast := DedupeState(now, now, 0, 0)];
      toasts := toasts + [toast];
    }

    method Remove(index: nat)
      modifies this
      ensures cache == old(cache)
      ensures toasts == if index < |old(toasts)| then old(toasts)[..index] + old(toasts)[index + 1..] else old(toasts)
    {
      if index < |toasts| {
        toasts := toasts[..index] + toasts[index + 1..];
      }
    }

    method PruneCache(now: int)
      modifies this
      ensures cache == Prune(old(cache), now) && toasts == old(toasts)
    {
      cache := map k | k in cache && Elapsed(cache[k].seenAt, now) / SEC <= TTL_SECS :: cache[k];
    }
  }

  // ---- Runs -------------------------------------------------------------------------

  datatype Push = Push(toast: Toast, at: int)

  /** Time never goes back. */
  predicate Timed(run: seq<Push>) {
    forall i, j :: 0 <= i <= j < |run| ==> run[i].at <= run[j].at
  }

  function CacheAfter(run: seq<Push>): Cache {
    if run == [] then map[]
    else
      var last := run[|run| - 1];
      PushOn(Prune(CacheAfter(run[..|run| - 1]), last.at), last.toast, last.at).0
  }

  function ShownAt(run: seq<Push>, k: nat): Option<Shown>
    requires k < |run|
  {
    PushOn(Prune(CacheAfter(run[..k]), run[k].at), run[k].toast, run[k].at).1
  }

  predicate Shows(run: seq<Push>, k: int, key: Toast) {
    0 <= k < |run| && run[k].toast == key && ShownAt(run, k).Some?
  }

  lemma OnePush(run: seq<Push>, k: nat)
    requires k < |run|
    ensures CacheAfter(run[..k + 1]) == PushOn(Prune(CacheAfter(run[..k]), run[k].at), run[k].toast, run[k].at).0
    ensures forall i :: 0 <= i < k ==> run[..k][..i] == run[..i]
  {
    assert run[..k + 1][..k] == run[..k];
  }

  lemma WindowBounds(status: Status, level: nat)
    ensures MinWindow(status) <= Window(status, level) <= 300 * SEC
    ensures status.Danger? && level >= 4 ==> Window(status, level) == 300 * SEC
  {
    assert Pow2(0) == 1 && Pow2(1) == 2 && Pow2(2) == 4 && Pow2(3) == 8 && Pow2(4) == 16 && Pow2(5) == 32;
    var l := Min(level, 5);
    assert l in {0, 1, 2, 3, 4, 5};
  }

  function MinWindow(status: Status): int {
    if status.Danger? then 30 * SEC else 10 * SEC
  }

  /** In every reachable state: levels at most 5, emitted no later than seen, seen no later than now. */
  lemma {:induction false} StatesAreSane(run: seq<Push>, key: Toast)
    requires Timed(run) && key in CacheAfter(run)
    ensures var st := CacheAfter(run)[key];
            && st.level <= 5 && st.emittedAt <= st.seenAt <= run[|run| - 1].at
            && st.suppressed <= |run| && st.suppressed <= MAX_U32
  {
    var n := |run| - 1;
    if key in CacheAfter(run[..n]) {
      StatesAreSane(run[..n], key);
    }
  }

  // ---- Spacing ----------------------------------------------------------------------

  /** `i` is the latest showing of `key`. */
  ghost predicate LatestShowing(run: seq<Push>, key: Toast, i: int) {
    Shows(run, i, key) && forall j :: i < j < |run| ==> !Shows(run, j, key)
  }

  function LevelAfter(run: seq<Push>, i: nat, key: Toast): nat
    requires i < |run|
  {
    var cache := CacheAfter(run[..i + 1]);
    if key in cache then cache[key].level else 0
  }

  /** The entry of `key` dates from a showing at `at`, or was forgotten more than 300 s after it. */
  ghost predicate Remembers(cache: Cache, key: Toast, at: int, level: nat, now: int) {
    && (key in cache ==> cache[key].emittedAt == at && cache[key].level == level && at <= cache[key].seenAt <= now)
    && (key !in cache ==> now - at > TTL_SECS * SEC)
  }

  lemma QuietPushRemembers(cache: Cache, key: Toast, at: int, level: nat, before: int, toast: Toast, now: int)
    requires Remembers(cache, key, at, level, before) && before <= now
    requires toast == key ==> PushOn(Prune(cache, now), toast, now).1.None?
    ensures Remembers(PushOn(Prune(cache, now), toast, now).0, key, at, level, now)
  {}

  lemma {:induction false} CacheTracksShowing(run: seq<Push>, key: Toast, i: nat)
    requires Timed(run) && LatestShowing(run, key, i)
    ensures Remembers(CacheAfter(run), key, run[i].at, LevelAfter(run, i, key), run[|run| - 1].at)
  {
    var n := |run| - 1;
    OnePush(run, n);
    assert run[..n + 1] == run;
    if i < n {
      assert !Shows(run, n, key);
      assert forall j :: 0 <= j < n ==> Shows(run[..n], j, key) == Shows(run, j, key);
      CacheTracksShowing(run[..n], key, i);
      assert run[..n][..i + 1] == run[..i + 1];
      QuietPushRemembers(CacheAfter(run[..n]), key, run[i].at, LevelAfter(run, i, key), run[n - 1].at, run[n].toast,
          run[n].at);
    }
  }

  /** Consecutive showings of one key are at least its current window apart, pruned in between or not. */
  lemma ShowingsAreSpaced(run: seq<Push>, key: Toast, i: nat, j: nat)
    requires Timed(run) && i < j && Shows(run, i, key) && Shows(run, j, key)
    requires forall k :: i < k < j ==> !Shows(run, k, key)
    ensures run[j].at - run[i].at >= Window(key.status, LevelAfter(run, i, key)) >= MinWindow(key.status)
  {
    OnePush(run, j);
    var before := run[..j];
    assert forall k :: 0 <= k < j ==> Shows(before, k, key) == Shows(run, k, key);
    CacheTracksShowing(before, key, i);
    assert before[..i + 1] == run[..i + 1];
    WindowBounds(key.status, LevelAfter(run, i, key));
  }

  function Showings(run: seq<Push>, key: Toast, from: nat, to: nat): nat
    requires from <= to <= |run|
  {
    if from == to then 0 else Showings(run, key, from, to - 1) + if Shows(run, to - 1, key) then 1 else 0
  }

  lemma OneMoreWindow(n: nat, w: int, before: int, gap: int)
    requires (n - 1) * w <= before && w <= gap
    ensures n * w <= before + gap
  {
    assert n * w == (n - 1) * w + w;
  }

  lemma {:induction false} ShowingsSpan(run: seq<Push>, key: Toast, from: nat, to: nat) returns (last: nat)
    requires Timed(run) && from <= to <= |run| && Showings(run, key, from, to) > 0
    ensures from <= last < to && Shows(run, last, key) && forall k :: last < k < to ==> !Shows(run, k, key)
    ensures (Showings(run, key, from, to) - 1) * MinWindow(key.status) <= run[last].at - run[from].at
  {
    if !Shows(run, to - 1, key) {
      last := ShowingsSpan(run, key, from, to - 1);
    } else {
      last := to - 1;
      if Showings(run, key, from, to - 1) > 0 {
        var prev := ShowingsSpan(run, key, from, to - 1);
        ShowingsAreSpaced(run, key, prev, last);
        OneMoreWindow(Showings(run, key, from, to - 1), MinWindow(key.status), run[prev].at - run[from].at,
            run[last].at - run[prev].at);
      }
    }
  }

  /** In any stretch of the run lasting T there are at most T / window_min + 1 showings of a key. */
  lemma ShowingsAreFew(run: seq<Push>, key: Toast, from: nat, to: nat)
    requires Timed(run) && from < to <= |run|
    ensures Showings(run, key, from, to) <= (run[to - 1].at - run[from].at) / MinWindow(key.status) + 1
  {
    var n, w, t := Showings(run, key, from, to), MinWindow(key.status), run[to - 1].at - run[from].at;
    if n > 0 {
      var last := ShowingsSpan(run, key, from, to);
      assert (n - 1) * w <= t;
      DivideBound(n - 1, w, t);
    }
  }

  lemma TimesGrows(a: int, b: int, w: int)
    requires a <= b && w > 0
    ensures a * w <= b * w
  {}

  lemma DivideBound(n: nat, w: int, t: int)
    requires w > 0 && n * w <= t
    ensures n <= t / w
  {
    if t / w < n {
      TimesGrows(t / w + 1, n, w);
      assert false;
    }
  }

  // ---- Every decision, from the run alone --------------------------------------------

  /** Showings of the key that reported retries, since the last that did not. */
  function Streak(run: seq<Push>, key: Toast): nat {
    if run == [] then 0
    else
      var n := |run| - 1;
      if !Shows(run, n, key) then Streak(run[..n], key)
      else if ShownAt(run, n).value.retries == 0 then 0
      else Streak(run[..n], key) + 1
  }

  /** Seconds to the next showing after so many in a row that reported retries. */
  function Gap(status: Status, streak: nat): int {
    if !status.Danger? then 10
    else if streak == 0 then 30
    else if streak == 1 then 60
    else if streak == 2 then 120
    else if streak == 3 then 240
    else 300
  }

  lemma WindowIsGap(status: Status, streak: nat)
    ensures Window(status, Min(5, streak)) == Gap(status, streak) * SEC
  {
    assert Pow2(0) == 1 && Pow2(1) == 2 && Pow2(2) == 4 && Pow2(3) == 8 && Pow2(4) == 16 && Pow2(5) == 32;
    assert streak < 5 ==> streak in {0, 1, 2, 3, 4};
  }

  /** The backoff level grows by one with every showing that reports retries, up to five, and falls back with one that
      does not. */
  lemma {:induction false} LevelIsStreak(run: seq<Push>, key: Toast)
    requires key in CacheAfter(run)
    ensures CacheAfter(run)[key].level == Min(5, Streak(run, key))
  {
    var n := |run| - 1;
    OnePush(run, n);
    assert run[..n + 1] == run;
    if key in CacheAfter(run[..n]) {
      LevelIsStreak(run[..n], key);
    }
  }

  lemma {:induction false} CachedWasShown(run: seq<Push>, key: Toast) returns (i: nat)
    requires key in CacheAfter(run)
    ensures Shows(run, i, key)
  {
    var n := |run| - 1;
    OnePush(run, n);
    if Shows(run, n, key) {
      i := n;
    } else {
      i := CachedWasShown(run[..n], key);
      assert Shows(run[..n], i, key) == Shows(run, i, key);
    }
  }

  /** A push of the key is shown exactly if the gap after its latest showing is over: 30 seconds, doubled with each
      showing in a row that reported retries, at most 300, and 10 for other statuses. */
  lemma ShowsIff(run: seq<Push>, key: Toast, i: nat, k: nat)
    requires Timed(run) && k < |run| && run[k].toast == key && LatestShowing(run[..k], key, i)
    ensures Shows(run, k, key) <==> run[k].at - run[i].at >= Gap(key.status, Streak(run[..k], key)) * SEC
  {
    var before := run[..k];
    CacheTracksShowing(before, key, i);
    WindowIsGap(key.status, Streak(before, key));
    WindowBounds(key.status, Min(5, Streak(before, key)));
    if key in CacheAfter(before) {
      LevelIsStreak(before, key);
    }
  }

  lemma UnshownIsUncached(run: seq<Push>, key: Toast)
    requires forall i :: 0 <= i < |run| ==> !Shows(run, i, key)
    ensures key !in CacheAfter(run)
  {
    if key in CacheAfter(run) {
      var i := CachedWasShown(run, key);
    }
  }

  /** The first push of a key is shown. */
  lemma FirstPushShows(run: seq<Push>, key: Toast, k: nat)
    requires k < |run| && run[k].toast == key && forall i :: 0 <= i < k ==> !Shows(run, i, key)
    ensures Shows(run, k, key) && ShownAt(run, k) == Some(Shown(key, 0))
  {
    OnePush(run, k);
    assert forall i :: 0 <= i < k ==> Shows(run[..k], i, key) == Shows(run, i, key);
    UnshownIsUncached(run[..k], key);
  }

  /** `l` is the latest push of `key`. */
  ghost predicate LatestPush(run: seq<Push>, key: Toast, l: int) {
    0 <= l < |run| && run[l].toast == key && forall j :: l < j < |run| ==> run[j].toast != key
  }

  function Pushes(run: seq<Push>, key: Toast): nat {
    if run == [] then 0
    else Pushes(run[..|run| - 1], key) + if run[|run| - 1].toast == key then 1 else 0
  }

  /** Pushes of the key behind its showing at `i`: hidden, all of them. */
  function HiddenSince(run: seq<Push>, key: Toast, i: nat): int
    requires i < |run|
  {
    Pushes(run, key) - Pushes(run[..i + 1], key)
  }

  /** The entry counts what was hidden since the latest showing, until the key has not been pushed for over 300 s. */
  ghost predicate Counts(run: seq<Push>, key: Toast, i: nat, l: nat)
    requires i < |run| && l < |run|
  {
    && (key in CacheAfter(run) <==> (run[|run| - 1].at - run[l].at) / SEC <= 300)
    && (key in CacheAfter(run) ==>
          && CacheAfter(run)[key].seenAt == run[l].at
          && CacheAfter(run)[key].suppressed == Min(HiddenSince(run, key, i), MAX_U32))
  }

  lemma OneMoreCounts(run: seq<Push>, key: Toast, i: nat, m: nat, l: nat)
    requires Timed(run) && i < |run| - 1 && m < |run| - 1 && l < |run| && !Shows(run, |run| - 1, key)
    requires Counts(run[..|run| - 1], key, i, m) && HiddenSince(run[..|run| - 1], key, i) >= 0
    requires l == if run[|run| - 1].toast == key then |run| - 1 else m
    ensures Counts(run, key, i, l) && HiddenSince(run, key, i) >= 0
  {
    var n := |run| - 1;
    assert run[..n][..i + 1] == run[..i + 1];
    assert run[m].at <= run[n - 1].at <= run[n].at;
  }

  lemma {:induction false} EntryCounts(run: seq<Push>, key: Toast, i: nat, l: nat)
    requires Timed(run) && LatestShowing(run, key, i) && LatestPush(run, key, l)
    ensures i <= l && HiddenSince(run, key, i) >= 0 && Counts(run, key, i, l)
  {
    var n := |run| - 1;
    OnePush(run, n);
    assert run[..n + 1] == run;
    if i < n {
      assert forall j :: 0 <= j < n ==> Shows(run[..n], j, key) == Shows(run, j, key);
      var m := LatestPushExists(run[..n], key, i);
      EntryCounts(run[..n], key, i, m);
      OneMoreCounts(run, key, i, m, l);
    }
  }

  lemma {:induction false} LatestPushExists(run: seq<Push>, key: Toast, from: nat) returns (l: nat)
    requires from < |run| && run[from].toast == key
    ensures from <= l && LatestPush(run, key, l)
    decreases |run| - from
  {
    if j :| from < j < |run| && run[j].toast == key {
      l := LatestPushExists(run, key, j);
    } else {
      l := from;
    }
  }

  /** A showing reports what was hidden since the one before, for a Danger key pushed within the last 300 seconds; any
      other shows its own text. */
  lemma ShownTextIs(run: seq<Push>, key: Toast, i: nat, l: nat, k: nat)
    requires Timed(run) && k < |run| && Shows(run, k, key)
    requires LatestShowing(run[..k], key, i) && LatestPush(run[..k], key, l)
    ensures var hidden := HiddenSince(run[..k], key, i);
            var told := key.status.Danger? && hidden > 0 && (run[k].at - run[l].at) / SEC <= 300;
            var retries := Min(hidden, MAX_U32);
            ShownAt(run, k) == Some(if told then Shown(Aggregate(key, retries), retries) else Shown(key, 0))
  {
    EntryCounts(run[..k], key, i, l);
  }

  // ---- Pruning ----------------------------------------------------------------------

  function UnprunedAfter(run: seq<Push>): Cache {
    if run == [] then map[]
    else
      var last := run[|run| - 1];
      PushOn(UnprunedAfter(run[..|run| - 1]), last.toast, last.at).0
  }

  function UnprunedAt(run: seq<Push>, k: nat): Option<Shown>
    requires k < |run|
  {
    PushOn(UnprunedAfter(run[..k]), run[k].toast, run[k].at).1
  }

  /** What a pruned cache `c` and a full cache `d` have in common about a key at time `now`. */
  ghost predicate ForgetsOnlyTheStale(c: Cache, d: Cache, key: Toast, now: int) {
    && (key in c ==> key in d && d[key].emittedAt == c[key].emittedAt && d[key].seenAt == c[key].seenAt)
    && (key in d && key !in c ==> now - d[key].emittedAt > TTL_SECS * SEC)
    && (key in d ==> d[key].emittedAt <= d[key].seenAt <= now)
  }

  lemma PushForgetsOnlyTheStale(c: Cache, d: Cache, key: Toast, before: int, toast: Toast, now: int)
    requires !key.status.Danger? && ForgetsOnlyTheStale(c, d, key, before) && before <= now
    ensures ForgetsOnlyTheStale(PushOn(Prune(c, now), toast, now).0, PushOn(d, toast, now).0, key, now)
    ensures toast == key ==> PushOn(Prune(c, now), toast, now).1 == PushOn(d, toast, now).1
  {}

  lemma {:induction false} PruneForgetsOnlyTheStale(run: seq<Push>, key: Toast)
    requires Timed(run) && run != [] && !key.status.Danger?
    ensures ForgetsOnlyTheStale(CacheAfter(run), UnprunedAfter(run), key, run[|run| - 1].at)
  {
    var n := |run| - 1;
    if n > 0 {
      PruneForgetsOnlyTheStale(run[..n], key);
      PushForgetsOnlyTheStale(CacheAfter(run[..n]), UnprunedAfter(run[..n]), key, run[n - 1].at, run[n].toast,
          run[n].at);
    } else {
      assert run[..n] == [] && CacheAfter(run[..n]) == UnprunedAfter(run[..n]) == map[];
      PushForgetsOnlyTheStale(CacheAfter(run[..n]), UnprunedAfter(run[..n]), key, run[n].at, run[n].toast, run[n].at);
    }
  }

  /** For keys that are not Danger, dropping stale entries changes no decision and no text. */
  lemma PruningIsInvisible(run: seq<Push>, k: nat)
    requires Timed(run) && k < |run| && !run[k].toast.status.Danger?
    ensures ShownAt(run, k) == UnprunedAt(run, k)
  {
    if k > 0 {
      PruneForgetsOnlyTheStale(run[..k], run[k].toast);
      PushForgetsOnlyTheStale(CacheAfter(run[..k]), UnprunedAfter(run[..k]), run[k].toast, run[k - 1].at,
          run[k].toast, run[k].at);
    }
  }

  /** For Danger keys it does: a forgotten backoff shows a toast the full cache would hide. */
  lemma PruningForgetsBackoff(key: Toast)
    requires key.status.Danger?
    ensures var run := [Push(key, 0), Push(key, 1 * SEC), Push(key, 400 * SEC), Push(key, 435 * SEC)];
            Timed(run) && ShownAt(run, 3).Some? && UnprunedAt(run, 3).None?
  {
    var run := [Push(key, 0), Push(key, 1 * SEC), Push(key, 400 * SEC), Push(key, 435 * SEC)];
    assert Pow2(0) == 1 && Pow2(1) == 2;
    assert run[..3][..2] == run[..2] && run[..2][..1] == run[..1] && run[..1][..0] == [];
    assert CacheAfter(run[..1]) == UnprunedAfter(run[..1]) == map[key := DedupeState(0, 0, 0, 0)];
    assert CacheAfter(run[..2]) == UnprunedAfter(run[..2]) == map[key := DedupeState(0, 1 * SEC, 1, 0)];
    assert CacheAfter(run[..3]) == map[key := DedupeState(400 * SEC, 400 * SEC, 0, 0)];
    assert UnprunedAfter(run[..3]) == map[key := DedupeState(400 * SEC, 400 * SEC, 0, 1)];
  }

  // ---- Conservation -----------------------------------------------------------------

  function AllShowings(run: seq<Push>, key: Toast): nat {
    if run == [] then 0
    else AllShowings(run[..|run| - 1], key) + if Shows(run, |run| - 1, key) then 1 else 0
  }

  /** Retries told to the user in aggregated toasts. */
  function Reported(run: seq<Push>, key: Toast): nat {
    if run == [] then 0
    else
      var n := |run| - 1;
      Reported(run[..n], key) + if Shows(run, n, key) then ShownAt(run, n).value.retries else 0
  }

  function Suppressed(cache: Cache, key: Toast): nat {
    if key in cache then cache[key].suppressed else 0
  }

  /** Hidden pushes whose count went with a pruned entry. */
  function Lost(run: seq<Push>, key: Toast): nat {
    if run == [] then 0
    else
      var before := CacheAfter(run[..|run| - 1]);
      Lost(run[..|run| - 1], key) + Suppressed(before, key) - Suppressed(Prune(before, run[|run| - 1].at), key)
  }

  /** Hidden pushes that found the counter full. */
  function Overflowed(run: seq<Push>, key: Toast): nat {
    if run == [] then 0
    else
      var n := |run| - 1;
      Overflowed(run[..n], key) +
        if run[n].toast == key && !Shows(run, n, key) &&
            Suppressed(Prune(CacheAfter(run[..n]), run[n].at), key) >= MAX_U32 then 1 else 0
  }

  lemma OnePushIsConserved(cache: Cache, key: Toast, toast: Toast, now: int)
    requires key.status.Danger? && Suppressed(cache, key) <= MAX_U32
    ensures var pruned := Prune(cache, now);
            var step := PushOn(pruned, toast, now);
            (if toast == key then 1 else 0) + Suppressed(pruned, key) ==
            (if toast == key && step.1.Some? then 1 + step.1.value.retries else 0) + Suppressed(step.0, key)
              + (if toast == key && step.1.None? && Suppressed(pruned, key) >= MAX_U32 then 1 else 0)
  {}

  lemma {:induction false} CounterFits(run: seq<Push>, key: Toast)
    ensures Suppressed(CacheAfter(run), key) <= MAX_U32
  {
    if run == [] {
    } else {
      CounterFits(run[..|run| - 1], key);
    }
  }

  /** Every push of a Danger key is shown, reported, still being counted, lost at a prune, or met a full counter. */
  lemma {:induction false} DangerPushesAreConserved(run: seq<Push>, key: Toast)
    requires key.status.Danger?
    ensures Pushes(run, key) ==
            AllShowings(run, key) + Reported(run, key) + Suppressed(CacheAfter(run), key) + Lost(run, key)
                + Overflowed(run, key)
  {
    if run == [] {
    } else {
      var n := |run| - 1;
      DangerPushesAreConserved(run[..n], key);
      CounterFits(run[..n], key);
      OnePushIsConserved(CacheAfter(run[..n]), key, run[n].toast, run[n].at);
    }
  }

  /** While the key's counter has room nothing meets a full one. */
  lemma {:induction false} RoomMeansNoOverflow(run: seq<Push>, key: Toast)
    requires forall k :: 0 <= k < |run| ==> Suppressed(CacheAfter(run[..k]), key) < MAX_U32
    ensures Overflowed(run, key) == 0
  {
    if run == [] {
    } else {
      var n := |run| - 1;
      assert forall k :: 0 <= k < n ==> run[..n][..k] == run[..k];
      RoomMeansNoOverflow(run[..n], key);
      assert Suppressed(CacheAfter(run[..n]), key) < MAX_U32;
    }
  }

  // ---- What pruning changes ---------------------------------------------------------

  /** The two caches agree on the key except for a stale entry that has hidden nothing. */
  ghost predicate AlikeButIdle(c: Cache, d: Cache, key: Toast, now: int) {
    && (key in c ==> key in d && c[key] == d[key])
    && (key in d && key !in c ==> now - d[key].seenAt > TTL_SECS * SEC && d[key].suppressed == 0)
    && (key in d ==> d[key].emittedAt <= d[key].seenAt <= now && d[key].level <= 5)
  }

  lemma WindowGrows(low: nat, high: nat)
    requires low <= high <= 5
    ensures Window(Danger, low) <= Window(Danger, high) <= 300 * SEC
  {
    assert Pow2(0) == 1 && Pow2(1) == 2 && Pow2(2) == 4 && Pow2(3) == 8 && Pow2(4) == 16 && Pow2(5) == 32;
    assert low in {0, 1, 2, 3, 4, 5} && high in {0, 1, 2, 3, 4, 5};
  }

  lemma LosslessPush(c: Cache, d: Cache, key: Toast, before: int, toast: Toast, now: int)
    requires key.status.Danger? && AlikeButIdle(c, d, key, before) && before <= now
    requires Suppressed(Prune(c, now), key) == Suppressed(c, key)
    ensures AlikeButIdle(PushOn(Prune(c, now), toast, now).0, PushOn(d, toast, now).0, key, now)
    ensures toast == key ==> PushOn(Prune(c, now), toast, now).1 == PushOn(d, toast, now).1
  {
    if key in d {
      WindowGrows(d[key].level, 5);
    }
  }

  lemma {:induction false} LosslessRun(run: seq<Push>, key: Toast)
    requires Timed(run) && run != [] && key.status.Danger? && Lost(run, key) == 0
    ensures AlikeButIdle(CacheAfter(run), UnprunedAfter(run), key, run[|run| - 1].at)
  {
    var n := |run| - 1;
    if n == 0 {
      assert run[..n] == [] && CacheAfter(run[..n]) == UnprunedAfter(run[..n]) == map[];
      LosslessPush(map[], map[], key, run[n].at, run[n].toast, run[n].at);
    } else {
      LostGrows(run, key);
      LosslessRun(run[..n], key);
      LosslessPush(CacheAfter(run[..n]), UnprunedAfter(run[..n]), key, run[n - 1].at, run[n].toast, run[n].at);
    }
  }

  lemma LostGrows(run: seq<Push>, key: Toast)
    requires run != []
    ensures Lost(run[..|run| - 1], key) <= Lost(run, key)
    ensures Lost(run, key) == Lost(run[..|run| - 1], key) ==>
              var before := CacheAfter(run[..|run| - 1]);
              Suppressed(Prune(before, run[|run| - 1].at), key) == Suppressed(before, key)
  {}

  lemma {:induction false} LostGrowsAlong(run: seq<Push>, key: Toast, k: nat)
    requires k <= |run|
    ensures Lost(run[..k], key) <= Lost(run, key)
  {
    if k == |run| {
      assert run[..k] == run;
    } else {
      LostGrows(run, key);
      LostGrowsAlong(run[..|run| - 1], key, k);
      assert run[..|run| - 1][..k] == run[..k];
    }
  }

  /** As long as no prune has dropped a count of the key, pruning changes neither a decision on it nor a text. */
  lemma LosslessPruningIsInvisible(run: seq<Push>, k: nat)
    requires Timed(run) && k < |run| && run[k].toast.status.Danger?
    requires Lost(run, run[k].toast) == 0
    ensures ShownAt(run, k) == UnprunedAt(run, k)
  {
    var key := run[k].toast;
    LostGrowsAlong(run, key, k + 1);
    LostGrows(run[..k + 1], key);
    assert run[..k + 1][..k] == run[..k];
    if k == 0 {
      assert run[..0] == [];
    } else {
      LosslessRun(run[..k], key);
      LosslessPush(CacheAfter(run[..k]), UnprunedAfter(run[..k]), key, run[k - 1].at, key, run[k].at);
    }
  }

  /** The run with the key pushed at once and 30 seconds later. */
  function Probe(run: seq<Push>, key: Toast): seq<Push>
    requires run != []
  {
    var now := run[|run| - 1].at;
    run + [Push(key, now), Push(key, now + 30 * SEC)]
  }

  lemma ProbeStates(run: seq<Push>, key: Toast)
    requires run != []
    ensures var probe, now, n := Probe(run, key), run[|run| - 1].at, |run|;
            && probe[..n] == run && probe[..n + 2] == probe
            && CacheAfter(probe[..n + 1]) == PushOn(Prune(CacheAfter(run), now), key, now).0
            && UnprunedAfter(probe[..n + 1]) == PushOn(UnprunedAfter(run), key, now).0
            && Lost(probe[..n + 1], key) ==
               Lost(run, key) + Suppressed(CacheAfter(run), key) - Suppressed(Prune(CacheAfter(run), now), key)
  {
    var probe, n := Probe(run, key), |run|;
    assert probe[..n] == run && probe[..n + 2] == probe;
    assert probe[..n + 1][..n] == run;
  }

  lemma NothingIsStale(run: seq<Push>, key: Toast)
    requires Timed(run) && run != []
    ensures Suppressed(Prune(CacheAfter(run), run[|run| - 1].at), key) == Suppressed(CacheAfter(run), key)
  {
    var n := |run| - 1;
    assert CacheAfter(run) == PushOn(Prune(CacheAfter(run[..n]), run[n].at), run[n].toast, run[n].at).0;
  }

  lemma ProbeLosesNothing(run: seq<Push>, key: Toast)
    requires Timed(run) && run != []
    ensures Timed(Probe(run, key)) && Lost(Probe(run, key), key) == Lost(run, key)
  {
    var probe, n := Probe(run, key), |run|;
    ProbeStates(run, key);
    NothingIsStale(run, key);
    var after := CacheAfter(probe[..n + 1]);
    assert key in after && after[key].seenAt == run[n - 1].at;
    assert probe[..|probe| - 1] == probe[..n + 1];
  }

  /** The full cache holds a level that the pruned one does not. */
  ghost predicate LevelForgotten(c: Cache, d: Cache, key: Toast, at: int) {
    && key in c && c[key].emittedAt == at && c[key].seenAt == at && c[key].level == 0
    && key in d && d[key].emittedAt == at && 1 <= d[key].level <= 5
  }

  /** The pruned cache has lost the key; the full one would show its next push with the retries. */
  ghost predicate CountForgotten(c: Cache, d: Cache, key: Toast, now: int) {
    key !in c && key in d && d[key].suppressed > 0 && d[key].level <= 5 &&
        Elapsed(d[key].emittedAt, now) > TTL_SECS * SEC
  }

  lemma LossForgetsCount(c: Cache, d: Cache, key: Toast, before: int, now: int)
    requires AlikeButIdle(c, d, key, before) && before <= now && Suppressed(Prune(c, now), key) < Suppressed(c, key)
    ensures CountForgotten(Prune(c, now), d, key, now)
  {}

  lemma NextPushForgetsLevel(c: Cache, d: Cache, key: Toast, now: int)
    requires key.status.Danger? && CountForgotten(c, d, key, now)
    ensures LevelForgotten(PushOn(c, key, now).0, PushOn(d, key, now).0, key, now)
  {
    WindowGrows(d[key].level, 5);
  }

  lemma SamePushKeepsForgotten(c: Cache, d: Cache, key: Toast, now: int)
    requires key.status.Danger? && LevelForgotten(c, d, key, now)
    ensures LevelForgotten(PushOn(Prune(c, now), key, now).0, PushOn(d, key, now).0, key, now)
  {
    WindowGrows(0, d[key].level);
    assert Pow2(0) == 1;
  }

  lemma OtherPushKeepsCount(c: Cache, d: Cache, key: Toast, toast: Toast, now: int)
    requires CountForgotten(c, d, key, now) && toast != key
    ensures CountForgotten(Prune(PushOn(c, toast, now).0, now), PushOn(d, toast, now).0, key, now)
  {}

  lemma ForgottenLevelShows(c: Cache, d: Cache, key: Toast, now: int)
    requires key.status.Danger? && LevelForgotten(c, d, key, now)
    ensures PushOn(Prune(c, now + 30 * SEC), key, now + 30 * SEC).1.Some? && PushOn(d, key, now + 30 * SEC).1.None?
  {
    WindowGrows(1, d[key].level);
    assert Pow2(0) == 1 && Pow2(1) == 2;
  }

  lemma LossThenPush(c: Cache, d: Cache, key: Toast, before: int, toast: Toast, now: int)
    requires key.status.Danger? && AlikeButIdle(c, d, key, before) && before <= now
    requires Suppressed(Prune(c, now), key) < Suppressed(c, key)
    ensures var c1, d1 := PushOn(Prune(c, now), toast, now).0, PushOn(d, toast, now).0;
            LevelForgotten(PushOn(Prune(c1, now), key, now).0, PushOn(d1, key, now).0, key, now)
  {
    LossForgetsCount(c, d, key, before, now);
    var c1, d1 := PushOn(Prune(c, now), toast, now).0, PushOn(d, toast, now).0;
    if toast == key {
      NextPushForgetsLevel(Prune(c, now), d, key, now);
      SamePushKeepsForgotten(c1, d1, key, now);
    } else {
      OtherPushKeepsCount(Prune(c, now), d, key, toast, now);
      NextPushForgetsLevel(Prune(c1, now), d1, key, now);
    }
  }

  /** The first dropped count of a key: the next two pushes always end in a toast that the full cache would hide. */
  lemma FirstLossShows(run: seq<Push>, key: Toast)
    requires Timed(run) && run != [] && key.status.Danger?
    requires Lost(run[..|run| - 1], key) == 0 < Lost(run, key)
    ensures ShownAt(Probe(run, key), |run| + 1).Some? && UnprunedAt(Probe(run, key), |run| + 1).None?
    ensures Differs(Probe(run, key), key, |run| + 1)
  {
    var n := |run| - 1;
    var now, c, d := run[n].at, CacheAfter(run[..n]), UnprunedAfter(run[..n]);
    assert n > 0;
    LosslessRun(run[..n], key);
    LossThenPush(c, d, key, run[n - 1].at, run[n].toast, now);
    ProbeStates(run, key);
    var probe := Probe(run, key);
    ForgottenLevelShows(CacheAfter(probe[..n + 2]), UnprunedAfter(probe[..n + 2]), key, now);
  }

  predicate Differs(run: seq<Push>, key: Toast, k: nat) {
    k < |run| && run[k].toast == key && ShownAt(run, k) != UnprunedAt(run, k)
  }

  /** The run, or the probe of one of its beginnings, has a push of the key on which pruning changes decision
      or text. */
  ghost predicate PruningShows(run: seq<Push>, key: Toast) {
    exists n, k :: 1 <= n <= |run| && Differs(Probe(run[..n], key), key, k)
  }

  lemma {:induction false} FirstLoss(run: seq<Push>, key: Toast, from: nat) returns (n: nat)
    requires 0 < from <= |run| && Lost(run[..from], key) > 0
    ensures 1 <= n <= from && Lost(run[..n - 1], key) == 0 < Lost(run[..n], key)
  {
    assert from == 1 ==> run[..from - 1] == [];
    if Lost(run[..from - 1], key) > 0 {
      n := FirstLoss(run, key, from - 1);
    } else {
      n := from;
    }
  }

  lemma LossShows(run: seq<Push>, key: Toast)
    requires Timed(run) && key.status.Danger? && Lost(run, key) > 0
    ensures PruningShows(run, key)
  {
    assert run[..|run|] == run && run != [];
    var n := FirstLoss(run, key, |run|);
    var start := run[..n];
    assert start[..n - 1] == run[..n - 1];
    FirstLossShows(start, key);
    assert |start| == n && Differs(Probe(start, key), key, |start| + 1);
  }

  lemma NoLossNoDifference(run: seq<Push>, key: Toast, n: nat, k: nat)
    requires Timed(run) && key.status.Danger? && Lost(run, key) == 0 && 1 <= n <= |run|
    ensures !Differs(Probe(run[..n], key), key, k)
  {
    LostGrowsAlong(run, key, n);
    ProbeLosesNothing(run[..n], key);
    if k < n + 2 && Probe(run[..n], key)[k].toast == key {
      LosslessPruningIsInvisible(Probe(run[..n], key), k);
    }
  }

  /** In every run pruning shows on a Danger key exactly if a prune has dropped an entry of it with a count. */
  lemma PruningShowsIff(run: seq<Push>, key: Toast)
    requires Timed(run) && key.status.Danger?
    ensures PruningShows(run, key) <==> Lost(run, key) > 0
  {
    if Lost(run, key) > 0 {
      LossShows(run, key);
    } else {
      forall n, k: nat | 1 <= n <= |run|
        ensures !Differs(Probe(run[..n], key), key, k)
      {
        NoLossNoDifference(run, key, n, k);
      }
    }
  }
}
