/** The in-memory sliding-window rate limiter and the limits the middleware asks of it (`main.py`).
    Clock readings are reals and the caller's; windows are in seconds. */
module RateLimiter {
  import opened Strings

  type Windows = map<string, seq<real>>

  const STALE_AFTER: real := 3600.0

  // ------------------------------------------------------------------ what the code computes

  /** The timestamps after `cutoff`, in order. */
  function Keep(times: seq<real>, cutoff: real): seq<real> {
    if times == [] then []
    else
      var rest := Keep(times[..|times| - 1], cutoff);
      var last := times[|times| - 1];
      if last > cutoff then rest + [last] else rest
  }

  function Of(windows: Windows, key: string): seq<real> {
    if key in windows then windows[key] else []
  }

  function Checked(windows: Windows, key: string, limit: int, window: real, now: real): (Windows, bool) {
    var kept := Keep(Of(windows, key), now - window);
    if |kept| >= limit then (windows[key := kept], false) else (windows[key := kept + [now]], true)
  }

  function Latest(times: seq<real>): real
    requires times != []
  {
    var last := times[|times| - 1];
    if |times| == 1 then last
    else
      var rest := Latest(times[..|times| - 1]);
      if last > rest then last else rest
  }

  predicate Stale(times: seq<real>, now: real) {
    times == [] || Latest(times) < now - STALE_AFTER
  }

  function CleanedUp(windows: Windows, now: real): Windows {
    map key | key in windows && !Stale(windows[key], now) :: windows[key]
  }

  class Limiter {
    var windows: Windows

    constructor ()
      ensures windows == map[]
    {
      windows := map[];
    }

    /** `check_rate_limit`. */
    method CheckRateLimit(key: string, limit: int, window: real, now: real) returns (allowed: bool, remaining: int)
      modifies this
      ensures (windows, allowed) == Checked(old(windows), key, limit, window, now)
      ensures remaining == if allowed then limit - |Of(windows, key)| else 0
    {
      var cutoff := now - window;
      if key !in windows {
        windows := windows[key := []];
      }
      windows := windows[key := Keep(windows[key], cutoff)];
      ghost var kept := windows[key];
      assert windows == old(windows)[key := kept];
      var currentCount := |windows[key]|;
      if currentCount >= limit {
        return false, 0;
      }
      windows := windows[key := windows[key] + [now]];
      assert windows == old(windows)[key := kept + [now]];
      return true, limit - currentCount - 1;
    }

    /** `cleanup_old_windows`: collect the stale keys, then delete them one by one. */
    method CleanupOldWindows(now: real)
      modifies this
      ensures windows == CleanedUp(old(windows), now)
    {
      var all := windows;
      var stale := set key | key in all && Stale(all[key], now);
      var left := stale;
      while left != {}
        invariant left <= stale
        invariant windows == all - (stale - left)
      {
        var key :| key in left;
        windows := windows - {key};
        left := left - {key};
      }
    }
  }

  // ------------------------------------------------------------------------------------ runs

  datatype Event = Check(key: string, limit: int, now: real) | Cleanup(now: real)

  datatype Accept = Accept(key: string, time: real)

  /** The limiter's state and the complete log of accepted requests, never pruned. */
  datatype State = State(windows: Windows, log: seq<Accept>)

  /** The window of each key. */
  type WindowOf = string -> real

  function Step(w: WindowOf, s: State, e: Event): State {
    match e
    case Check(key, limit, now) =>
      var r := Checked(s.windows, key, limit, w(key), now);
      State(r.0, if r.1 then s.log + [Accept(key, now)] else s.log)
    case Cleanup(now) => s.(windows := CleanedUp(s.windows, now))
  }

  function Run(w: WindowOf, events: seq<Event>): State {
    if events == [] then State(map[], [])
    else Step(w, Run(w, events[..|events| - 1]), events[|events| - 1])
  }

  /** The clock never goes back. */
  predicate Steady(events: seq<Event>) {
    forall i, j :: 0 <= i < j < |events| ==> events[i].now <= events[j].now
  }

  /** No cleanup happens, or the window is at most as long as entries are kept. */
  ghost predicate Retentive(w: WindowOf, events: seq<Event>) {
    forall i, key :: 0 <= i < |events| && events[i].Cleanup? ==> w(key) <= STALE_AFTER
  }

  /** The times at which requests of `key` were accepted. */
  function TimesOf(log: seq<Accept>, key: string): seq<real> {
    if log == [] then []
    else
      var rest := TimesOf(log[..|log| - 1], key);
      if log[|log| - 1].key == key then rest + [log[|log| - 1].time] else rest
  }

  /** The decision of a limiter that keeps everything. */
  predicate LogAllows(log: seq<Accept>, key: string, limit: int, window: real, now: real) {
    |Keep(TimesOf(log, key), now - window)| < limit
  }

  /** The decision on the next request is the one the complete log gives. */
  ghost predicate Alike(w: WindowOf, s: State, key: string, limit: int, now: real) {
    Checked(s.windows, key, limit, w(key), now).1 == LogAllows(s.log, key, limit, w(key), now)
  }

  // ------------------------------------------------------------------------------ refinement

  /** From `from` on, pruned and complete lists cannot be told apart. */
  ghost predicate Agree(pruned: seq<real>, complete: seq<real>, from: real) {
    forall cutoff: real :: cutoff >= from ==> Keep(pruned, cutoff) == Keep(complete, cutoff)
  }

  lemma {:induction false} KeepTwice(times: seq<real>, early: real, late: real)
    requires early <= late
    ensures Keep(Keep(times, early), late) == Keep(times, late)
  {
    if times != [] {
      var init, last := times[..|times| - 1], times[|times| - 1];
      KeepTwice(init, early, late);
      if last > early {
        KeepSnoc(Keep(init, early), last, late);
      }
    }
  }

  lemma KeepSnoc(times: seq<real>, time: real, cutoff: real)
    ensures Keep(times + [time], cutoff) == Keep(times, cutoff) + (if time > cutoff then [time] else [])
  {
    assert (times + [time])[..|times|] == times;
  }

  lemma {:induction false} KeepNothing(times: seq<real>, cutoff: real)
    requires times != [] ==> Latest(times) <= cutoff
    ensures Keep(times, cutoff) == []
  {
    if times != [] {
      KeepNothing(times[..|times| - 1], cutoff);
    }
  }

  lemma TimesSnoc(log: seq<Accept>, a: Accept, key: string)
    ensures TimesOf(log + [a], key) == if a.key == key then TimesOf(log, key) + [a.time] else TimesOf(log, key)
  {
    assert (log + [a])[..|log|] == log;
  }

  lemma PruneAgrees(pruned: seq<real>, complete: seq<real>, from: real, cutoff: real)
    requires Agree(pruned, complete, from) && from <= cutoff
    ensures Agree(Keep(pruned, cutoff), complete, cutoff)
  {
    forall later: real | later >= cutoff ensures Keep(Keep(pruned, cutoff), later) == Keep(complete, later) {
      KeepTwice(pruned, cutoff, later);
    }
  }

  lemma AppendAgrees(pruned: seq<real>, complete: seq<real>, from: real, time: real)
    requires Agree(pruned, complete, from)
    ensures Agree(pruned + [time], complete + [time], from)
  {
    forall cutoff: real | cutoff >= from ensures Keep(pruned + [time], cutoff) == Keep(complete + [time], cutoff) {
      KeepSnoc(pruned, time, cutoff);
      KeepSnoc(complete, time, cutoff);
    }
  }

  lemma AgreeLater(pruned: seq<real>, complete: seq<real>, from: real, later: real)
    requires Agree(pruned, complete, from) && from <= later
    ensures Agree(pruned, complete, later)
  {
  }

  lemma StaleAgrees(times: seq<real>, complete: seq<real>, from: real, now: real, window: real)
    requires Agree(times, complete, from) && from <= now - window && window <= STALE_AFTER && Stale(times, now)
    ensures Agree([], complete, now - window)
  {
    forall cutoff: real | cutoff >= now - window ensures Keep([], cutoff) == Keep(complete, cutoff) {
      KeepNothing(times, cutoff);
    }
  }

  /** What one check does to the list and the log of its key. */
  lemma CheckIs(w: WindowOf, s: State, limit: int, now: real, key: string)
    ensures var kept := Keep(Of(s.windows, key), now - w(key));
            var next := Step(w, s, Check(key, limit, now));
            var more := if |kept| < limit then [now] else [];
            Of(next.windows, key) == kept + more && TimesOf(next.log, key) == TimesOf(s.log, key) + more
  {
    TimesSnoc(s.log, Accept(key, now), key);
  }

  lemma CheckAgrees(w: WindowOf, s: State, limit: int, now: real, key: string)
    requires Agree(Of(s.windows, key), TimesOf(s.log, key), now - w(key))
    ensures var next := Step(w, s, Check(key, limit, now));
            Agree(Of(next.windows, key), TimesOf(next.log, key), now - w(key))
  {
    var pruned, complete, from := Of(s.windows, key), TimesOf(s.log, key), now - w(key);
    CheckIs(w, s, limit, now, key);
    PruneAgrees(pruned, complete, from, from);
    AppendAgrees(Keep(pruned, from), complete, from, now);
  }

  lemma OtherKeysStay(w: WindowOf, s: State, k: string, limit: int, now: real, key: string)
    requires k != key
    ensures var next := Step(w, s, Check(k, limit, now));
            Of(next.windows, key) == Of(s.windows, key) && TimesOf(next.log, key) == TimesOf(s.log, key)
  {
    TimesSnoc(s.log, Accept(k, now), key);
  }

  lemma CleanupAgrees(windows: Windows, complete: seq<real>, now: real, key: string, window: real)
    requires Agree(Of(windows, key), complete, now - window) && window <= STALE_AFTER
    ensures Agree(Of(CleanedUp(windows, now), key), complete, now - window)
  {
    if key in windows && Stale(windows[key], now) {
      StaleAgrees(windows[key], complete, now - window, now, window);
    }
  }

  lemma StepAgrees(w: WindowOf, s: State, e: Event, key: string, before: real)
    requires Agree(Of(s.windows, key), TimesOf(s.log, key), before - w(key)) && before <= e.now
    requires e.Cleanup? ==> w(key) <= STALE_AFTER
    ensures Agree(Of(Step(w, s, e).windows, key), TimesOf(Step(w, s, e).log, key), e.now - w(key))
  {
    AgreeLater(Of(s.windows, key), TimesOf(s.log, key), before - w(key), e.now - w(key));
    match e
    case Check(k, limit, now) =>
      if k == key {
        CheckAgrees(w, s, limit, now, key);
      } else {
        OtherKeysStay(w, s, k, limit, now, key);
      }
    case Cleanup(now) => CleanupAgrees(s.windows, TimesOf(s.log, key), now, key, w(key));
  }

  lemma {:induction false} RunAgrees(w: WindowOf, events: seq<Event>, key: string)
    requires Steady(events) && Retentive(w, events)
    ensures events == [] ==> TimesOf(Run(w, events).log, key) == Of(Run(w, events).windows, key) == []
    ensures events != [] ==>
              Agree(Of(Run(w, events).windows, key), TimesOf(Run(w, events).log, key),
                    events[|events| - 1].now - w(key))
  {
    if events != [] {
      var n := |events| - 1;
      var init := events[..n];
      RunAgrees(w, init, key);
      var before := if n == 0 then events[n].now else init[n - 1].now;
      StepAgrees(w, Run(w, init), events[n], key, before);
    }
  }

  /** For a steady clock the pruned lists decide every request as the complete accept log would. */
  lemma DecidesAsTheLog(w: WindowOf, events: seq<Event>, key: string, limit: int, now: real)
    requires Steady(events + [Check(key, limit, now)]) && Retentive(w, events)
    ensures Alike(w, Run(w, events), key, limit, now)
  {
    var all := events + [Check(key, limit, now)];
    SteadyPrefix(all, |events|);
    assert all[..|events|] == events;
    RunAgrees(w, events, key);
    if events != [] {
      assert all[|events| - 1].now <= all[|events|].now;
    }
  }

  lemma SteadyPrefix(events: seq<Event>, n: nat)
    requires Steady(events) && n <= |events|
    ensures Steady(events[..n])
  {
  }

  predicate NoCleanup(events: seq<Event>) {
    forall i :: 0 <= i < |events| ==> events[i].Check?
  }

  function WithoutCleanup(events: seq<Event>): seq<Event> {
    if events == [] then []
    else
      var init, last := WithoutCleanup(events[..|events| - 1]), events[|events| - 1];
      if last.Check? then init + [last] else init
  }

  lemma {:induction false} WithoutCleanupRefines(w: WindowOf, events: seq<Event>)
    requires Steady(events) && Retentive(w, events)
    ensures NoCleanup(WithoutCleanup(events))
    ensures Steady(WithoutCleanup(events))
    ensures forall e :: e in WithoutCleanup(events) ==> e in events
    ensures Run(w, WithoutCleanup(events)).log == Run(w, events).log
  {
    if events != [] {
      var n := |events| - 1;
      WithoutCleanupRefines(w, events[..n]);
      var init, last := WithoutCleanup(events[..n]), events[n];
      if last.Check? {
        assert events[..n] + [last] == events;
        assert (init + [last])[..|init|] == init;
        forall i | 0 <= i < |init| ensures init[i].now <= last.now {
          assert init[i] in events[..n];
        }
        DecidesAsTheLog(w, events[..n], last.key, last.limit, last.now);
        DecidesAsTheLog(w, init, last.key, last.limit, last.now);
      }
    }
  }

  /** Cleanup never changes a decision: the same requests without any cleanup are accepted at the same times. */
  lemma CleanupIsInvisible(w: WindowOf, events: seq<Event>, key: string, limit: int, now: real)
    requires Steady(events + [Check(key, limit, now)]) && Retentive(w, events)
    ensures var bare := WithoutCleanup(events);
            && NoCleanup(bare) && Run(w, bare).log == Run(w, events).log
            && Checked(Run(w, events).windows, key, limit, w(key), now).1
               == Checked(Run(w, bare).windows, key, limit, w(key), now).1
  {
    var all, bare := events + [Check(key, limit, now)], WithoutCleanup(events);
    SteadyPrefix(all, |events|);
    assert all[..|events|] == events;
    WithoutCleanupRefines(w, events);
    forall i | 0 <= i < |bare| ensures bare[i].now <= now {
      assert bare[i] in events;
      var j :| 0 <= j < |events| && events[j] == bare[i];
      assert all[j] == events[j] && all[|events|].now == now;
    }
    DecidesAsTheLog(w, events, key, limit, now);
    DecidesAsTheLog(w, bare, key, limit, now);
  }

  // ---------------------------------------------------------------------------- the guarantee

  /** No request of `key` asks for more than `most`. */
  predicate LimitedTo(events: seq<Event>, key: string, most: int) {
    forall i :: 0 <= i < |events| && events[i].Check? && events[i].key == key ==> events[i].limit <= most
  }

  predicate Sorted(times: seq<real>) {
    forall i, j :: 0 <= i < j < |times| ==> times[i] <= times[j]
  }

  /** Any stretch of times shorter than the window holds at most `most` of them. */
  predicate Spread(times: seq<real>, window: real, most: int) {
    forall i, j :: 0 <= i <= j < |times| && times[j] - times[i] < window ==> j - i + 1 <= most
  }

  lemma {:induction false} KeepsSuffix(times: seq<real>, cutoff: real, i: nat)
    requires Sorted(times) && i < |times| && times[i] > cutoff
    ensures |Keep(times, cutoff)| >= |times| - i
  {
    var n := |times| - 1;
    assert i < n ==> times[i] <= times[n];
    if i < n {
      KeepsSuffix(times[..n], cutoff, i);
    }
  }

  lemma SpreadSnoc(times: seq<real>, window: real, most: int, limit: int, now: real)
    requires Sorted(times + [now]) && Spread(times, window, most) && limit <= most
    requires |Keep(times, now - window)| < limit
    ensures Spread(times + [now], window, most)
  {
    var all := times + [now];
    forall i, j | 0 <= i <= j < |all| && all[j] - all[i] < window ensures j - i + 1 <= most {
      if j < |times| {
        assert times[j] - times[i] < window;
      } else if i < |times| {
        assert Sorted(times) by {
          forall a, b | 0 <= a < b < |times| ensures times[a] <= times[b] {
            assert all[a] <= all[b];
          }
        }
        KeepsSuffix(times, now - window, i);
      }
    }
  }

  predicate UpTo(times: seq<real>, now: real) {
    forall i :: 0 <= i < |times| ==> times[i] <= now
  }

  lemma SortedSnoc(times: seq<real>, now: real)
    requires Sorted(times) && UpTo(times, now)
    ensures Sorted(times + [now]) && UpTo(times + [now], now)
  {
  }

  predicate SpreadUpTo(times: seq<real>, window: real, most: int, now: real) {
    Sorted(times) && Spread(times, window, most) && UpTo(times, now)
  }

  lemma AcceptSpread(times: seq<real>, window: real, most: int, limit: int, now: real)
    requires SpreadUpTo(times, window, most, now) && limit <= most && |Keep(times, now - window)| < limit
    ensures SpreadUpTo(times + [now], window, most, now)
  {
    SortedSnoc(times, now);
    SpreadSnoc(times, window, most, limit, now);
  }

  lemma StepSpread(w: WindowOf, s: State, e: Event, key: string, most: int)
    requires SpreadUpTo(TimesOf(s.log, key), w(key), most, e.now)
    requires e.Check? && e.key == key ==> e.limit <= most && Alike(w, s, key, e.limit, e.now)
    ensures SpreadUpTo(TimesOf(Step(w, s, e).log, key), w(key), most, e.now)
  {
    if e.Check? && e.key == key {
      CheckIs(w, s, e.limit, e.now, key);
      if LogAllows(s.log, key, e.limit, w(key), e.now) {
        AcceptSpread(TimesOf(s.log, key), w(key), most, e.limit, e.now);
      }
    } else if e.Check? {
      OtherKeysStay(w, s, e.key, e.limit, e.now, key);
    }
  }

  /** Over any run: accepted requests of a key come in order, and any stretch of time shorter than the
      window holds at most as many as the largest limit asked for that key. */
  lemma {:induction false} AcceptedSpread(w: WindowOf, events: seq<Event>, key: string, most: int)
    requires Steady(events) && Retentive(w, events) && LimitedTo(events, key, most)
    ensures var times := TimesOf(Run(w, events).log, key);
            if events == [] then times == [] else SpreadUpTo(times, w(key), most, events[|events| - 1].now)
  {
    if events != [] {
      var n := |events| - 1;
      var init, last := events[..n], events[n];
      AcceptedSpread(w, init, key, most);
      assert init != [] ==> init[n - 1].now <= last.now;
      if last.Check? && last.key == key {
        InitLast(events);
        DecidesAsTheLog(w, init, key, last.limit, last.now);
      }
      StepSpread(w, Run(w, init), last, key, most);
    }
  }

  // ------------------------------------------------------------------------------- the limits

  lemma FirstAccepted(w: WindowOf, key: string, rest: seq<Event>)
    requires |rest| == 1
    ensures Run(w, [Check(key, 1, 0.0)] + rest) == Step(w, State(map[key := [0.0]], [Accept(key, 0.0)]), rest[0])
  {
    var events := [Check(key, 1, 0.0)] + rest;
    assert events[..1] == [Check(key, 1, 0.0)];
    var empty := State(map[], []);
    var none: Windows := map[];
    assert Keep(Of(none, key), 0.0 - w(key)) == [];
    assert [] + [0.0] == [0.0] && none[key := [0.0]] == map[key := [0.0]];
    assert Checked(none, key, 1, w(key), 0.0) == (map[key := [0.0]], true);
    assert [] + [Accept(key, 0.0)] == [Accept(key, 0.0)];
    assert Step(w, empty, events[0]) == State(map[key := [0.0]], [Accept(key, 0.0)]);
    assert events[..1][..0] == [];
    assert Run(w, events[..1]) == Step(w, empty, events[0]);
  }

  lemma OneKept(time: real, cutoff: real)
    ensures Keep([time], cutoff) == if time > cutoff then [time] else []
  {
    KeepSnoc([], time, cutoff);
  }

  /** Where the guarantee ends: an interval that includes both ends can hold one request more. */
  lemma ClosedIntervalHoldsMore(key: string, window: real)
    requires window > 0.0
    ensures var events := [Check(key, 1, 0.0), Check(key, 1, window)];
            TimesOf(Run(_ => window, events).log, key) == [0.0, window]
  {
    var w: WindowOf := _ => window;
    FirstAccepted(w, key, [Check(key, 1, window)]);
    assert [Check(key, 1, 0.0)] + [Check(key, 1, window)] == [Check(key, 1, 0.0), Check(key, 1, window)];
    OneKept(0.0, 0.0);
    TimesSnoc([], Accept(key, 0.0), key);
    TimesSnoc([Accept(key, 0.0)], Accept(key, window), key);
  }

  /** The limiter accepts what the complete log would refuse. */
  ghost predicate Forgets(events: seq<Event>, key: string, window: real, now: real) {
    && Checked(Run(_ => window, events).windows, key, 1, window, now).1
    && !LogAllows(Run(_ => window, events).log, key, 1, window, now)
  }

  lemma AfterCleanup(key: string, window: real, now: real, later: real)
    requires now > STALE_AFTER && later < window
    ensures Forgets([Check(key, 1, 0.0), Cleanup(now)], key, window, later)
  {
    var w: WindowOf := _ => window;
    var events := [Check(key, 1, 0.0), Cleanup(now)];
    assert events == [Check(key, 1, 0.0)] + [Cleanup(now)];
    FirstAccepted(w, key, [Cleanup(now)]);
    assert Stale([0.0], now);
    assert Run(w, events) == State(map[], [Accept(key, 0.0)]);
    TimesSnoc([], Accept(key, 0.0), key);
    OneKept(0.0, later - window);
  }

  /** For every longer window cleanup does change a decision. */
  lemma LongWindowsForget(key: string, window: real)
    requires window > STALE_AFTER
    ensures exists events, now :: Steady(events + [Check(key, 1, now)]) && Forgets(events, key, window, now)
  {
    var now := (STALE_AFTER + window) / 2.0;
    var events := [Check(key, 1, 0.0), Cleanup(now)];
    AfterCleanup(key, window, now, now);
    assert Steady(events + [Check(key, 1, now)]);
  }

  /** And for every window a clock that goes back does. */
  lemma BackwardClockForgets(key: string, window: real)
    requires window > 0.0
    ensures exists events, now :: Forgets(events, key, window, now)
  {
    AfterCleanup(key, window, STALE_AFTER + 1.0, 0.0);
  }

  /** For steady clocks, cleanup is harmless exactly for windows of at most an hour. */
  lemma HarmlessExactlyForShortWindows(key: string, window: real)
    ensures (forall events, limit, now :: Steady(events + [Check(key, limit, now)]) ==>
               Alike(_ => window, Run(_ => window, events), key, limit, now))
            == (window <= STALE_AFTER)
  {
    var w: WindowOf := _ => window;
    if window <= STALE_AFTER {
      forall events, limit, now | Steady(events + [Check(key, limit, now)])
        ensures Alike(w, Run(w, events), key, limit, now)
      {
        DecidesAsTheLog(w, events, key, limit, now);
      }
    } else {
      LongWindowsForget(key, window);
      var events, now :| Steady(events + [Check(key, 1, now)]) && Forgets(events, key, window, now);
      assert !Alike(w, Run(w, events), key, 1, now);
    }
  }

  // --------------------------------------------------------- any clock: what is lost, exactly

  /** The same checks and cleanups at the same clock readings, under other limits. */
  function Relimited(events: seq<Event>, limits: seq<int>): (r: seq<Event>)
    requires |limits| == |events|
    ensures |r| == |events|
  {
    seq(|events|, i requires 0 <= i < |events| =>
      match events[i]
      case Check(key, _, now) => Check(key, limits[i], now)
      case Cleanup(now) => Cleanup(now))
  }

  /** The event removes what was accepted for `key` at `t`: a check of the key with a later cutoff, or a
      cleanup to which it is stale. */
  predicate Forgetting(window: real, e: Event, key: string, t: real) {
    if e.Check? then e.key == key && t <= e.now - window else t < e.now - STALE_AFTER
  }

  /** Event `i` would still count at `now`, but event `x` in between forgets it. */
  predicate Lost(window: real, events: seq<Event>, key: string, now: real, i: int, x: int) {
    && 0 <= i < x < |events|
    && events[i].Check? && events[i].key == key && events[i].now > now - window
    && Forgetting(window, events[x], key, events[i].now)
  }

  ghost predicate NothingLost(window: real, events: seq<Event>, key: string, now: real) {
    forall i, x :: !Lost(window, events, key, now, i, x)
  }

  ghost predicate AlikeUnderAllLimits(w: WindowOf, events: seq<Event>, key: string, now: real) {
    forall limits, limit :: |limits| == |events| ==> Alike(w, Run(w, Relimited(events, limits)), key, limit, now)
  }

  lemma {:induction false} KeepMembers(times: seq<real>, cutoff: real)
    ensures forall t :: t in Keep(times, cutoff) <==> t in times && t > cutoff
  {
    if times != [] {
      KeepMembers(times[..|times| - 1], cutoff);
    }
  }

  /** Pruning at `other` is invisible at `cutoff` if it removes nothing after `cutoff`. */
  lemma {:induction false} KeepAcross(times: seq<real>, other: real, cutoff: real)
    requires forall t :: t in times && t > cutoff ==> t > other
    ensures Keep(Keep(times, other), cutoff) == Keep(times, cutoff)
  {
    if times != [] {
      var init, last := times[..|times| - 1], times[|times| - 1];
      assert last in times;
      forall t | t in init && t > cutoff ensures t > other {
        assert t in times;
      }
      KeepAcross(init, other, cutoff);
      if last > other {
        KeepSnoc(Keep(init, other), last, cutoff);
      }
    }
  }

  /** What is stored for the key are times of its earlier checks. */
  ghost predicate FromChecks(times: seq<real>, events: seq<Event>, key: string) {
    forall t :: t in times ==> CheckedAt(events, key, t)
  }

  predicate CheckedAt(events: seq<Event>, key: string, t: real) {
    exists i :: 0 <= i < |events| && events[i].Check? && events[i].key == key && events[i].now == t
  }

  lemma CheckedAtMore(events: seq<Event>, key: string, t: real)
    requires events != [] && CheckedAt(events[..|events| - 1], key, t)
    ensures CheckedAt(events, key, t)
  {
    var n := |events| - 1;
    var i :| 0 <= i < n && events[..n][i].Check? && events[..n][i].key == key && events[..n][i].now == t;
    assert events[i] == events[..n][i];
  }

  lemma {:induction false} StoredFromChecks(w: WindowOf, events: seq<Event>, key: string)
    ensures FromChecks(Of(Run(w, events).windows, key), events, key)
  {
    if events != [] {
      var n := |events| - 1;
      var s, e := Run(w, events[..n]), events[n];
      StoredFromChecks(w, events[..n], key);
      forall t | t in Of(Run(w, events).windows, key) ensures CheckedAt(events, key, t) {
        if t in Of(s.windows, key) {
          CheckedAtMore(events, key, t);
        } else {
          NewOnly(w, s, e, key, t);
          assert events[n] == e;
        }
      }
    }
  }

  lemma NewOnly(w: WindowOf, s: State, e: Event, key: string, t: real)
    requires t in Of(Step(w, s, e).windows, key) && t !in Of(s.windows, key)
    ensures e.Check? && e.key == key && t == e.now
  {
    if e.Check? {
      KeepMembers(Of(s.windows, e.key), e.now - w(e.key));
    }
  }

  lemma StillLost(window: real, events: seq<Event>, key: string, now: real, n: nat)
    requires n <= |events| && NothingLost(window, events, key, now)
    ensures NothingLost(window, events[..n], key, now)
  {
    forall i, x ensures !Lost(window, events[..n], key, now, i, x) {
      if 0 <= i < x < n {
        assert events[..n][i] == events[i] && events[..n][x] == events[x];
        assert !Lost(window, events, key, now, i, x);
      }
    }
  }

  /** A stored time that still counts survives the next event. */
  lemma NotForgotten(window: real, events: seq<Event>, key: string, now: real, t: real)
    requires events != [] && NothingLost(window, events, key, now)
    requires CheckedAt(events[..|events| - 1], key, t) && t > now - window
    ensures !Forgetting(window, events[|events| - 1], key, t)
  {
    var n := |events| - 1;
    var i :| 0 <= i < n && events[..n][i].Check? && events[..n][i].key == key && events[..n][i].now == t;
    assert events[i] == events[..n][i];
    assert !Lost(window, events, key, now, i, n);
  }

  lemma {:induction false} LatestIsThere(times: seq<real>)
    requires times != []
    ensures Latest(times) in times && forall t :: t in times ==> t <= Latest(times)
  {
    InitLast(times);
    if |times| > 1 {
      LatestIsThere(times[..|times| - 1]);
    }
  }

  lemma StaleKeepsNothing(times: seq<real>, now: real, cutoff: real)
    requires Stale(times, now) && forall t :: t in times && t > cutoff ==> t >= now - STALE_AFTER
    ensures Keep(times, cutoff) == []
  {
    if times != [] {
      LatestIsThere(times);
    }
    KeepNothing(times, cutoff);
  }

  lemma SameAfterCheck(pruned: seq<real>, complete: seq<real>, other: real, now: real, cutoff: real)
    requires Keep(pruned, cutoff) == Keep(complete, cutoff)
    requires forall t :: t in pruned && t > cutoff ==> t > other
    ensures Keep(Keep(pruned, other), cutoff) == Keep(complete, cutoff)
    ensures Keep(Keep(pruned, other) + [now], cutoff) == Keep(complete + [now], cutoff)
  {
    KeepAcross(pruned, other, cutoff);
    KeepSnoc(Keep(pruned, other), now, cutoff);
    KeepSnoc(complete, now, cutoff);
  }

  lemma SameCountCheck(w: WindowOf, s: State, key: string, limit: int, now: real, cutoff: real)
    requires Keep(Of(s.windows, key), cutoff) == Keep(TimesOf(s.log, key), cutoff)
    requires forall t :: t in Of(s.windows, key) && t > cutoff ==> t > now - w(key)
    ensures var next := Step(w, s, Check(key, limit, now));
            Keep(Of(next.windows, key), cutoff) == Keep(TimesOf(next.log, key), cutoff)
  {
    CheckIs(w, s, limit, now, key);
    SameAfterCheck(Of(s.windows, key), TimesOf(s.log, key), now - w(key), now, cutoff);
  }

  lemma SameCountStep(w: WindowOf, s: State, e: Event, key: string, cutoff: real)
    requires Keep(Of(s.windows, key), cutoff) == Keep(TimesOf(s.log, key), cutoff)
    requires forall t :: t in Of(s.windows, key) && t > cutoff ==> !Forgetting(w(key), e, key, t)
    ensures var next := Step(w, s, e); Keep(Of(next.windows, key), cutoff) == Keep(TimesOf(next.log, key), cutoff)
  {
    match e
    case Check(k, limit, now) =>
      if k == key {
        SameCountCheck(w, s, key, limit, now, cutoff);
      } else {
        OtherKeysStay(w, s, k, limit, now, key);
      }
    case Cleanup(now) =>
      if key in s.windows && Stale(s.windows[key], now) {
        StaleKeepsNothing(s.windows[key], now, cutoff);
      }
  }

  lemma {:induction false} SameCount(w: WindowOf, events: seq<Event>, key: string, now: real)
    requires NothingLost(w(key), events, key, now)
    ensures var s := Run(w, events);
            Keep(Of(s.windows, key), now - w(key)) == Keep(TimesOf(s.log, key), now - w(key))
  {
    if events != [] {
      var n := |events| - 1;
      var s := Run(w, events[..n]);
      StillLost(w(key), events, key, now, n);
      SameCount(w, events[..n], key, now);
      StoredFromChecks(w, events[..n], key);
      forall t | t in Of(s.windows, key) && t > now - w(key)
        ensures !Forgetting(w(key), events[n], key, t)
      {
        NotForgotten(w(key), events, key, now, t);
      }
      SameCountStep(w, s, events[n], key, now - w(key));
    }
  }

  // The other half: one accepted request, nothing else let through.

  function Only(n: nat, i: nat): seq<int> {
    seq(n, j => if j == i then 1 else 0)
  }

  lemma {:induction false} NothingYet(w: WindowOf, events: seq<Event>)
    requires forall j :: 0 <= j < |events| && events[j].Check? ==> events[j].limit == 0
    ensures Run(w, events).log == [] && forall key :: Of(Run(w, events).windows, key) == []
  {
    if events != [] {
      var init, e := events[..|events| - 1], events[|events| - 1];
      NothingYet(w, init);
      var s := Run(w, init);
      forall key ensures Of(Step(w, s, e).windows, key) == [] {
        assert Of(s.windows, key) == [];
        if e.Check? {
          assert Of(s.windows, e.key) == [] && Keep([], e.now - w(e.key)) == [];
        }
      }
    }
  }

  /** The state after the one accepted request of `key` at `t`: it is remembered or forgotten. */
  ghost predicate OneAccepted(s: State, key: string, t: real, forgotten: bool) {
    && s.log == [Accept(key, t)]
    && (Of(s.windows, key) == [] || (!forgotten && Of(s.windows, key) == [t]))
  }

  lemma OneAcceptedStep(w: WindowOf, s: State, e: Event, key: string, t: real, forgotten: bool)
    requires OneAccepted(s, key, t, forgotten) && (e.Check? ==> e.limit == 0)
    ensures OneAccepted(Step(w, s, e), key, t, forgotten || Forgetting(w(key), e, key, t))
  {
    match e
    case Check(k, limit, now) =>
      if k != key {
        OtherKeysStay(w, s, k, limit, now, key);
      } else {
        OneKept(t, now - w(key));
      }
    case Cleanup(now) =>
  }

  lemma {:induction false} OneAcceptedRun(w: WindowOf, events: seq<Event>, key: string, i: nat, x: nat)
    requires i < x <= |events| && events[i].Check? && events[i].key == key && events[i].limit == 1
    requires forall j :: 0 <= j < |events| && j != i && events[j].Check? ==> events[j].limit == 0
    ensures OneAccepted(Run(w, events), key, events[i].now,
                        x < |events| && Forgetting(w(key), events[x], key, events[i].now))
    decreases |events|
  {
    var n := |events| - 1;
    var init := events[..n];
    if i == n {
      NothingYet(w, init);
      assert Keep([], events[n].now - w(key)) == [];
    } else if x < |events| {
      OneAcceptedRun(w, init, key, i, x);
      OneAcceptedStep(w, Run(w, init), events[n], key, events[i].now,
                      x < n && Forgetting(w(key), init[if x < n then x else i], key, events[i].now));
    } else {
      OneAcceptedRun(w, init, key, i, n);
      OneAcceptedStep(w, Run(w, init), events[n], key, events[i].now, false);
    }
  }

  lemma LostDiffers(w: WindowOf, events: seq<Event>, key: string, now: real, i: nat, x: nat)
    requires Lost(w(key), events, key, now, i, x)
    ensures !Alike(w, Run(w, Relimited(events, Only(|events|, i))), key, 1, now)
  {
    var chosen := Relimited(events, Only(|events|, i));
    var t := events[i].now;
    OneAcceptedRun(w, chosen, key, i, x);
    assert Of(Run(w, chosen).windows, key) == [];
    TimesSnoc([], Accept(key, t), key);
    assert [] + [Accept(key, t)] == [Accept(key, t)];
    OneKept(t, now - w(key));
  }

  /** For any clock readings, forwards or backwards, with any cleanups: the pruned list decides the next
      request as the complete log does, under every choice of limits, if and only if no event between an
      earlier request that still counts and the next one forgets it. */
  lemma AlikeExactly(w: WindowOf, events: seq<Event>, key: string, now: real)
    ensures AlikeUnderAllLimits(w, events, key, now) <==> NothingLost(w(key), events, key, now)
  {
    if NothingLost(w(key), events, key, now) {
      forall limits, limit | |limits| == |events| ensures Alike(w, Run(w, Relimited(events, limits)), key, limit, now) {
        var chosen := Relimited(events, limits);
        forall i, x ensures !Lost(w(key), chosen, key, now, i, x) {
          assert !Lost(w(key), events, key, now, i, x);
        }
        SameCount(w, chosen, key, now);
      }
    } else {
      var i, x :| Lost(w(key), events, key, now, i, x);
      LostDiffers(w, events, key, now, i, x);
    }
  }

  // ---------------------------------------------------------------- how long a stretch may be

  /** Any stretch of at most `span` holds at most `most` of the times. */
  predicate SpreadOver(times: seq<real>, span: real, most: int) {
    forall i, j :: 0 <= i <= j < |times| && times[j] - times[i] <= span ==> j - i + 1 <= most
  }

  ghost predicate Guaranteed(key: string, window: real, span: real) {
    forall events, most :: Steady(events) && NoCleanup(events) && LimitedTo(events, key, most) ==>
      SpreadOver(TimesOf(Run(_ => window, events).log, key), span, most)
  }

  /** The limit holds for stretches of a given length if and only if they are shorter than the window. */
  lemma GuaranteedExactly(key: string, window: real, span: real)
    requires window > 0.0
    ensures Guaranteed(key, window, span) <==> span < window
  {
    var w: WindowOf := _ => window;
    if span < window {
      forall events, most | Steady(events) && NoCleanup(events) && LimitedTo(events, key, most)
        ensures SpreadOver(TimesOf(Run(w, events).log, key), span, most)
      {
        AcceptedSpread(w, events, key, most);
      }
    } else {
      var events := [Check(key, 1, 0.0), Check(key, 1, window)];
      ClosedIntervalHoldsMore(key, window);
      var times := TimesOf(Run(w, events).log, key);
      assert times[1] - times[0] <= span;
      assert !SpreadOver(times, span, 1);
      assert LimitedTo(events, key, 1) && Steady(events) && NoCleanup(events);
    }
  }

  // --------------------------------------------------------------------------- the middleware

  datatype Request = Request(path: string, method_: string, authorization: string, ip: string)

  const WINDOW: real := 60.0

  /** The limit and the key of a request; `fingerprint` hashes the bearer token. */
  function RateConfig(fingerprint: string -> string, r: Request): Option<(int, string)> {
    if StartsWith(r.path, "/api/v1/auth/") then
      if r.path in {"/api/v1/auth/login", "/api/v1/auth/register", "/api/v1/auth/gquan/login"} then
        Some((10, "ip:" + r.ip))
      else if r.path == "/api/v1/auth/verification-codes" then Some((5, "ip:" + r.ip))
      else Some((30, "ip:" + r.ip))
    else if StartsWith(r.path, "/api/v1/") && r.method_ in {"POST", "PUT", "PATCH", "DELETE"} then
      if r.authorization != "" then Some((100, "user:" + fingerprint(r.authorization)))
      else Some((20, "ip:" + r.ip))
    else if StartsWith(r.path, "/agent/v1/") then
      if r.authorization != "" then Some((1000, "agent:" + fingerprint(r.authorization)))
      else Some((50, "ip:" + r.ip))
    else None
  }

  /** What reaches the limiter: requests, and the cleanup the server performs every five minutes. */
  datatype Arrival = Incoming(request: Request, at: real) | Tick(at: real)

  /** The events the middleware and the cleanup task cause: one check for every request with a limit. */
  function Checks(fingerprint: string -> string, arrivals: seq<Arrival>): seq<Event> {
    if arrivals == [] then []
    else
      var n := |arrivals| - 1;
      var init := Checks(fingerprint, arrivals[..n]);
      match arrivals[n]
      case Tick(at) => init + [Cleanup(at)]
      case Incoming(request, at) =>
        var config := RateConfig(fingerprint, request);
        if config.Some? then init + [Check(config.value.1, config.value.0, at)] else init
  }

  predicate Ordered(arrivals: seq<Arrival>) {
    forall i, j :: 0 <= i < j < |arrivals| ==> arrivals[i].at <= arrivals[j].at
  }

  lemma AddressLimits(fingerprint: string -> string, r: Request, ip: string)
    ensures var c := RateConfig(fingerprint, r); c.Some? && c.value.1 == "ip:" + ip ==> c.value.0 <= 50
  {
    var c := RateConfig(fingerprint, r);
    if c.Some? && c.value.1 == "ip:" + ip {
      assert c.value.1[0] == 'i';
      assert ("user:" + fingerprint(r.authorization))[0] == 'u';
      assert ("agent:" + fingerprint(r.authorization))[0] == 'a';
    }
  }

  lemma {:induction false} ChecksAreSteady(fingerprint: string -> string, arrivals: seq<Arrival>, ip: string)
    requires Ordered(arrivals)
    ensures Steady(Checks(fingerprint, arrivals))
    ensures LimitedTo(Checks(fingerprint, arrivals), "ip:" + ip, 50)
    ensures forall e :: e in Checks(fingerprint, arrivals) ==>
              arrivals != [] && e.now <= arrivals[|arrivals| - 1].at
  {
    if arrivals != [] {
      var n := |arrivals| - 1;
      ChecksAreSteady(fingerprint, arrivals[..n], ip);
      if arrivals[n].Incoming? {
        AddressLimits(fingerprint, arrivals[n].request, ip);
      }
      var init := Checks(fingerprint, arrivals[..n]);
      forall e | e in init ensures e.now <= arrivals[n].at {
        assert n > 0 && arrivals[n - 1].at <= arrivals[n].at;
      }
      forall i | 0 <= i < |init| ensures init[i].now <= arrivals[n].at {
        assert init[i] in init;
      }
    }
  }

  /** Whatever an address sends, signed in or not at all, and whenever cleanup runs: less than a minute lets
      through at most 50 of the requests that are counted against it. */
  lemma AtMostFiftyPerMinute(fingerprint: string -> string, arrivals: seq<Arrival>, ip: string)
    requires Ordered(arrivals)
    ensures Spread(TimesOf(Run(_ => WINDOW, Checks(fingerprint, arrivals)).log, "ip:" + ip), WINDOW, 50)
  {
    ChecksAreSteady(fingerprint, arrivals, ip);
    AcceptedSpread(_ => WINDOW, Checks(fingerprint, arrivals), "ip:" + ip, 50);
  }
}
