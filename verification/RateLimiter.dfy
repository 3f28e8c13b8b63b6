/** The enrollment rate limiter (internal/controlplane/service.go). */
module RateLimiter {
  import opened Words

  type Instant = int

  const CAPACITY := 4096

  /** Go's zero time, 1 January of year 1, in nanoseconds from 1970. */
  const ZERO_TIME: Instant := -62_135_596_800_000_000_000

  datatype Window = Window(start: Instant, count: int)

  function Lookup(windows: map<string, Window>, key: string): Window {
    if key in windows then windows[key] else Window(ZERO_TIME, 0)
  }

  /** A full table forgets the windows that are over. */
  function Evicted(windows: map<string, Window>, duration: int, now: Instant): map<string, Window> {
    if |windows| < CAPACITY then windows else
      map k | k in windows && now - windows[k].start < duration :: windows[k]
  }

  function Allowed(windows: map<string, Window>, key: string, maximum: int, duration: int, now: Instant)
    : (map<string, Window>, bool)
  {
    var kept := Evicted(windows, duration, now);
    var w := Lookup(kept, key);
    if key !in kept && |kept| >= CAPACITY then (kept, false)
    else if w.start == ZERO_TIME || now - w.start >= duration then (kept[key := Window(now, 1)], true)
    else if w.count >= maximum then (kept, false)
    else (kept[key := w.(count := w.count + 1)], true)
  }

  class RateLimiter {
    var windows: map<string, Window>

    constructor ()
      ensures windows == map[]
    {
      windows := map[];
    }

    method Allow(key: string, maximum: int, duration: int, now: Instant) returns (granted: bool)
      modifies this
      ensures (windows, granted) == Allowed(old(windows), key, maximum, duration, now)
    {
      var window, found := Lookup(windows, key), key in windows;
      if |windows| >= CAPACITY {
        EvictOver(duration, now);
        window, found := Lookup(windows, key), key in windows;
        if !found && |windows| >= CAPACITY {
          return false;
        }
      }
      if window.start == ZERO_TIME || now - window.start >= duration {
        windows := windows[key := Window(now, 1)];
        return true;
      }
      if window.count >= maximum {
        return false;
      }
      window := window.(count := window.count + 1);
      windows := windows[key := window];
      return true;
    }

    method EvictOver(duration: int, now: Instant)
      modifies this
      ensures windows == map k | k in old(windows) && now - old(windows)[k].start < duration :: old(windows)[k]
    {
      var keys := windows.Keys;
      while keys != {}
        invariant keys <= old(windows).Keys
        invariant windows == map k | k in old(windows) && (k in keys || now - old(windows)[k].start < duration) ::
                               old(windows)[k]
        decreases keys
      {
        var current :| current in keys;
        if now - windows[current].start >= duration {
          windows := windows - {current};
        }
        keys := keys - {current};
      }
    }
  }

  // ----- every run -----

  /** A request granted at `at`, counted in the window begun at `start`. */
  datatype Grant = Grant(key: string, at: Instant, start: Instant)

  datatype State = State(windows: map<string, Window>, log: seq<Grant>, clock: Instant)

  datatype Call = Call(key: string, now: Instant)

  function Step(maximum: int, duration: int, s: State, c: Call): State {
    var (windows, granted) := Allowed(s.windows, c.key, maximum, duration, c.now);
    State(windows, if granted then s.log + [Grant(c.key, c.now, Lookup(windows, c.key).start)] else s.log, c.now)
  }

  /** Time does not run backwards. */
  predicate Timely(clock: Instant, calls: seq<Call>)
    decreases |calls|
  {
    calls == [] || (clock <= calls[0].now && Timely(calls[0].now, calls[1..]))
  }

  function Run(maximum: int, duration: int, s: State, calls: seq<Call>): State
    decreases |calls|
  {
    if calls == [] then s else Run(maximum, duration, Step(maximum, duration, s, calls[0]), calls[1..])
  }

  /** The log of a run: one more call is decided by the table the run left, and noted exactly if it is granted. */
  lemma {:induction false} CallIsLogged(maximum: int, duration: int, s: State, calls: seq<Call>, c: Call)
    ensures var before, after := Run(maximum, duration, s, calls), Run(maximum, duration, s, calls + [c]);
            && after.windows == Allowed(before.windows, c.key, maximum, duration, c.now).0
            && (if Allowed(before.windows, c.key, maximum, duration, c.now).1
                then exists start :: after.log == before.log + [Grant(c.key, c.now, start)]
                else after.log == before.log)
    decreases |calls|
  {
    if calls == [] {
      assert calls + [c] == [c] && [c][1..] == [];
    } else {
      assert (calls + [c])[1..] == calls[1..] + [c];
      CallIsLogged(maximum, duration, Step(maximum, duration, s, calls[0]), calls[1..], c);
    }
  }

  /** How many requests of `key` were granted from `lo` to `hi`. */
  function Granted(log: seq<Grant>, key: string, lo: Instant, hi: Instant): nat {
    if log == [] then 0 else
      var g := log[|log| - 1];
      Granted(log[..|log| - 1], key, lo, hi) + if g.key == key && lo <= g.at <= hi then 1 else 0
  }

  /** How many were counted in the window begun at `start`. */
  function InWindow(log: seq<Grant>, key: string, start: Instant): nat {
    if log == [] then 0 else
      var g := log[|log| - 1];
      InWindow(log[..|log| - 1], key, start) + if g.key == key && g.start == start then 1 else 0
  }

  function Limit(maximum: int): nat {
    if maximum < 1 then 1 else maximum
  }

  // ----- the invariant -----

  ghost predicate Apart(a: Instant, b: Instant, duration: int) {
    a == b || a + duration <= b || b + duration <= a
  }

  ghost predicate Within(log: seq<Grant>, duration: int) {
    forall i :: 0 <= i < |log| ==> log[i].start <= log[i].at < log[i].start + duration
  }

  ghost predicate NoOverlap(log: seq<Grant>, duration: int) {
    forall i, j :: 0 <= i < j < |log| && log[i].key == log[j].key ==> Apart(log[i].start, log[j].start, duration)
  }

  ghost predicate NotOverdrawn(log: seq<Grant>, maximum: int) {
    forall key, start :: InWindow(log, key, start) <= Limit(maximum)
  }

  /** Windows last `duration`, do not overlap and are not overdrawn. */
  ghost predicate FairLog(log: seq<Grant>, maximum: int, duration: int) {
    Within(log, duration) && NoOverlap(log, duration) && NotOverdrawn(log, maximum)
  }

  ghost predicate Counted(windows: map<string, Window>, log: seq<Grant>, clock: Instant) {
    forall k :: k in windows ==>
      && ZERO_TIME < windows[k].start <= clock
      && windows[k].count == InWindow(log, k, windows[k].start) >= 1
  }

  ghost predicate Latest(windows: map<string, Window>, log: seq<Grant>, duration: int, clock: Instant) {
    forall i :: 0 <= i < |log| ==>
      && log[i].at <= clock
      && (if log[i].key in windows then log[i].start <= windows[log[i].key].start else log[i].start + duration <= clock)
  }

  /** The table holds each key's latest window, unless that is over. */
  ghost predicate Tabled(s: State, duration: int) {
    |s.windows| <= CAPACITY && Counted(s.windows, s.log, s.clock) && Latest(s.windows, s.log, duration, s.clock)
  }

  ghost predicate Sound(s: State, maximum: int, duration: int) {
    FairLog(s.log, maximum, duration) && Tabled(s, duration) && ZERO_TIME < s.clock
  }

  lemma {:induction false} NoneInWindow(log: seq<Grant>, key: string, start: Instant)
    requires forall i :: 0 <= i < |log| && log[i].key == key ==> log[i].start != start
    ensures InWindow(log, key, start) == 0
    decreases |log|
  {
    if log != [] {
      var rest := log[..|log| - 1];
      assert forall i :: 0 <= i < |rest| ==> rest[i] == log[i];
      NoneInWindow(rest, key, start);
    }
  }

  lemma AppendInWindow(log: seq<Grant>, g: Grant, key: string, start: Instant)
    ensures InWindow(log + [g], key, start)
         == InWindow(log, key, start) + if g.key == key && g.start == start then 1 else 0
  {
    assert (log + [g])[..|log|] == log;
  }

  /** Forgetting windows that are over changes nothing that matters. */
  lemma EvictKeeps(s: State, maximum: int, duration: int, now: Instant)
    requires Sound(s, maximum, duration) && s.clock <= now
    ensures Sound(State(Evicted(s.windows, duration, now), s.log, now), maximum, duration)
  {
    var kept := Evicted(s.windows, duration, now);
    if |s.windows| >= CAPACITY {
      assert kept.Keys <= s.windows.Keys;
      SubsetIsSmaller(kept.Keys, s.windows.Keys);
    }
  }

  /** Granting keeps the log fair, if the window is the key's latest or comes after it. */
  lemma GrantIsFair(log: seq<Grant>, g: Grant, maximum: int, duration: int)
    requires FairLog(log, maximum, duration) && g.start <= g.at < g.start + duration
    requires forall i :: 0 <= i < |log| && log[i].key == g.key ==> Apart(log[i].start, g.start, duration)
    requires InWindow(log, g.key, g.start) < Limit(maximum)
    ensures FairLog(log + [g], maximum, duration)
  {
    AppendNoOverlap(log, g, duration);
    AppendNotOverdrawn(log, g, maximum);
  }

  lemma AppendNoOverlap(log: seq<Grant>, g: Grant, duration: int)
    requires NoOverlap(log, duration)
    requires forall i :: 0 <= i < |log| && log[i].key == g.key ==> Apart(log[i].start, g.start, duration)
    ensures NoOverlap(log + [g], duration)
  {
  }

  lemma AppendNotOverdrawn(log: seq<Grant>, g: Grant, maximum: int)
    requires NotOverdrawn(log, maximum) && InWindow(log, g.key, g.start) < Limit(maximum)
    ensures NotOverdrawn(log + [g], maximum)
  {
    forall key, start ensures InWindow(log + [g], key, start) <= Limit(maximum) {
      AppendInWindow(log, g, key, start);
    }
  }

  /** A window that granted something is apart from all others of its key. */
  lemma OpenWindowIsApart(log: seq<Grant>, key: string, start: Instant, duration: int)
    requires NoOverlap(log, duration) && InWindow(log, key, start) > 0
    ensures forall i :: 0 <= i < |log| && log[i].key == key ==> Apart(log[i].start, start, duration)
  {
    if forall i :: 0 <= i < |log| && log[i].key == key ==> log[i].start != start {
      NoneInWindow(log, key, start);
    }
    var j :| 0 <= j < |log| && log[j].key == key && log[j].start == start;
    forall i | 0 <= i < |log| && log[i].key == key ensures Apart(log[i].start, start, duration) {
      if i < j { assert Apart(log[i].start, log[j].start, duration); }
      else if j < i { assert Apart(log[j].start, log[i].start, duration); }
    }
  }

  lemma GrantIsTabled(s: State, key: string, w: Window, duration: int)
    requires Tabled(s, duration) && duration > 0 && ZERO_TIME < w.start <= s.clock
    requires key in s.windows || |s.windows| < CAPACITY
    requires w.count == InWindow(s.log, key, w.start) + 1
    requires forall i :: 0 <= i < |s.log| && s.log[i].key == key ==> s.log[i].start <= w.start
    ensures Tabled(State(s.windows[key := w], s.log + [Grant(key, s.clock, w.start)], s.clock), duration)
  {
    var g := Grant(key, s.clock, w.start);
    var windows := s.windows[key := w];
    forall k | k in windows ensures windows[k].count == InWindow(s.log + [g], k, windows[k].start) >= 1 {
      AppendInWindow(s.log, g, k, windows[k].start);
    }
    assert Counted(windows, s.log + [g], s.clock);
    GrantIsLatest(s, key, w, duration);
    assert windows.Keys == s.windows.Keys + {key};
  }

  lemma GrantIsLatest(s: State, key: string, w: Window, duration: int)
    requires Latest(s.windows, s.log, duration, s.clock)
    requires forall i :: 0 <= i < |s.log| && s.log[i].key == key ==> s.log[i].start <= w.start
    ensures Latest(s.windows[key := w], s.log + [Grant(key, s.clock, w.start)], duration, s.clock)
  {
  }

  lemma StepIsSound(s: State, c: Call, maximum: int, duration: int)
    requires Sound(s, maximum, duration) && s.clock <= c.now && duration > 0
    ensures Sound(Step(maximum, duration, s, c), maximum, duration)
  {
    hide Evicted, Within, NoOverlap, NotOverdrawn;
    EvictKeeps(s, maximum, duration, c.now);
    var e := State(Evicted(s.windows, duration, c.now), s.log, c.now);
    var w := Lookup(e.windows, c.key);
    if c.key !in e.windows && |e.windows| >= CAPACITY {
    } else if w.start == ZERO_TIME || c.now - w.start >= duration {
      NoneInWindow(e.log, c.key, c.now);
      GrantIsFair(e.log, Grant(c.key, c.now, c.now), maximum, duration);
      GrantIsTabled(e, c.key, Window(c.now, 1), duration);
    } else if w.count < maximum {
      OpenWindowIsApart(e.log, c.key, w.start, duration);
      GrantIsFair(e.log, Grant(c.key, c.now, w.start), maximum, duration);
      GrantIsTabled(e, c.key, w.(count := w.count + 1), duration);
    }
  }

  lemma {:induction false} RunIsSound(s: State, calls: seq<Call>, maximum: int, duration: int)
    requires Sound(s, maximum, duration) && Timely(s.clock, calls) && duration > 0
    ensures Sound(Run(maximum, duration, s, calls), maximum, duration)
    decreases |calls|
  {
    if calls != [] {
      StepIsSound(s, calls[0], maximum, duration);
      RunIsSound(Step(maximum, duration, s, calls[0]), calls[1..], maximum, duration);
    }
  }

  lemma StartIsSound(clock: Instant, maximum: int, duration: int)
    requires ZERO_TIME < clock
    ensures Sound(State(map[], [], clock), maximum, duration)
  {
  }

  // ----- how much an interval can grant -----

  /** Of three windows of one key, only two can grant something within `duration`. */
  lemma ThirdWindowIsOut(log: seq<Grant>, duration: int, a: Instant, i: nat, j: nat, k: nat)
    requires Within(log, duration) && NoOverlap(log, duration) && i < |log| && j < |log| && k < |log|
    requires log[i].key == log[j].key == log[k].key
    requires a <= log[i].at <= a + duration && a <= log[j].at <= a + duration && a <= log[k].at <= a + duration
    ensures log[i].start == log[j].start || log[j].start == log[k].start || log[i].start == log[k].start
  {
    assert Apart(log[i].start, log[j].start, duration) by { ApartAt(log, duration, i, j); }
    assert Apart(log[j].start, log[k].start, duration) by { ApartAt(log, duration, j, k); }
    assert Apart(log[i].start, log[k].start, duration) by { ApartAt(log, duration, i, k); }
  }

  lemma ApartAt(log: seq<Grant>, duration: int, i: nat, j: nat)
    requires NoOverlap(log, duration) && i < |log| && j < |log| && log[i].key == log[j].key
    ensures Apart(log[i].start, log[j].start, duration)
  {
    if i < j { assert Apart(log[i].start, log[j].start, duration); }
    else if j < i { assert Apart(log[j].start, log[i].start, duration); }
  }

  /** Grants that all fall in two windows are at most what the two windows counted. */
  lemma {:induction false} TwoWindowsCover(log: seq<Grant>, key: string, lo: Instant, hi: Instant, s: Instant,
                                           t: Instant)
    requires forall i :: 0 <= i < |log| && log[i].key == key && lo <= log[i].at <= hi ==>
               log[i].start == s || log[i].start == t
    ensures Granted(log, key, lo, hi) <= InWindow(log, key, s) + InWindow(log, key, t)
    decreases |log|
  {
    if log != [] {
      var rest := log[..|log| - 1];
      assert forall i :: 0 <= i < |rest| ==> rest[i] == log[i];
      TwoWindowsCover(rest, key, lo, hi, s, t);
      assert log[|log| - 1] == log[|rest|];
    }
  }

  ghost predicate InInterval(log: seq<Grant>, i: int, key: string, a: Instant, duration: int) {
    0 <= i < |log| && log[i].key == key && a <= log[i].at <= a + duration
  }

  lemma FairIntervals(log: seq<Grant>, key: string, a: Instant, maximum: int, duration: int)
    requires FairLog(log, maximum, duration)
    ensures Granted(log, key, a, a + duration) <= Limit(maximum) + Limit(maximum)
  {
    var s, t := 0, 0;
    if i :| InInterval(log, i, key, a, duration) {
      s, t := log[i].start, log[i].start;
      if j :| InInterval(log, j, key, a, duration) && log[j].start != s {
        t := log[j].start;
        forall k | InInterval(log, k, key, a, duration) ensures log[k].start == s || log[k].start == t {
          ThirdWindowIsOut(log, duration, a, i, j, k);
        }
      }
    }
    assert forall k :: InInterval(log, k, key, a, duration) ==> log[k].start == s || log[k].start == t;
    forall k | 0 <= k < |log| && log[k].key == key && a <= log[k].at <= a + duration
      ensures log[k].start == s || log[k].start == t
    {
      assert InInterval(log, k, key, a, duration);
    }
    TwoWindowsCover(log, key, a, a + duration, s, t);
    assert InWindow(log, key, s) <= Limit(maximum) && InWindow(log, key, t) <= Limit(maximum);
  }

  /** Whatever is evicted in between, no interval of length `duration` grants a key more than twice its maximum,
      and the table never outgrows its capacity. */
  lemma NeverMoreThanTwice(clock: Instant, calls: seq<Call>, maximum: int, duration: int, key: string, a: Instant)
    requires ZERO_TIME < clock && Timely(clock, calls) && duration > 0
    ensures var s := Run(maximum, duration, State(map[], [], clock), calls);
            && Granted(s.log, key, a, a + duration) <= 2 * (if maximum < 1 then 1 else maximum)
            && |s.windows| <= 4096
  {
    StartIsSound(clock, maximum, duration);
    RunIsSound(State(map[], [], clock), calls, maximum, duration);
    FairIntervals(Run(maximum, duration, State(map[], [], clock), calls).log, key, a, maximum, duration);
  }

  // ----- who is refused -----

  lemma {:induction false} WindowWithin(log: seq<Grant>, key: string, start: Instant, lo: Instant, hi: Instant)
    requires forall i :: 0 <= i < |log| ==> log[i].start <= log[i].at <= hi
    requires lo <= start
    ensures InWindow(log, key, start) <= Granted(log, key, lo, hi)
    decreases |log|
  {
    if log != [] {
      var rest := log[..|log| - 1];
      assert forall i :: 0 <= i < |rest| ==> rest[i] == log[i];
      WindowWithin(rest, key, start, lo, hi);
      assert log[|log| - 1].start <= log[|log| - 1].at;
    }
  }

  /** A request is refused only if its key had its maximum within the last `duration`, or if the table is full of
      other keys whose windows began within it. */
  lemma RefusedHadItsShare(s: State, c: Call, maximum: int, duration: int)
    requires Sound(s, maximum, duration) && s.clock <= c.now && duration > 0
    requires !Allowed(s.windows, c.key, maximum, duration, c.now).1
    ensures Granted(s.log, c.key, c.now - duration + 1, c.now) >= maximum
            || (|s.windows| == CAPACITY && c.key !in s.windows
                && forall k :: k in s.windows ==> c.now - duration < s.windows[k].start
                                                  && Granted(s.log, k, c.now - duration + 1, c.now) >= 1)
  {
    var e := State(Evicted(s.windows, duration, c.now), s.log, c.now);
    EvictKeeps(s, maximum, duration, c.now);
    if c.key in e.windows {
      WindowWithin(s.log, c.key, e.windows[c.key].start, c.now - duration + 1, c.now);
    } else {
      FullTableIsLive(s, maximum, duration, c.now);
      forall k | k in s.windows ensures Granted(s.log, k, c.now - duration + 1, c.now) >= 1 {
        WindowWithin(s.log, k, s.windows[k].start, c.now - duration + 1, c.now);
      }
    }
  }

  lemma FullTableIsLive(s: State, maximum: int, duration: int, now: Instant)
    requires Sound(s, maximum, duration) && |Evicted(s.windows, duration, now)| >= CAPACITY
    ensures |s.windows| == CAPACITY && Evicted(s.windows, duration, now) == s.windows
    ensures forall k :: k in s.windows ==> now - duration < s.windows[k].start
  {
    SubsetIsSmaller(Evicted(s.windows, duration, now).Keys, s.windows.Keys);
  }
}
