/** Shares and waiting times over any sequence of calls to the scheduler of internal/scheduler/scheduler.go. */
module SchedulerRuns {
  import opened Words
  import opened Sums
  import opened Scheduling

  ghost predicate Distinct(paths: seq<Candidate>) {
    forall i, j :: 0 <= i < j < |paths| ==> paths[i].name != paths[j].name
  }

  /** The healthy candidates among the first `n`, with their effective weights. */
  ghost function LoadUpTo(paths: seq<Candidate>, n: nat): map<string, real>
    requires n <= |paths|
  {
    if n == 0 then map[] else
      var c := paths[n - 1];
      if c.healthy then LoadUpTo(paths, n - 1)[c.name := EffectiveWeight(c)] else LoadUpTo(paths, n - 1)
  }

  ghost function Load(paths: seq<Candidate>): map<string, real> {
    LoadUpTo(paths, |paths|)
  }

  ghost predicate Offers(paths: seq<Candidate>, n: nat, name: string)
    requires n <= |paths|
  {
    exists i :: 0 <= i < n && paths[i].healthy && paths[i].name == name
  }

  /** With distinct names the load is exactly the healthy candidates with their own weights. */
  lemma {:induction false} LoadMeaning(paths: seq<Candidate>, n: nat)
    requires n <= |paths| && Distinct(paths)
    ensures forall i :: 0 <= i < n && paths[i].healthy ==>
              paths[i].name in LoadUpTo(paths, n) && LoadUpTo(paths, n)[paths[i].name] == EffectiveWeight(paths[i])
    ensures forall m :: m in LoadUpTo(paths, n) ==> Offers(paths, n, m)
  {
    if n > 0 {
      LoadMeaning(paths, n - 1);
      forall m | m in LoadUpTo(paths, n) ensures Offers(paths, n, m) {
        if m in LoadUpTo(paths, n - 1) {
          assert Offers(paths, n - 1, m);
        } else {
          assert paths[n - 1].name == m;
        }
      }
    }
  }

  /** The value a path competes with in this call. */
  ghost function Bid(current: map<string, real>, load: map<string, real>, name: string): real
    requires name in load
  {
    Get(current, name) + load[name]
  }

  /** One turn: everyone gains its weight, a highest bidder pays the total, everyone else is forgotten. */
  ghost predicate IsTurn(current: map<string, real>, load: map<string, real>, chosen: string,
                         current': map<string, real>) {
    && chosen in load
    && current'.Keys == load.Keys
    && (forall n :: n in load ==> Bid(current, load, n) <= Bid(current, load, chosen))
    && (forall n :: n in load ==>
          current'[n] == Bid(current, load, n) - (if n == chosen then Sum(load) else 0.0))
  }

  // ----- one call -----

  /** The accumulators hold the bids and the total of the candidates in `load`. */
  ghost predicate Tallied(current: map<string, real>, load: map<string, real>, t: Tally) {
    && t.active == load.Keys
    && t.total == Sum(load)
    && (forall m :: m in load ==> m in t.current && t.current[m] == Bid(current, load, m))
    && (forall m :: m !in load ==> Get(t.current, m) == Get(current, m))
  }

  /** The selection is the first highest bidder among the first `n` candidates. */
  ghost predicate Leads(current: map<string, real>, load: map<string, real>, paths: seq<Candidate>, n: nat, t: Tally)
    requires n <= |paths|
  {
    && (t.selected.None? <==> load == map[])
    && (forall m :: m in load ==> Bid(current, load, m) <= t.best)
    && (t.selected.Some? ==>
          var i := t.selected.value;
          && i < n && paths[i].healthy && paths[i].name in load && t.best == Bid(current, load, paths[i].name)
          && (forall j :: 0 <= j < i && paths[j].healthy ==>
                paths[j].name in load && Bid(current, load, paths[j].name) < t.best))
  }

  lemma VisitTallies(current: map<string, real>, before: map<string, real>, c: Candidate, i: nat, t: Tally)
    requires c.healthy && c.name !in before && Tallied(current, before, t)
    ensures Tallied(current, before[c.name := EffectiveWeight(c)], Visit(t, c, i))
  {
    SumUpdate(before, c.name, EffectiveWeight(c));
  }

  lemma VisitLeads(current: map<string, real>, before: map<string, real>, paths: seq<Candidate>, n: nat, t: Tally)
    requires n < |paths| && paths[n].healthy && paths[n].name !in before
    requires Tallied(current, before, t) && Leads(current, before, paths, n, t)
    requires forall j :: 0 <= j < n && paths[j].healthy ==> paths[j].name in before
    ensures Leads(current, before[paths[n].name := EffectiveWeight(paths[n])], paths, n + 1, Visit(t, paths[n], n))
  {
    var after := before[paths[n].name := EffectiveWeight(paths[n])];
    forall m | m in before ensures Bid(current, after, m) == Bid(current, before, m) {}
  }

  lemma {:induction false} SurveyMeaning(current: map<string, real>, paths: seq<Candidate>, n: nat)
    requires n <= |paths| && Distinct(paths)
    ensures var t, load := Survey(current, paths, n), LoadUpTo(paths, n);
            Tallied(current, load, t) && Leads(current, load, paths, n, t)
  {
    if n > 0 {
      SurveyMeaning(current, paths, n - 1);
      LoadMeaning(paths, n - 1);
      var c, before, t := paths[n - 1], LoadUpTo(paths, n - 1), Survey(current, paths, n - 1);
      if c.healthy {
        VisitTallies(current, before, c, n - 1, t);
        VisitLeads(current, before, paths, n - 1, t);
      }
    }
  }

  /** A call picks the first highest bidder among the healthy candidates, if there are any. */
  lemma NextMeaning(current: map<string, real>, paths: seq<Candidate>)
    requires Distinct(paths)
    ensures var (current', selected) := NextStep(current, paths);
            var load := Load(paths);
            && (selected.None? <==> load == map[])
            && (selected.None? ==> current' == map[])
            && (selected.Some? ==>
                  var i := selected.value;
                  && i < |paths| && paths[i].healthy && IsTurn(current, load, paths[i].name, current')
                  && (forall j :: 0 <= j < i && paths[j].healthy ==>
                        paths[j].name in load &&
                        Bid(current, load, paths[j].name) < Bid(current, load, paths[i].name)))
  {
    SurveyMeaning(current, paths, |paths|);
    var t := Survey(current, paths, |paths|);
    if t.selected.Some? {
      Settles(current, Load(paths), t, paths[t.selected.value].name);
    }
  }

  /** Charging the selected path completes the turn. */
  lemma Settles(current: map<string, real>, load: map<string, real>, t: Tally, chosen: string)
    requires Tallied(current, load, t) && chosen in load
    requires forall m :: m in load ==> Bid(current, load, m) <= Bid(current, load, chosen)
    ensures var kept := map n | n in t.current && n in t.active :: t.current[n];
            chosen in kept && IsTurn(current, load, chosen, kept[chosen := kept[chosen] - t.total])
  {
  }

  /** The currents change in sum only by what departed paths take with them. */
  lemma SumMovesByDepartures(current: map<string, real>, paths: seq<Candidate>)
    requires Distinct(paths)
    ensures Sum(NextStep(current, paths).0) == Sum(current) - Sum(current - Load(paths).Keys)
  {
    NextMeaning(current, paths);
    var (current', selected) := NextStep(current, paths);
    var load := Load(paths);
    SumSplit(current, load.Keys);
    var stay := map n | n in current && n in load.Keys :: current[n];
    if selected.Some? {
      TurnSum(current, load, paths[selected.value].name, current', stay);
    } else {
      assert stay == map[];
    }
  }

  lemma BidSum(current: map<string, real>, load: map<string, real>, stay: map<string, real>, bids: map<string, real>)
    requires stay == map n | n in current && n in load.Keys :: current[n]
    requires bids == map n | n in load :: Bid(current, load, n)
    ensures Sum(bids) == Sum(stay) + Sum(load)
  {
    var held := map n | n in load :: Get(current, n);
    PadWithZeros(stay, held);
    SumPointwise(held, load, bids);
  }

  lemma TurnSum(current: map<string, real>, load: map<string, real>, chosen: string, current': map<string, real>,
                stay: map<string, real>)
    requires IsTurn(current, load, chosen, current')
    requires stay == map n | n in current && n in load.Keys :: current[n]
    ensures Sum(current') == Sum(stay)
  {
    var bids := map n | n in load :: Bid(current, load, n);
    BidSum(current, load, stay, bids);
    SumUpdate(bids, chosen, bids[chosen] - Sum(load));
    TurnIsUpdate(current, load, chosen, current', bids);
  }

  lemma TurnIsUpdate(current: map<string, real>, load: map<string, real>, chosen: string, current': map<string, real>,
                     bids: map<string, real>)
    requires IsTurn(current, load, chosen, current')
    requires bids == map n | n in load :: Bid(current, load, n)
    ensures current' == bids[chosen := bids[chosen] - Sum(load)]
  {
  }

  lemma {:induction false} PadWithZeros(m: map<string, real>, padded: map<string, real>)
    requires m.Keys <= padded.Keys
    requires forall n :: n in padded ==> padded[n] == Get(m, n)
    ensures Sum(m) == Sum(padded)
    decreases |padded|
  {
    if padded == map[] {
      assert m == map[];
    } else {
      var n :| n in padded;
      var m', padded' := m - {n}, padded - {n};
      SumRemove(padded, n);
      PadWithZeros(m', padded');
      if n in m { SumRemove(m, n); } else { assert m' == m; }
    }
  }

  // ----- any number of calls -----

  /** The currents after a list of calls on a new scheduler, and the names picked so far. */
  datatype Game = Game(current: map<string, real>, picks: seq<string>)

  ghost function Turn(g: Game, call: seq<Candidate>): Game {
    var (current, selected) := NextStep(g.current, call);
    Game(current, if selected.Some? then g.picks + [call[selected.value].name] else g.picks)
  }

  ghost function Play(calls: seq<seq<Candidate>>): Game {
    if calls == [] then Game(map[], []) else Turn(Play(calls[..|calls| - 1]), calls[|calls| - 1])
  }

  /** A call that finds exactly `names` healthy, with a total weight of at most `bound`. */
  ghost predicate Finds(call: seq<Candidate>, names: set<string>, bound: real) {
    Distinct(call) && Load(call).Keys == names && Sum(Load(call)) <= bound
  }

  ghost predicate Steady(calls: seq<seq<Candidate>>, names: set<string>, bound: real) {
    forall call :: call in calls ==> Finds(call, names, bound)
  }

  ghost predicate Balanced(g: Game, names: set<string>, bound: real) {
    && g.current.Keys <= names
    && Sum(g.current) == 0.0
    && (forall n :: n in names ==> Get(g.current, n) > -bound)
  }

  lemma LoadPositive(paths: seq<Candidate>)
    requires Distinct(paths) && Load(paths) != map[]
    ensures forall n :: n in Load(paths) ==> Load(paths)[n] > 0.0
    ensures Sum(Load(paths)) > 0.0
  {
    LoadMeaning(paths, |paths|);
    forall n | n in Load(paths) ensures Load(paths)[n] > 0.0 {
      assert Offers(paths, |paths|, n);
    }
    SumPositive(Load(paths));
  }

  /** Some term of a positive sum is positive, so its maximum is. */
  lemma MaxPositive(m: map<string, real>, x: real)
    requires Sum(m) > 0.0 && forall k :: k in m ==> m[k] <= x
    ensures x > 0.0
  {
    if x <= 0.0 { SumNonPositive(m); }
  }

  lemma TurnBalanced(g: Game, call: seq<Candidate>, names: set<string>, bound: real)
    requires names != {} && Finds(call, names, bound) && Balanced(g, names, bound)
    ensures var g' := Turn(g, call);
            && Balanced(g', names, bound) && g'.current.Keys == names
            && |g'.picks| == |g.picks| + 1 && g'.picks[..|g.picks|] == g.picks
            && IsTurn(g.current, Load(call), g'.picks[|g.picks|], g'.current)
  {
    NextMeaning(g.current, call);
    var load := Load(call);
    assert load != map[];
    LoadPositive(call);
    var g' := Turn(g, call);
    var chosen := g'.picks[|g.picks|];
    var stay := map n | n in g.current && n in load.Keys :: g.current[n];
    assert stay == g.current;
    TurnSum(g.current, load, chosen, g'.current, stay);
    var bids := map n | n in load :: Bid(g.current, load, n);
    BidSum(g.current, load, stay, bids);
    MaxPositive(bids, Bid(g.current, load, chosen));
  }

  lemma {:induction false} PlayBalanced(calls: seq<seq<Candidate>>, names: set<string>, bound: real)
    requires names != {} && bound > 0.0 && Steady(calls, names, bound)
    ensures Balanced(Play(calls), names, bound)
    ensures |Play(calls).picks| == |calls|
    ensures calls != [] ==> Play(calls).current.Keys == names
  {
    if calls == [] {
      assert Sum(Play(calls).current) == 0.0;
    } else {
      var front, last := calls[..|calls| - 1], calls[|calls| - 1];
      assert calls == front + [last] && last in calls;
      PlayBalanced(front, names, bound);
      TurnBalanced(Play(front), last, names, bound);
    }
  }

  /** With a fixed healthy set of n paths the currents always sum to zero, and none falls to minus the
      total weight or rises to n - 1 times it, however the RTTs move. (With one path it stays at zero.) */
  lemma DeviationIsBounded(calls: seq<seq<Candidate>>, names: set<string>, bound: real, name: string)
    requires name in names && bound > 0.0 && Steady(calls, names, bound)
    ensures var current := Play(calls).current;
            && Sum(current) == 0.0
            && -bound < Get(current, name) <= Copies(|names| - 1, bound)
            && (|names| > 1 ==> Get(current, name) < Copies(|names| - 1, bound))
  {
    PlayBalanced(calls, names, bound);
    if calls == [] {
      if |names| > 1 { CopiesGrow(0, |names| - 1, bound); }
      assert |names| == 1 || |names| > 1;
    } else {
      BoundedAbove(Play(calls).current, name, bound);
    }
  }

  /** In a zero sum of terms above `-bound`, one term stays below the others' bounds together. */
  lemma BoundedAbove(m: map<string, real>, n: string, bound: real)
    requires n in m && Sum(m) == 0.0 && forall k :: k in m ==> Get(m, k) > -bound
    ensures m[n] <= Copies(|m.Keys| - 1, bound)
    ensures |m.Keys| > 1 ==> m[n] < Copies(|m.Keys| - 1, bound)
  {
    var rest := m - {n};
    SumRemove(m, n);
    assert rest.Keys == m.Keys - {n};
    assert |rest.Keys| == |m.Keys| - 1;
    if rest != map[] {
      forall k | k in rest ensures rest[k] > -bound { assert Get(m, k) == rest[k]; }
      SumAbove(rest, bound);
    }
  }

  // ----- paths that come and go -----

  ghost function Positive(m: map<string, real>): map<string, real> {
    map n | n in m :: if m[n] > 0.0 then m[n] else 0.0
  }

  /** A turn adds nothing to what is positive beyond n - 1 times its total weight. */
  lemma TurnPositive(current: map<string, real>, load: map<string, real>, chosen: string, current': map<string, real>)
    requires IsTurn(current, load, chosen, current') && Sum(load) > 0.0
    requires forall n :: n in load ==> load[n] > 0.0
    ensures Sum(Positive(current')) <= Sum(Positive(current)) ||
        Sum(Positive(current')) <= Copies(|load| - 1, Sum(load))
  {
    hide *;
    var bids := TurnBids(current, load, chosen, current');
    if bids[chosen] >= Sum(load) {
      RichTurn(bids, chosen, Sum(load));
    } else {
      PoorTurn(bids, chosen, Sum(load));
    }
  }

  /** The bids of a turn, of which the chosen one is the highest and then pays. */
  lemma TurnBids(current: map<string, real>, load: map<string, real>, chosen: string, current': map<string, real>)
    returns (bids: map<string, real>)
    requires IsTurn(current, load, chosen, current') && forall n :: n in load ==> load[n] > 0.0
    ensures bids.Keys == load.Keys && |bids| == |load| && chosen in bids
    ensures forall n :: n in bids ==> bids[n] <= bids[chosen]
    ensures current' == bids[chosen := bids[chosen] - Sum(load)]
    ensures Sum(Positive(bids)) <= Sum(Positive(current)) + Sum(load)
  {
    bids := map n | n in load :: Bid(current, load, n);
    TurnIsUpdate(current, load, chosen, current', bids);
    assert |bids| == |load| by { assert bids.Keys == load.Keys; }
    hide Positive;
    PositiveBids(current, load, bids);
  }

  /** A winner that can pay does so out of what is positive. */
  lemma RichTurn(bids: map<string, real>, chosen: string, total: real)
    requires chosen in bids && bids[chosen] >= total > 0.0
    ensures Sum(Positive(bids[chosen := bids[chosen] - total])) == Sum(Positive(bids)) - total
  {
    var paid := bids[chosen] - total;
    assert Positive(bids[chosen := paid]) == Positive(bids)[chosen := paid];
    SumUpdate(Positive(bids), chosen, paid);
  }

  /** A winner that cannot leaves nobody with more than the total. */
  lemma PoorTurn(bids: map<string, real>, chosen: string, total: real)
    requires chosen in bids && bids[chosen] < total && total > 0.0 && forall n :: n in bids ==> bids[n] <= bids[chosen]
    ensures Sum(Positive(bids[chosen := bids[chosen] - total])) <= Copies(|bids| - 1, total)
  {
    var after := Positive(bids[chosen := bids[chosen] - total]);
    var others := after - {chosen};
    SumRemove(after, chosen);
    assert |others| == |bids| - 1 by { assert others.Keys == bids.Keys - {chosen}; }
    SumBelow(others, total);
  }

  lemma PositiveBids(current: map<string, real>, load: map<string, real>, bids: map<string, real>)
    requires bids == map n | n in load :: Bid(current, load, n)
    requires forall n :: n in load ==> load[n] > 0.0
    ensures Sum(Positive(bids)) <= Sum(Positive(current)) + Sum(load)
  {
    var positive := Positive(current);
    var stay := map n | n in positive && n in load.Keys :: positive[n];
    var held := map n | n in load :: Get(positive, n);
    var sums := map n | n in load :: Get(positive, n) + load[n];
    assert forall n :: n in positive ==> positive[n] >= 0.0;
    hide Sum, Positive, Bid;
    PadWithZeros(stay, held);
    SumPointwise(held, load, sums);
    BidIsAtMost(current, load, bids, sums);
    SumSplit(positive, load.Keys);
    SumNonNegative(positive - load.Keys);
  }

  lemma BidIsAtMost(current: map<string, real>, load: map<string, real>, bids: map<string, real>,
                    sums: map<string, real>)
    requires bids == map n | n in load :: Bid(current, load, n)
    requires sums == map n | n in load :: Get(Positive(current), n) + load[n]
    requires forall n :: n in load ==> load[n] > 0.0
    ensures Sum(Positive(bids)) <= Sum(sums)
  {
    SumMono(Positive(bids), sums);
  }

  /** Calls that find at most `n` healthy paths, of a total weight of at most `bound`. */
  ghost predicate AtMost(calls: seq<seq<Candidate>>, n: nat, bound: real) {
    forall call :: call in calls ==> Distinct(call) && |Load(call)| <= n && Sum(Load(call)) <= bound
  }

  /** The upper bound survives every joining, leaving, failing and recovering: what is owed to paths never
      exceeds n - 1 times the largest total weight, all paths together. */
  lemma {:induction false} OwedIsBounded(calls: seq<seq<Candidate>>, n: nat, bound: real, name: string)
    requires n > 0 && bound >= 0.0 && AtMost(calls, n, bound)
    ensures Sum(Positive(Play(calls).current)) <= Copies(n - 1, bound)
    ensures Get(Play(calls).current, name) <= Sum(Positive(Play(calls).current))
    decreases |calls|
  {
    CopiesMono(0, n - 1, bound, bound);
    if calls == [] {
      assert Positive(Play(calls).current) == map[];
    } else {
      var front, last := calls[..|calls| - 1], calls[|calls| - 1];
      assert calls == front + [last] && last in calls;
      OwedIsBounded(front, n, bound, name);
      NextMeaning(Play(front).current, last);
      var load, current' := Load(last), Play(calls).current;
      if load == map[] {
        assert Positive(current') == map[];
      } else {
        LoadPositive(last);
        var chosen := last[NextStep(Play(front).current, last).1.value].name;
        TurnPositive(Play(front).current, load, chosen, current');
        CopiesMono(|load| - 1, n - 1, Sum(load), bound);
      }
    }
    OneIsAtMostAll(Play(calls).current, name);
  }

  lemma OneIsAtMostAll(m: map<string, real>, name: string)
    ensures Get(m, name) <= Sum(Positive(m))
  {
    SumNonNegative(Positive(m));
    if name in m {
      SumRemove(Positive(m), name);
      SumNonNegative(Positive(m) - {name});
    }
  }

  // ----- exact shares -----

  function Count(picks: seq<string>, name: string): nat {
    if picks == [] then 0
    else Count(picks[..|picks| - 1], name) + (if picks[|picks| - 1] == name then 1 else 0)
  }

  ghost function Counts(picks: seq<string>, names: set<string>): map<string, nat> {
    map n | n in names :: Count(picks, n)
  }

  lemma {:induction false} CountsTotal(picks: seq<string>, names: set<string>)
    requires forall p :: p in picks ==> p in names
    ensures Total(Counts(picks, names)) == |picks|
  {
    if picks == [] {
      ZeroTotal(Counts(picks, names));
    } else {
      var front, last := picks[..|picks| - 1], picks[|picks| - 1];
      CountsTotal(front, names);
      assert last in picks;
      TotalRemove(Counts(picks, names), last);
      TotalRemove(Counts(front, names), last);
      assert Counts(picks, names) - {last} == Counts(front, names) - {last};
    }
  }

  /** Every call finds the same load. */
  ghost predicate Constant(calls: seq<seq<Candidate>>, load: map<string, real>) {
    forall call :: call in calls ==> Distinct(call) && Load(call) == load
  }

  lemma PicksAreNames(calls: seq<seq<Candidate>>, load: map<string, real>)
    requires load != map[] && Sum(load) > 0.0 && Constant(calls, load)
    ensures forall p :: p in Play(calls).picks ==> p in load
    decreases |calls|
  {
    if calls != [] {
      var front, last := calls[..|calls| - 1], calls[|calls| - 1];
      assert calls == front + [last] && last in calls;
      PicksAreNames(front, load);
      var _ := ConstantTurn(calls, load);
    }
  }

  lemma ConstantTurn(calls: seq<seq<Candidate>>, load: map<string, real>) returns (chosen: string)
    requires calls != [] && load != map[] && Sum(load) > 0.0 && Constant(calls, load)
    ensures var g, g' := Play(calls[..|calls| - 1]), Play(calls);
            g'.picks == g.picks + [chosen] && IsTurn(g.current, load, chosen, g'.current)
  {
    var front, last := calls[..|calls| - 1], calls[|calls| - 1];
    assert calls == front + [last] && last in calls;
    assert load.Keys != {} && Steady(front, load.Keys, Sum(load));
    PlayBalanced(front, load.Keys, Sum(load));
    TurnBalanced(Play(front), last, load.Keys, Sum(load));
    var g, g' := Play(front), Play(calls);
    chosen := g'.picks[|g.picks|];
  }

  /** With constant weights a path's current is what it earned minus what its picks cost. */
  lemma {:induction false} CurrentIsLedger(calls: seq<seq<Candidate>>, load: map<string, real>, name: string)
    requires load != map[] && Sum(load) > 0.0 && Constant(calls, load) && name in load
    ensures Get(Play(calls).current, name)
         == Copies(|calls|, load[name]) - Copies(Count(Play(calls).picks, name), Sum(load))
  {
    if calls != [] {
      var front := calls[..|calls| - 1];
      assert forall call :: call in front ==> call in calls;
      CurrentIsLedger(front, load, name);
      var chosen := ConstantTurn(calls, load);
      var g, g' := Play(front), Play(calls);
      assert Count(g'.picks, name) == Count(g.picks, name) + (if chosen == name then 1 else 0);
    }
  }

  /** Weights in the proportion of whole shares. */
  ghost predicate Proportional(load: map<string, real>, shares: map<string, nat>, unit: real) {
    && load != map[] && load.Keys == shares.Keys && unit > 0.0
    && (forall n :: n in load ==> shares[n] > 0 && load[n] == Copies(shares[n], unit))
  }

  lemma ProportionalSum(load: map<string, real>, shares: map<string, nat>, unit: real)
    requires Proportional(load, shares, unit)
    ensures Sum(load) == Copies(Total(shares), unit) && Sum(load) > 0.0
  {
    SumOfCopies(load, shares, unit);
    forall n | n in load ensures load[n] > 0.0 { CopiesGrow(0, shares[n], unit); }
    SumPositive(load);
  }

  /** A current above minus the total weight leaves no room for a pick beyond what is due. */
  lemma NoExtraPick(calls: seq<seq<Candidate>>, load: map<string, real>, shares: map<string, nat>, unit: real,
                    due: nat, name: string)
    requires Proportional(load, shares, unit) && Constant(calls, load)
    requires name in load && |calls| * shares[name] == due * Total(shares)
    ensures Count(Play(calls).picks, name) <= due
    ensures Count(Play(calls).picks, name) == due ==> Get(Play(calls).current, name) == 0.0
  {
    ProportionalSum(load, shares, unit);
    CurrentIsLedger(calls, load, name);
    var count, w := Count(Play(calls).picks, name), Sum(load);
    CopiesSwap(|calls|, shares[name], due, Total(shares), unit);
    assert Steady(calls, load.Keys, w);
    DeviationIsBounded(calls, load.Keys, w, name);
    if count > due {
      CopiesGrow(due, count, w);
    }
  }

  lemma MulSwap(a: nat, b: nat, c: nat)
    ensures (a * b) * c == (a * c) * b
  {
  }

  /** Exact fairness: with constant weights in the proportion of whole shares, every sum of the shares
      calls give each path exactly its share and bring every current back to zero, in any candidate order. */
  lemma {:induction false} ExactFairness(calls: seq<seq<Candidate>>, load: map<string, real>,
                                         shares: map<string, nat>, unit: real,
                      rounds: nat, name: string)
    requires Proportional(load, shares, unit) && Constant(calls, load)
    requires |calls| == rounds * Total(shares) && name in load
    ensures Count(Play(calls).picks, name) == rounds * shares[name]
    ensures Get(Play(calls).current, name) == 0.0
  {
    var picks := Play(calls).picks;
    var due, got := Multiples(shares, rounds), Counts(picks, load.Keys);
    forall n | n in got ensures got[n] <= due[n] {
      MulSwap(rounds, Total(shares), shares[n]);
      NoExtraPick(calls, load, shares, unit, due[n], n);
    }
    ProportionalSum(load, shares, unit);
    PicksAreNames(calls, load);
    CountsTotal(picks, load.Keys);
    TotalMultiples(shares, rounds);
    assert load.Keys != {} && Steady(calls, load.Keys, Sum(load));
    PlayBalanced(calls, load.Keys, Sum(load));
    TotalSqueeze(got, due, name);
    MulSwap(rounds, Total(shares), shares[name]);
    NoExtraPick(calls, load, shares, unit, due[name], name);
  }

  /** A call that finds the paths of `shares` healthy and no others, each configured with its share of `unit`, and
      all with the same RTT. */
  ghost predicate Shares(call: seq<Candidate>, shares: map<string, nat>, unit: real, rtt: int) {
    && Distinct(call)
    && (forall c :: c in call && c.healthy ==>
          c.name in shares && shares[c.name] > 0 && c.weight == Copies(shares[c.name], unit) && c.rtt == rtt)
    && (forall n :: n in shares ==> Offers(call, |call|, n))
  }

  lemma SharesLoad(call: seq<Candidate>, shares: map<string, nat>, unit: real, rtt: int, d: Candidate)
    requires Shares(call, shares, unit, rtt) && unit > 0.0 && d.weight == unit && d.rtt == rtt
    ensures Load(call) == map n | n in shares :: Copies(shares[n], EffectiveWeight(d))
    ensures forall n :: n in shares ==> shares[n] > 0
  {
    LoadMeaning(call, |call|);
    var load := Load(call);
    forall n | n in load ensures n in shares {
      assert Offers(call, |call|, n);
      var i :| 0 <= i < |call| && call[i].healthy && call[i].name == n;
      assert call[i] in call;
    }
    forall n | n in shares ensures shares[n] > 0 && n in load && load[n] == Copies(shares[n], EffectiveWeight(d)) {
      assert Offers(call, |call|, n);
      var i :| 0 <= i < |call| && call[i].healthy && call[i].name == n;
      assert call[i] in call;
      EqualRttsKeepProportion(call[i], d, shares[n]);
    }
  }

  /** What an operator configures: while healthy paths have equal RTTs, packets are shared in exact proportion to the
      configured weights. */
  lemma {:induction false} FairByWeight(calls: seq<seq<Candidate>>, shares: map<string, nat>, unit: real, rtt: int,
                                        rounds: nat, name: string)
    requires unit > 0.0 && forall call :: call in calls ==> Shares(call, shares, unit, rtt)
    requires |calls| == rounds * Total(shares) && name in shares
    ensures Count(Play(calls).picks, name) == rounds * shares[name]
    ensures Get(Play(calls).current, name) == 0.0
  {
    if calls != [] {
      var d := Candidate("", unit, true, rtt);
      var load := map n | n in shares :: Copies(shares[n], EffectiveWeight(d));
      forall call | call in calls ensures Distinct(call) && Load(call) == load {
        SharesLoad(call, shares, unit, rtt, d);
      }
      SharesLoad(calls[0], shares, unit, rtt, d);
      ExactFairness(calls, load, shares, EffectiveWeight(d), rounds, name);
    } else {
      TotalRemove(shares, name);
      assert rounds == 0 || Total(shares) == 0;
    }
  }

  // ----- no starvation -----

  /** A call that finds exactly the configured paths healthy, at their configured weights; a path configured without
      a weight counts as one of weight 1. */
  ghost predicate Configured(call: seq<Candidate>, weights: map<string, real>) {
    && Distinct(call)
    && Load(call).Keys == weights.Keys
    && (forall c :: c in call && c.healthy ==>
          && c.name in weights && weights[c.name] > 0.0
          && (c.weight == weights[c.name] || (c.weight <= 0.0 && weights[c.name] == 1.0)))
  }

  lemma ConfiguredLoad(call: seq<Candidate>, weights: map<string, real>)
    requires Configured(call, weights)
    ensures forall n :: n in weights ==> 0.8 * weights[n] <= Load(call)[n] <= weights[n] && weights[n] > 0.0
    ensures Finds(call, weights.Keys, Sum(weights))
  {
    LoadMeaning(call, |call|);
    forall n | n in weights ensures 0.8 * weights[n] <= Load(call)[n] <= weights[n] && weights[n] > 0.0 {
      assert Offers(call, |call|, n);
      var i :| 0 <= i < |call| && call[i].healthy && call[i].name == n;
      assert call[i] in call;
    }
    SumMono(Load(call), weights);
  }

  /** The last `m` calls passed `name` over. */
  ghost predicate Waits(calls: seq<seq<Candidate>>, name: string, m: nat)
    decreases m
  {
    m > 0 ==>
      && calls != [] && Play(calls).picks != []
      && Play(calls).picks[|Play(calls).picks| - 1] != name
      && Waits(calls[..|calls| - 1], name, m - 1)
  }

  lemma ConfiguredSteady(calls: seq<seq<Candidate>>, weights: map<string, real>)
    requires weights != map[] && calls != [] && forall call :: call in calls ==> Configured(call, weights)
    ensures Steady(calls, weights.Keys, Sum(weights)) && Sum(weights) > 0.0
  {
    forall call | call in calls ensures Finds(call, weights.Keys, Sum(weights)) { ConfiguredLoad(call, weights); }
    assert calls[0] in calls;
    ConfiguredLoad(calls[0], weights);
    SumPositive(weights);
  }

  lemma {:induction false} WaitingGains(calls: seq<seq<Candidate>>, weights: map<string, real>, name: string, m: nat)
    requires name in weights && Sum(weights) > 0.0 && Steady(calls, weights.Keys, Sum(weights))
    requires forall call :: call in calls ==> Configured(call, weights)
    requires Waits(calls, name, m)
    ensures Get(Play(calls).current, name) > -Sum(weights) + Copies(m, 0.8 * weights[name])
    decreases m
  {
    if m == 0 {
      DeviationIsBounded(calls, weights.Keys, Sum(weights), name);
    } else {
      var front, last := calls[..|calls| - 1], calls[|calls| - 1];
      assert calls == front + [last] && last in calls;
      WaitingGains(front, weights, name, m - 1);
      PlayBalanced(front, weights.Keys, Sum(weights));
      TurnBalanced(Play(front), last, weights.Keys, Sum(weights));
      ConfiguredLoad(last, weights);
    }
  }

  /** No starvation: while n paths stay healthy, one of configured weight w is passed over fewer than
      n * W / (0.8 * w) times in a row, W being the sum of the configured weights. */
  lemma WaitIsBounded(calls: seq<seq<Candidate>>, weights: map<string, real>, name: string, m: nat)
    requires name in weights && (forall call :: call in calls ==> Configured(call, weights))
    requires Waits(calls, name, m) && m > 0
    ensures Copies(m, 0.8 * weights[name]) < Copies(|weights.Keys|, Sum(weights))
  {
    ConfiguredSteady(calls, weights);
    WaitingGains(calls, weights, name, m);
    DeviationIsBounded(calls, weights.Keys, Sum(weights), name);
  }
}
