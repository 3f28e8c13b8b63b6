/**
 The client's rejoin machine (internal/engine/client.go): `connect`, `rejoinAll` and one `reconnectPath` for
 each ailing path, all running at once. A step is one critical section or one atomic access.
 */
module ClientRejoin {
  import opened Words
  import opened ClientPaths

  /** How far the one rejoin has come; `rejoining` is set unless it is `Idle`. */
  datatype Rejoin = Idle | Claimed | Snapshotted(paths: seq<Path>) | Cleared | Connecting | Stored(usable: seq<Path>)

  /** How far the handshake that should replace a path has come. */
  datatype Reconnect = Dialing | Shaken(replacement: Path) | Checked(replacement: Path)

  /** `created`, `published`, `closed` and `lost` record every path object, those that were ever in `paths`,
      those whose socket was closed, and those dropped with their socket open. */
  datatype State = State(
    paths: seq<Path>,
    sessionID: uint64,
    rejoin: Rejoin,
    reconnects: map<Path, Reconnect>,
    created: set<Path>,
    published: set<Path>,
    closed: set<Path>,
    lost: set<Path>)

  /** `Run` begins with a `connect` of its own, before anything else runs. */
  const START := State([], 0, Connecting, map[], {}, {}, {}, {})

  datatype Step =
    | Begin
    | Abandon
    | Snapshot
    | Clear
    | Forget
    | Connect(connected: seq<Path>)
    | Publish
    | StartReconnect(path: Path)
    | Shake(path: Path, replacement: Path)
    | Fail(path: Path)
    | Check(path: Path)
    | Swap(path: Path)

  // ----- when a step can happen -----

  ghost predicate IsNew(st: State, p: Path) {
    p !in st.created && p.session != 0
  }

  ghost predicate CanDo(st: State, step: Step) {
    match step
    case Begin => st.rejoin.Idle?
    // cancelled, no randomness, or no path connected
    case Abandon => st.rejoin.Claimed? || st.rejoin.Cleared? || st.rejoin.Connecting?
    case Snapshot => st.rejoin.Claimed?
    case Clear => st.rejoin.Snapshotted?
    case Forget => st.rejoin.Cleared?
    case Connect(connected) =>
      st.rejoin.Connecting? && connected != [] && NoRepeats(connected) && forall p :: p in connected ==> IsNew(st, p)
    case Publish => st.rejoin.Stored?
    case StartReconnect(path) => path in st.published && path !in st.reconnects
    case Shake(path, replacement) => path in st.reconnects && st.reconnects[path].Dialing? && IsNew(st, replacement)
    case Fail(path) => path in st.reconnects && !st.reconnects[path].Checked?
    case Check(path) => path in st.reconnects && st.reconnects[path].Shaken?
    case Swap(path) => path in st.reconnects && st.reconnects[path].Checked?
  }

  // ----- what it does -----

  ghost function All(paths: seq<Path>): set<Path> {
    set p | p in paths
  }

  ghost function ClearStep(st: State): State
    requires st.rejoin.Snapshotted?
  {
    st.(paths := [], rejoin := Cleared, lost := st.lost + (All(st.paths) - All(st.rejoin.paths)))
  }

  ghost function ConnectStep(st: State, connected: seq<Path>): State
    requires connected != []
  {
    var usable := Members(connected, connected[0].session);
    st.(sessionID := connected[0].session, rejoin := Stored(usable),
        created := st.created + All(connected), closed := st.closed + (All(connected) - All(usable)))
  }

  ghost function PublishStep(st: State): State
    requires st.rejoin.Stored?
  {
    st.(paths := st.rejoin.usable, rejoin := Idle, published := st.published + All(st.rejoin.usable))
  }

  ghost function ShakeStep(st: State, path: Path, replacement: Path): State {
    st.(reconnects := st.reconnects[path := Shaken(replacement)], created := st.created + {replacement})
  }

  ghost function Replacement(r: Reconnect): set<Path> {
    if r.Dialing? then {} else {r.replacement}
  }

  ghost function FailStep(st: State, path: Path): State
    requires path in st.reconnects
  {
    st.(reconnects := st.reconnects - {path}, closed := st.closed + Replacement(st.reconnects[path]))
  }

  ghost function CheckStep(st: State, path: Path): State
    requires path in st.reconnects && st.reconnects[path].Shaken?
  {
    var replacement := st.reconnects[path].replacement;
    if replacement.session == st.sessionID then st.(reconnects := st.reconnects[path := Checked(replacement)])
    else FailStep(st, path)
  }

  ghost function SwapStep(st: State, path: Path): State
    requires path in st.reconnects && st.reconnects[path].Checked?
  {
    var replacement := st.reconnects[path].replacement;
    if path in st.paths then
      st.(paths := Swapped(st.paths, path, replacement), reconnects := st.reconnects - {path},
          published := st.published + {replacement}, closed := st.closed + {path})
    else FailStep(st, path)
  }

  ghost function Do(st: State, step: Step): State
    requires CanDo(st, step)
  {
    match step
    case Begin => st.(rejoin := Claimed)
    case Abandon => st.(rejoin := Idle)
    case Snapshot => st.(rejoin := Snapshotted(st.paths), closed := st.closed + All(st.paths))
    case Clear => ClearStep(st)
    case Forget => st.(rejoin := Connecting, sessionID := 0)
    case Connect(connected) => ConnectStep(st, connected)
    case Publish => PublishStep(st)
    case StartReconnect(path) => st.(reconnects := st.reconnects[path := Dialing])
    case Shake(path, replacement) => ShakeStep(st, path, replacement)
    case Fail(path) => FailStep(st, path)
    case Check(path) => CheckStep(st, path)
    case Swap(path) => SwapStep(st, path)
  }

  ghost predicate CanRun(st: State, run: seq<Step>)
    decreases |run|
  {
    run == [] || (CanDo(st, run[0]) && CanRun(Do(st, run[0]), run[1..]))
  }

  ghost function Run(st: State, run: seq<Step>): State
    requires CanRun(st, run)
    decreases |run|
  {
    if run == [] then st else Run(Do(st, run[0]), run[1..])
  }

  // ----- the invariant -----

  /** Every path in use belongs to the client's session. */
  ghost predicate Coherent(paths: seq<Path>, sessionID: uint64) {
    forall p :: p in paths ==> p.session == sessionID
  }

  /** From clearing the paths until publishing new ones there are none. */
  ghost predicate Quiet(paths: seq<Path>, rejoin: Rejoin) {
    rejoin.Cleared? || rejoin.Connecting? || rejoin.Stored? ==> paths == []
  }

  /** What `connect` stored but did not publish yet. */
  ghost predicate Waiting(st: State) {
    st.rejoin.Stored? ==>
      && Coherent(st.rejoin.usable, st.sessionID) && NoRepeats(st.rejoin.usable)
      && forall p :: p in st.rejoin.usable ==> p in st.created && p !in st.published
  }

  /** A replacement that passed its check fits as long as the path it replaces is in use. */
  ghost predicate Pinned(st: State) {
    forall p :: p in st.reconnects && st.reconnects[p].Checked? && p in st.paths ==>
      st.reconnects[p].replacement.session == st.sessionID
  }

  /** Reconnects replace paths that were in use by objects that never were. */
  ghost predicate Unused(st: State) {
    forall p :: p in st.reconnects ==>
      && p in st.published
      && (!st.reconnects[p].Dialing? ==> st.reconnects[p].replacement in st.created
                                         && st.reconnects[p].replacement !in st.published
                                         && (st.rejoin.Stored? ==> st.reconnects[p].replacement !in st.rejoin.usable))
  }

  ghost predicate Apart(reconnects: map<Path, Reconnect>) {
    forall p, q ::
      (p in reconnects && q in reconnects && p != q && !reconnects[p].Dialing? && !reconnects[q].Dialing?) ==>
        reconnects[p].replacement != reconnects[q].replacement
  }

  ghost predicate Known(st: State) {
    All(st.paths) <= st.published <= st.created && NoRepeats(st.paths)
  }

  ghost predicate Sound(st: State) {
    && Coherent(st.paths, st.sessionID) && Quiet(st.paths, st.rejoin) && Waiting(st)
    && Pinned(st) && Unused(st) && Apart(st.reconnects) && Known(st)
  }

  lemma ConnectKeeps(st: State, connected: seq<Path>)
    requires Sound(st) && CanDo(st, Connect(connected))
    ensures Sound(ConnectStep(st, connected))
  {
    MembersNoRepeats(connected, connected[0].session);
  }

  lemma PublishKeeps(st: State)
    requires Sound(st) && CanDo(st, Publish)
    ensures Sound(PublishStep(st))
  {
  }

  lemma SwapKeeps(st: State, path: Path)
    requires Sound(st) && CanDo(st, Swap(path))
    ensures Sound(SwapStep(st, path))
  {
    var replacement := st.reconnects[path].replacement;
    if path in st.paths {
      var k :| 0 <= k < |st.paths| && st.paths[k] == path;
      SwappedAt(st.paths, path, replacement, k);
      assert replacement !in st.paths;
    }
  }

  lemma OtherKeeps(st: State, step: Step)
    requires Sound(st) && CanDo(st, step) && !step.Connect? && !step.Publish? && !step.Swap?
    ensures Sound(Do(st, step))
  {
  }

  lemma StepKeeps(st: State, step: Step)
    requires Sound(st) && CanDo(st, step)
    ensures Sound(Do(st, step))
  {
    match step
    case Connect(connected) => ConnectKeeps(st, connected);
    case Publish => PublishKeeps(st);
    case Swap(path) => SwapKeeps(st, path);
    case _ => OtherKeeps(st, step);
  }

  /** Whatever interleaves, the paths in use all belong to the session the client believes in. */
  lemma {:induction false} RunIsSound(st: State, run: seq<Step>)
    requires Sound(st) && CanRun(st, run)
    ensures Sound(Run(st, run))
    decreases |run|
  {
    if run != [] {
      StepKeeps(st, run[0]);
      RunIsSound(Do(st, run[0]), run[1..]);
    }
  }

  lemma StartIsSound()
    ensures Sound(START) && Accounted(START) && Clean(START)
  {
  }

  /** In every reachable state each path in use has the client's session id. */
  lemma AlwaysCoherent(run: seq<Step>)
    requires CanRun(START, run)
    ensures Coherent(Run(START, run).paths, Run(START, run).sessionID)
    ensures NoRepeats(Run(START, run).paths)
  {
    StartIsSound();
    RunIsSound(START, run);
  }

  /** The session changes only while there are no paths. */
  lemma SessionChangesWhileEmpty(st: State, step: Step)
    requires Sound(st) && CanDo(st, step) && Do(st, step).sessionID != st.sessionID
    ensures st.paths == [] && Do(st, step).paths == []
  {
  }

  lemma StepLeavesDeparted(st: State, step: Step, p: Path)
    requires Sound(st) && CanDo(st, step) && p in st.published && p !in st.paths
    ensures p in Do(st, step).published && p !in Do(st, step).paths
  {
    if step.Swap? && step.path in st.paths {
      var k :| 0 <= k < |st.paths| && st.paths[k] == step.path;
      SwappedAt(st.paths, step.path, st.reconnects[step.path].replacement, k);
    }
  }

  /** A path object that left never returns. */
  lemma {:induction false} DepartedNeverReturns(st: State, run: seq<Step>, p: Path)
    requires Sound(st) && CanRun(st, run) && p in st.published && p !in st.paths
    ensures p !in Run(st, run).paths
    decreases |run|
  {
    if run != [] {
      StepKeeps(st, run[0]);
      StepLeavesDeparted(st, run[0], p);
      DepartedNeverReturns(Do(st, run[0]), run[1..], p);
    }
  }

  // ----- what becomes of every socket -----

  /** Someone still has `p`: it is in use or about to be, or a handshake holds it. */
  ghost predicate Held(st: State, p: Path) {
    || p in st.paths
    || (st.rejoin.Stored? && p in st.rejoin.usable)
    || exists q :: q in st.reconnects && p in Replacement(st.reconnects[q])
  }

  /** Every path object is held, closed or lost. */
  ghost predicate Accounted(st: State) {
    forall p :: p in st.created ==> Held(st, p) || p in st.closed || p in st.lost
  }

  /** A lost path was in use once, is not any more, and stays open for good; nothing held is closed but what
      `rejoinAll` is about to drop. */
  ghost predicate Clean(st: State) {
    && st.closed <= st.created && st.lost <= st.published && st.lost !! st.closed
    && (forall p :: p in st.paths ==> p !in st.lost)
    && (forall p :: p in st.paths && p in st.closed ==> st.rejoin.Snapshotted? && p in st.rejoin.paths)
    && (st.rejoin.Snapshotted? ==> All(st.rejoin.paths) <= st.closed)
    && (st.rejoin.Stored? ==> forall p :: p in st.rejoin.usable ==> p !in st.closed)
    && (forall q :: q in st.reconnects && !st.reconnects[q].Dialing? ==> st.reconnects[q].replacement !in st.closed)
  }

  lemma SwappedMembers(paths: seq<Path>, stale: Path, replacement: Path, p: Path)
    requires NoRepeats(paths) && stale in paths && replacement !in paths
    ensures p in Swapped(paths, stale, replacement) <==> p == replacement || (p in paths && p != stale)
  {
    var k :| 0 <= k < |paths| && paths[k] == stale;
    SwappedAt(paths, stale, replacement, k);
    var swapped := Swapped(paths, stale, replacement);
    if p in paths && p != stale {
      var i :| 0 <= i < |paths| && paths[i] == p;
      assert swapped[i] == p;
    }
    assert swapped[k] == replacement;
  }

  lemma HeldStays(st: State, step: Step, p: Path)
    requires Sound(st) && CanDo(st, step) && Held(st, p)
    ensures Held(Do(st, step), p) || p in Do(st, step).closed || p in Do(st, step).lost || step.Clear?
  {
    if step.Swap? && step.path in st.paths {
      SwappedMembers(st.paths, step.path, st.reconnects[step.path].replacement, p);
    }
    if exists q :: q in st.reconnects && p in Replacement(st.reconnects[q]) {
      var q :| q in st.reconnects && p in Replacement(st.reconnects[q]);
      assert q in Do(st, step).reconnects ==> Replacement(st.reconnects[q]) <= Replacement(Do(st, step).reconnects[q]);
    }
  }

  lemma ClearAccounts(st: State)
    requires Accounted(st) && Clean(st) && CanDo(st, Clear)
    ensures Accounted(ClearStep(st))
  {
  }

  lemma StepAccounts(st: State, step: Step)
    requires Sound(st) && Accounted(st) && Clean(st) && CanDo(st, step)
    ensures Accounted(Do(st, step))
  {
    if step.Clear? {
      ClearAccounts(st);
    } else {
      forall p | p in Do(st, step).created
        ensures Held(Do(st, step), p) || p in Do(st, step).closed || p in Do(st, step).lost
      {
        if p in st.created {
          if Held(st, p) { HeldStays(st, step, p); }
        } else {
          NewIsHeld(st, step, p);
        }
      }
    }
  }

  lemma NewIsHeld(st: State, step: Step, p: Path)
    requires CanDo(st, step) && p !in st.created && p in Do(st, step).created
    ensures Held(Do(st, step), p) || p in Do(st, step).closed
  {
    if step.Shake? {
      assert p in Replacement(Do(st, step).reconnects[step.path]);
    }
  }

  lemma SwapClean(st: State, path: Path)
    requires Sound(st) && Clean(st) && CanDo(st, Swap(path))
    ensures Clean(SwapStep(st, path))
  {
    var replacement := st.reconnects[path].replacement;
    if path in st.paths {
      forall p ensures p in Swapped(st.paths, path, replacement) <==> p == replacement || (p in st.paths && p != path) {
        SwappedMembers(st.paths, path, replacement, p);
      }
    }
  }

  lemma StepClean(st: State, step: Step)
    requires Sound(st) && Clean(st) && CanDo(st, step)
    ensures Clean(Do(st, step))
  {
    if step.Swap? {
      SwapClean(st, step.path);
    }
  }

  /** No path object is ever forgotten: held, closed, or lost with its socket open. */
  lemma {:induction false} RunAccounts(st: State, run: seq<Step>)
    requires Sound(st) && Accounted(st) && Clean(st) && CanRun(st, run)
    ensures Accounted(Run(st, run)) && Clean(Run(st, run)) && st.lost <= Run(st, run).lost
    decreases |run|
  {
    if run != [] {
      StepKeeps(st, run[0]);
      StepAccounts(st, run[0]);
      StepClean(st, run[0]);
      RunAccounts(Do(st, run[0]), run[1..]);
    }
  }

  // ----- when a socket is lost -----

  /** Between its snapshot and its clearing of the paths, `rejoinAll` lets a reconnect swap a path in. */
  ghost predicate SwapsIn(st: State, run: seq<Step>)
    requires CanRun(st, run)
    decreases |run|
  {
    run != [] && ((run[0].Swap? && run[0].path in st.paths) || SwapsIn(Do(st, run[0]), run[1..]))
  }

  /** The paths in use are those of the snapshot but for some swapped in since. */
  ghost predicate Overtaken(st: State) {
    && st.rejoin.Snapshotted? && |st.paths| == |st.rejoin.paths| && All(st.rejoin.paths) <= st.published
    && forall k :: 0 <= k < |st.paths| ==> st.paths[k] == st.rejoin.paths[k] || st.paths[k] !in st.rejoin.paths
  }

  lemma StepOvertakes(st: State, step: Step)
    requires Sound(st) && Overtaken(st) && CanDo(st, step) && !step.Clear?
    ensures Overtaken(Do(st, step)) && Do(st, step).rejoin == st.rejoin && Do(st, step).lost == st.lost
    ensures Do(st, step).paths != st.rejoin.paths <==>
            st.paths != st.rejoin.paths || (step.Swap? && step.path in st.paths)
  {
    if step.Swap? && step.path in st.paths {
      var k :| 0 <= k < |st.paths| && st.paths[k] == step.path;
      SwappedAt(st.paths, step.path, st.reconnects[step.path].replacement, k);
      assert Do(st, step).paths[k] !in st.rejoin.paths;
    }
  }

  lemma {:induction false} RunOvertakes(st: State, run: seq<Step>)
    requires Sound(st) && Overtaken(st) && CanRun(st, run) && forall i :: 0 <= i < |run| ==> !run[i].Clear?
    ensures Sound(Run(st, run)) && Overtaken(Run(st, run))
    ensures Run(st, run).rejoin == st.rejoin && Run(st, run).lost == st.lost
    ensures Run(st, run).paths != st.rejoin.paths <==> st.paths != st.rejoin.paths || SwapsIn(st, run)
    decreases |run|
  {
    if run != [] {
      StepKeeps(st, run[0]);
      StepOvertakes(st, run[0]);
      RunOvertakes(Do(st, run[0]), run[1..]);
    }
  }

  /** A rejoin loses a socket exactly when a reconnect swaps a path in between its snapshot and its clearing. */
  lemma {:induction false} RejoinLosesIff(st: State, run: seq<Step>)
    requires Sound(st) && Clean(st) && CanDo(st, Snapshot)
    requires CanRun(Do(st, Snapshot), run) && forall i :: 0 <= i < |run| ==> !run[i].Clear?
    ensures CanDo(Run(Do(st, Snapshot), run), Clear)
    ensures Do(Run(Do(st, Snapshot), run), Clear).lost != st.lost <==> SwapsIn(Do(st, Snapshot), run)
  {
    var s := Do(st, Snapshot);
    StepKeeps(st, Snapshot);
    StepClean(st, Snapshot);
    RunOvertakes(s, run);
    RunClean(s, run);
    var end := Run(s, run);
    if end.paths != s.paths {
      var k :| 0 <= k < |s.paths| && end.paths[k] != s.paths[k];
      assert end.paths[k] in ClearStep(end).lost && end.paths[k] !in end.lost;
    }
  }

  lemma {:induction false} RunClean(st: State, run: seq<Step>)
    requires Sound(st) && Clean(st) && CanRun(st, run)
    ensures Clean(Run(st, run))
    decreases |run|
  {
    if run != [] {
      StepKeeps(st, run[0]);
      StepClean(st, run[0]);
      RunClean(Do(st, run[0]), run[1..]);
    }
  }

  // ----- a run that loses a socket -----

  lemma StepFirst(st: State, step: Step, rest: seq<Step>)
    requires CanDo(st, step) && CanRun(Do(st, step), rest)
    ensures CanRun(st, [step] + rest) && Run(st, [step] + rest) == Run(Do(st, step), rest)
  {
    assert ([step] + rest)[1..] == rest;
  }

  /** One path in use, and one in use whose replacement has passed its check. */
  ghost function Single(p: Path): State {
    State([p], p.session, Idle, map[], {p}, {p}, {}, {})
  }

  ghost function Replacing(p: Path, q: Path): State {
    State([p], p.session, Idle, map[p := Checked(q)], {p, q}, {p}, {}, {})
  }

  lemma ConnectsFirst(p: Path, rest: seq<Step>)
    requires p.session != 0 && CanRun(Single(p), rest)
    ensures var run := [Connect([p])] + ([Publish] + rest);
            CanRun(START, run) && Run(START, run) == Run(Single(p), rest)
  {
    assert Members([p], p.session) == [p] + Members([], p.session) by { assert [p][1..] == []; }
    assert All([p]) == {p};
    var s1 := ConnectStep(START, [p]);
    assert PublishStep(s1) == Single(p);
    StepFirst(s1, Publish, rest);
    StepFirst(START, Connect([p]), [Publish] + rest);
  }

  lemma ReplacesNext(p: Path, q: Path, rest: seq<Step>)
    requires p.session == q.session != 0 && p != q && CanRun(Replacing(p, q), rest)
    ensures var run := [StartReconnect(p)] + ([Shake(p, q)] + ([Check(p)] + rest));
            CanRun(Single(p), run) && Run(Single(p), run) == Run(Replacing(p, q), rest)
  {
    var s1 := Do(Single(p), StartReconnect(p));
    var s2 := ShakeStep(s1, p, q);
    assert CheckStep(s2, p) == Replacing(p, q);
    StepFirst(s2, Check(p), rest);
    StepFirst(s1, Shake(p, q), [Check(p)] + rest);
    StepFirst(Single(p), StartReconnect(p), [Shake(p, q)] + ([Check(p)] + rest));
  }

  lemma SwapsTooLate(p: Path, q: Path)
    requires p.session == q.session != 0 && p != q
    ensures var run := [Begin] + ([Snapshot] + ([Swap(p)] + ([Clear] + [])));
            CanRun(Replacing(p, q), run) && q in Run(Replacing(p, q), run).lost &&
              q !in Run(Replacing(p, q), run).closed
  {
    assert All([p]) == {p} && All([q]) == {q};
    assert Swapped([p], p, q) == [q] by { assert [q] + [p][1..] == [q]; }
    var s1 := Do(Replacing(p, q), Begin);
    var s2 := Do(s1, Snapshot);
    var s3 := SwapStep(s2, p);
    assert ClearStep(s3).lost == {q} && q !in ClearStep(s3).closed;
    StepFirst(s3, Clear, []);
    StepFirst(s2, Swap(p), [Clear] + []);
    StepFirst(s1, Snapshot, [Swap(p)] + ([Clear] + []));
    StepFirst(Replacing(p, q), Begin, [Snapshot] + ([Swap(p)] + ([Clear] + [])));
  }

  /** The first path connects and ails; its replacement passes the check, and is swapped in between the snapshot
      and the clearing of a rejoin. */
  ghost function LosingRun(p: Path, q: Path): seq<Step> {
    [Connect([p])] + ([Publish]
    + ([StartReconnect(p)] + ([Shake(p, q)] + ([Check(p)]
    + ([Begin] + ([Snapshot] + ([Swap(p)] + ([Clear] + []))))))))
  }

  /** The loss is reachable: from the start, nine steps leave an open socket in nobody's hands. */
  lemma RejoinLosesExample(p: Path, q: Path)
    requires p.session == q.session != 0 && p != q
    ensures CanRun(START, LosingRun(p, q))
    ensures q in Run(START, LosingRun(p, q)).lost && q !in Run(START, LosingRun(p, q)).closed
  {
    hide CanRun, Run, Replacing, Single;
    SwapsTooLate(p, q);
    var rest := [Begin] + ([Snapshot] + ([Swap(p)] + ([Clear] + [])));
    ReplacesNext(p, q, rest);
    ConnectsFirst(p, [StartReconnect(p)] + ([Shake(p, q)] + ([Check(p)] + rest)));
  }

  // ----- what undisturbed attempts achieve -----

  /** The steps of a reconnect whose replacement got its handshake through; the check ends it if the replacement belongs
      to a session that the client has left. */
  ghost function Reconnecting(st: State, path: Path, replacement: Path): seq<Step> {
    [StartReconnect(path)] + ([Shake(path, replacement)] + ([Check(path)]
    + if replacement.session == st.sessionID then [Swap(path)] + [] else []))
  }

  /** A reconnect puts its replacement in place of the ailing path, which it closes, exactly if that is still in use
      and the replacement is of the client's session; otherwise the replacement is closed. Nothing else changes. */
  lemma ReconnectMeaning(st: State, path: Path, replacement: Path)
    requires Sound(st) && CanDo(st, StartReconnect(path)) && IsNew(st, replacement)
    ensures CanRun(st, Reconnecting(st, path, replacement))
    ensures var end := Run(st, Reconnecting(st, path, replacement));
            if path in st.paths && replacement.session == st.sessionID then
              && (exists k :: 0 <= k < |st.paths| && st.paths[k] == path && end.paths == st.paths[k := replacement])
              && end == st.(paths := end.paths, created := st.created + {replacement},
                            published := st.published + {replacement}, closed := st.closed + {path})
            else end == st.(created := st.created + {replacement}, closed := st.closed + {replacement})
  {
    ReconnectRuns(st, path, replacement);
    if path in st.paths { SwappedOnce(st.paths, path, replacement); }
  }

  lemma SwappedOnce(paths: seq<Path>, path: Path, replacement: Path)
    requires NoRepeats(paths) && path in paths
    ensures exists k :: 0 <= k < |paths| && paths[k] == path
                        && Swapped(paths, path, replacement) == paths[k := replacement]
  {
    var k :| 0 <= k < |paths| && paths[k] == path;
    SwappedAt(paths, path, replacement, k);
  }

  /** The steps one by one. */
  lemma ReconnectRuns(st: State, path: Path, replacement: Path)
    requires CanDo(st, StartReconnect(path)) && IsNew(st, replacement)
    ensures CanRun(st, Reconnecting(st, path, replacement))
    ensures var end := Run(st, Reconnecting(st, path, replacement));
            var created := st.created + {replacement};
            if replacement.session == st.sessionID && path in st.paths then
              end == st.(paths := Swapped(st.paths, path, replacement), created := created,
                         published := st.published + {replacement}, closed := st.closed + {path})
            else end == st.(created := created, closed := st.closed + {replacement})
  {
    hide CanRun, Run;
    var s1 := Do(st, StartReconnect(path));
    var s2 := Do(s1, Shake(path, replacement));
    var s3 := Do(s2, Check(path));
    assert s3.reconnects - {path} == st.reconnects;
    var rest := if replacement.session == st.sessionID then [Swap(path)] + [] else [];
    if replacement.session == st.sessionID {
      RunsNothing(Do(s3, Swap(path)));
      StepFirst(s3, Swap(path), []);
    } else {
      RunsNothing(s3);
    }
    StepFirst(s2, Check(path), rest);
    StepFirst(s1, Shake(path, replacement), [Check(path)] + rest);
    StepFirst(st, StartReconnect(path), [Shake(path, replacement)] + ([Check(path)] + rest));
  }

  lemma RunsNothing(st: State)
    ensures CanRun(st, []) && Run(st, []) == st
  {
  }

  /** The steps of a rejoin that connects. */
  ghost function Rejoining(connected: seq<Path>): seq<Step> {
    [Begin] + ([Snapshot] + ([Clear] + ([Forget] + ([Connect(connected)] + ([Publish] + [])))))
  }

  /** A rejoin closes every path in use and goes on with those new ones that joined the session of the first; the
      others it closes too. Nothing is lost, and no reconnect is touched. */
  lemma RejoinMeaning(st: State, connected: seq<Path>)
    requires Sound(st) && st.rejoin.Idle? && connected != [] && NoRepeats(connected)
    requires forall p :: p in connected ==> IsNew(st, p)
    ensures CanRun(st, Rejoining(connected))
    ensures var end := Run(st, Rejoining(connected));
            && end.sessionID == connected[0].session && end.rejoin == Idle && end.reconnects == st.reconnects
            && (forall p :: p in end.paths <==> p in connected && p.session == connected[0].session)
            && NoRepeats(end.paths)
            && end.closed == st.closed + All(st.paths) + (All(connected) - All(end.paths)) && end.lost == st.lost
            && end.created == st.created + All(connected) && end.published == st.published + All(end.paths)
  {
    var s1 := Do(st, Begin);
    var s2 := Do(s1, Snapshot);
    var s3 := Do(s2, Clear);
    var s4 := Do(s3, Forget);
    var s5 := Do(s4, Connect(connected));
    StepFirst(s5, Publish, []);
    StepFirst(s4, Connect(connected), [Publish] + []);
    StepFirst(s3, Forget, [Connect(connected)] + ([Publish] + []));
    StepFirst(s2, Clear, [Forget] + ([Connect(connected)] + ([Publish] + [])));
    StepFirst(s1, Snapshot, [Clear] + ([Forget] + ([Connect(connected)] + ([Publish] + []))));
    StepFirst(st, Begin, [Snapshot] + ([Clear] + ([Forget] + ([Connect(connected)] + ([Publish] + [])))));
    assert s5.lost == st.lost;
    MembersNoRepeats(connected, connected[0].session);
  }

  /** What is left of a rejoin if nothing connects any more. */
  ghost function WindingUp(rejoin: Rejoin): seq<Step> {
    match rejoin
    case Idle => []
    case Snapshotted(_) => [Clear] + ([Abandon] + [])
    case Stored(_) => [Publish] + []
    case _ => [Abandon] + []
  }

  /** However far a rejoin has come, it can end without help, and then another can begin. */
  lemma RejoinNeverSticks(st: State)
    ensures CanRun(st, WindingUp(st.rejoin))
    ensures CanDo(Run(st, WindingUp(st.rejoin)), Begin)
    ensures Run(st, WindingUp(st.rejoin)).reconnects == st.reconnects
  {
    match st.rejoin
    case Idle =>
    case Snapshotted(_) =>
      StepFirst(Do(st, Clear), Abandon, []);
      StepFirst(st, Clear, [Abandon] + []);
    case Stored(_) => StepFirst(st, Publish, []);
    case _ => StepFirst(st, Abandon, []);
  }
}
