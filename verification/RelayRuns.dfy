/**
 The relay with its operations taken apart (internal/engine/server.go).

 Authorizing and revoking release the credential lock before they take the session lock, so hellos, closes
 and the janitor can run in between. Each step here is one critical section.
 */
module RelayRuns {
  import opened Words
  import opened Relay
  import opened RelayInvariants
  import opened RelayServer

  /** `terminating` are the terminations still to come; `seen` every session ever created, `closing` those
      marked closing and `expired` those the janitor removed. */
  datatype State = State(
    t: Tables,
    terminating: multiset<ClientID>,
    seen: set<Session>,
    closing: set<Session>,
    expired: set<Session>)

  const EMPTY := State(Tables(map[], map[], map[], map[], 0), multiset{}, {}, {}, {})

  datatype Step =
    | SetCredential(c: Credential)
    | DropCredential(client: ClientID)
    | Terminate(client: ClientID)
      // `credential` was read earlier, when the hello was authenticated; `session` is what it may create
    | Hello(credential: Credential, hello: Greeting, session: Session)
    | LastPathGone(session: Session)
    | Close(session: Session)
    | Janitor(ids: set<uint64>)

  ghost predicate CanDo(st: State, step: Step) {
    match step
    case Terminate(client) => client in st.terminating
    case Hello(credential, hello, session) =>
      && session !in st.seen && session.id !in st.t.sessions
      && session.credential == credential && session.Matches(hello)
    case _ => true
  }

  ghost function SetStep(st: State, c: Credential): State {
    if Clashes(st.t.credentials, c) then st else
      st.(t := st.t.(credentials := st.t.credentials[c.clientID := c]),
          terminating :=
            if Replaces(st.t.credentials, c) then st.terminating + multiset{c.clientID} else st.terminating)
  }

  ghost function DropStep(st: State, client: ClientID): State {
    st.(t := st.t.(credentials := st.t.credentials - {client}), terminating := st.terminating + multiset{client})
  }

  ghost function TerminateStep(st: State, client: ClientID): State {
    st.(t := TerminateClient(st.t, client),
        terminating := st.terminating - multiset{client},
        closing := st.closing + Ended(st.t, client))
  }

  ghost function Ended(t: Tables, client: ClientID): set<Session> {
    if client in t.byClient then {t.byClient[client]} else {}
  }

  /** Whether the hello joins the session its client has. */
  ghost predicate Joins(st: State, client: ClientID, hello: Greeting) {
    client in st.t.byClient && st.t.byClient[client] !in st.closing && st.t.byClient[client].Matches(hello)
  }

  ghost function HelloStep(st: State, credential: Credential, hello: Greeting, session: Session): State {
    if !IsCurrent(st.t.credentials, credential) || Joins(st, credential.clientID, hello) then st else
      st.(t := Replace(st.t, session),
          seen := st.seen + {session},
          closing := st.closing + Ended(st.t, credential.clientID))
  }

  ghost function CloseStep(st: State, session: Session): State {
    if IsLive(st.t, session) then st.(t := Detach(st.t, session), closing := st.closing + {session}) else st
  }

  ghost function JanitorStep(st: State, ids: set<uint64>): State {
    st.(t := Expire(st.t, ids),
        expired := st.expired + set id | id in ids && id in st.t.sessions :: st.t.sessions[id])
  }

  ghost function Do(st: State, step: Step): State {
    match step
    case SetCredential(c) => SetStep(st, c)
    case DropCredential(client) => DropStep(st, client)
    case Terminate(client) => TerminateStep(st, client)
    case Hello(credential, hello, session) => HelloStep(st, credential, hello, session)
    case LastPathGone(session) => st.(closing := st.closing + {session})
    case Close(session) => CloseStep(st, session)
    case Janitor(ids) => JanitorStep(st, ids)
  }

  ghost predicate CanRun(st: State, run: seq<Step>)
    decreases |run|
  {
    run == [] || (CanDo(st, run[0]) && CanRun(Do(st, run[0]), run[1..]))
  }

  ghost function Run(st: State, run: seq<Step>): State
    requires CanRun(st, run)
    decreases |run|
  {
    if run == [] then st else Run(Do(st, run[0]), run[1..])
  }

  // ----- the invariant -----

  ghost function Awaiting(terminating: multiset<ClientID>): set<ClientID> {
    set c | c in terminating
  }

  /** A session outside the table is closing, unless the janitor put it there. */
  ghost predicate Accounted(st: State) {
    && (forall id :: id in st.t.sessions ==> st.t.sessions[id] in st.seen)
    && (forall s :: s in st.seen ==> IsLive(st.t, s) || s in st.closing || s in st.expired)
  }

  ghost predicate Sound(st: State) {
    && Distinct(st.t.credentials) && Linked(st.t)
    && CurrentUnless(st.t, Awaiting(st.terminating))
    && Accounted(st)
  }

  ghost predicate Routed(st: State) {
    RoutedUnless(st.t, Awaiting(st.terminating))
  }

  // ----- one step -----

  lemma SetKeeps(st: State, c: Credential)
    requires Sound(st)
    ensures Sound(SetStep(st, c)) && (Routed(st) ==> Routed(SetStep(st, c)))
  {
    var st' := SetStep(st, c);
    if !Clashes(st.t.credentials, c) {
      RelinkCredentials(st.t, st'.t.credentials);
      assert Awaiting(st.terminating) <= Awaiting(st'.terminating);
      assert forall s :: IsLive(st.t, s) ==> IsLive(st'.t, s);
    }
  }

  lemma DropKeeps(st: State, client: ClientID)
    requires Sound(st)
    ensures Sound(DropStep(st, client)) && (Routed(st) ==> Routed(DropStep(st, client)))
  {
    var st' := DropStep(st, client);
    RelinkCredentials(st.t, st'.t.credentials);
    assert Awaiting(st'.terminating) == Awaiting(st.terminating) + {client};
    assert forall s :: IsLive(st.t, s) ==> IsLive(st'.t, s);
  }

  lemma DetachKeepsLive(t: Tables, s: Session, other: Session)
    requires Linked(t) && IsLive(t, other) && other != s
    ensures IsLive(Detach(t, s), other)
  {
  }

  lemma {:induction false} TerminateKeeps(st: State, client: ClientID)
    requires Sound(st) && client in st.terminating
    ensures Sound(TerminateStep(st, client)) && (Routed(st) ==> Routed(TerminateStep(st, client)))
    ensures NoSession(TerminateStep(st, client).t, client)
  {
    var st' := TerminateStep(st, client);
    TerminateEmpties(st.t, client);
    if client in st.t.byClient {
      DetachKeepsOthers(st.t, st.t.byClient[client], Awaiting(st.terminating));
      forall s | s in st.seen && IsLive(st.t, s) && s != st.t.byClient[client] ensures IsLive(st'.t, s) {
        DetachKeepsLive(st.t, st.t.byClient[client], s);
      }
    }
    assert Awaiting(st.terminating) <= Awaiting(st'.terminating) + {client};
  }

  lemma {:induction false} HelloKeeps(st: State, credential: Credential, hello: Greeting, session: Session)
    requires Sound(st) && CanDo(st, Hello(credential, hello, session))
    ensures Sound(HelloStep(st, credential, hello, session))
    ensures Routed(st) ==> Routed(HelloStep(st, credential, hello, session))
  {
    var st' := HelloStep(st, credential, hello, session);
    var client := credential.clientID;
    if st' != st {
      ReplaceKeeps(st.t, session, Awaiting(st.terminating));
      var ended := Ended(st.t, client);
      forall s | s in st.seen && IsLive(st.t, s) && s !in ended ensures IsLive(st'.t, s) {
        if client in st.t.byClient { DetachKeepsLive(st.t, st.t.byClient[client], s); }
      }
    }
  }

  lemma CloseKeeps(st: State, session: Session)
    requires Sound(st)
    ensures Sound(CloseStep(st, session)) && (Routed(st) ==> Routed(CloseStep(st, session)))
  {
    DetachKeepsLinked(st.t, session);
    DetachKeepsOthers(st.t, session, Awaiting(st.terminating));
    forall s | s in st.seen && IsLive(st.t, s) && s != session ensures IsLive(Detach(st.t, session), s) {
      DetachKeepsLive(st.t, session, s);
    }
  }

  /** The janitor keeps everything but, in the one case named, a route. */
  lemma {:induction false} JanitorKeeps(st: State, ids: set<uint64>)
    requires Sound(st)
    ensures Sound(JanitorStep(st, ids))
    ensures Routed(st) ==> (Routed(JanitorStep(st, ids)) <==> !ExpiresShared(st.t, ids, Awaiting(st.terminating)))
  {
    ExpireKeepsLinked(st.t, ids);
    if Routed(st) { ExpireKeepsRoutesIff(st.t, ids, Awaiting(st.terminating)); }
  }

  lemma {:induction false} StepKeeps(st: State, step: Step)
    requires Sound(st) && CanDo(st, step)
    ensures Sound(Do(st, step)) && st.seen <= Do(st, step).seen && st.closing <= Do(st, step).closing
  {
    match step
    case SetCredential(c) => SetKeeps(st, c);
    case DropCredential(client) => DropKeeps(st, client);
    case Terminate(client) => TerminateKeeps(st, client);
    case Hello(credential, hello, session) => HelloKeeps(st, credential, hello, session);
    case LastPathGone(session) =>
    case Close(session) => CloseKeeps(st, session);
    case Janitor(ids) => JanitorKeeps(st, ids);
  }

  // ----- every run -----

  /** Every interleaving keeps the invariant, and a closing session stays closing. */
  lemma {:induction false} RunIsSound(st: State, run: seq<Step>)
    requires Sound(st) && CanRun(st, run)
    ensures Sound(Run(st, run)) && st.seen <= Run(st, run).seen && st.closing <= Run(st, run).closing
    decreases |run|
  {
    if run != [] {
      StepKeeps(st, run[0]);
      RunIsSound(Do(st, run[0]), run[1..]);
    }
  }

  lemma EmptyIsSound()
    ensures Sound(EMPTY) && Routed(EMPTY)
  {
  }

  /** Every reachable state: the credentials share nothing, the indexes agree, and each session is current or
      its client's termination is pending. */
  lemma AlwaysCurrent(run: seq<Step>, id: uint64)
    requires CanRun(EMPTY, run)
    ensures var st := Run(EMPTY, run); Distinct(st.t.credentials) && Linked(st.t)
    ensures var st := Run(EMPTY, run);
            id in st.t.sessions ==>
              IsCurrent(st.t.credentials, st.t.sessions[id].credential) ||
                st.t.sessions[id].credential.clientID in st.terminating
  {
    EmptyIsSound();
    RunIsSound(EMPTY, run);
  }

  /** What arrives for an address goes to the client that owns it, or to one whose termination is pending. */
  lemma RouteLeadsToOwner(run: seq<Step>, ip: IPv4)
    requires CanRun(EMPTY, run) && ip in Run(EMPTY, run).t.byIP
    ensures var st := Run(EMPTY, run);
            var c := st.t.byIP[ip].credential;
            && IsLive(st.t, st.t.byIP[ip]) && c.tunnelIP == ip
            && (c.clientID in st.terminating
                || (IsCurrent(st.t.credentials, c)
                    && forall owner :: owner in st.t.credentials && st.t.credentials[owner].tunnelIP == ip ==>
                      owner == c.clientID))
  {
    EmptyIsSound();
    RunIsSound(EMPTY, run);
    assert IsLive(Run(EMPTY, run).t, Run(EMPTY, run).t.byIP[ip]);
  }

  /** Nothing pending: every session is current, and its client has no other. */
  lemma SettledIsCurrent(run: seq<Step>, client: ClientID, id: uint64)
    requires CanRun(EMPTY, run)
    requires var st := Run(EMPTY, run);
             client !in st.terminating && id in st.t.sessions && st.t.sessions[id].credential.clientID == client
    ensures var st := Run(EMPTY, run);
            && IsCurrent(st.t.credentials, st.t.sessions[id].credential)
            && client in st.t.byClient && st.t.byClient[client] == st.t.sessions[id]
  {
    EmptyIsSound();
    RunIsSound(EMPTY, run);
    assert FoundByClient(Run(EMPTY, run).t, Run(EMPTY, run).t.sessions[id]);
  }

  /** Of one client's sessions at most one can still take paths, expired ones aside. */
  lemma OneOpenSession(run: seq<Step>, a: Session, b: Session)
    requires CanRun(EMPTY, run)
    requires var st := Run(EMPTY, run);
             && a in st.seen && a !in st.closing && a !in st.expired
             && b in st.seen && b !in st.closing && b !in st.expired
    requires a.credential.clientID == b.credential.clientID
    ensures a == b
  {
    EmptyIsSound();
    RunIsSound(EMPTY, run);
    var t := Run(EMPTY, run).t;
    assert IsLive(t, a) && IsLive(t, b);
    assert FoundByClient(t, a) && FoundByClient(t, b);
  }

  // ----- what ends a session, and what serves a client -----

  /** What may end a live session: its client's termination, a hello that its client says as another process or after
      the session was marked closing, the loss of its last path, or silence. */
  ghost predicate Ends(st: State, step: Step, s: Session) {
    match step
    case Terminate(client) => client == s.credential.clientID
    case Hello(credential, hello, _) =>
      && credential.clientID == s.credential.clientID && IsCurrent(st.t.credentials, credential)
      && (s in st.closing || !s.Matches(hello))
    case Close(session) => session == s
    case Janitor(ids) => s.id in ids
    case _ => false
  }

  /** In every interleaving a live session ends exactly by such a step, and only a hello makes one: no step touches the
      sessions of clients it is not about. */
  lemma {:induction false} SessionEndsIff(st: State, step: Step, s: Session)
    requires Sound(st) && CanDo(st, step)
    ensures IsLive(st.t, s) ==> (IsLive(Do(st, step).t, s) <==> !Ends(st, step, s))
    ensures !IsLive(st.t, s) && IsLive(Do(st, step).t, s) ==> step.Hello? && s == step.session
  {
    if IsLive(st.t, s) { assert FoundByClient(st.t, st.t.sessions[s.id]); }
    match step
    case SetCredential(c) =>
    case DropCredential(client) =>
    case Terminate(client) => TerminateIsExact(st.t, client, s);
    case Hello(credential, hello, session) =>
      if HelloStep(st, credential, hello, session) != st { ReplaceIsExact(st.t, session, s); }
    case LastPathGone(session) =>
    case Close(session) => DetachIsExact(st.t, session, s);
    case Janitor(ids) => ExpireIsExact(st.t, ids, s);
  }

  /** A hello under a current credential is always served: its client then has a live session that is its own process's,
      has its credential if it is new, and is not closing. A hello under any other credential changes nothing. */
  lemma {:induction false} HelloIsServed(st: State, credential: Credential, hello: Greeting, session: Session)
    requires Sound(st) && CanDo(st, Hello(credential, hello, session)) && session !in st.closing
    ensures var st' := Do(st, Hello(credential, hello, session));
            var client := credential.clientID;
            if client in st.t.credentials && st.t.credentials[client].key == credential.key
               && st.t.credentials[client].tunnelIP == credential.tunnelIP then
              && client in st'.t.byClient && IsLive(st'.t, st'.t.byClient[client])
              && st'.t.byClient[client].Matches(hello)
              && (st'.t.byClient[client] == session || (st' == st && st'.t.byClient[client] !in st'.closing))
              && (st' != st ==> FoundByIP(st'.t, session))
            else st' == st
  {
    var st' := Do(st, Hello(credential, hello, session));
    if st' != st { ReplaceIsExact(st.t, session, session); }
    if credential.clientID in st.t.byClient { assert IsLive(st.t, st.t.byClient[credential.clientID]); }
  }

  /** Between losing its last path and leaving the table a session is not joined: a hello gets another one. */
  lemma {:induction false} EmptySessionIsNotJoined(st: State, s: Session, credential: Credential, hello: Greeting,
                                                   session: Session)
    requires Sound(st) && IsLive(st.t, s) && credential.clientID == s.credential.clientID
    requires IsCurrent(st.t.credentials, credential)
    requires CanDo(Do(st, LastPathGone(s)), Hello(credential, hello, session))
    ensures var st' := Do(Do(st, LastPathGone(s)), Hello(credential, hello, session));
            !IsLive(st'.t, s) && IsLive(st'.t, session)
  {
    var st1 := Do(st, LastPathGone(s));
    StepKeeps(st, LastPathGone(s));
    SessionEndsIff(st1, Hello(credential, hello, session), s);
    ReplaceIsExact(st1.t, session, session);
  }

  /** A credential is accepted exactly if it leaves every two clients apart, and its client's termination is due exactly
      if it had another key or address before; nobody else's credential or due termination changes. */
  lemma SetMeaning(st: State, c: Credential)
    requires Sound(st)
    ensures var st', after := Do(st, SetCredential(c)), st.t.credentials[c.clientID := c];
            if Distinct(after) then
              && st'.t == st.t.(credentials := after)
              && st'.terminating == st.terminating + (if Outdates(st.t, c) then multiset{c.clientID} else multiset{})
              && st' == st.(t := st'.t, terminating := st'.terminating)
            else st' == st
  {
    ClashesIff(st.t.credentials, c);
  }

  // ----- revocation -----

  ghost predicate NeverSets(run: seq<Step>, client: ClientID) {
    forall i :: 0 <= i < |run| && run[i].SetCredential? ==> run[i].c.clientID != client
  }

  lemma StepLeavesRevoked(st: State, step: Step, client: ClientID)
    requires CanDo(st, step) && client !in st.t.credentials
    requires step.SetCredential? ==> step.c.clientID != client
    ensures client !in Do(st, step).t.credentials
    ensures NoSession(st.t, client) ==> NoSession(Do(st, step).t, client)
  {
  }

  lemma {:induction false} RunLeavesRevoked(st: State, run: seq<Step>, client: ClientID)
    requires CanRun(st, run) && client !in st.t.credentials && NeverSets(run, client)
    ensures client !in Run(st, run).t.credentials
    ensures NoSession(st.t, client) ==> NoSession(Run(st, run).t, client)
    decreases |run|
  {
    if run != [] {
      StepLeavesRevoked(st, run[0], client);
      RunLeavesRevoked(Do(st, run[0]), run[1..], client);
    }
  }

  lemma {:induction false} RunInTwo(st: State, a: seq<Step>, b: seq<Step>)
    requires CanRun(st, a + b)
    ensures CanRun(st, a) && CanRun(Run(st, a), b) && Run(st, a + b) == Run(Run(st, a), b)
    decreases |a|
  {
    if a == [] {
      assert a + b == b;
    } else {
      assert (a + b)[0] == a[0] && (a + b)[1..] == a[1..] + b;
      RunInTwo(Do(st, a[0]), a[1..], b);
    }
  }

  /** Once a revocation has done both its steps the client has no session, whatever ran before, between and
      after them, until someone authorizes it again. */
  lemma RevokedHasNoSession(before: seq<Step>, between: seq<Step>, after: seq<Step>, client: ClientID)
    requires CanRun(EMPTY, before + ([DropCredential(client)] + (between + ([Terminate(client)] + after))))
    requires NeverSets(between, client) && NeverSets(after, client)
    ensures NoSession(Run(EMPTY, before + ([DropCredential(client)] + (between + ([Terminate(client)] + after)))).t,
        client)
  {
    var rest := [DropCredential(client)] + (between + ([Terminate(client)] + after));
    RunInTwo(EMPTY, before, rest);
    EmptyIsSound();
    RunIsSound(EMPTY, before);
    var dropped := DropStep(Run(EMPTY, before), client);
    assert rest[1..] == between + ([Terminate(client)] + after);
    StepKeeps(Run(EMPTY, before), DropCredential(client));
    RunInTwo(dropped, between, [Terminate(client)] + after);
    RunIsSound(dropped, between);
    RunLeavesRevoked(dropped, between, client);
    var st := Run(dropped, between);
    assert ([Terminate(client)] + after)[1..] == after;
    TerminateKeeps(st, client);
    RunLeavesRevoked(TerminateStep(st, client), after, client);
  }

  // ----- routes -----

  /** One step loses a route exactly when the janitor expires a session sharing a survivor's address. */
  lemma {:induction false} StepKeepsRoutesIff(st: State, step: Step)
    requires Sound(st) && Routed(st) && CanDo(st, step)
    ensures Routed(Do(st, step)) <==> !(step.Janitor? && ExpiresShared(st.t, step.ids, Awaiting(st.terminating)))
  {
    match step
    case SetCredential(c) => SetKeeps(st, c);
    case DropCredential(client) => DropKeeps(st, client);
    case Terminate(client) => TerminateKeeps(st, client);
    case Hello(credential, hello, session) => HelloKeeps(st, credential, hello, session);
    case LastPathGone(session) =>
    case Close(session) => CloseKeeps(st, session);
    case Janitor(ids) => JanitorKeeps(st, ids);
  }

  ghost predicate RoutedThroughout(st: State, run: seq<Step>)
    requires CanRun(st, run)
    decreases |run|
  {
    Routed(st) && (run == [] || RoutedThroughout(Do(st, run[0]), run[1..]))
  }

  /** No janitor step of the run expires a session sharing the address of a survivor that awaits nothing. */
  ghost predicate NeverShares(st: State, run: seq<Step>)
    requires CanRun(st, run)
    decreases |run|
  {
    run == [] || (
      && (run[0].Janitor? ==> !ExpiresShared(st.t, run[0].ids, Awaiting(st.terminating)))
      && NeverShares(Do(st, run[0]), run[1..]))
  }

  /** A run keeps every session's route at every step exactly if the janitor never expires a shared address. */
  lemma {:induction false} RoutedThroughoutIff(st: State, run: seq<Step>)
    requires Sound(st) && Routed(st) && CanRun(st, run)
    ensures RoutedThroughout(st, run) <==> NeverShares(st, run)
    decreases |run|
  {
    if run != [] {
      StepKeeps(st, run[0]);
      StepKeepsRoutesIff(st, run[0]);
      if Routed(Do(st, run[0])) { RoutedThroughoutIff(Do(st, run[0]), run[1..]); }
    }
  }

  // ----- one owner for each address -----

  ghost predicate Owns(owner: map<IPv4, ClientID>, c: Credential) {
    c.tunnelIP in owner && owner[c.tunnelIP] == c.clientID
  }

  /** Credentials and sessions have the addresses of their clients. */
  ghost predicate Owned(t: Tables, owner: map<IPv4, ClientID>) {
    && (forall c :: c in t.credentials ==> Owns(owner, t.credentials[c]))
    && (forall id :: id in t.sessions ==> Owns(owner, t.sessions[id].credential))
  }

  /** Even the sessions awaiting termination are found by their addresses. */
  ghost predicate AllRouted(t: Tables) {
    RoutedUnless(t, {})
  }

  lemma OwnersShareNothing(t: Tables, owner: map<IPv4, ClientID>, ids: set<uint64>)
    requires Linked(t) && Owned(t, owner)
    ensures !ExpiresShared(t, ids, {})
  {
    forall id, other | id in t.sessions && id !in ids && other in ids && other in t.sessions
      ensures t.sessions[other].credential.tunnelIP != t.sessions[id].credential.tunnelIP
    {
      assert FoundByClient(t, t.sessions[other]) && FoundByClient(t, t.sessions[id]);
      assert t.sessions[id].id == id && t.sessions[other].id == other;
    }
  }

  lemma HelloKeepsOwned(st: State, credential: Credential, hello: Greeting, session: Session,
                        owner: map<IPv4, ClientID>)
    requires Sound(st) && CanDo(st, Hello(credential, hello, session))
    requires Owned(st.t, owner) && AllRouted(st.t)
    ensures Owned(HelloStep(st, credential, hello, session).t, owner)
    ensures AllRouted(HelloStep(st, credential, hello, session).t)
  {
    if HelloStep(st, credential, hello, session) != st {
      var client := credential.clientID;
      var t := TerminateClient(st.t, client);
      TerminateEmpties(st.t, client);
      if client in st.t.byClient { DetachKeepsOthers(st.t, st.t.byClient[client], {}); }
      assert Owns(owner, st.t.credentials[client]) && Owns(owner, credential);
      InstallKeepsOwned(t, session, owner);
    }
  }

  lemma InstallKeepsOwned(t: Tables, s: Session, owner: map<IPv4, ClientID>)
    requires Linked(t) && Owned(t, owner) && AllRouted(t) && Owns(owner, s.credential)
    requires s.id !in t.sessions && NoSession(t, s.credential.clientID)
    ensures Owned(Install(t, s), owner) && AllRouted(Install(t, s))
  {
    forall id | id in t.sessions ensures t.sessions[id].credential.tunnelIP != s.credential.tunnelIP {
      assert Owns(owner, t.sessions[id].credential);
    }
  }

  /** While each address has one owner, no step loses a route, whatever the janitor expires and when. */
  lemma {:induction false} StepKeepsOwned(st: State, step: Step, owner: map<IPv4, ClientID>)
    requires Sound(st) && CanDo(st, step) && Owned(st.t, owner) && AllRouted(st.t)
    requires step.SetCredential? ==> Owns(owner, step.c)
    ensures Owned(Do(st, step).t, owner) && AllRouted(Do(st, step).t)
  {
    match step
    case SetCredential(c) => RelinkCredentials(st.t, Do(st, step).t.credentials);
    case DropCredential(client) => RelinkCredentials(st.t, Do(st, step).t.credentials);
    case Terminate(client) =>
      if client in st.t.byClient { DetachKeepsOthers(st.t, st.t.byClient[client], {}); }
    case Hello(credential, hello, session) => HelloKeepsOwned(st, credential, hello, session, owner);
    case LastPathGone(session) =>
    case Close(session) => DetachKeepsOthers(st.t, session, {});
    case Janitor(ids) =>
      OwnersShareNothing(st.t, owner, ids);
      ExpireKeepsRoutesIff(st.t, ids, {});
  }

  /** As long as no address is ever authorized for two clients, every session is found by its address in every
      state of every interleaving. */
  lemma {:induction false} OwnedRunIsRouted(st: State, run: seq<Step>, owner: map<IPv4, ClientID>)
    requires Sound(st) && CanRun(st, run) && Owned(st.t, owner) && AllRouted(st.t)
    requires forall i :: 0 <= i < |run| && run[i].SetCredential? ==> Owns(owner, run[i].c)
    ensures Owned(Run(st, run).t, owner) && AllRouted(Run(st, run).t)
    decreases |run|
  {
    if run != [] {
      StepKeeps(st, run[0]);
      StepKeepsOwned(st, run[0], owner);
      OwnedRunIsRouted(Do(st, run[0]), run[1..], owner);
    }
  }

  // ----- an address authorized for two clients -----

  lemma {:induction false} RunOneMore(st: State, run: seq<Step>, step: Step)
    requires CanRun(st, run) && CanDo(Run(st, run), step)
    ensures CanRun(st, run + [step]) && Run(st, run + [step]) == Do(Run(st, run), step)
    decreases |run|
  {
    if run == [] {
      assert run + [step] == [step] && [step][1..] == [];
    } else {
      assert (run + [step])[1..] == run[1..] + [step];
      RunOneMore(Do(st, run[0]), run[1..], step);
    }
  }

  /** `a` is the only session; its client's key and address are free again, its termination still pending. */
  ghost function Orphaned(a: Session): State {
    State(Tables(map[], map[a.id := a], map[a.credential.clientID := a], map[a.credential.tunnelIP := a], 1),
          multiset{a.credential.clientID}, {a}, {}, {})
  }

  lemma OrphanedIsReached(a: Session, hello: Greeting)
    requires a.Matches(hello)
    ensures var s1 := Do(EMPTY, SetCredential(a.credential));
            && CanDo(s1, Hello(a.credential, hello, a))
            && Do(Do(s1, Hello(a.credential, hello, a)), DropCredential(a.credential.clientID)) == Orphaned(a)
  {
    var s1 := Do(EMPTY, SetCredential(a.credential));
    var set1 := Tables(map[a.credential.clientID := a.credential], map[], map[], map[], 0);
    assert s1 == State(set1, multiset{}, {}, {}, {});
    var s2 := Do(s1, Hello(a.credential, hello, a));
    assert s2.t == Install(s1.t, a);
    assert s2.seen == {a} && s2.closing == {};
    var s3 := Do(s2, DropCredential(a.credential.clientID));
    assert s3.t.credentials == map[];
  }

  /** Another client gets the address and connects, then the janitor expires `a`. */
  lemma OrphanTakesRoute(a: Session, b: Session, hello: Greeting)
    requires a.id != b.id && a.credential.clientID != b.credential.clientID
    requires a.credential.tunnelIP == b.credential.tunnelIP && b.Matches(hello)
    ensures var s4 := Do(Orphaned(a), SetCredential(b.credential));
            var s5 := Do(s4, Hello(b.credential, hello, b));
            && CanDo(s4, Hello(b.credential, hello, b))
            && s5.terminating == multiset{a.credential.clientID} && b.id in s5.t.sessions && s5.t.sessions[b.id] == b
            && a.id in s5.t.sessions && s5.t.sessions[a.id] == a
  {
    var s4 := Do(Orphaned(a), SetCredential(b.credential));
    assert s4.t.credentials == map[b.credential.clientID := b.credential];
    assert s4.terminating == multiset{a.credential.clientID};
    var s5 := Do(s4, Hello(b.credential, hello, b));
    assert s5.t == Install(s4.t, b);
  }

  /** What a revocation leaves pending while its client's address moves on. */
  ghost function LosingRun(a: Session, b: Session, hello: Greeting): seq<Step> {
    [] + [SetCredential(a.credential)] + [Hello(a.credential, hello, a)] + [DropCredential(a.credential.clientID)]
    + [SetCredential(b.credential)] + [Hello(b.credential, hello, b)]
    + [Janitor({a.id})] + [Terminate(a.credential.clientID)]
  }

  /** Run to its end, the address's new holder is current and live, nothing is pending, and packets for the
      address still find no session. */
  lemma JanitorLosesRoute(a: Session, b: Session, hello: Greeting)
    requires a.id != b.id && a.credential.clientID != b.credential.clientID && a.credential.key != b.credential.key
    requires a.credential.tunnelIP == b.credential.tunnelIP && a.Matches(hello) && b.Matches(hello)
    ensures CanRun(EMPTY, LosingRun(a, b, hello))
    ensures var st := Run(EMPTY, LosingRun(a, b, hello));
            st.terminating == multiset{} && IsLive(st.t, b) && !FoundByIP(st.t, b)
  {
    var client := a.credential.clientID;
    OrphanedIsReached(a, hello);
    OrphanTakesRoute(a, b, hello);
    RunOneMore(EMPTY, [], SetCredential(a.credential));
    var r1 := [] + [SetCredential(a.credential)];
    RunOneMore(EMPTY, r1, Hello(a.credential, hello, a));
    var r2 := r1 + [Hello(a.credential, hello, a)];
    RunOneMore(EMPTY, r2, DropCredential(client));
    var r3 := r2 + [DropCredential(client)];
    RunOneMore(EMPTY, r3, SetCredential(b.credential));
    var r4 := r3 + [SetCredential(b.credential)];
    RunOneMore(EMPTY, r4, Hello(b.credential, hello, b));
    var r5 := r4 + [Hello(b.credential, hello, b)];
    RunOneMore(EMPTY, r5, Janitor({a.id}));
    var r6 := r5 + [Janitor({a.id})];
    var s5 := Run(EMPTY, r5);
    JanitorDropsOwner(s5, a);
    JanitorKeepsOther(s5, a, b);
    RunOneMore(EMPTY, r6, Terminate(client));
    TerminatesNone(Run(EMPTY, r6), client);
  }

  lemma JanitorDropsOwner(st: State, a: Session)
    requires a.id in st.t.sessions && st.t.sessions[a.id] == a
    ensures var t := JanitorStep(st, {a.id}).t;
            a.credential.clientID !in t.byClient && a.credential.tunnelIP !in t.byIP
  {
    assert a.credential.clientID in Clients(st.t, {a.id}) && a.credential.tunnelIP in Addresses(st.t, {a.id});
  }

  lemma JanitorKeepsOther(st: State, a: Session, b: Session)
    requires b.id in st.t.sessions && st.t.sessions[b.id] == b && a.id != b.id
    ensures IsLive(JanitorStep(st, {a.id}).t, b)
    ensures JanitorStep(st, {a.id}).terminating == st.terminating
  {
  }

  lemma TerminatesNone(st: State, client: ClientID)
    requires client !in st.t.byClient && st.terminating == multiset{client}
    ensures TerminateStep(st, client).t == st.t && TerminateStep(st, client).terminating == multiset{}
  {
  }

  // ----- undisturbed operations are runs of their steps -----

  lemma RevokeIsTwoSteps(st: State, client: ClientID)
    ensures CanDo(DropStep(st, client), Terminate(client))
    ensures TerminateStep(DropStep(st, client), client).t == Revoked(st.t, client)
    ensures TerminateStep(DropStep(st, client), client).terminating == st.terminating
  {
    assert st.terminating + multiset{client} - multiset{client} == st.terminating;
  }

  lemma AuthorizeIsItsSteps(st: State, c: Credential)
    requires !Clashes(st.t.credentials, c)
    ensures if Replaces(st.t.credentials, c) then
              && CanDo(SetStep(st, c), Terminate(c.clientID))
              && TerminateStep(SetStep(st, c), c.clientID).t == Authorized(st.t, c)
              && TerminateStep(SetStep(st, c), c.clientID).terminating == st.terminating
            else
              SetStep(st, c).t == Authorized(st.t, c) && SetStep(st, c).terminating == st.terminating
  {
    assert st.terminating + multiset{c.clientID} - multiset{c.clientID} == st.terminating;
  }
}
