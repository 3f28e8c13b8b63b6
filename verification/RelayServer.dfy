/** The relay's operations, each run undisturbed (internal/engine/server.go). */
module RelayServer {
  import opened Words
  import opened Wire
  import opened Relay
  import opened RelayInvariants

  // ----- operations over the tables -----

  function Authorized(t: Tables, c: Credential): Tables {
    var t' := t.(credentials := t.credentials[c.clientID := c]);
    if Replaces(t.credentials, c) then TerminateClient(t', c.clientID) else t'
  }

  function Revoked(t: Tables, client: ClientID): Tables {
    TerminateClient(t.(credentials := t.credentials - {client}), client)
  }

  lemma SetCredentialDistinct(credentials: map<ClientID, Credential>, c: Credential)
    requires Distinct(credentials) && !Clashes(credentials, c)
    ensures Distinct(credentials[c.clientID := c])
  {
  }

  /** Terminating the one client whose credential changed restores agreement. */
  lemma {:induction false} TerminateConsistent(t: Tables, client: ClientID)
    requires Distinct(t.credentials) && Linked(t) && CurrentUnless(t, {client}) && RoutedUnless(t, {client})
    ensures Consistent(TerminateClient(t, client)) && NoSession(TerminateClient(t, client), client)
  {
    TerminateEmpties(t, client);
    if client in t.byClient { DetachKeepsOthers(t, t.byClient[client], {client}); }
  }

  lemma {:induction false} AuthorizedConsistent(t: Tables, c: Credential)
    requires Consistent(t) && !Clashes(t.credentials, c)
    ensures Consistent(Authorized(t, c))
  {
    SetCredentialDistinct(t.credentials, c);
    var t' := t.(credentials := t.credentials[c.clientID := c]);
    assert Linked(t') by { RelinkCredentials(t, t'.credentials); }
    if Replaces(t.credentials, c) {
      TerminateConsistent(t', c.clientID);
    }
  }

  lemma {:induction false} RevokedConsistent(t: Tables, client: ClientID)
    requires Consistent(t)
    ensures Consistent(Revoked(t, client)) && NoSession(Revoked(t, client), client)
  {
    var t' := t.(credentials := t.credentials - {client});
    assert Linked(t') by { RelinkCredentials(t, t'.credentials); }
    TerminateConsistent(t', client);
  }

  /** The check for clashes is exact: it refuses what would make two clients share an address or a key, and nothing
      else. */
  lemma ClashesIff(credentials: map<ClientID, Credential>, c: Credential)
    requires Distinct(credentials)
    ensures Clashes(credentials, c) <==> !Distinct(credentials[c.clientID := c])
  {
    if Clashes(credentials, c) {
      var after := credentials[c.clientID := c];
      var other :| other in credentials && other != c.clientID
                   && (credentials[other].tunnelIP == c.tunnelIP || credentials[other].key == c.key);
      assert after[other] == credentials[other] && after[c.clientID] == c;
    }
  }

  /** The client had another key or address until now. */
  ghost predicate Outdates(t: Tables, c: Credential) {
    c.clientID in t.credentials &&
    !(t.credentials[c.clientID].key == c.key && t.credentials[c.clientID].tunnelIP == c.tunnelIP)
  }

  /** An authorization ends the client's session if that is outdated, and no other. */
  lemma AuthorizedIsExact(t: Tables, c: Credential, s: Session)
    requires Linked(t)
    ensures var t' := Authorized(t, c);
            && t'.credentials == t.credentials[c.clientID := c]
            && (IsLive(t', s) <==> IsLive(t, s) && !(s.credential.clientID == c.clientID && Outdates(t, c)))
            && (FoundByIP(t', s) <==> FoundByIP(t, s) && !(s.credential.clientID == c.clientID && Outdates(t, c)))
  {
    var t' := t.(credentials := t.credentials[c.clientID := c]);
    RelinkCredentials(t, t'.credentials);
    TerminateIsExact(t', c.clientID, s);
  }

  lemma RevokedIsExact(t: Tables, client: ClientID, s: Session)
    requires Linked(t)
    ensures var t' := Revoked(t, client);
            && t'.credentials == t.credentials - {client}
            && (IsLive(t', s) <==> IsLive(t, s) && s.credential.clientID != client)
            && (FoundByIP(t', s) <==> FoundByIP(t, s) && s.credential.clientID != client)
  {
    var t' := t.(credentials := t.credentials - {client});
    RelinkCredentials(t, t'.credentials);
    TerminateIsExact(t', client, s);
  }

  lemma RelinkCredentials(t: Tables, credentials: map<ClientID, Credential>)
    requires Linked(t)
    ensures Linked(t.(credentials := credentials))
  {
    var t' := t.(credentials := credentials);
    assert forall s :: FoundByClient(t, s) ==> FoundByClient(t', s);
    assert forall s :: IsLive(t, s) ==> IsLive(t', s);
  }

  lemma ConsistentIsLinked(t: Tables)
    requires Consistent(t)
    ensures Linked(t)
  {
  }

  lemma {:induction false} ReplaceConsistent(t: Tables, s: Session)
    requires Consistent(t) && s.id !in t.sessions && IsCurrent(t.credentials, s.credential)
    ensures Consistent(Replace(t, s)) && IsLive(Replace(t, s), s)
  {
    ReplaceKeeps(t, s, {});
  }

  lemma {:induction false} DetachConsistent(t: Tables, s: Session)
    requires Consistent(t)
    ensures Consistent(Detach(t, s)) && !IsLive(Detach(t, s), s)
  {
    DetachKeepsLinked(t, s);
    DetachKeepsOthers(t, s, {});
  }

  /** With distinct addresses even the unguarded deletions of the janitor are exact. */
  lemma {:induction false} ExpireConsistent(t: Tables, ids: set<uint64>)
    requires Consistent(t)
    ensures Consistent(Expire(t, ids))
  {
    ExpireKeepsLinked(t, ids);
    ConsistentSharesNothing(t, ids);
    ExpireKeepsRoutesIff(t, ids, {});
  }

  // ----- the object -----

  /** What holds of a session in the table: it takes paths, and they are told apart. */
  ghost predicate InOrder(s: Session)
    reads s`closing, s`paths
  {
    !s.closing && PathsApart(s.paths)
  }

  ghost predicate AllInOrder(sessions: map<uint64, Session>)
    reads sessions.Values`closing, sessions.Values`paths
  {
    forall id :: id in sessions ==> InOrder(sessions[id])
  }

  ghost function Silent(sessions: map<uint64, Session>, now: int, timeout: int): set<uint64>
    reads sessions.Values`lastSeen
  {
    set id | id in sessions && now - sessions[id].lastSeen > timeout
  }

  ghost function PathsOf(before: map<Session, map<uint32, Path>>, s: Session): map<uint32, Path> {
    if s in before then before[s] else map[]
  }

  /** What a session that is not closing, and has these paths, makes of a hello with this nonce from this address. */
  ghost predicate Answers(paths: map<uint32, Path>, nonce: Id16, remote: Endpoint, now: int, sent: bool,
                          r: Registration) {
    && (r.Foreign? <==> exists id :: id in paths && paths[id].clientNonce == nonce && paths[id].remote != remote)
    && (r.Answered? <==> exists id :: id in paths && paths[id].clientNonce == nonce && paths[id].remote == remote)
    && (r.Answered? ==> r.path.id in paths && r.path == paths[r.path.id].(clientNonce := nonce, healthy := sent))
    && (r.Registered? ==> r.path == Path(r.path.id, nonce, remote, now, true) && 0 < r.path.id < TWO_31)
    && !r.TurnedAway?
  }

  /** The paths of a session after a hello: only the path it was about has changed. */
  ghost function AfterHello(paths: map<uint32, Path>, r: Registration, sent: bool): map<uint32, Path> {
    if r.Answered? || (r.Registered? && sent) then paths[r.path.id := r.path]
    else if r.Registered? then paths - {r.path.id}
    else paths
  }

  class Server {
    const address: IPv4
    const subnetBase: IPv4
    const subnetSize: nat
    var credentials: map<ClientID, Credential>
    var sessions: map<uint64, Session>
    var sessionByClient: map<ClientID, Session>
    var sessionByIP: map<IPv4, Session>
    var activeSessions: int

    function Model(): Tables
      reads this
    {
      Tables(credentials, sessions, sessionByClient, sessionByIP, activeSessions)
    }

    /** The indexes agree, and every session in them is in order. */
    ghost predicate Valid()
      reads this, sessions.Values`closing, sessions.Values`paths
    {
      Consistent(Model()) && AllInOrder(sessions)
    }

    constructor (address: IPv4, subnetBase: IPv4, subnetSize: nat)
      ensures Valid() && Model() == Tables(map[], map[], map[], map[], 0)
      ensures this.address == address && this.subnetBase == subnetBase && this.subnetSize == subnetSize
    {
      this.address, this.subnetBase, this.subnetSize := address, subnetBase, subnetSize;
      credentials, sessions, sessionByClient, sessionByIP, activeSessions := map[], map[], map[], map[], 0;
    }

    predicate InSubnet(ip: IPv4) {
      subnetBase <= ip && ip - subnetBase < subnetSize
    }

    /** Adds or changes a credential, ending the client's session if its key or address changed. The id,
        key and address come parsed, `None` where they do not parse. */
    method AuthorizeClient(name: string, id: Option<ClientID>, key: Option<Bytes>, ip: Option<IPv4>)
      returns (err: Option<Error>)
      requires Valid()
      modifies this, sessions.Values
      ensures Valid()
      ensures err.None? <==> && id.Some? && key.Some? && ip.Some?
                             && subnetBase <= ip.value < subnetBase + subnetSize && ip.value != address
                             && !Clashes(old(credentials), Credential(name, id.value, key.value, ip.value))
      ensures err == Some(BadClientID) <==> id.None?
      ensures err == Some(BadKey) <==> id.Some? && key.None?
      ensures err == Some(BadAddress) <==> id.Some? && key.Some? && ip.None?
      ensures err == Some(OutsideSubnet) <==>
                id.Some? && key.Some? && ip.Some?
                && !(subnetBase <= ip.value < subnetBase + subnetSize && ip.value != address)
      ensures err.None? ==> Model() == Authorized(old(Model()), Credential(name, id.value, key.value, ip.value))
      ensures err.Some? ==> Model() == old(Model())
    {
      if id.None? {
        return Some(BadClientID);
      }
      if key.None? {
        return Some(BadKey);
      }
      if ip.None? {
        return Some(BadAddress);
      }
      if !InSubnet(ip.value) || ip.value == address {
        return Some(OutsideSubnet);
      }
      var credential := Credential(name, id.value, key.value, ip.value);
      err := FindClash(credential);
      if err.Some? {
        return;
      }
      hide Consistent, InOrder, Authorized, Clashes;
      SetCredential(credential);
    }

    /** What is left of an authorization once the credential is known to share nothing. */
    method SetCredential(credential: Credential)
      requires Valid() && !Clashes(credentials, credential)
      modifies this, sessions.Values
      ensures Valid() && Model() == Authorized(old(Model()), credential)
    {
      hide Consistent, Linked, InOrder, AllInOrder, Clashes, TerminateClient;
      ghost var before := Model();
      ConsistentIsLinked(before);
      var replacing := Replaces(credentials, credential);
      credentials := credentials[credential.clientID := credential];
      RelinkCredentials(before, credentials);
      if replacing {
        TerminateClientSession(credential.clientID);
      }
      AuthorizedConsistent(before, credential);
    }

    /** Which address or key a credential would share, in whatever order the map is walked. */
    method FindClash(credential: Credential) returns (err: Option<Error>)
      ensures err.None? <==> !Clashes(credentials, credential)
      ensures err.Some? ==>
                exists o :: o in credentials && o != credential.clientID
                  && ((err.value == AddressTaken && credentials[o].tunnelIP == credential.tunnelIP)
                      || (err.value == KeyTaken && credentials[o].key == credential.key))
    {
      var others := credentials.Keys;
      while others != {}
        invariant others <= credentials.Keys
        invariant forall o :: o in credentials && o !in others && o != credential.clientID ==>
                    credentials[o].tunnelIP != credential.tunnelIP && credentials[o].key != credential.key
        decreases others
      {
        var other :| other in others;
        if other != credential.clientID && credentials[other].tunnelIP == credential.tunnelIP {
          return Some(AddressTaken);
        }
        if other != credential.clientID && credentials[other].key == credential.key {
          return Some(KeyTaken);
        }
        others := others - {other};
      }
      err := None;
    }

    method RevokeClient(id: Option<ClientID>)
      requires Valid()
      modifies this, sessions.Values
      ensures Valid()
      ensures Model() == if id.Some? then Revoked(old(Model()), id.value) else old(Model())
      ensures id.Some? ==> NoSession(Model(), id.value)
    {
      hide Consistent, Linked, InOrder, NoSession, TerminateClient;
      if id.None? {
        return;
      }
      ghost var before := Model();
      ConsistentIsLinked(before);
      credentials := credentials - {id.value};
      RelinkCredentials(before, credentials);
      TerminateClientSession(id.value);
      RevokedConsistent(before, id.value);
    }

    /** The client's session, ended for good: out of the indexes and closed to new paths. */
    method TerminateClientSession(client: ClientID)
      requires Linked(Model()) && AllInOrder(sessions)
      modifies this`sessions, this`sessionByClient, this`sessionByIP, this`activeSessions, sessions.Values`closing
      ensures Model() == TerminateClient(old(Model()), client) && AllInOrder(sessions)
      ensures client in old(sessionByClient) ==> old(sessionByClient)[client].closing
    {
      if client in sessionByClient {
        var session := sessionByClient[client];
        assert IsLive(Model(), session);
        var _ := session.MarkClosing();
        DetachSession(session);
      }
    }

    method TerminateSessionIfCurrent(session: Session)
      requires Linked(Model()) && forall id :: id in sessions ==> InOrder(sessions[id]) || sessions[id] == session
      modifies this`sessions, this`sessionByClient, this`sessionByIP, this`activeSessions, session`closing
      ensures Model() == Detach(old(Model()), session)
      ensures session.closing == (old(session.closing) || IsLive(old(Model()), session))
      ensures AllInOrder(sessions)
    {
      if session.id !in sessions || sessions[session.id] != session {
        return;
      }
      var _ := session.MarkClosing();
      DetachSession(session);
    }

    /** Removes a session from every index it holds, and only from those. */
    method DetachSession(session: Session)
      modifies this`sessions, this`sessionByClient, this`sessionByIP, this`activeSessions
      ensures Model() == Detach(old(Model()), session)
    {
      if session.id !in sessions || sessions[session.id] != session {
        return;
      }
      sessions := sessions - {session.id};
      var client, ip := session.credential.clientID, session.credential.tunnelIP;
      if client in sessionByClient && sessionByClient[client] == session {
        sessionByClient := sessionByClient - {client};
      }
      if ip in sessionByIP && sessionByIP[ip] == session {
        sessionByIP := sessionByIP - {ip};
      }
      activeSessions := activeSessions - 1;
    }

    /** The session a hello joins. `sessionID` is the random number drawn until it is nonzero and unused. */
    method GetOrCreateSession(credential: Credential, hello: Greeting, sessionID: uint64, now: int)
      returns (r: Result<Session, Error>)
      requires Valid() && sessionID != 0 && sessionID !in sessions
      modifies this`sessions, this`sessionByClient, this`sessionByIP, this`activeSessions, sessions.Values`closing
      ensures Valid()
      ensures r.Ok? <==> IsCurrent(old(credentials), credential)
      ensures r.Err? ==> r.error == CredentialChanged && Model() == old(Model())
      ensures r.Ok? ==> IsLive(Model(), r.value) && !r.value.closing && r.value.Matches(hello)
      ensures r.Ok? && fresh(r.value) ==>
                forall later: Greeting :: r.value.Matches(later) <==> SameProcess(hello, later)
      ensures r.Ok? ==>
                if credential.clientID in old(sessionByClient) &&
                  old(sessionByClient)[credential.clientID].Matches(hello) then
                  r.value == old(sessionByClient)[credential.clientID] && Model() == old(Model())
                else
                  && fresh(r.value) && r.value.id == sessionID && r.value.credential == credential
                  && r.value.paths == map[]
                  && Model() == Replace(old(Model()), r.value)
                  && (credential.clientID in old(sessionByClient) ==> old(sessionByClient)[credential.clientID].closing)
    {
      var client := credential.clientID;
      if client !in credentials || credentials[client].key != credential.key
         || credentials[client].tunnelIP != credential.tunnelIP
      {
        return Err(CredentialChanged);
      }
      if client in sessionByClient {
        var existing := sessionByClient[client];
        assert IsLive(Model(), existing);
        if existing.Accepts(hello) {
          return Ok(existing);
        }
      }
      ghost var before := Model();
      var session := CreateSession(credential, hello, sessionID, now);
      ReplaceConsistent(before, session);
      return Ok(session);
    }

    method CreateSession(credential: Credential, hello: Greeting, sessionID: uint64, now: int)
                         returns (session: Session)
      requires Linked(Model()) && AllInOrder(sessions)
      modifies this`sessions, this`sessionByClient, this`sessionByIP, this`activeSessions, sessions.Values`closing
      ensures fresh(session) && session.id == sessionID && session.credential == credential
      ensures !session.closing && forall later: Greeting :: session.Matches(later) <==> SameProcess(hello, later)
      ensures session.paths == map[] && session.nextPathID == 0
      ensures Model() == Replace(old(Model()), session) && AllInOrder(sessions)
      ensures credential.clientID in old(sessionByClient) ==> old(sessionByClient)[credential.clientID].closing
    {
      hide Linked;
      session := new Session(sessionID, credential, hello, now);
      TerminateClientSession(credential.clientID);
      InstallSession(session);
    }

    method InstallSession(session: Session)
      requires AllInOrder(sessions) && InOrder(session)
      modifies this`sessions, this`sessionByClient, this`sessionByIP, this`activeSessions
      ensures Model() == Install(old(Model()), session) && AllInOrder(sessions)
    {
      sessions := sessions[session.id := session];
      sessionByClient := sessionByClient[session.credential.clientID := session];
      sessionByIP := sessionByIP[session.credential.tunnelIP := session];
      activeSessions := activeSessions + 1;
    }

    /** A close packet, or a welcome that could not be sent, ends a path; the last one ends the session. */
    method ClosePath(session: Session, path: Path)
      requires Valid()
      modifies this, session`paths, session`closing
      ensures Valid()
      ensures session.paths
           == if Holds(old(session.paths), path) then old(session.paths) - {path.id} else old(session.paths)
      ensures Model() == if session.paths == map[] then Detach(old(Model()), session) else old(Model())
      ensures session.paths == map[] ==> session.closing && !IsLive(Model(), session)
    {
      hide Consistent, Linked, PathsApart, Detach;
      ghost var before := Model();
      ConsistentIsLinked(before);
      DetachConsistent(before, session);
      var empty := session.RemovePath(path);
      if empty {
        TerminateSessionIfCurrent(session);
      }
    }

    /** Each session in the table with its paths. */
    ghost function PathsBySession(): map<Session, map<uint32, Path>>
      reads this, sessions.Values`paths
    {
      map s: Session | s in sessions.Values :: s.paths
    }

    /** A hello whose client proved its key: it joins or creates the client's session and gets its path there. The
        outcome of sending the welcome is `sent`; a new path that cannot be told of is closed again. */
    method HandleHello(credential: Credential, hello: Greeting, nonce: Id16, remote: Endpoint, sessionID: uint64,
                       now: int,
                       sent: bool) returns (r: Result<(Session, Registration), Error>)
      requires Valid() && sessionID != 0 && sessionID !in sessions
      modifies this, sessions.Values
      ensures Valid()
      ensures r.Ok? <==> IsCurrent(old(credentials), credential)
      ensures r.Err? ==> r.error == CredentialChanged && Model() == old(Model())
      ensures r.Ok? ==> (r.value.0 in old(sessions.Values) <==>
                           && credential.clientID in old(sessionByClient)
                           && old(sessionByClient)[credential.clientID].Matches(hello))
      ensures r.Ok? ==>
                && Answers(PathsOf(old(PathsBySession()), r.value.0), nonce, remote, now, sent, r.value.1)
                && r.value.0.paths == AfterHello(PathsOf(old(PathsBySession()), r.value.0), r.value.1, sent)
      ensures r.Ok? && r.value.0 !in old(sessions.Values) ==>
                && r.value.0.id == sessionID && r.value.0.credential == credential
                && forall later: Greeting :: r.value.0.Matches(later) <==> SameProcess(hello, later)
      ensures forall s :: s in old(sessions.Values) && (r.Err? || s != r.value.0) ==> s.paths == old(s.paths)
      ensures r.Ok? && (sent || !r.value.1.Registered?) ==>
                IsLive(Model(), r.value.0) && !r.value.0.closing && r.value.0.Matches(hello)
      ensures r.Ok? && r.value.1.Registered? && !sent && r.value.0.paths == map[] ==>
                r.value.0.closing && !IsLive(Model(), r.value.0)
    {
      hide Consistent, PathsApart, Answers, AfterHello;
      var found := GetOrCreateSession(credential, hello, sessionID, now);
      if found.Err? {
        return Err(found.error);
      }
      assert found.value.paths == PathsOf(old(PathsBySession()), found.value);
      var registration := AnswerHello(found.value, nonce, remote, now, sent);
      return Ok((found.value, registration));
    }

    /** The end of a hello's handling, in the live session it joins. */
    method AnswerHello(session: Session, nonce: Id16, remote: Endpoint, now: int, sent: bool) returns (r: Registration)
      requires Valid() && IsLive(Model(), session)
      modifies this, session
      ensures Valid()
      ensures Answers(old(session.paths), nonce, remote, now, sent, r)
      ensures session.paths == AfterHello(old(session.paths), r, sent)
      ensures sent || !r.Registered? ==> Model() == old(Model()) && !session.closing
      ensures r.Registered? && !sent && session.paths == map[] ==> session.closing && !IsLive(Model(), session)
    {
      hide Consistent, Answers, PathsApart;
      r := RegisterLive(session, nonce, remote, now, sent);
      assert forall id :: id in sessions && sessions[id] != session ==> InOrder(sessions[id]);
      if r.Registered? && !sent {
        ClosePath(session, r.path);
      }
    }

    method RegisterLive(session: Session, nonce: Id16, remote: Endpoint, now: int, sent: bool)
                        returns (r: Registration)
      requires InOrder(session)
      modifies session`paths, session`nextPathID, session`lastSeen
      ensures InOrder(session) && Answers(old(session.paths), nonce, remote, now, sent, r)
      ensures session.paths == AfterHello(old(session.paths), r, true)
      ensures r.Registered? ==> Holds(session.paths, r.path)
    {
      r := session.RegisterPath(nonce, remote, now, sent);
    }

    /** Ages every session's paths and forgets the sessions silent for longer than `timeout`. */
    method Janitor(now: int, timeout: int)
      requires Valid()
      modifies this, sessions.Values`paths
      ensures Valid()
      ensures forall id :: id in sessions <==> id in old(sessions) && now - old(sessions[id].lastSeen) <= timeout
      ensures Model() == Expire(old(Model()), Silent(old(sessions), now, timeout))
    {
      hide Consistent, AllInOrder, Linked;
      ghost var silent := Silent(sessions, now, timeout);
      assert forall id :: id in silent <==> id in sessions && now - sessions[id].lastSeen > timeout;
      ExpireConsistent(Model(), silent);
      assert Expire(Model(), silent).sessions == sessions - silent;
      hide Expire, Silent;
      Sweep(now, timeout);
    }

    method Sweep(now: int, timeout: int)
      requires AllInOrder(sessions)
      modifies this`sessions, this`sessionByClient, this`sessionByIP, this`activeSessions, sessions.Values`paths
      ensures Model() == Expire(old(Model()), Silent(old(sessions), now, timeout)) && AllInOrder(sessions)
    {
      ghost var before, silent := Model(), Silent(sessions, now, timeout);
      ExpireNone(before);
      hide Expire, InOrder;
      var ids := sessions.Keys;
      assert silent - ids == {};
      while ids != {}
        invariant ids <= before.sessions.Keys
        invariant Model() == Expire(before, silent - ids)
        invariant AllInOrder(sessions)
        decreases ids
      {
        var id :| id in ids;
        StillThere(before, silent, ids, id);
        Visit(id, sessions[id], now, timeout, before, silent, ids);
        ids := ids - {id};
      }
      assert silent - {} == silent;
    }

    method Visit(id: uint64, session: Session, now: int, timeout: int, ghost before: Tables, ghost silent: set<uint64>,
                 ghost ids: set<uint64>)
      requires AllInOrder(sessions) && Model() == Expire(before, silent - ids)
      requires id in ids && id in before.sessions && before.sessions[id] == session
      requires id in silent <==> now - session.lastSeen > timeout
      modifies this`sessions, this`sessionByClient, this`sessionByIP, this`activeSessions, session`paths
      ensures Model() == Expire(before, silent - (ids - {id})) && AllInOrder(sessions)
    {
      StillThere(before, silent, ids, id);
      ExpireNext(before, silent, ids, id);
      hide Expire;
      session.ExpirePaths(now);
      if now - session.lastSeen > timeout {
        ForgetSession(id, session);
      }
    }

    /** What the janitor does to a silent session: the entries go, whoever holds them. */
    method ForgetSession(id: uint64, session: Session)
      requires AllInOrder(sessions)
      modifies this`sessions, this`sessionByClient, this`sessionByIP, this`activeSessions
      ensures Model() == Forget(old(Model()), id, session.credential) && AllInOrder(sessions)
    {
      sessions := sessions - {id};
      sessionByClient := sessionByClient - {session.credential.clientID};
      sessionByIP := sessionByIP - {session.credential.tunnelIP};
      activeSessions := activeSessions - 1;
    }
  }

  function Forget(t: Tables, id: uint64, c: Credential): Tables {
    Tables(t.credentials, t.sessions - {id}, t.byClient - {c.clientID}, t.byIP - {c.tunnelIP}, t.active - 1)
  }

  lemma ExpireNone(t: Tables)
    ensures Expire(t, {}) == t
  {
    assert t.sessions.Keys * {} == {};
    RemoveNone(t.sessions);
    RemoveNone(t.byClient);
    RemoveNone(t.byIP);
    assert Clients(t, {}) == {} && Addresses(t, {}) == {};
  }

  lemma RemoveNone<K, V>(m: map<K, V>)
    ensures m - {} == m
  {
  }

  lemma ExpireOne(t: Tables, ids: set<uint64>, id: uint64)
    requires id in t.sessions && id !in ids
    ensures Expire(t, ids + {id}) == Forget(Expire(t, ids), id, t.sessions[id].credential)
  {
    var c := t.sessions[id].credential;
    assert t.sessions.Keys * (ids + {id}) == t.sessions.Keys * ids + {id};
    assert Clients(t, ids + {id}) == Clients(t, ids) + {c.clientID};
    assert Addresses(t, ids + {id}) == Addresses(t, ids) + {c.tunnelIP};
    RemoveTwice(t.sessions, ids, id);
    RemoveTwice(t.byClient, Clients(t, ids), c.clientID);
    RemoveTwice(t.byIP, Addresses(t, ids), c.tunnelIP);
  }

  lemma StillThere(t: Tables, silent: set<uint64>, ids: set<uint64>, id: uint64)
    requires id in ids && id in t.sessions
    ensures id in Expire(t, silent - ids).sessions && Expire(t, silent - ids).sessions[id] == t.sessions[id]
  {
  }

  lemma ExpireNext(t: Tables, silent: set<uint64>, ids: set<uint64>, id: uint64)
    requires id in ids && id in t.sessions
    ensures Expire(t, silent - (ids - {id}))
              == if id in silent then Forget(Expire(t, silent - ids), id, t.sessions[id].credential)
                 else Expire(t, silent - ids)
  {
    if id in silent {
      ExpireOne(t, silent - ids, id);
      assert silent - (ids - {id}) == silent - ids + {id};
    } else {
      assert silent - (ids - {id}) == silent - ids;
    }
  }

  lemma RemoveTwice<K, V>(m: map<K, V>, keys: set<K>, k: K)
    ensures m - (keys + {k}) == m - keys - {k}
  {
  }
}
