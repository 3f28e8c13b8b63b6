/** What the relay's critical sections keep of the agreement between its tables. */
module RelayInvariants {
  import opened Words
  import opened Relay

  /** No two clients share an address or a key. */
  ghost predicate Distinct(credentials: map<ClientID, Credential>) {
    && (forall c :: c in credentials ==> credentials[c].clientID == c)
    && (forall c, d :: c in credentials && d in credentials && c != d ==>
          credentials[c].tunnelIP != credentials[d].tunnelIP && credentials[c].key != credentials[d].key)
  }

  ghost predicate IsLive(t: Tables, s: Session) {
    s.id in t.sessions && t.sessions[s.id] == s
  }

  ghost predicate FoundByClient(t: Tables, s: Session) {
    s.credential.clientID in t.byClient && t.byClient[s.credential.clientID] == s
  }

  ghost predicate FoundByIP(t: Tables, s: Session) {
    s.credential.tunnelIP in t.byIP && t.byIP[s.credential.tunnelIP] == s
  }

  ghost predicate SessionsFound(t: Tables) {
    forall id :: id in t.sessions ==> t.sessions[id].id == id && FoundByClient(t, t.sessions[id])
  }

  ghost predicate ClientsLive(t: Tables) {
    forall c :: c in t.byClient ==> t.byClient[c].credential.clientID == c && IsLive(t, t.byClient[c])
  }

  ghost predicate AddressesLive(t: Tables) {
    forall ip :: ip in t.byIP ==> t.byIP[ip].credential.tunnelIP == ip && IsLive(t, t.byIP[ip])
  }

  /** Sessions and clients correspond one to one, the counter counts them, and every address entry is a
      live session with that address. */
  ghost predicate Linked(t: Tables) {
    SessionsFound(t) && ClientsLive(t) && AddressesLive(t) && t.active == |t.sessions|
  }

  /** Every session carries its client's current key and address, unless the client awaits termination. */
  ghost predicate CurrentUnless(t: Tables, awaiting: set<ClientID>) {
    forall id :: id in t.sessions ==>
      IsCurrent(t.credentials, t.sessions[id].credential) || t.sessions[id].credential.clientID in awaiting
  }

  /** Every session is found by its address, unless its client awaits termination. */
  ghost predicate RoutedUnless(t: Tables, awaiting: set<ClientID>) {
    forall id :: id in t.sessions ==>
      FoundByIP(t, t.sessions[id]) || t.sessions[id].credential.clientID in awaiting
  }

  /** All three indexes in bijection, over current credentials: what holds between undisturbed operations. */
  ghost predicate Consistent(t: Tables) {
    Distinct(t.credentials) && Linked(t) && CurrentUnless(t, {}) && RoutedUnless(t, {})
  }

  // ----- detaching -----

  lemma DetachKeepsLinked(t: Tables, s: Session)
    requires Linked(t)
    ensures Linked(Detach(t, s)) && !IsLive(Detach(t, s), s)
    ensures IsLive(t, s) ==> s.credential.clientID !in Detach(t, s).byClient
  {
    var t' := Detach(t, s);
    if IsLive(t, s) {
      assert t.sessions[s.id] == s && FoundByClient(t, s);
      assert t'.sessions.Keys == t.sessions.Keys - {s.id};
      assert |t'.sessions.Keys| == |t.sessions.Keys| - 1;
      forall id | id in t'.sessions ensures FoundByClient(t', t'.sessions[id]) {
        assert FoundByClient(t, t.sessions[id]);
      }
      forall c | c in t'.byClient ensures IsLive(t', t'.byClient[c]) {
        assert IsLive(t, t.byClient[c]);
      }
      forall ip | ip in t'.byIP ensures IsLive(t', t'.byIP[ip]) {
        assert IsLive(t, t.byIP[ip]);
      }
    }
  }

  /** A guarded removal takes no one else's entries. */
  lemma DetachKeepsOthers(t: Tables, s: Session, awaiting: set<ClientID>)
    requires Linked(t)
    ensures CurrentUnless(t, awaiting) ==> CurrentUnless(Detach(t, s), awaiting)
    ensures RoutedUnless(t, awaiting) ==> RoutedUnless(Detach(t, s), awaiting)
  {
    var t' := Detach(t, s);
    forall id | id in t'.sessions ensures FoundByIP(t, t.sessions[id]) ==> FoundByIP(t', t'.sessions[id]) {
      assert t.sessions[id].id == id;
    }
  }

  /** Detaching takes exactly the session: every other one stays in every index it was in. */
  lemma DetachIsExact(t: Tables, s: Session, other: Session)
    requires Linked(t)
    ensures var t' := Detach(t, s);
            && t'.credentials == t.credentials
            && (IsLive(t', other) <==> IsLive(t, other) && other != s)
            && (FoundByClient(t', other) <==> FoundByClient(t, other) && other != s)
            && (FoundByIP(t', other) <==> FoundByIP(t, other) && other != s)
  {
    if FoundByClient(t, other) { assert IsLive(t, t.byClient[other.credential.clientID]); }
    if FoundByIP(t, other) { assert IsLive(t, t.byIP[other.credential.tunnelIP]); }
  }

  /** Terminating takes exactly the client's session. */
  lemma TerminateIsExact(t: Tables, client: ClientID, other: Session)
    requires Linked(t)
    ensures var t' := TerminateClient(t, client);
            && t'.credentials == t.credentials
            && (IsLive(t', other) <==> IsLive(t, other) && other.credential.clientID != client)
            && (FoundByIP(t', other) <==> FoundByIP(t, other) && other.credential.clientID != client)
  {
    if FoundByIP(t, other) { assert IsLive(t, t.byIP[other.credential.tunnelIP]); }
    if IsLive(t, other) { assert FoundByClient(t, t.sessions[other.id]); }
    if client in t.byClient {
      assert IsLive(t, t.byClient[client]) && t.byClient[client].credential.clientID == client;
      DetachIsExact(t, t.byClient[client], other);
    }
  }

  /** After terminating a client it has no session. */
  lemma TerminateEmpties(t: Tables, client: ClientID)
    requires Linked(t)
    ensures var t' := TerminateClient(t, client);
            Linked(t') && client !in t'.byClient && NoSession(t', client)
  {
    if client in t.byClient {
      assert IsLive(t, t.byClient[client]);
      DetachKeepsLinked(t, t.byClient[client]);
    }
    var t' := TerminateClient(t, client);
    forall id | id in t'.sessions ensures t'.sessions[id].credential.clientID != client {
      assert FoundByClient(t', t'.sessions[id]);
    }
  }

  ghost predicate NoSession(t: Tables, client: ClientID) {
    forall id :: id in t.sessions ==> t.sessions[id].credential.clientID != client
  }

  // ----- installing -----

  lemma InstallKeepsLive(t: Tables, s: Session, other: Session)
    requires IsLive(t, other) && s.id !in t.sessions
    ensures IsLive(Install(t, s), other) && other != s
  {
  }

  lemma InstallKeepsLinked(t: Tables, s: Session)
    requires Linked(t) && s.id !in t.sessions && s.credential.clientID !in t.byClient
    ensures Linked(Install(t, s)) && IsLive(Install(t, s), s) && FoundByIP(Install(t, s), s)
  {
    var t' := Install(t, s);
    assert |t'.sessions.Keys| == |t.sessions.Keys| + 1 by { assert t'.sessions.Keys == t.sessions.Keys + {s.id}; }
    assert SessionsFound(t');
    forall c | c in t.byClient ensures IsLive(t', t.byClient[c]) { InstallKeepsLive(t, s, t.byClient[c]); }
    forall ip | ip in t.byIP ensures IsLive(t', t.byIP[ip]) { InstallKeepsLive(t, s, t.byIP[ip]); }
    assert ClientsLive(t') && AddressesLive(t');
  }

  /** A session for a current credential takes an address only from clients awaiting termination. */
  lemma InstallKeepsOthers(t: Tables, s: Session, awaiting: set<ClientID>)
    requires Distinct(t.credentials) && Linked(t) && s.id !in t.sessions && s.credential.clientID !in t.byClient
    requires IsCurrent(t.credentials, s.credential) && CurrentUnless(t, awaiting)
    ensures CurrentUnless(Install(t, s), awaiting)
    ensures RoutedUnless(t, awaiting) ==> RoutedUnless(Install(t, s), awaiting)
  {
    var t' := Install(t, s);
    if RoutedUnless(t, awaiting) {
      forall id | id in t'.sessions
        ensures FoundByIP(t', t'.sessions[id]) || t'.sessions[id].credential.clientID in awaiting
      {
        if id != s.id {
          assert FoundByClient(t, t.sessions[id]);
        }
      }
    }
  }

  /** Replacing a client's session by one for its current credential keeps everything. */
  lemma {:induction false} ReplaceKeeps(t: Tables, s: Session, awaiting: set<ClientID>)
    requires Distinct(t.credentials) && Linked(t) && s.id !in t.sessions
    requires IsCurrent(t.credentials, s.credential) && CurrentUnless(t, awaiting)
    ensures var t' := Replace(t, s); Linked(t') && CurrentUnless(t', awaiting) && IsLive(t', s) && FoundByIP(t', s)
    ensures RoutedUnless(t, awaiting) ==> RoutedUnless(Replace(t, s), awaiting)
  {
    var client := s.credential.clientID;
    var t1 := TerminateClient(t, client);
    TerminateEmpties(t, client);
    if client in t.byClient { DetachKeepsOthers(t, t.byClient[client], awaiting); }
    InstallKeepsLinked(t1, s);
    InstallKeepsOthers(t1, s, awaiting);
  }

  /** Replacing takes exactly the client's session, puts the new one in its place, and takes over its address. */
  lemma ReplaceIsExact(t: Tables, s: Session, other: Session)
    requires Linked(t) && s.id !in t.sessions
    ensures var t' := Replace(t, s);
            && t'.credentials == t.credentials && FoundByIP(t', s)
            && (IsLive(t', other) <==> other == s || (IsLive(t, other) && !SameClient(s, other)))
            && (other != s ==>
                  (FoundByIP(t', other) <==> FoundByIP(t, other) && !SameClient(s, other) && !SameAddress(s, other)))
  {
    TerminateIsExact(t, s.credential.clientID, other);
  }

  ghost predicate SameClient(s: Session, other: Session) {
    other.credential.clientID == s.credential.clientID
  }

  ghost predicate SameAddress(s: Session, other: Session) {
    other.credential.tunnelIP == s.credential.tunnelIP
  }

  // ----- expiring -----

  lemma ExpireKeepsFound(t: Tables, ids: set<uint64>, id: uint64)
    requires Linked(t) && id in t.sessions && id !in ids
    ensures FoundByClient(Expire(t, ids), t.sessions[id])
  {
    assert FoundByClient(t, t.sessions[id]);
    forall other | other in ids && other in t.sessions
      ensures t.sessions[other].credential.clientID != t.sessions[id].credential.clientID
    {
      assert FoundByClient(t, t.sessions[other]);
      assert t.sessions[other].id == other && t.sessions[id].id == id;
    }
  }

  lemma ExpireKeepsLive(t: Tables, ids: set<uint64>, s: Session)
    requires Linked(t) && IsLive(t, s)
    requires s.credential.clientID !in Clients(t, ids) || s.credential.tunnelIP !in Addresses(t, ids)
    ensures IsLive(Expire(t, ids), s)
  {
  }

  lemma ExpireKeepsLinked(t: Tables, ids: set<uint64>)
    requires Linked(t)
    ensures Linked(Expire(t, ids))
  {
    var t' := Expire(t, ids);
    ExpireCounts(t, ids);
    assert SessionsFound(t') by {
      forall id | id in t'.sessions ensures FoundByClient(t', t'.sessions[id]) { ExpireKeepsFound(t, ids, id); }
    }
    assert ClientsLive(t') by {
      forall c | c in t'.byClient ensures IsLive(t', t'.byClient[c]) { ExpireKeepsLive(t, ids, t.byClient[c]); }
    }
    assert AddressesLive(t') by {
      forall ip | ip in t'.byIP ensures IsLive(t', t'.byIP[ip]) { ExpireKeepsLive(t, ids, t.byIP[ip]); }
    }
  }

  /** Expiring takes exactly the sessions named, and the routes of their addresses. */
  lemma ExpireIsExact(t: Tables, ids: set<uint64>, other: Session)
    requires Linked(t)
    ensures var t' := Expire(t, ids);
            && t'.credentials == t.credentials
            && (IsLive(t', other) <==> IsLive(t, other) && other.id !in ids)
            && (FoundByIP(t', other) <==> FoundByIP(t, other) && other.credential.tunnelIP !in Addresses(t, ids))
  {
  }

  lemma ExpireCounts(t: Tables, ids: set<uint64>)
    requires t.active == |t.sessions|
    ensures Expire(t, ids).active == |Expire(t, ids).sessions|
  {
    CountWithout(t.sessions, ids);
  }

  lemma CountWithout<K, V>(m: map<K, V>, keys: set<K>)
    ensures |m - keys| == |m| - |m.Keys * keys|
  {
    var rest := m - keys;
    assert rest.Keys == m.Keys - keys;
    assert m.Keys == rest.Keys + m.Keys * keys;
    assert |m.Keys| == |rest.Keys| + |m.Keys * keys|;
  }

  /** An expired session shares its address with a surviving one that does not await termination. */
  ghost predicate ExpiresShared(t: Tables, ids: set<uint64>, awaiting: set<ClientID>) {
    exists id :: id in t.sessions && id !in ids && t.sessions[id].credential.clientID !in awaiting
                 && t.sessions[id].credential.tunnelIP in Addresses(t, ids)
  }

  /** The unguarded deletion loses a route exactly when it expires a session sharing a survivor's address. */
  lemma ExpireKeepsRoutesIff(t: Tables, ids: set<uint64>, awaiting: set<ClientID>)
    requires Linked(t) && RoutedUnless(t, awaiting)
    ensures RoutedUnless(Expire(t, ids), awaiting) <==> !ExpiresShared(t, ids, awaiting)
  {
    var t' := Expire(t, ids);
    if ExpiresShared(t, ids, awaiting) {
      var id :| id in t.sessions && id !in ids && t.sessions[id].credential.clientID !in awaiting
                && t.sessions[id].credential.tunnelIP in Addresses(t, ids);
      assert id in t'.sessions && !FoundByIP(t', t'.sessions[id]);
    }
  }

  /** Sessions with distinct addresses never share one. */
  lemma ConsistentSharesNothing(t: Tables, ids: set<uint64>)
    requires Consistent(t)
    ensures !ExpiresShared(t, ids, {})
  {
    forall id | id in t.sessions && id !in ids ensures t.sessions[id].credential.tunnelIP !in Addresses(t, ids) {
      forall other | other in ids && other in t.sessions
        ensures t.sessions[other].credential.tunnelIP != t.sessions[id].credential.tunnelIP
      {
        assert FoundByIP(t, t.sessions[other]) && FoundByIP(t, t.sessions[id]);
        assert t.sessions[id].id == id && t.sessions[other].id == other;
      }
    }
  }
}
