/**
 The enrollment service (internal/controlplane/service.go): each request changes the store first and the
 relay's credentials after it. Requests are served one at a time.
 */
module Service {
  import opened Words
  import opened Wire
  import opened Relay
  import opened RelayInvariants
  import RelayServer
  import opened Store
  import opened StoreRuns

  datatype Fault = Refused(failure: Failure) | NotAuthorized(error: Error)

  /** The relay knows the configured clients and the devices not revoked, with their current keys. */
  ghost predicate Agree(statics: map<ClientID, Credential>, devices: map<ClientID, Device>,
                        credentials: map<ClientID, Credential>) {
    credentials == statics + Active(devices)
  }

  /** Configured clients have reserved addresses and ids of their own. */
  ghost predicate Apart(site: Site, statics: map<ClientID, Credential>, devices: map<ClientID, Device>) {
    && Placed(site, devices) && statics.Keys !! devices.Keys
    && (forall id :: id in statics ==> statics[id].tunnelIP in site.reserved)
  }

  /** Some other client has this key. */
  predicate KeyInUse(credentials: map<ClientID, Credential>, id: ClientID, key: Bytes) {
    exists other :: other in credentials && other != id && credentials[other].key == key
  }

  ghost predicate KeysDiffer(credentials: map<ClientID, Credential>) {
    forall c, d :: c in credentials && d in credentials && c != d ==> credentials[c].key != credentials[d].key
  }

  /** But for `id`, the relay's credentials are among `due`. */
  ghost predicate KnowsOnly(due: map<ClientID, Credential>, credentials: map<ClientID, Credential>, id: ClientID) {
    forall other :: other in credentials && other != id ==> other in due && credentials[other] == due[other]
  }

  /** The allocator leaves the relay nothing to object to but a key. */
  lemma ClashIsKey(site: Site, statics: map<ClientID, Credential>, devices: map<ClientID, Device>,
                   credentials: map<ClientID, Credential>, id: ClientID)
    requires Apart(site, statics, devices) && id in devices
    requires KnowsOnly(statics + Active(devices), credentials, id)
    ensures Clashes(credentials, CredentialOf(devices[id])) <==> KeyInUse(credentials, id, devices[id].key)
  {
    forall other | other in credentials && other != id ensures credentials[other].tunnelIP != devices[id].address {
      if other in Active(devices) {
        assert credentials[other] == CredentialOf(devices[other]);
      } else {
        assert credentials[other] == statics[other];
      }
    }
  }

  lemma ActiveIs(devices: map<ClientID, Device>, id: ClientID)
    requires id in Active(devices)
    ensures id in devices && Active(devices)[id] == CredentialOf(devices[id])
  {
  }

  lemma ActiveWith(devices: map<ClientID, Device>, id: ClientID, device: Device)
    ensures Active(devices[id := device])
              == if device.revokedAt.None? then Active(devices)[id := CredentialOf(device)] else Active(devices) - {id}
  {
  }

  /** Store and relay agree on every client but perhaps `id`. */
  ghost predicate AgreeBut(statics: map<ClientID, Credential>, devices: map<ClientID, Device>,
                           credentials: map<ClientID, Credential>, id: ClientID) {
    credentials - {id} == (statics + Active(devices)) - {id}
  }

  lemma AgreeButKnows(statics: map<ClientID, Credential>, devices: map<ClientID, Device>,
                      credentials: map<ClientID, Credential>, id: ClientID)
    requires AgreeBut(statics, devices, credentials, id)
    ensures KnowsOnly(statics + Active(devices), credentials, id)
  {
    forall other | other in credentials && other != id
      ensures other in statics + Active(devices) && credentials[other] == (statics + Active(devices))[other]
    {
      assert other in credentials - {id} && (credentials - {id})[other] == credentials[other];
    }
  }

  /** With a new credential for `id` in the store, store and relay agree exactly if the relay has it too. */
  lemma AgreeWith(statics: map<ClientID, Credential>, devices: map<ClientID, Device>, devices': map<ClientID, Device>,
                  credentials: map<ClientID, Credential>, id: ClientID, c: Credential)
    requires AgreeBut(statics, devices, credentials, id) && Active(devices') == Active(devices)[id := c]
    ensures AgreeBut(statics, devices', credentials, id) && AgreeBut(statics, devices', credentials[id := c], id)
    ensures Agree(statics, devices', credentials[id := c])
    ensures Agree(statics, devices', credentials) <==> id in credentials && credentials[id] == c
  {
    var due, due' := statics + Active(devices), statics + Active(devices');
    assert due' == due[id := c];
    assert due' - {id} == due - {id};
    PutBack(credentials, due', id);
    PutBack(credentials[id := c], due', id);
    assert credentials[id := c] - {id} == credentials - {id};
  }

  /** Two maps that agree but at one key are equal exactly if they agree there. */
  lemma PutBack<K, V>(a: map<K, V>, b: map<K, V>, k: K)
    requires a - {k} == b - {k} && k in b
    ensures a == b <==> k in a && a[k] == b[k]
  {
    if k in a && a[k] == b[k] {
      assert a == (a - {k})[k := a[k]] && b == (b - {k})[k := b[k]];
    }
  }

  lemma AgreeWithout(statics: map<ClientID, Credential>, devices: map<ClientID, Device>,
                     devices': map<ClientID, Device>,
                     credentials: map<ClientID, Credential>, id: ClientID)
    requires AgreeBut(statics, devices, credentials, id) && Active(devices') == Active(devices) - {id} && id !in statics
    ensures Agree(statics, devices', credentials - {id})
    ensures id !in credentials ==> Agree(statics, devices', credentials)
  {
    assert statics + (Active(devices) - {id}) == (statics + Active(devices)) - {id};
    assert id !in credentials ==> credentials - {id} == credentials;
  }

  /** The relay knows the configured clients and the credentials loaded so far. */
  ghost predicate Loaded(credentials: map<ClientID, Credential>, statics: map<ClientID, Credential>,
                         loaded: seq<Credential>) {
    && credentials.Keys == statics.Keys + (set c | c in loaded :: c.clientID)
    && (forall id :: id in statics ==> credentials[id] == statics[id])
    && (forall c :: c in loaded ==> credentials[c.clientID] == c)
  }

  lemma LoadedKnows(statics: map<ClientID, Credential>, devices: map<ClientID, Device>,
                    credentials: map<ClientID, Credential>, loaded: seq<Credential>, id: ClientID)
    requires Loaded(credentials, statics, loaded) && statics.Keys !! devices.Keys
    requires forall c :: c in loaded ==> c.clientID in Active(devices) && Active(devices)[c.clientID] == c
    ensures KnowsOnly(statics + Active(devices), credentials, id)
  {
  }

  lemma LoadedNext(credentials: map<ClientID, Credential>, statics: map<ClientID, Credential>, all: seq<Credential>,
                   i: nat)
    requires i < |all| && Loaded(credentials, statics, all[..i]) && all[i].clientID !in statics
    requires forall j, k :: 0 <= j < k < |all| ==> all[j].clientID != all[k].clientID
    ensures Loaded(credentials[all[i].clientID := all[i]], statics, all[..i + 1])
  {
    assert all[..i + 1] == all[..i] + [all[i]];
  }

  lemma LoadedNone(statics: map<ClientID, Credential>)
    ensures Loaded(statics, statics, [])
  {
  }

  lemma LoadedAll(statics: map<ClientID, Credential>, devices: map<ClientID, Device>,
                  credentials: map<ClientID, Credential>,
                  all: seq<Credential>)
    requires Loaded(credentials, statics, all[..|all|]) && statics.Keys !! devices.Keys
    requires forall c :: c in all <==> c.clientID in Active(devices) && Active(devices)[c.clientID] == c
    requires forall id :: id in devices ==> devices[id].clientID == id
    ensures Agree(statics, devices, credentials)
  {
    assert all[..|all|] == all;
    forall id | id in Active(devices) ensures id in credentials && credentials[id] == Active(devices)[id] {
      assert Active(devices)[id] in all;
    }
  }

  lemma ConsistentKeysDiffer(t: Tables)
    requires Consistent(t)
    ensures KeysDiffer(t.credentials) && Distinct(t.credentials)
  {
  }

  lemma SharedKey(due: map<ClientID, Credential>, credentials: map<ClientID, Credential>, id: ClientID)
    requires id in due && KnowsOnly(due, credentials, id) && KeyInUse(credentials, id, due[id].key)
    ensures !KeysDiffer(due)
  {
  }

  /** A device added and taken back leaves the relay right. */
  lemma AgreeAgain(statics: map<ClientID, Credential>, devices: map<ClientID, Device>, admitted: map<ClientID, Device>,
                   devices': map<ClientID, Device>, credentials: map<ClientID, Credential>, id: ClientID)
    requires Agree(statics, devices, credentials) && id !in devices
    requires id in admitted && Active(admitted) == Active(devices)[id := CredentialOf(admitted[id])]
    requires Active(devices') == Active(admitted) - {id}
    ensures Agree(statics, devices', credentials)
  {
    assert Active(devices') == Active(devices);
  }

  lemma AuthorizedCredentials(t: Tables, c: Credential)
    ensures RelayServer.Authorized(t, c).credentials == t.credentials[c.clientID := c]
    ensures RelayServer.Authorized(t, c).sessions.Values <= t.sessions.Values
  {
  }

  /** Without sessions there is nothing to end. */
  lemma AuthorizedIdle(t: Tables, c: Credential)
    requires Consistent(t) && t.sessions == map[]
    ensures RelayServer.Authorized(t, c) == t.(credentials := t.credentials[c.clientID := c])
  {
    assert forall client :: client in t.byClient ==> IsLive(t, t.byClient[client]);
  }

  lemma OwnKeyIsNotInUse(t: Tables, id: ClientID)
    requires Consistent(t)
    ensures id in t.credentials ==> !KeyInUse(t.credentials, id, t.credentials[id].key)
  {
  }

  lemma RevokedCredentials(t: Tables, client: ClientID)
    ensures RelayServer.Revoked(t, client).credentials == t.credentials - {client}
  {
  }

  class Service {
    const database: Database
    const relay: RelayServer.Server
    ghost const statics: map<ClientID, Credential>

    constructor (database: Database, relay: RelayServer.Server, ghost statics: map<ClientID, Credential>)
      ensures this.database == database && this.relay == relay && this.statics == statics
    {
      this.database, this.relay, this.statics := database, relay, statics;
    }

    ghost function Place(): Site {
      Site(database.pool, database.reserved)
    }

    /** The pool is the relay's subnet, and the relay's own address is reserved. */
    ghost predicate Configured() {
      && database.pool.WellFormed()
      && relay.subnetBase == database.pool.base && relay.subnetSize == database.pool.size
      && relay.address in database.reserved
    }

    ghost predicate Valid()
      reads database, relay, relay.sessions.Values`closing, relay.sessions.Values`paths
    {
      Configured() && relay.Valid() && Apart(Place(), statics, database.devices)
    }

    lemma ValidMeans()
      requires Valid()
      ensures Consistent(relay.Model()) && Apart(Place(), statics, database.devices)
    {
    }

    ghost predicate InAgreement()
      reads database, relay
    {
      Agree(statics, database.devices, relay.credentials)
    }

    ghost predicate InAgreementBut(id: ClientID)
      reads database, relay
    {
      AgreeBut(statics, database.devices, relay.credentials, id)
    }

    /** The relay's half of a request. */
    method Authorize(device: Device) returns (err: Option<Error>)
      requires Valid() && device.clientID in database.devices && database.devices[device.clientID] == device
      modifies relay, relay.sessions.Values
      ensures Valid()
      ensures err.Some? <==> Clashes(old(relay.credentials), CredentialOf(device))
      ensures relay.credentials == if err.Some? then old(relay.credentials)
                                   else old(relay.credentials)[device.clientID := CredentialOf(device)]
      ensures relay.Model() == if err.Some? then old(relay.Model())
                               else RelayServer.Authorized(old(relay.Model()), CredentialOf(device))
      ensures relay.sessions.Values <= old(relay.sessions.Values)
      ensures old(relay.sessions) == map[] ==> relay.Model() == old(relay.Model()).(credentials := relay.credentials)
    {
      if relay.sessions == map[] { AuthorizedIdle(relay.Model(), CredentialOf(device)); }
      AuthorizedCredentials(relay.Model(), CredentialOf(device));
      assert relay.InSubnet(device.address) && device.address != relay.address;
      err := relay.AuthorizeClient(device.name, Some(device.clientID), Some(device.key), Some(device.address));
    }

    /** Lets in every device not revoked, in whatever order the database walks them. Succeeds exactly when no
        key is shared, and then store and relay agree. */
    method LoadCredentials() returns (err: Option<Error>)
      requires Valid() && relay.credentials == statics
      modifies relay, relay.sessions.Values
      ensures Valid()
      ensures err.None? ==> InAgreement()
      ensures err.None? <==> KeysDiffer(statics + Active(database.devices))
      ensures err.None? ==> Distinct(statics + Active(database.devices))
      ensures old(relay.sessions) == map[] ==> relay.Model() == old(relay.Model()).(credentials := relay.credentials)
    {
      hide Valid, Consistent, Active, KeyInUse, KeysDiffer, KnowsOnly, Loaded, Distinct, Clashes;
      ValidMeans();
      LoadedNone(relay.credentials);
      ghost var due := statics + Active(database.devices);
      ghost var sessions := relay.sessions.Values;
      var credentials := database.ActiveCredentials();
      var i := 0;
      while i < |credentials|
        invariant 0 <= i <= |credentials| && Valid() && relay.sessions.Values <= sessions
        invariant Loaded(relay.credentials, statics, credentials[..i])
        invariant old(relay.sessions) == map[] ==>
                    relay.Model() == old(relay.Model()).(credentials := relay.credentials)
      {
        var c := credentials[i];
        ValidMeans();
        assert c in credentials;
        ActiveIs(database.devices, c.clientID);
        LoadedKnows(statics, database.devices, relay.credentials, credentials[..i], c.clientID);
        LoadedNext(relay.credentials, statics, credentials, i);
        ClashIsKey(Place(), statics, database.devices, relay.credentials, c.clientID);
        ghost var known := relay.credentials;
        err := Authorize(database.devices[c.clientID]);
        if err.Some? {
          SharedKey(due, known, c.clientID);
          return;
        }
        i := i + 1;
      }
      ValidMeans();
      LoadedAll(statics, database.devices, relay.credentials, credentials);
      ConsistentKeysDiffer(relay.Model());
      return None;
    }

    /** Redeems a code and lets the device in; a device the relay refuses is revoked again. From agreement the
        relay refuses only a key in use, and agreement is kept either way. */
    method Enroll(code: Code, name: string, platform: string, now: Instant, id: ClientID, key: Bytes, later: Instant)
      returns (r: Result<Device, Fault>)
      requires Valid() && id !in database.devices && id !in statics
      modifies database, relay, relay.sessions.Values
      ensures Valid()
      ensures var (d, enrolled) :=
                Enrolled(database.pool, database.reserved, old(database.Model()), code, name, platform, now, id, key);
              if enrolled.Err? then r == Err(Refused(enrolled.error)) && database.Model() == d
              else if Clashes(old(relay.credentials), CredentialOf(enrolled.value)) then
                r.Err? && r.error.NotAuthorized? && database.Model() == Store.Revoked(d, id, later).0
              else r == Ok(enrolled.value) && database.Model() == d
      ensures old(InAgreement()) ==> InAgreement()
      ensures old(InAgreement()) && r.Err? && r.error.NotAuthorized? ==> KeyInUse(old(relay.credentials), id, key)
      ensures old(InAgreement()) && r.Ok? ==> !KeyInUse(old(relay.credentials), id, key)
      ensures relay.Model() == if r.Err? then old(relay.Model())
                               else RelayServer.Authorized(old(relay.Model()), CredentialOf(r.value))
    {
      hide Consistent, Enrolled, Apart, Active, KeyInUse, Clashes, Store.Revoked;
      ghost var before := database.Model();
      var enrolled := database.Enroll(code, name, platform, now, id, key);
      if enrolled.Err? {
        RefusedChangesNothing(Place(), before, code, name, platform, now, id, key);
        return Err(Refused(enrolled.error));
      }
      EnrolledApart(Place(), statics, before, code, name, platform, now, id, key);
      if Agree(statics, before.devices, relay.credentials) {
        AgreeWith(statics, before.devices, database.devices, relay.credentials, id, CredentialOf(enrolled.value));
        AgreeButKnows(statics, database.devices, relay.credentials, id);
        ClashIsKey(Place(), statics, database.devices, relay.credentials, id);
      }
      ghost var admitted := database.devices;
      var err := Authorize(enrolled.value);
      if err.Some? {
        RevokedApart(Place(), statics, database.Model(), id, later);
        var _ := database.Revoke(id, later);
        if Agree(statics, before.devices, relay.credentials) {
          AgreeAgain(statics, before.devices, admitted, database.devices, relay.credentials, id);
        }
        return Err(NotAuthorized(err.value));
      }
      return Ok(enrolled.value);
    }

    /** Revokes a device; when the call returns the relay has no session of it. It also ends a disagreement
        about that device. */
    method Revoke(id: ClientID, now: Instant) returns (r: Result<Device, Fault>)
      requires Valid()
      modifies database, relay, relay.sessions.Values
      ensures Valid()
      ensures database.Model() == Store.Revoked(old(database.Model()), id, now).0
      ensures r.Ok? <==> id in old(database.devices)
      ensures r.Ok? ==> NoSession(relay.Model(), id) && id !in relay.credentials
      ensures relay.Model() == if r.Err? then old(relay.Model()) else RelayServer.Revoked(old(relay.Model()), id)
      ensures old(InAgreement()) ==> InAgreement()
      ensures r.Ok? && old(InAgreementBut(id)) ==> InAgreement()
    {
      hide Consistent;
      ghost var before := database.Model();
      RevokedApart(Place(), statics, before, id, now);
      var revoked := database.Revoke(id, now);
      if revoked.Err? {
        return Err(Refused(revoked.error));
      }
      if AgreeBut(statics, before.devices, relay.credentials, id) {
        AgreeWithout(statics, before.devices, database.devices, relay.credentials, id);
      }
      RevokedCredentials(relay.Model(), id);
      relay.RevokeClient(Some(id));
      return Ok(revoked.value);
    }

    /** Gives a device a new key. From agreement store and relay part exactly when the relay finds the key in
        use, and then only about this device, until it is rotated again or revoked. */
    method RotateKey(id: ClientID, key: Bytes, now: Instant) returns (r: Result<Device, Fault>)
      requires Valid()
      modifies database, relay, relay.sessions.Values
      ensures Valid()
      ensures database.Model() == Rotated(old(database.Model()), id, key, now).0
      ensures r.Ok? ==> && r.value.key == key && id in database.devices && database.devices[id] == r.value
                        && id in relay.credentials && relay.credentials[id] == CredentialOf(r.value)
      ensures old(InAgreementBut(id)) && Rotated(old(database.Model()), id, key, now).1.Ok? ==>
                && (r.Ok? <==> !KeyInUse(old(relay.credentials), id, key))
                && (InAgreement() <==> r.Ok?) && InAgreementBut(id)
      ensures Rotated(old(database.Model()), id, key, now).1.Err? ==> r.Err?
      ensures relay.Model() == if r.Err? then old(relay.Model())
                               else RelayServer.Authorized(old(relay.Model()), CredentialOf(r.value))
    {
      hide Consistent, Apart, Active, Agree, AgreeBut, KeyInUse, Clashes, KnowsOnly, OnlyDevice, Rotated;
      ghost var before := database.Model();
      OwnKeyIsNotInUse(relay.Model(), id);
      RotatedApart(Place(), statics, before, id, key, now);
      var rotated := database.Rotate(id, key, now);
      if rotated.Err? {
        return Err(Refused(rotated.error));
      }
      if AgreeBut(statics, before.devices, relay.credentials, id) {
        AgreeWith(statics, before.devices, database.devices, relay.credentials, id, CredentialOf(rotated.value));
        AgreeButKnows(statics, database.devices, relay.credentials, id);
        ClashIsKey(Place(), statics, database.devices, relay.credentials, id);
      }
      var err := Authorize(rotated.value);
      if err.Some? {
        return Err(NotAuthorized(err.value));
      }
      return Ok(rotated.value);
    }
  }

  lemma RefusedChangesNothing(site: Site, d: Data, code: Code, name: string, platform: string, now: Instant,
                              id: ClientID, key: Bytes)
    requires site.pool.WellFormed()
    ensures var (d', r) := Enrolled(site.pool, site.reserved, d, code, name, platform, now, id, key); r.Err? ==> d' == d
  {
  }

  lemma EnrolledApart(site: Site, statics: map<ClientID, Credential>, d: Data, code: Code, name: string,
                      platform: string,
                      now: Instant, id: ClientID, key: Bytes)
    requires site.pool.WellFormed() && Apart(site, statics, d.devices) && id !in d.devices && id !in statics
    requires Enrolled(site.pool, site.reserved, d, code, name, platform, now, id, key).1.Ok?
    ensures var (d', r) := Enrolled(site.pool, site.reserved, d, code, name, platform, now, id, key);
            && Apart(site, statics, d'.devices) && id in d'.devices && d'.devices[id] == r.value
            && r.value.clientID == id
            && r.value.key == key && r.value.revokedAt.None?
            && Active(d'.devices) == Active(d.devices)[id := CredentialOf(r.value)]
  {
    RequestIsPlaced(site, d, Redeem(code, name, platform, now, id, key));
    var device := Enrolled(site.pool, site.reserved, d, code, name, platform, now, id, key).1.value;
    ActiveWith(d.devices, id, device);
  }

  lemma RevokedApart(site: Site, statics: map<ClientID, Credential>, d: Data, id: ClientID, now: Instant)
    requires site.pool.WellFormed() && Apart(site, statics, d.devices)
    ensures Apart(site, statics, Store.Revoked(d, id, now).0.devices)
    ensures Active(Store.Revoked(d, id, now).0.devices) == Active(d.devices) - {id}
  {
    RequestIsPlaced(site, d, StoreRuns.Revoke(id, now));
    RevokedMeaning(d, id, now, now);
  }

  lemma RotatedApart(site: Site, statics: map<ClientID, Credential>, d: Data, id: ClientID, key: Bytes, now: Instant)
    requires site.pool.WellFormed() && Apart(site, statics, d.devices)
    ensures Apart(site, statics, Rotated(d, id, key, now).0.devices)
    ensures Rotated(d, id, key, now).1.Ok? ==>
              && id in d.devices && id !in statics && id in Rotated(d, id, key, now).0.devices
              && Rotated(d, id, key, now).0.devices[id] == Rotated(d, id, key, now).1.value
              && Rotated(d, id, key, now).1.value.clientID == id
              && Active(Rotated(d, id, key,
                now).0.devices) == Active(d.devices)[id := CredentialOf(Rotated(d, id, key, now).1.value)]
  {
    RequestIsPlaced(site, d, StoreRuns.Rotate(id, key, now));
    RotatedMeaning(d, id, key, now);
  }

  /** An overlap that parts store and relay: with a revocation between the two halves of a rotation, the relay accepts
      the rotated key of a device that the store has revoked. ServiceRuns.OverlappingAgreeIff says when overlapping
      requests part. */
  lemma OverlappingRequestsPart(site: Site, statics: map<ClientID, Credential>, d: Data, t: Tables, id: ClientID,
                                key: Bytes,
                                now: Instant, later: Instant)
    requires site.pool.WellFormed() && Apart(site, statics, d.devices) && Agree(statics, d.devices, t.credentials)
    requires id in d.devices && d.devices[id].revokedAt.None? && !KeyInUse(t.credentials, id, key)
    ensures var (d1, rotated) := Rotated(d, id, key, now);
            var d2, t1 := Store.Revoked(d1, id, later).0, RelayServer.Revoked(t, id);
            && rotated.Ok? && !Clashes(t1.credentials, CredentialOf(rotated.value))
            && id in RelayServer.Authorized(t1, CredentialOf(rotated.value)).credentials
            && d2.devices[id].revokedAt.Some?
            && !Agree(statics, d2.devices, RelayServer.Authorized(t1, CredentialOf(rotated.value)).credentials)
  {
    var (d1, rotated) := Rotated(d, id, key, now);
    RotatedApart(site, statics, d, id, key, now);
    RevokedApart(site, statics, d1, id, later);
    var t1 := RelayServer.Revoked(t, id);
    RevokedCredentials(t, id);
    AuthorizedCredentials(t1, CredentialOf(rotated.value));
    AgreeWith(statics, d.devices, d1.devices, t.credentials, id, CredentialOf(rotated.value));
    ClashIsKey(site, statics, d1.devices, t1.credentials, id);
  }
}
