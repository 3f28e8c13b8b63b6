/**
 Requests to the control plane that overlap (internal/controlplane/service.go), on top of a relay that does as it
 likes (internal/engine/server.go).

 A request that changes a device has two halves: a store transaction, and the change of the relay's credentials it
 asks for. Here the halves of any number of requests interleave, with the relay's own steps in between:
 terminations, hellos, closes and the janitor. Keys and ids are random, hence new.
 */
module ServiceRuns {
  import opened Words
  import opened Wire
  import opened Relay
  import opened RelayInvariants
  import RelayRuns
  import opened Store
  import StoreRuns
  import Service

  type Site = StoreRuns.Site

  /** What the relay is to be told: `Some` credential to authorize, or `None` to revoke. */
  datatype Half = Half(id: ClientID, verdict: Option<Credential>, enrolls: bool)

  /** The request that drew a key, and the device it is for; ticket 0 stands for everything loaded at the start. */
  datatype Draw = Draw(ticket: nat, id: ClientID)

  /** Besides store and relay: every second half ever asked for, by ticket, those still to come, the last ticket of
      each device in the store and at the relay, and whose each key and address is. */
  datatype World = World(
    data: Data,
    relay: RelayRuns.State,
    next: nat,
    made: map<nat, Half>,
    pending: set<nat>,
    lastStore: map<ClientID, nat>,
    lastRelay: map<ClientID, nat>,
    loaded: map<ClientID, Credential>,
    keys: map<Bytes, Draw>,
    owner: map<IPv4, ClientID>)

  datatype Move =
    | Ask(q: StoreRuns.Request)
    | Tell(ticket: nat, now: Instant)
    | Act(step: RelayRuns.Step)

  ghost predicate CanMove(statics: map<ClientID, Credential>, w: World, m: Move) {
    match m
    case Ask(q) =>
      && (q.Redeem? ==> q.id !in w.data.devices && q.id !in statics)
      && (q.Redeem? || q.Rotate? ==> q.key !in w.keys)
    case Tell(ticket, _) => ticket in w.pending
    case Act(step) => !step.SetCredential? && !step.DropCredential? && RelayRuns.CanDo(w.relay, step)
  }

  /** The second half a served request calls for, if any. */
  function HalfOf(q: StoreRuns.Request, r: StoreRuns.Reply): Option<Half> {
    if !r.Stored? || r.device.Err? then None
    else match q
      case Redeem(_, _, _, _, id, _) => Some(Half(id, Some(CredentialOf(r.device.value)), true))
      case Rotate(id, _, _) => Some(Half(id, Some(CredentialOf(r.device.value)), false))
      case Revoke(id, _) => Some(Half(id, None, false))
      case _ => None
  }

  /** A store transaction leaves a half to be told. */
  ghost function NewHalf(w: World, data: Data, h: Half): World {
    w.(data := data, next := w.next + 1, made := w.made[w.next := h], pending := w.pending + {w.next},
       lastStore := w.lastStore[h.id := w.next],
       keys := if h.verdict.Some? then w.keys[h.verdict.value.key := Draw(w.next, h.id)] else w.keys,
       owner := if h.verdict.Some? then w.owner[h.verdict.value.tunnelIP := h.id] else w.owner)
  }

  ghost function AskStep(site: Site, w: World, q: StoreRuns.Request): World
    requires site.pool.WellFormed()
  {
    var (data, r) := StoreRuns.Serve(site, true, w.data, q);
    match HalfOf(q, r)
    case None => w.(data := data)
    case Some(h) => NewHalf(w, data, h)
  }

  /** What a half says to the relay. */
  ghost function Says(h: Half): RelayRuns.Step {
    if h.verdict.Some? then RelayRuns.SetCredential(h.verdict.value) else RelayRuns.DropCredential(h.id)
  }

  ghost predicate IsRefused(w: World, h: Half) {
    h.verdict.Some? && Clashes(w.relay.t.credentials, h.verdict.value)
  }

  /** The relay is told; if it refuses a device just enrolled, the store revokes that again. */
  ghost function TellStep(w: World, ticket: nat, now: Instant): World
    requires ticket in w.made
  {
    var h := w.made[ticket];
    w.(data := if h.enrolls && IsRefused(w, h) then Revoked(w.data, h.id, now).0 else w.data,
       relay := RelayRuns.Do(w.relay, Says(h)),
       pending := w.pending - {ticket},
       lastRelay := if IsRefused(w, h) then w.lastRelay else w.lastRelay[h.id := ticket])
  }

  ghost function Do(site: Site, w: World, m: Move): World
    requires site.pool.WellFormed() && w.pending <= w.made.Keys && (m.Tell? ==> m.ticket in w.pending)
  {
    match m
    case Ask(q) => AskStep(site, w, q)
    case Tell(ticket, now) => TellStep(w, ticket, now)
    case Act(step) => w.(relay := RelayRuns.Do(w.relay, step))
  }

  // ----- the invariant -----

  /** A credential with the address and a key of its client. */
  ghost predicate Genuine(keys: map<Bytes, Draw>, owner: map<IPv4, ClientID>, c: Credential) {
    RelayRuns.Owns(owner, c) && c.key in keys && keys[c.key].id == c.clientID
  }

  ghost predicate AllGenuine(keys: map<Bytes, Draw>, owner: map<IPv4, ClientID>,
                             credentials: map<ClientID, Credential>) {
    forall id :: id in credentials ==> credentials[id].clientID == id && Genuine(keys, owner, credentials[id])
  }

  /** The relay is sound, and every session is found by its address. */
  ghost predicate RelaySound(relay: RelayRuns.State, owner: map<IPv4, ClientID>) {
    RelayRuns.Sound(relay) && RelayRuns.Owned(relay.t, owner) && RelayRuns.AllRouted(relay.t)
  }

  /** Every device owns its address, and only addresses in use are owned. */
  ghost predicate OwnersKnown(site: Site, devices: map<ClientID, Device>, owner: map<IPv4, ClientID>) {
    && (forall id :: id in devices ==> devices[id].address in owner && owner[devices[id].address] == id)
    && (forall ip :: ip in owner ==> ip in Used(site.reserved, devices))
  }

  /** The half's key was drawn for it. */
  ghost predicate Drawn(keys: map<Bytes, Draw>, owner: map<IPv4, ClientID>, t: nat, h: Half) {
    h.verdict.Some? ==>
      && h.verdict.value.clientID == h.id && Genuine(keys, owner, h.verdict.value)
      && keys[h.verdict.value.key] == Draw(t, h.id)
  }

  ghost predicate AllDrawn(keys: map<Bytes, Draw>, owner: map<IPv4, ClientID>, made: map<nat, Half>) {
    forall t :: t in made ==> Drawn(keys, owner, t, made[t])
  }

  ghost predicate TicketOf(made: map<nat, Half>, t: nat, id: ClientID) {
    t in made && made[t].id == id
  }

  /** Every ticket of a device names a half for it. */
  ghost predicate Names(made: map<nat, Half>, last: map<ClientID, nat>) {
    forall id :: id in last ==> TicketOf(made, last[id], id)
  }

  /** Halves concern devices asked about, and a device's last half at the store is told or still to come. */
  ghost predicate TicketsKnown(next: nat, made: map<nat, Half>, pending: set<nat>, lastStore: map<ClientID, nat>,
                               lastRelay: map<ClientID, nat>)
  {
    && (forall t :: t in made ==> t < next && made[t].id in lastStore)
    && pending <= made.Keys && lastRelay.Keys <= lastStore.Keys
    && Names(made, lastStore) && Names(made, lastRelay)
    && (forall id :: id in lastStore ==> id in lastRelay || lastStore[id] in pending)
  }

  ghost function At(m: map<ClientID, Credential>, id: ClientID): Option<Credential> {
    if id in m then Some(m[id]) else None
  }

  /** `m` says of each client what its last half says, or else what was loaded. */
  ghost predicate Recorded(m: map<ClientID, Credential>, made: map<nat, Half>, last: map<ClientID, nat>,
                           loaded: map<ClientID, Credential>)
  {
    forall id :: At(m, id) == if id in last && last[id] in made then made[last[id]].verdict else At(loaded, id)
  }

  ghost predicate DevicesKnown(site: Site, statics: map<ClientID, Credential>, w: World) {
    && site.pool.WellFormed() && Service.Apart(site, statics, w.data.devices)
    && w.lastStore.Keys <= w.data.devices.Keys
  }

  ghost predicate Sound(site: Site, statics: map<ClientID, Credential>, w: World) {
    && DevicesKnown(site, statics, w)
    && OwnersKnown(site, w.data.devices, w.owner)
    && RelaySound(w.relay, w.owner)
    && AllGenuine(w.keys, w.owner, w.relay.t.credentials)
    && AllDrawn(w.keys, w.owner, w.made)
    && TicketsKnown(w.next, w.made, w.pending, w.lastStore, w.lastRelay)
    && Recorded(statics + Active(w.data.devices), w.made, w.lastStore, w.loaded)
    && Recorded(w.relay.t.credentials, w.made, w.lastRelay, w.loaded)
  }

  // ----- the relay never refuses -----

  /** Genuine credentials of different clients share nothing. */
  lemma GenuineNeverClash(keys: map<Bytes, Draw>, owner: map<IPv4, ClientID>, credentials: map<ClientID, Credential>,
                          c: Credential)
    requires AllGenuine(keys, owner, credentials) && Genuine(keys, owner, c)
    ensures !Clashes(credentials, c)
  {
  }

  /** With new keys no authorization ever fails, whatever overlaps. */
  lemma NeverRefused(site: Site, statics: map<ClientID, Credential>, w: World, ticket: nat)
    requires Sound(site, statics, w) && ticket in w.made
    ensures !IsRefused(w, w.made[ticket])
  {
    hide DevicesKnown, OwnersKnown, RelaySound, AllGenuine, TicketsKnown, Recorded, Genuine, Clashes;
    assert Drawn(w.keys, w.owner, ticket, w.made[ticket]);
    if w.made[ticket].verdict.Some? {
      GenuineNeverClash(w.keys, w.owner, w.relay.t.credentials, w.made[ticket].verdict.value);
    }
  }

  // ----- one move -----

  /** What asking means for the store: at most the device of the half changes, to what the half says, and a new
      device gets an address nobody had. */
  ghost predicate Asked(site: Site, before: map<ClientID, Device>, after: map<ClientID, Device>, q: StoreRuns.Request,
                        half: Option<Half>)
  {
    match half
    case None => after.Keys == before.Keys && Active(after) == Active(before)
    case Some(h) =>
      && h.id in after && after.Keys == before.Keys + {h.id}
      && At(Active(after), h.id) == h.verdict
      && Active(after) - {h.id} == Active(before) - {h.id}
      && (h.verdict.Some? ==> (q.Redeem? || q.Rotate?) && IsFor(h, after[h.id], q.key))
      && (h.id !in before ==> && q.Redeem? && h.id == q.id && h.verdict.Some?
                              && after[h.id].address !in Used(site.reserved, before))
  }

  ghost predicate IsFor(h: Half, device: Device, key: Bytes) {
    h.verdict == Some(CredentialOf(device)) && device.clientID == h.id && device.key == key
  }

  lemma RedeemAsks(site: Site, d: Data, q: StoreRuns.Request)
    requires site.pool.WellFormed() && StoreRuns.Placed(site, d.devices) && q.Redeem? && q.id !in d.devices
    ensures var (d', r) := StoreRuns.Serve(site, true, d, q); Asked(site, d.devices, d'.devices, q, HalfOf(q, r))
  {
    var (d', r) := StoreRuns.Serve(site, true, d, q);
    if r.device.Ok? {
      Service.ActiveWith(d.devices, q.id, r.device.value);
      AddedOnly(Active(d.devices), q.id, CredentialOf(r.device.value));
    }
  }

  lemma AddedOnly<K, V>(m: map<K, V>, k: K, v: V)
    ensures m[k := v] - {k} == m - {k}
  {
  }

  lemma RevokeAsks(site: Site, d: Data, q: StoreRuns.Request)
    requires site.pool.WellFormed() && q.Revoke?
    ensures var (d', r) := StoreRuns.Serve(site, true, d, q); Asked(site, d.devices, d'.devices, q, HalfOf(q, r))
  {
    RevokedMeaning(d, q.id, q.now, q.now);
  }

  lemma RotateAsks(site: Site, d: Data, q: StoreRuns.Request)
    requires site.pool.WellFormed() && StoreRuns.Placed(site, d.devices) && q.Rotate?
    ensures var (d', r) := StoreRuns.Serve(site, true, d, q); Asked(site, d.devices, d'.devices, q, HalfOf(q, r))
  {
    RotatedMeaning(d, q.id, q.key, q.now);
  }

  lemma ServeAsks(site: Site, d: Data, q: StoreRuns.Request)
    requires site.pool.WellFormed() && StoreRuns.Placed(site, d.devices) && (q.Redeem? ==> q.id !in d.devices)
    ensures var (d', r) := StoreRuns.Serve(site, true, d, q); Asked(site, d.devices, d'.devices, q, HalfOf(q, r))
  {
    match q
    case Redeem(_, _, _, _, _, _) => RedeemAsks(site, d, q);
    case Revoke(_, _) => RevokeAsks(site, d, q);
    case Rotate(_, _, _) => RotateAsks(site, d, q);
    case Touch(id, now) => TouchedMeaning(d, id, now);
    case Create(_, _, _, _, _) =>
  }

  // ----- asking -----

  /** New keys and addresses take nothing from anyone. */
  ghost predicate Grown<K, V>(before: map<K, V>, after: map<K, V>) {
    forall k :: k in before ==> k in after && after[k] == before[k]
  }

  /** What is known of a transaction on the way to the relay. */
  ghost predicate Leaves(site: Site, w: World, data: Data, q: StoreRuns.Request, h: Half) {
    && Asked(site, w.data.devices, data.devices, q, Some(h)) && StoreRuns.Keeps(w.data.devices, data.devices)
    && (q.Redeem? || q.Rotate? ==> q.key !in w.keys)
  }

  lemma HalfGrows(site: Site, w: World, data: Data, q: StoreRuns.Request, h: Half)
    requires OwnersKnown(site, w.data.devices, w.owner) && Leaves(site, w, data, q, h)
    ensures Grown(w.keys, NewHalf(w, data, h).keys) && Grown(w.owner, NewHalf(w, data, h).owner)
  {
    if h.verdict.Some? {
      var ip := h.verdict.value.tunnelIP;
      if h.id in w.data.devices {
        assert ip == w.data.devices[h.id].address;
      } else {
        assert ip !in Used(site.reserved, w.data.devices);
      }
    }
  }

  lemma HalfKeepsOwners(site: Site, w: World, data: Data, q: StoreRuns.Request, h: Half)
    requires OwnersKnown(site, w.data.devices, w.owner) && Leaves(site, w, data, q, h)
    ensures OwnersKnown(site, data.devices, NewHalf(w, data, h).owner)
  {
    HalfGrows(site, w, data, q, h);
    var owner := NewHalf(w, data, h).owner;
    forall ip | ip in owner ensures ip in Used(site.reserved, data.devices) {
      if ip in w.owner {
        UsedGrows(site.reserved, w.data.devices, data.devices, ip);
      } else {
        assert ip == data.devices[h.id].address;
      }
    }
    forall id | id in data.devices ensures data.devices[id].address in owner && owner[data.devices[id].address] == id {
      if id in w.data.devices { assert data.devices[id].address == w.data.devices[id].address; }
    }
  }

  lemma UsedGrows(reserved: set<IPv4>, before: map<ClientID, Device>, after: map<ClientID, Device>, ip: IPv4)
    requires StoreRuns.Keeps(before, after) && ip in Used(reserved, before)
    ensures ip in Used(reserved, after)
  {
    if ip !in reserved {
      var id :| id in before && before[id].address == ip;
      assert after[id].address == ip;
    }
  }

  lemma GrowthKeepsRelay(relay: RelayRuns.State, owner: map<IPv4, ClientID>, owner': map<IPv4, ClientID>)
    requires RelaySound(relay, owner) && Grown(owner, owner')
    ensures RelaySound(relay, owner')
  {
    hide RelayRuns.Sound, RelayRuns.AllRouted;
  }

  lemma GrowthKeepsGenuine(keys: map<Bytes, Draw>, keys': map<Bytes, Draw>, owner: map<IPv4, ClientID>,
                           owner': map<IPv4, ClientID>, credentials: map<ClientID, Credential>, made: map<nat, Half>)
    requires Grown(keys, keys') && Grown(owner, owner')
    ensures AllGenuine(keys, owner, credentials) ==> AllGenuine(keys', owner', credentials)
    ensures AllDrawn(keys, owner, made) ==> AllDrawn(keys', owner', made)
  {
    if AllDrawn(keys, owner, made) {
      forall t | t in made ensures Drawn(keys', owner', t, made[t]) {
        assert Drawn(keys, owner, t, made[t]);
      }
    }
  }

  lemma HalfIsDrawn(site: Site, w: World, data: Data, q: StoreRuns.Request, h: Half)
    requires OwnersKnown(site, w.data.devices, w.owner) && AllDrawn(w.keys, w.owner, w.made) &&
        Leaves(site, w, data, q, h)
    ensures AllDrawn(NewHalf(w, data, h).keys, NewHalf(w, data, h).owner, NewHalf(w, data, h).made)
  {
    HalfGrows(site, w, data, q, h);
    var w' := NewHalf(w, data, h);
    GrowthKeepsGenuine(w.keys, w'.keys, w.owner, w'.owner, map[], w.made);
    assert Drawn(w'.keys, w'.owner, w.next, h);
  }

  /** A new word on one client becomes its last. */
  lemma RecordGrows(m: map<ClientID, Credential>, m': map<ClientID, Credential>, made: map<nat, Half>,
                    last: map<ClientID, nat>, loaded: map<ClientID, Credential>, t: nat, h: Half)
    requires Recorded(m, made, last, loaded) && Names(made, last)
    requires t in made ==> made[t] == h
    requires At(m', h.id) == h.verdict && forall id :: id != h.id ==> At(m', id) == At(m, id)
    ensures Recorded(m', made[t := h], last[h.id := t], loaded)
  {
    assert forall id :: id in last ==> TicketOf(made, last[id], id);
  }

  lemma HalfIsRecorded(statics: map<ClientID, Credential>, w: World, site: Site, data: Data, q: StoreRuns.Request,
                       h: Half)
    requires Names(w.made, w.lastStore) && w.next !in w.made && Leaves(site, w, data, q, h) && h.id !in statics
    requires Recorded(statics + Active(w.data.devices), w.made, w.lastStore, w.loaded)
    ensures Recorded(statics + Active(data.devices), w.made[w.next := h], w.lastStore[h.id := w.next], w.loaded)
  {
    hide Recorded, StoreRuns.Keeps, Active, Names;
    var due, due' := statics + Active(w.data.devices), statics + Active(data.devices);
    forall id | id != h.id ensures At(due', id) == At(due, id) {
      AtOthers(Active(w.data.devices), Active(data.devices), h.id, id);
    }
    assert At(due', h.id) == At(Active(data.devices), h.id);
    RecordGrows(due, due', w.made, w.lastStore, w.loaded, w.next, h);
  }

  lemma AtOthers<K, V>(a: map<K, V>, b: map<K, V>, k: K, other: K)
    requires a - {k} == b - {k} && other != k
    ensures other in a <==> other in b
    ensures other in a ==> a[other] == b[other]
  {
    assert other in a <==> other in a - {k};
    assert other in b <==> other in b - {k};
    assert other in a ==> a[other] == (a - {k})[other] == (b - {k})[other] == b[other];
  }

  /** A new ticket changes nothing that older ones say. */
  lemma NewTicketKeepsRecord(m: map<ClientID, Credential>, made: map<nat, Half>, last: map<ClientID, nat>,
                             loaded: map<ClientID, Credential>, t: nat, h: Half)
    requires Recorded(m, made, last, loaded) && Names(made, last) && t !in made
    ensures Recorded(m, made[t := h], last, loaded) && Names(made[t := h], last)
  {
    assert forall id :: id in last ==> TicketOf(made, last[id], id);
  }

  lemma HalfKeepsTickets(w: World, data: Data, h: Half)
    requires TicketsKnown(w.next, w.made, w.pending, w.lastStore, w.lastRelay)
    ensures TicketsKnown(w.next + 1, w.made[w.next := h], w.pending + {w.next}, w.lastStore[h.id := w.next],
        w.lastRelay)
    ensures w.next !in w.made && Names(w.made, w.lastStore) && Names(w.made, w.lastRelay)
  {
    NewTicketNames(w.made, w.lastStore, w.next, h);
    NewTicketNames(w.made, w.lastRelay, w.next, h);
    NewTicketNames(w.made[w.next := h], w.lastStore, w.next, h);
  }

  lemma NewTicketNames(made: map<nat, Half>, last: map<ClientID, nat>, t: nat, h: Half)
    requires Names(made, last) && (t in made ==> made[t] == h)
    ensures Names(made[t := h], last) && Names(made[t := h], last[h.id := t])
  {
    forall id | id in last ensures TicketOf(made[t := h], last[id], id) { assert TicketOf(made, last[id], id); }
  }

  lemma {:induction false} HalfKeeps(site: Site, statics: map<ClientID, Credential>, w: World, data: Data,
                                     q: StoreRuns.Request, h: Half)
    requires Sound(site, statics, w) && Leaves(site, w, data, q, h)
    requires DevicesKnown(site, statics, NewHalf(w, data, h)) && h.id !in statics
    ensures Sound(site, statics, NewHalf(w, data, h))
  {
    hide DevicesKnown, Leaves, OwnersKnown, RelaySound, AllGenuine, AllDrawn, TicketsKnown, Recorded, Grown, Names;
    var w' := NewHalf(w, data, h);
    HalfGrows(site, w, data, q, h);
    HalfKeepsOwners(site, w, data, q, h);
    GrowthKeepsRelay(w.relay, w.owner, w'.owner);
    GrowthKeepsGenuine(w.keys, w'.keys, w.owner, w'.owner, w.relay.t.credentials, map[]);
    HalfIsDrawn(site, w, data, q, h);
    HalfKeepsTickets(w, data, h);
    HalfIsRecorded(statics, w, site, data, q, h);
    NewTicketKeepsRecord(w.relay.t.credentials, w.made, w.lastRelay, w.loaded, w.next, h);
  }

  /** Asking keeps what is known of the devices. */
  lemma AskKeepsDevices(site: Site, statics: map<ClientID, Credential>, w: World, q: StoreRuns.Request)
    requires DevicesKnown(site, statics, w) && CanMove(statics, w, Ask(q))
    ensures DevicesKnown(site, statics, AskStep(site, w, q))
    ensures var (data, r) := StoreRuns.Serve(site, true, w.data, q);
            StoreRuns.Keeps(w.data.devices, data.devices) && Asked(site, w.data.devices, data.devices, q, HalfOf(q, r))
            && (HalfOf(q, r).Some? ==> HalfOf(q, r).value.id !in statics)
  {
    hide StoreRuns.Serve, StoreRuns.Keeps, Asked, HalfOf;
    StoreRuns.RequestIsPlaced(site, w.data, q);
    ServeAsks(site, w.data, q);
    var (data, r) := StoreRuns.Serve(site, true, w.data, q);
    AskedIsApart(site, statics, w.data.devices, data.devices, q, HalfOf(q, r));
  }

  lemma AskedIsApart(site: Site, statics: map<ClientID, Credential>, before: map<ClientID, Device>,
                     after: map<ClientID, Device>, q: StoreRuns.Request, half: Option<Half>)
    requires Service.Apart(site, statics, before) && StoreRuns.Placed(site, after) &&
        Asked(site, before, after, q, half)
    requires q.Redeem? ==> q.id !in statics
    ensures Service.Apart(site, statics, after) && before.Keys <= after.Keys
    ensures half.Some? ==> half.value.id in after && half.value.id !in statics
  {
    hide StoreRuns.Placed, Active, IsFor;
  }

  lemma {:induction false} AskKeeps(site: Site, statics: map<ClientID, Credential>, w: World, q: StoreRuns.Request)
    requires Sound(site, statics, w) && CanMove(statics, w, Ask(q))
    ensures Sound(site, statics, AskStep(site, w, q))
  {
    hide OwnersKnown, RelaySound, AllGenuine, AllDrawn, TicketsKnown, Recorded, StoreRuns.Serve, StoreRuns.Placed;
    hide StoreRuns.Keeps, Service.Apart, NewHalf;
    AskKeepsDevices(site, statics, w, q);
    var (data, r) := StoreRuns.Serve(site, true, w.data, q);
    match HalfOf(q, r)
    case None => SameOwners(site, w.data.devices, data.devices, w.owner);
    case Some(h) => HalfKeeps(site, statics, w, data, q, h);
  }

  lemma SameOwners(site: Site, before: map<ClientID, Device>, after: map<ClientID, Device>, owner: map<IPv4, ClientID>)
    requires OwnersKnown(site, before, owner) && StoreRuns.Keeps(before, after) && after.Keys == before.Keys
    ensures OwnersKnown(site, after, owner)
  {
    forall ip | ip in owner ensures ip in Used(site.reserved, after) { UsedGrows(site.reserved, before, after, ip); }
    forall id | id in after ensures after[id].address in owner && owner[after[id].address] == id {
      assert after[id].address == before[id].address;
    }
  }

  // ----- telling -----

  /** Telling the relay, which does not refuse, changes the one credential as the half says. */
  lemma SaysMeaning(relay: RelayRuns.State, h: Half)
    requires h.verdict.Some? ==> h.verdict.value.clientID == h.id && !Clashes(relay.t.credentials, h.verdict.value)
    ensures var after := RelayRuns.Do(relay, Says(h)).t.credentials;
            At(after, h.id) == h.verdict && after - {h.id} == relay.t.credentials - {h.id}
  {
    var after := RelayRuns.Do(relay, Says(h)).t.credentials;
    assert after == if h.verdict.Some? then
        relay.t.credentials[h.id := h.verdict.value] else relay.t.credentials - {h.id};
  }

  lemma TellKeepsRelay(relay: RelayRuns.State, keys: map<Bytes, Draw>, owner: map<IPv4, ClientID>, t: nat, h: Half)
    requires RelaySound(relay, owner) && AllGenuine(keys, owner, relay.t.credentials) && Drawn(keys, owner, t, h)
    ensures RelaySound(RelayRuns.Do(relay, Says(h)), owner)
    ensures AllGenuine(keys, owner, RelayRuns.Do(relay, Says(h)).t.credentials)
  {
    hide RelayRuns.Sound, RelayRuns.Owned, RelayRuns.AllRouted, RelayRuns.Do;
    if h.verdict.Some? { GenuineNeverClash(keys, owner, relay.t.credentials, h.verdict.value); }
    RelayRuns.StepKeeps(relay, Says(h));
    RelayRuns.StepKeepsOwned(relay, Says(h), owner);
    SaysMeaning(relay, h);
    SaidGenuine(keys, owner, relay.t.credentials, RelayRuns.Do(relay, Says(h)).t.credentials, t, h);
  }

  lemma SaidGenuine(keys: map<Bytes, Draw>, owner: map<IPv4, ClientID>, before: map<ClientID, Credential>,
                    after: map<ClientID, Credential>, t: nat, h: Half)
    requires AllGenuine(keys, owner, before) && Drawn(keys, owner, t, h)
    requires At(after, h.id) == h.verdict && after - {h.id} == before - {h.id}
    ensures AllGenuine(keys, owner, after)
  {
    forall id | id in after ensures after[id].clientID == id && Genuine(keys, owner, after[id]) {
      if id != h.id { AtOthers(before, after, h.id, id); }
    }
  }

  lemma ToldTickets(w: World, t: nat)
    requires TicketsKnown(w.next, w.made, w.pending, w.lastStore, w.lastRelay) && t in w.pending
    ensures TicketsKnown(w.next, w.made, w.pending - {t}, w.lastStore, w.lastRelay[w.made[t].id := t])
  {
    var id := w.made[t].id;
    forall other | other in w.lastStore && w.lastStore[other] == t ensures other == id {
      assert TicketOf(w.made, w.lastStore[other], other);
    }
    assert w.made[t := w.made[t]] == w.made;
    NewTicketNames(w.made, w.lastRelay, t, w.made[t]);
  }

  lemma ToldRecord(relay: RelayRuns.State, w: World, t: nat)
    requires Recorded(relay.t.credentials, w.made, w.lastRelay, w.loaded) && Names(w.made, w.lastRelay) && t in w.made
    requires var h := w.made[t];
             h.verdict.Some? ==> h.verdict.value.clientID == h.id && !Clashes(relay.t.credentials, h.verdict.value)
    ensures Recorded(RelayRuns.Do(relay, Says(w.made[t])).t.credentials, w.made, w.lastRelay[w.made[t].id := t],
        w.loaded)
  {
    hide Recorded, RelayRuns.Do, Clashes, Names;
    var h := w.made[t];
    SaysMeaning(relay, h);
    var after := RelayRuns.Do(relay, Says(h)).t.credentials;
    forall id | id != h.id ensures At(after, id) == At(relay.t.credentials, id) {
      AtOthers(relay.t.credentials, after, h.id, id);
    }
    assert w.made[t := h] == w.made;
    RecordGrows(relay.t.credentials, after, w.made, w.lastRelay, w.loaded, t, h);
  }

  lemma {:induction false} TellKeeps(site: Site, statics: map<ClientID, Credential>, w: World, t: nat, now: Instant)
    requires Sound(site, statics, w) && t in w.pending && t in w.made
    ensures Sound(site, statics, TellStep(w, t, now))
    ensures !IsRefused(w, w.made[t])
  {
    hide DevicesKnown, OwnersKnown, RelaySound, AllGenuine, Recorded, RelayRuns.Do, Clashes, Genuine;
    NeverRefused(site, statics, w, t);
    assert Drawn(w.keys, w.owner, t, w.made[t]);
    TellKeepsRelay(w.relay, w.keys, w.owner, t, w.made[t]);
    ToldTickets(w, t);
    ToldRecord(w.relay, w, t);
    SameDevicesKnown(site, statics, w, TellStep(w, t, now));
  }

  lemma SameDevicesKnown(site: Site, statics: map<ClientID, Credential>, w: World, w': World)
    requires DevicesKnown(site, statics, w) && w'.data == w.data && w'.lastStore == w.lastStore
    ensures DevicesKnown(site, statics, w')
  {
  }

  // ----- the relay's own steps -----

  lemma ActKeepsCredentials(relay: RelayRuns.State, step: RelayRuns.Step)
    requires !step.SetCredential? && !step.DropCredential?
    ensures RelayRuns.Do(relay, step).t.credentials == relay.t.credentials
  {
    hide Detach, Expire, Install;
    match step
    case Terminate(client) =>
      if client in relay.t.byClient { SectionsKeepCredentials(relay.t, relay.t.byClient[client]); }
    case Hello(_, _, session) =>
      var client := session.credential.clientID;
      if client in relay.t.byClient { SectionsKeepCredentials(relay.t, relay.t.byClient[client]); }
      SectionsKeepCredentials(TerminateClient(relay.t, client), session);
    case Close(session) => SectionsKeepCredentials(relay.t, session);
    case Janitor(ids) => JanitorKeepsCredentials(relay, ids);
    case LastPathGone(session) =>
  }

  lemma SectionsKeepCredentials(t: Tables, s: Session)
    ensures Detach(t, s).credentials == t.credentials && Install(t, s).credentials == t.credentials
  {
  }

  lemma JanitorKeepsCredentials(relay: RelayRuns.State, ids: set<uint64>)
    ensures RelayRuns.JanitorStep(relay, ids).t.credentials == relay.t.credentials
  {
  }

  lemma {:induction false} ActKeeps(site: Site, statics: map<ClientID, Credential>, w: World, step: RelayRuns.Step)
    requires Sound(site, statics, w) && CanMove(statics, w, Act(step))
    ensures Sound(site, statics, w.(relay := RelayRuns.Do(w.relay, step)))
  {
    hide DevicesKnown, OwnersKnown, AllGenuine, AllDrawn, TicketsKnown, Recorded, RelayRuns.Do;
    hide RelayRuns.Sound, RelayRuns.Owned, RelayRuns.AllRouted;
    RelayRuns.StepKeeps(w.relay, step);
    RelayRuns.StepKeepsOwned(w.relay, step, w.owner);
    ActKeepsCredentials(w.relay, step);
    SameDevicesKnown(site, statics, w, w.(relay := RelayRuns.Do(w.relay, step)));
  }

  lemma {:induction false} MoveKeeps(site: Site, statics: map<ClientID, Credential>, w: World, m: Move)
    requires Sound(site, statics, w) && CanMove(statics, w, m)
    ensures w.pending <= w.made.Keys && Sound(site, statics, Do(site, w, m))
  {
    hide DevicesKnown, OwnersKnown, RelaySound, AllGenuine, AllDrawn, Recorded;
    match m
    case Ask(q) => AskKeeps(site, statics, w, q);
    case Tell(t, now) => TellKeeps(site, statics, w, t, now);
    case Act(step) => ActKeeps(site, statics, w, step);
  }

  // ----- every run -----

  ghost predicate CanRun(site: Site, statics: map<ClientID, Credential>, w: World, run: seq<Move>)
    decreases |run|
  {
    run == [] || (
      && CanMove(statics, w, run[0]) && site.pool.WellFormed() && w.pending <= w.made.Keys
      && CanRun(site, statics, Do(site, w, run[0]), run[1..]))
  }

  ghost function Run(site: Site, statics: map<ClientID, Credential>, w: World, run: seq<Move>): World
    requires CanRun(site, statics, w, run)
    decreases |run|
  {
    if run == [] then w else Run(site, statics, Do(site, w, run[0]), run[1..])
  }

  /** Whatever overlaps, everything that is known stays known. */
  lemma {:induction false} RunIsSound(site: Site, statics: map<ClientID, Credential>, w: World, run: seq<Move>)
    requires Sound(site, statics, w) && CanRun(site, statics, w, run)
    ensures Sound(site, statics, Run(site, statics, w, run))
    decreases |run|
  {
    hide Sound;
    if run != [] {
      MoveKeeps(site, statics, w, run[0]);
      RunIsSound(site, statics, Do(site, w, run[0]), run[1..]);
    }
  }

  // ----- the start -----

  ghost predicate Has(statics: map<ClientID, Credential>, devices: map<ClientID, Device>, id: ClientID, ip: IPv4) {
    (id in statics && statics[id].tunnelIP == ip) || (id in devices && devices[id].address == ip)
  }

  ghost function AddressesOf(statics: map<ClientID, Credential>, devices: map<ClientID, Device>): set<IPv4> {
    (set id | id in statics :: statics[id].tunnelIP) + (set id | id in devices :: devices[id].address)
  }

  ghost function OwnerOf(statics: map<ClientID, Credential>, devices: map<ClientID, Device>, ip: IPv4): (id: ClientID)
    requires ip in AddressesOf(statics, devices)
    ensures Has(statics, devices, id, ip)
  {
    if exists id :: id in statics && statics[id].tunnelIP == ip then
      var id :| id in statics && statics[id].tunnelIP == ip;
      id
    else
      var id :| id in devices && devices[id].address == ip;
      id
  }

  ghost function Owners(statics: map<ClientID, Credential>, devices: map<ClientID, Device>): map<IPv4, ClientID> {
    map ip | ip in AddressesOf(statics, devices) :: OwnerOf(statics, devices, ip)
  }

  ghost function KeysOf(loaded: map<ClientID, Credential>): set<Bytes> {
    set id | id in loaded :: loaded[id].key
  }

  ghost function HolderOf(loaded: map<ClientID, Credential>, key: Bytes): (id: ClientID)
    requires key in KeysOf(loaded)
    ensures id in loaded && loaded[id].key == key
  {
    var id :| id in loaded && loaded[id].key == key;
    id
  }

  ghost function Holders(loaded: map<ClientID, Credential>): map<Bytes, Draw> {
    map k | k in KeysOf(loaded) :: Draw(0, HolderOf(loaded, k))
  }

  /** The world once the credentials are loaded, before the relay hears its first hello. */
  ghost function LoadedWorld(statics: map<ClientID, Credential>, data: Data): World {
    var loaded := statics + Active(data.devices);
    World(data, RelayRuns.State(Tables(loaded, map[], map[], map[], 0), multiset{}, {}, {}, {}),
          1, map[], {}, map[], map[], loaded, Holders(loaded), Owners(statics, data.devices))
  }

  lemma OwnersAreUnique(site: Site, statics: map<ClientID, Credential>, devices: map<ClientID, Device>,
                        a: ClientID, b: ClientID, ip: IPv4)
    requires Service.Apart(site, statics, devices) && Distinct(statics + Active(devices))
    requires Has(statics, devices, a, ip) && Has(statics, devices, b, ip)
    ensures a == b
  {
    assert forall id :: id in statics ==> (statics + Active(devices))[id] == statics[id];
  }

  lemma OwnersAre(site: Site, statics: map<ClientID, Credential>, devices: map<ClientID, Device>)
    requires Service.Apart(site, statics, devices) && Distinct(statics + Active(devices))
    ensures forall id, ip: IPv4 :: Has(statics, devices, id, ip) ==>
              ip in Owners(statics, devices) && Owners(statics, devices)[ip] == id
  {
    forall id, ip: IPv4 | Has(statics, devices, id, ip)
      ensures ip in Owners(statics, devices) && Owners(statics, devices)[ip] == id
    {
      assert ip in AddressesOf(statics, devices);
      OwnersAreUnique(site, statics, devices, id, OwnerOf(statics, devices, ip), ip);
    }
  }

  lemma OwnersAreKnown(site: Site, statics: map<ClientID, Credential>, devices: map<ClientID, Device>)
    requires Service.Apart(site, statics, devices) && Distinct(statics + Active(devices))
    ensures OwnersKnown(site, devices, Owners(statics, devices))
  {
    hide Active, Distinct, Owners, Service.Apart;
    OwnersAre(site, statics, devices);
    OwnedAreUsed(site, statics, devices);
    forall id | id in devices
      ensures devices[id].address in Owners(statics, devices) && Owners(statics, devices)[devices[id].address] == id
    {
      assert Has(statics, devices, id, devices[id].address);
    }
  }

  lemma OwnedAreUsed(site: Site, statics: map<ClientID, Credential>, devices: map<ClientID, Device>)
    requires Service.Apart(site, statics, devices)
    ensures forall ip :: ip in Owners(statics, devices) ==> ip in Used(site.reserved, devices)
  {
  }

  lemma LoadedAreGenuine(site: Site, statics: map<ClientID, Credential>, devices: map<ClientID, Device>)
    requires Service.Apart(site, statics, devices) && Distinct(statics + Active(devices))
    ensures var loaded := statics + Active(devices); AllGenuine(Holders(loaded), Owners(statics, devices), loaded)
  {
    var loaded, owner := statics + Active(devices), Owners(statics, devices);
    OwnersAre(site, statics, devices);
    forall id | id in loaded ensures loaded[id].clientID == id && Genuine(Holders(loaded), owner, loaded[id]) {
      assert Has(statics, devices, id, loaded[id].tunnelIP);
      assert loaded[id].key in KeysOf(loaded);
    }
  }

  /** A relay with credentials and no session yet. */
  lemma IdleIsSound(keys: map<Bytes, Draw>, owner: map<IPv4, ClientID>, loaded: map<ClientID, Credential>)
    requires Distinct(loaded) && AllGenuine(keys, owner, loaded)
    ensures RelaySound(RelayRuns.State(Tables(loaded, map[], map[], map[], 0), multiset{}, {}, {}, {}), owner)
  {
  }

  /** After a successful load everything is known that there is to know. */
  lemma LoadedIsSound(site: Site, statics: map<ClientID, Credential>, data: Data)
    requires site.pool.WellFormed() && Service.Apart(site, statics, data.devices)
    requires Distinct(statics + Active(data.devices))
    ensures Sound(site, statics, LoadedWorld(statics, data))
  {
    hide Owners, Holders, Distinct, OwnersKnown, RelaySound, AllGenuine, Active;
    OwnersAreKnown(site, statics, data.devices);
    LoadedAreGenuine(site, statics, data.devices);
    var loaded := statics + Active(data.devices);
    IdleIsSound(Holders(loaded), Owners(statics, data.devices), loaded);
  }

  // ----- what overlapping requests come to -----

  /** The relay heard last what the store decided last: the same request, or both times a revocation. */
  ghost predicate InStep(w: World, id: ClientID) {
    && id in w.lastStore && w.lastStore[id] in w.made && id in w.lastRelay && w.lastRelay[id] in w.made
    && (w.lastStore[id] == w.lastRelay[id]
        || (w.made[w.lastStore[id]].verdict.None? && w.made[w.lastRelay[id]].verdict.None?))
  }

  /** Different requests never say the same, unless both revoke: their keys differ. */
  lemma InStepIff(w: World, id: ClientID)
    requires AllDrawn(w.keys, w.owner, w.made) && Names(w.made, w.lastStore) && Names(w.made, w.lastRelay)
    requires id in w.lastStore && id in w.lastRelay
    ensures TicketOf(w.made, w.lastStore[id], id) && TicketOf(w.made, w.lastRelay[id], id)
    ensures InStep(w, id) <==> w.made[w.lastStore[id]].verdict == w.made[w.lastRelay[id]].verdict
  {
    assert TicketOf(w.made, w.lastStore[id], id) && TicketOf(w.made, w.lastRelay[id], id);
    assert Drawn(w.keys, w.owner, w.lastStore[id], w.made[w.lastStore[id]]);
    assert Drawn(w.keys, w.owner, w.lastRelay[id], w.made[w.lastRelay[id]]);
  }

  lemma AgreeAtEach(a: map<ClientID, Credential>, b: map<ClientID, Credential>)
    ensures a == b <==> forall id :: At(a, id) == At(b, id)
  {
    if forall id :: At(a, id) == At(b, id) {
      forall id ensures id in a <==> id in b { assert At(a, id) == At(b, id); }
      forall id | id in a ensures a[id] == b[id] { assert At(a, id) == At(b, id); }
    }
  }

  /** Store and relay agree on a client both of whose halves are told exactly if it is in step. */
  lemma AgreesAtIff(site: Site, statics: map<ClientID, Credential>, w: World, id: ClientID)
    requires Sound(site, statics, w) && (id in w.lastStore ==> id in w.lastRelay)
    ensures At(w.relay.t.credentials, id) == At(statics + Active(w.data.devices), id)
            <==> id !in w.lastStore || InStep(w, id)
  {
    hide DevicesKnown, OwnersKnown, RelaySound, AllGenuine, AllDrawn, Names, InStep, Active;
    if id in w.lastStore { InStepIff(w, id); }
  }

  lemma OrderDecides(site: Site, statics: map<ClientID, Credential>, w: World)
    requires Sound(site, statics, w) && w.pending == {}
    ensures Service.Agree(statics, w.data.devices, w.relay.t.credentials) <==>
            forall id :: id in w.lastStore ==> InStep(w, id)
  {
    hide DevicesKnown, OwnersKnown, RelaySound, AllGenuine, AllDrawn, Recorded, Names, InStep, Active;
    forall id
      ensures At(w.relay.t.credentials, id) == At(statics + Active(w.data.devices), id)
              <==> id !in w.lastStore || InStep(w, id)
    {
      AgreesAtIff(site, statics, w, id);
    }
    AgreeAtEach(w.relay.t.credentials, statics + Active(w.data.devices));
  }

  /** However requests overlap: once all of them are answered, store and relay agree exactly if, on every device
      asked about, the request whose half the relay heard last is the one whose half the store served last, or
      both revoke. */
  lemma OverlappingAgreeIff(site: Site, statics: map<ClientID, Credential>, data: Data, run: seq<Move>)
    requires site.pool.WellFormed() && Service.Apart(site, statics, data.devices)
    requires Distinct(statics + Active(data.devices))
    requires CanRun(site, statics, LoadedWorld(statics, data), run)
    requires Run(site, statics, LoadedWorld(statics, data), run).pending == {}
    ensures var w := Run(site, statics, LoadedWorld(statics, data), run);
            Service.Agree(statics, w.data.devices, w.relay.t.credentials) <==>
            forall id :: id in w.lastStore ==> InStep(w, id)
  {
    hide Sound;
    LoadedIsSound(site, statics, data);
    RunIsSound(site, statics, LoadedWorld(statics, data), run);
    OrderDecides(site, statics, Run(site, statics, LoadedWorld(statics, data), run));
  }

  /** A request served undisturbed is its two halves in a row: afterwards both store and relay say its word, and
      nothing else has changed at the relay. */
  lemma UndisturbedSaysIts(site: Site, statics: map<ClientID, Credential>, w: World, q: StoreRuns.Request, now: Instant)
    requires Sound(site, statics, w) && CanMove(statics, w, Ask(q))
    requires HalfOf(q, StoreRuns.Serve(site, true, w.data, q).1).Some?
    ensures CanRun(site, statics, w, [Ask(q), Tell(w.next, now)])
    ensures var h := HalfOf(q, StoreRuns.Serve(site, true, w.data, q).1).value;
            var w' := Run(site, statics, w, [Ask(q), Tell(w.next, now)]);
            && w'.data == StoreRuns.Serve(site, true, w.data, q).0 && At(Active(w'.data.devices), h.id) == h.verdict
            && At(w'.relay.t.credentials, h.id) == h.verdict
            && w'.relay.t.credentials - {h.id} == w.relay.t.credentials - {h.id}
  {
    hide OwnersKnown, RelaySound, AllGenuine, AllDrawn, TicketsKnown, Recorded, StoreRuns.Serve, RelayRuns.Do, Clashes;
    AskKeeps(site, statics, w, q);
    ServeAsks(site, w.data, q);
    var w1 := AskStep(site, w, q);
    NeverRefused(site, statics, w1, w.next);
    SaysMeaning(w1.relay, w1.made[w.next]);
    PendingWasMade(site, statics, w);
    PendingWasMade(site, statics, w1);
    assert w.next in w1.pending;
    TwoMoves(site, statics, w, Ask(q), Tell(w.next, now));
  }

  lemma PendingWasMade(site: Site, statics: map<ClientID, Credential>, w: World)
    requires Sound(site, statics, w)
    ensures site.pool.WellFormed() && w.pending <= w.made.Keys && w.next !in w.pending
  {
    hide OwnersKnown, RelaySound, AllGenuine, AllDrawn, Recorded;
  }

  /** And it is answered: nothing more is pending than before, and the relay heard last what the store decided last. */
  lemma UndisturbedIsAnswered(site: Site, statics: map<ClientID, Credential>, w: World, q: StoreRuns.Request,
                              now: Instant)
    requires Sound(site, statics, w) && CanMove(statics, w, Ask(q))
    requires HalfOf(q, StoreRuns.Serve(site, true, w.data, q).1).Some?
    ensures CanRun(site, statics, w, [Ask(q), Tell(w.next, now)])
    ensures var h := HalfOf(q, StoreRuns.Serve(site, true, w.data, q).1).value;
            var w' := Run(site, statics, w, [Ask(q), Tell(w.next, now)]);
            && w'.pending == w.pending && InStep(w', h.id)
  {
    hide OwnersKnown, RelaySound, AllGenuine, AllDrawn, TicketsKnown, Recorded, StoreRuns.Serve, RelayRuns.Do, Clashes;
    AskKeeps(site, statics, w, q);
    PendingWasMade(site, statics, w);
    var w1 := AskStep(site, w, q);
    PendingWasMade(site, statics, w1);
    NeverRefused(site, statics, w1, w.next);
    TwoMoves(site, statics, w, Ask(q), Tell(w.next, now));
  }

  lemma TwoMoves(site: Site, statics: map<ClientID, Credential>, w: World, a: Move, b: Move)
    requires site.pool.WellFormed() && w.pending <= w.made.Keys && CanMove(statics, w, a)
    requires var w1 := Do(site, w, a); w1.pending <= w1.made.Keys && CanMove(statics, w1, b)
    ensures CanRun(site, statics, w, [a, b]) && Run(site, statics, w, [a, b]) == Do(site, Do(site, w, a), b)
  {
    hide Do;
    var w1 := Do(site, w, a);
    assert [a, b][1..] == [b] && [b][1..] == [];
    assert CanRun(site, statics, Do(site, w1, b), []);
    assert CanRun(site, statics, w1, [b]);
    assert Run(site, statics, w1, [b]) == Do(site, w1, b);
  }

  // ----- the store in all this -----

  /** The requests served in a run. */
  ghost function Requests(run: seq<Move>): seq<StoreRuns.Request> {
    if run == [] then []
    else if run[0].Ask? then [run[0].q] + Requests(run[1..])
    else Requests(run[1..])
  }

  lemma MoveServes(site: Site, statics: map<ClientID, Credential>, w: World, m: Move)
    requires CanMove(statics, w, m) && site.pool.WellFormed() && w.pending <= w.made.Keys
    ensures m.Ask? ==> Do(site, w, m).data == StoreRuns.Serve(site, true, w.data, m.q).0
    ensures m.Tell? && !IsRefused(w, w.made[m.ticket]) ==> Do(site, w, m).data == w.data
    ensures m.Act? ==> Do(site, w, m).data == w.data
  {
    hide StoreRuns.Serve, RelayRuns.Do;
  }

  /** The store of a run is a run of the store: it goes through the requests, and nothing else. */
  lemma {:induction false} StoreIsARun(site: Site, statics: map<ClientID, Credential>, w: World, run: seq<Move>,
                                       s: StoreRuns.State)
    requires Sound(site, statics, w) && CanRun(site, statics, w, run) && site.pool.WellFormed() && s.data == w.data
    ensures StoreRuns.Run(site, true, s, Requests(run)).data == Run(site, statics, w, run).data
    decreases |run|
  {
    hide Sound, RelayRuns.CanDo, StoreRuns.Serve, IsRefused, Do;
    if run != [] {
      MoveKeeps(site, statics, w, run[0]);
      MoveServes(site, statics, w, run[0]);
      if run[0].Ask? {
        StoreIsARun(site, statics, Do(site, w, run[0]), run[1..], StoreRuns.Step(site, true, s, run[0].q));
        assert Requests(run)[1..] == Requests(run[1..]);
      } else {
        if run[0].Tell? { NeverRefused(site, statics, w, run[0].ticket); }
        StoreIsARun(site, statics, Do(site, w, run[0]), run[1..], s);
      }
    }
  }

  // ----- the relay in all this -----

  /** What the relay is made to do in a run. */
  ghost function RelaySteps(site: Site, statics: map<ClientID, Credential>, w: World, run: seq<Move>)
    : seq<RelayRuns.Step>
    requires CanRun(site, statics, w, run)
    decreases |run|
  {
    if run == [] then [] else
      var rest := RelaySteps(site, statics, Do(site, w, run[0]), run[1..]);
      match run[0]
      case Ask(_) => rest
      case Tell(ticket, _) => [Says(w.made[ticket])] + rest
      case Act(step) => [step] + rest
  }

  lemma MoveActs(site: Site, statics: map<ClientID, Credential>, w: World, m: Move)
    requires CanMove(statics, w, m) && site.pool.WellFormed() && w.pending <= w.made.Keys
    ensures m.Ask? ==> Do(site, w, m).relay == w.relay
    ensures m.Tell? ==> && Do(site, w, m).relay == RelayRuns.Do(w.relay, Says(w.made[m.ticket]))
                        && RelayRuns.CanDo(w.relay, Says(w.made[m.ticket]))
    ensures m.Act? ==> Do(site, w, m).relay == RelayRuns.Do(w.relay, m.step) && RelayRuns.CanDo(w.relay, m.step)
  {
  }

  /** The relay of a run is a run of the relay: what is proved of RelayRuns holds here. */
  lemma {:induction false} RelayIsARun(site: Site, statics: map<ClientID, Credential>, w: World, run: seq<Move>)
    requires CanRun(site, statics, w, run)
    ensures var steps := RelaySteps(site, statics, w, run);
            RelayRuns.CanRun(w.relay, steps) && RelayRuns.Run(w.relay, steps) == Run(site, statics, w, run).relay
    decreases |run|
  {
    hide Says, RelayRuns.Do, RelayRuns.CanDo, Do;
    if run != [] {
      RelayIsARun(site, statics, Do(site, w, run[0]), run[1..]);
      MoveActs(site, statics, w, run[0]);
      if !run[0].Ask? {
        var rest := RelaySteps(site, statics, Do(site, w, run[0]), run[1..]);
        assert RelaySteps(site, statics, w, run)[1..] == rest;
      }
    }
  }

  // ----- requests that do not overlap -----

  ghost predicate Concerns(q: StoreRuns.Request, id: ClientID) {
    (q.Redeem? || q.Revoke? || q.Rotate?) && q.id == id
  }

  /** Nobody asks about a device while a request on it is unanswered. */
  ghost predicate Waits(w: World, m: Move) {
    m.Ask? ==> forall t :: t in w.pending && t in w.made ==> !Concerns(m.q, w.made[t].id)
  }

  ghost predicate NoOverlap(site: Site, statics: map<ClientID, Credential>, w: World, run: seq<Move>)
    requires CanRun(site, statics, w, run)
    decreases |run|
  {
    run == [] || (Waits(w, run[0]) && NoOverlap(site, statics, Do(site, w, run[0]), run[1..]))
  }

  /** On each device at most the last request is unanswered, and the one answered last is the last but that. */
  ghost predicate OneEach(w: World) {
    && (forall t :: t in w.pending ==> t in w.made && w.made[t].id in w.lastStore && w.lastStore[w.made[t].id] == t)
    && (forall id :: id in w.lastStore && w.lastStore[id] !in w.pending ==>
          id in w.lastRelay && w.lastRelay[id] == w.lastStore[id])
  }

  lemma HalfConcerns(site: Site, d: Data, q: StoreRuns.Request)
    requires site.pool.WellFormed()
    ensures var r := StoreRuns.Serve(site, true, d, q).1; HalfOf(q, r).Some? ==> Concerns(q, HalfOf(q, r).value.id)
  {
  }

  lemma AskKeepsOneEach(w: World, data: Data, h: Half)
    requires TicketsKnown(w.next, w.made, w.pending, w.lastStore, w.lastRelay) && OneEach(w)
    requires forall t :: t in w.pending && t in w.made ==> w.made[t].id != h.id
    ensures OneEach(NewHalf(w, data, h))
  {
    assert forall id :: id in w.lastStore ==> TicketOf(w.made, w.lastStore[id], id);
  }

  lemma TellKeepsOneEach(w: World, t: nat, now: Instant)
    requires TicketsKnown(w.next, w.made, w.pending, w.lastStore, w.lastRelay) && OneEach(w)
    requires t in w.pending && t in w.made && !IsRefused(w, w.made[t])
    ensures OneEach(TellStep(w, t, now))
  {
    hide IsRefused, RelayRuns.Do;
    assert forall id :: id in w.lastStore ==> TicketOf(w.made, w.lastStore[id], id);
  }

  lemma {:induction false} WaitingKeepsOneEach(site: Site, statics: map<ClientID, Credential>, w: World, m: Move)
    requires Sound(site, statics, w) && OneEach(w) && CanMove(statics, w, m) && Waits(w, m)
    ensures w.pending <= w.made.Keys && OneEach(Do(site, w, m))
  {
    hide DevicesKnown, OwnersKnown, RelaySound, AllGenuine, AllDrawn, Recorded, Names, StoreRuns.Serve, HalfOf, NewHalf;
    hide TellStep, RelayRuns.Do, IsRefused;
    match m
    case Ask(q) =>
      DevicesAreWellFormed(site, statics, w);
      HalfConcerns(site, w.data, q);
      var (data, r) := StoreRuns.Serve(site, true, w.data, q);
      if HalfOf(q, r).Some? { AskKeepsOneEach(w, data, HalfOf(q, r).value); }
    case Tell(t, now) =>
      NeverRefused(site, statics, w, t);
      TellKeepsOneEach(w, t, now);
    case Act(step) =>
  }

  lemma DevicesAreWellFormed(site: Site, statics: map<ClientID, Credential>, w: World)
    requires DevicesKnown(site, statics, w)
    ensures site.pool.WellFormed()
  {
  }

  lemma {:induction false} WaitingRun(site: Site, statics: map<ClientID, Credential>, w: World, run: seq<Move>)
    requires Sound(site, statics, w) && OneEach(w) && CanRun(site, statics, w, run) && NoOverlap(site, statics, w, run)
    ensures Sound(site, statics, Run(site, statics, w, run)) && OneEach(Run(site, statics, w, run))
    decreases |run|
  {
    hide Sound, OneEach, Waits;
    if run != [] {
      MoveKeeps(site, statics, w, run[0]);
      WaitingKeepsOneEach(site, statics, w, run[0]);
      WaitingRun(site, statics, Do(site, w, run[0]), run[1..]);
    }
  }

  /** If no two requests on one device overlap, store and relay agree on every device without an unanswered
      request, however requests on different devices overlap and whatever the relay does meanwhile. */
  lemma SeparateRequestsAgree(site: Site, statics: map<ClientID, Credential>, data: Data, run: seq<Move>, id: ClientID)
    requires site.pool.WellFormed() && Service.Apart(site, statics, data.devices)
    requires Distinct(statics + Active(data.devices))
    requires CanRun(site, statics, LoadedWorld(statics, data), run)
    requires NoOverlap(site, statics, LoadedWorld(statics, data), run)
    ensures var w := Run(site, statics, LoadedWorld(statics, data), run);
            (forall t :: t in w.pending ==> t in w.made && w.made[t].id != id) ==>
              At(w.relay.t.credentials, id) == At(statics + Active(w.data.devices), id)
  {
    hide DevicesKnown, OwnersKnown, RelaySound, AllGenuine, AllDrawn, Recorded, Active;
    LoadedIsSound(site, statics, data);
    var w0 := LoadedWorld(statics, data);
    WaitingRun(site, statics, w0, run);
    var w := Run(site, statics, w0, run);
    if forall t :: t in w.pending ==> t in w.made && w.made[t].id != id {
      assert id in w.lastStore ==> TicketOf(w.made, w.lastStore[id], id);
      AgreesAtIff(site, statics, w, id);
    }
  }

  // ----- the whole program -----

  /** In every state of every run of control plane and relay together: no authorization ever fails, each session
      has its client's current key and address unless its termination is pending, and each session is found by
      its address. */
  lemma WholeProgram(site: Site, statics: map<ClientID, Credential>, data: Data, run: seq<Move>)
    requires site.pool.WellFormed() && Service.Apart(site, statics, data.devices)
    requires Distinct(statics + Active(data.devices))
    requires CanRun(site, statics, LoadedWorld(statics, data), run)
    ensures var w := Run(site, statics, LoadedWorld(statics, data), run);
            && (forall t :: t in w.pending ==> t in w.made && !IsRefused(w, w.made[t]))
            && RelayRuns.Sound(w.relay)
            && (forall id :: id in w.relay.t.sessions ==> FoundByIP(w.relay.t, w.relay.t.sessions[id]))
  {
    hide DevicesKnown, OwnersKnown, AllGenuine, AllDrawn, Recorded, IsRefused, RelayRuns.Sound;
    LoadedIsSound(site, statics, data);
    RunIsSound(site, statics, LoadedWorld(statics, data), run);
    var w := Run(site, statics, LoadedWorld(statics, data), run);
    forall t | t in w.pending ensures !IsRefused(w, w.made[t]) { NeverRefused(site, statics, w, t); }
  }
}
