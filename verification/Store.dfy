/**
 The control plane's store (internal/controlplane/store.go): activation codes, devices and the address pool.

 The database is a map with atomic transactions. Activations are filed under their code, where the program
 files them under its SHA-256 digest, and devices hold their key, where the program encrypts it.
 */
module Store {
  import opened Words
  import opened Wire
  import opened Relay

  type Code = string
  type Instant = int

  const SECOND := 1_000_000_000
  const MINUTE := 60 * SECOND
  const DAY := 24 * 60 * MINUTE

  datatype Activation = Activation(
    userID: string, deviceName: string, createdAt: Instant, expiresAt: Instant, usedAt: Option<Instant>,
      usedBy: ClientID)

  datatype Device = Device(
    clientID: ClientID, userID: string, name: string, platform: string, address: IPv4, key: Bytes,
    createdAt: Instant, updatedAt: Instant, lastSeenAt: Option<Instant>, revokedAt: Option<Instant>)

  datatype Event = ActivationCreated | DeviceEnrolled | DeviceRevoked | KeyRotated

  datatype Audit = Audit(event: Event, subjectID: ClientID, userID: string, timestamp: Instant)

  datatype Failure =
    | InvalidActivation | BadUserID | BadDeviceName | BadTTL | Collision | NameTooLong | BadPlatform
    | PoolExhausted | DeviceNotFound | AlreadyRevoked

  datatype Data = Data(activations: map<Code, Activation>, devices: map<ClientID, Device>, audit: seq<Audit>)

  /** A block of addresses; a prefix of 16 to 30 bits. */
  datatype Pool = Pool(base: IPv4, size: nat) {
    predicate WellFormed() {
      4 <= size <= 0x1_0000 && base + size <= TWO_32
    }

    predicate Contains(a: int) {
      base <= a < base + size
    }

    /** Neither the network address nor the broadcast address. */
    predicate IsHost(a: int) {
      base < a < base + size - 1
    }
  }

  // ----- addresses -----

  /** The lowest host address not in use, from `from` upwards. */
  function LowestFree(pool: Pool, used: set<IPv4>, from: int): (r: Option<IPv4>)
    requires pool.WellFormed() && pool.base < from < pool.base + pool.size
    ensures r.Some? ==> && from <= r.value && pool.IsHost(r.value) && r.value !in used
                        && forall a: IPv4 :: from <= a < r.value ==> a in used
    ensures r.None? ==> forall a: IPv4 :: from <= a && pool.IsHost(a) ==> a in used
    decreases pool.base + pool.size - from
  {
    if from == pool.base + pool.size - 1 then None
    else if from !in used then Some(from)
    else LowestFree(pool, used, from + 1)
  }

  /** Every address a device ever got, and the reserved ones. */
  function Used(reserved: set<IPv4>, devices: map<ClientID, Device>): set<IPv4> {
    reserved + set id | id in devices :: devices[id].address
  }

  function Free(pool: Pool, reserved: set<IPv4>, devices: map<ClientID, Device>): Option<IPv4>
    requires pool.WellFormed()
  {
    LowestFree(pool, Used(reserved, devices), pool.base + 1)
  }

  // ----- transactions -----

  predicate IsLabel(s: string) {
    0 < |s| <= 128
  }

  /** When an activation was used, or else expires. */
  function Finished(a: Activation): Instant {
    if a.usedAt.Some? then a.usedAt.value else a.expiresAt
  }

  function Pruned(activations: map<Code, Activation>, cutoff: Instant): map<Code, Activation> {
    map c | c in activations && Finished(activations[c]) >= cutoff :: activations[c]
  }

  /** A new activation under a random code; `prune` is false only in the store that never prunes. */
  function Created(prune: bool, d: Data, code: Code, userID: string, deviceName: string, ttl: int, now: Instant)
    : (Data, Result<Activation, Failure>)
  {
    if !IsLabel(userID) then (d, Err(BadUserID))
    else if !IsLabel(deviceName) then (d, Err(BadDeviceName))
    else if ttl < MINUTE || ttl > DAY then (d, Err(BadTTL))
    else
      var kept := if prune then Pruned(d.activations, now - DAY) else d.activations;
      if code in kept then (d, Err(Collision)) else
        var a := Activation(userID, deviceName, now, now + ttl, None, "");
        (Data(kept[code := a], d.devices, d.audit + [Audit(ActivationCreated, "", userID, now)]), Ok(a))
  }

  predicate IsCode(code: Code) {
    |code| >= 20 && code[..3] == "lf_"
  }

  /** The code is known, unused and not expired. */
  predicate Redeemable(activations: map<Code, Activation>, code: Code, now: Instant) {
    code in activations && activations[code].usedAt.None? && now < activations[code].expiresAt
  }

  function NewDevice(a: Activation, name: string, platform: string, address: IPv4, id: ClientID, key: Bytes,
                     now: Instant): Device {
    Device(id, a.userID, if name == "" then a.deviceName else name, platform, address, key, now, now, None, None)
  }

  /** Redeems a code for a device with a random id and key. */
  function Enrolled(pool: Pool, reserved: set<IPv4>, d: Data, code: Code, name: string, platform: string, now: Instant,
                    id: ClientID, key: Bytes): (Data, Result<Device, Failure>)
    requires pool.WellFormed()
  {
    if !IsCode(code) then (d, Err(InvalidActivation))
    else if |name| > 128 then (d, Err(NameTooLong))
    else if platform == "" || |platform| > 32 then (d, Err(BadPlatform))
    else if !Redeemable(d.activations, code, now) then (d, Err(InvalidActivation))
    else
      match Free(pool, reserved, d.devices)
      case None => (d, Err(PoolExhausted))
      case Some(address) =>
        var a := d.activations[code];
        var device := NewDevice(a, name, platform, address, id, key, now);
        (Data(d.activations[code := a.(usedAt := Some(now), usedBy := id)], d.devices[id := device],
              d.audit + [Audit(DeviceEnrolled, id, a.userID, now)]), Ok(device))
  }

  function Revoked(d: Data, id: ClientID, now: Instant): (Data, Result<Device, Failure>) {
    if id !in d.devices then (d, Err(DeviceNotFound))
    else if d.devices[id].revokedAt.Some? then (d, Ok(d.devices[id]))
    else
      var device := d.devices[id].(revokedAt := Some(now), updatedAt := now);
      (d.(devices := d.devices[id := device], audit := d.audit + [Audit(DeviceRevoked, id, device.userID, now)]),
        Ok(device))
  }

  function Rotated(d: Data, id: ClientID, key: Bytes, now: Instant): (Data, Result<Device, Failure>) {
    if id !in d.devices then (d, Err(DeviceNotFound))
    else if d.devices[id].revokedAt.Some? then (d, Err(AlreadyRevoked))
    else
      var device := d.devices[id].(key := key, updatedAt := now);
      (d.(devices := d.devices[id := device], audit := d.audit + [Audit(KeyRotated, id, device.userID, now)]),
        Ok(device))
  }

  function Touched(d: Data, id: ClientID, now: Instant): Data {
    if id !in d.devices then d else d.(devices := d.devices[id := d.devices[id].(lastSeenAt := Some(now))])
  }

  /** What the relay needs to know of a device. */
  function CredentialOf(d: Device): Credential {
    Credential(d.name, d.clientID, d.key, d.address)
  }

  function Active(devices: map<ClientID, Device>): map<ClientID, Credential> {
    map id | id in devices && devices[id].revokedAt.None? :: CredentialOf(devices[id])
  }

  /** A new activation is on file as it was asked for, with all others that are neither used nor expired for a day,
      and no more; a refusal changes nothing. */
  lemma CreatedMeaning(d: Data, code: Code, userID: string, deviceName: string, ttl: int, now: Instant)
    ensures var (d', r) := Created(true, d, code, userID, deviceName, ttl, now);
            && (r.Err? ==> d' == d)
            && (r.Ok? ==> && r.value == Activation(userID, deviceName, now, now + ttl, None, "")
                          && code in d'.activations && d'.activations[code] == r.value && d'.devices == d.devices
                          && (forall c :: c in d'.activations && c != code ==>
                                c in d.activations && d'.activations[c] == d.activations[c])
                          && (forall c :: c in d.activations && c != code ==>
                                (c in d'.activations <==> !Stale(d.activations[c], now))))
  {
  }

  /** Used, or never used and expired, more than a day ago. */
  ghost predicate Stale(a: Activation, now: Instant) {
    match a.usedAt
    case Some(used) => now - used > 86_400_000_000_000
    case None => now - a.expiresAt > 86_400_000_000_000
  }

  /** Everything about other devices, and about codes, is as it was. */
  ghost predicate OnlyDevice(before: Data, after: Data, id: ClientID) {
    && after.activations == before.activations && before.audit <= after.audit
    && after.devices.Keys == before.devices.Keys && after.devices - {id} == before.devices - {id}
  }

  /** A revocation takes away exactly the device's credential, for good: its first time stays, and repeating it
      changes nothing. */
  lemma RevokedMeaning(d: Data, id: ClientID, now: Instant, later: Instant)
    ensures var (d', r) := Revoked(d, id, now);
            && OnlyDevice(d, d', id) && (r.Ok? <==> id in d.devices)
            && Active(d'.devices) == Active(d.devices) - {id}
            && (r.Ok? ==> && r.value == d'.devices[id] && r.value.revokedAt.Some?
                          && Revoked(d', id, later) == (d', r)
                          && Rotated(d', id, r.value.key, later) == (d', Err(AlreadyRevoked)))
  {
    var d' := Revoked(d, id, now).0;
    if id in d.devices {
      assert d'.devices.Keys == d.devices.Keys;
      assert d'.devices - {id} == d.devices - {id};
    }
  }

  /** A rotation changes exactly the key in the device's credential, and is refused exactly for devices unknown
      or revoked. */
  lemma RotatedMeaning(d: Data, id: ClientID, key: Bytes, now: Instant)
    ensures var (d', r) := Rotated(d, id, key, now);
            && OnlyDevice(d, d', id) && (r.Ok? <==> id in Active(d.devices)) && (r.Err? ==> d' == d)
            && (r.Ok? ==> && r.value == d'.devices[id] && r.value == d.devices[id].(key := key, updatedAt := now)
                          && Active(d'.devices) == Active(d.devices)[id := Active(d.devices)[id].(key := key)])
  {
    var d' := Rotated(d, id, key, now).0;
    if id in d.devices {
      assert d'.devices.Keys == d.devices.Keys;
      assert d'.devices - {id} == d.devices - {id};
    }
  }

  /** Seeing a device changes no credential and nothing that a client or operator can act on. */
  lemma TouchedMeaning(d: Data, id: ClientID, now: Instant)
    ensures var d' := Touched(d, id, now);
            && OnlyDevice(d, d', id) && d'.audit == d.audit && Active(d'.devices) == Active(d.devices)
            && (id in d.devices ==> && d'.devices[id].lastSeenAt == Some(now)
                                    && d'.devices[id].(lastSeenAt := None) == d.devices[id].(lastSeenAt := None))
  {
    var d' := Touched(d, id, now);
    if id in d.devices {
      assert d'.devices.Keys == d.devices.Keys;
      assert d'.devices - {id} == d.devices - {id};
    }
  }

  // ----- the object -----

  class Database {
    const pool: Pool
    const reserved: set<IPv4>
    var activations: map<Code, Activation>
    var devices: map<ClientID, Device>
    var audit: seq<Audit>

    function Model(): Data
      reads this
    {
      Data(activations, devices, audit)
    }

    constructor (pool: Pool, reserved: set<IPv4>)
      ensures this.pool == pool && this.reserved == reserved && Model() == Data(map[], map[], [])
    {
      this.pool, this.reserved := pool, reserved;
      activations, devices, audit := map[], map[], [];
    }

    method CreateActivation(code: Code, userID: string, deviceName: string, ttl: int, now: Instant)
      returns (r: Result<Activation, Failure>)
      modifies this
      ensures (Model(), r) == Created(true, old(Model()), code, userID, deviceName, ttl, now)
    {
      if userID == "" || |userID| > 128 {
        return Err(BadUserID);
      }
      if deviceName == "" || |deviceName| > 128 {
        return Err(BadDeviceName);
      }
      if ttl < MINUTE || ttl > DAY {
        return Err(BadTTL);
      }
      var activation := Activation(userID, deviceName, now, now + ttl, None, "");
      var kept := PruneActivations(activations, now - DAY);
      if code in kept {
        return Err(Collision);
      }
      activations := kept[code := activation];
      audit := audit + [Audit(ActivationCreated, "", userID, now)];
      return Ok(activation);
    }

    method Enroll(code: Code, name: string, platform: string, now: Instant, id: ClientID, key: Bytes)
      returns (r: Result<Device, Failure>)
      requires pool.WellFormed()
      modifies this
      ensures (Model(), r) == Enrolled(pool, reserved, old(Model()), code, name, platform, now, id, key)
    {
      if |code| < 20 || code[..3] != "lf_" {
        return Err(InvalidActivation);
      }
      if |name| > 128 {
        return Err(NameTooLong);
      }
      if platform == "" || |platform| > 32 {
        return Err(BadPlatform);
      }
      if code !in activations {
        return Err(InvalidActivation);
      }
      var activation := activations[code];
      if activation.usedAt.Some? || now >= activation.expiresAt {
        return Err(InvalidActivation);
      }
      var address := AllocateAddress();
      if address.None? {
        return Err(PoolExhausted);
      }
      var device := Device(id, activation.userID, if name == "" then activation.deviceName else name, platform,
                           address.value, key, now, now, None, None);
      devices := devices[id := device];
      activations := activations[code := activation.(usedAt := Some(now), usedBy := id)];
      audit := audit + [Audit(DeviceEnrolled, id, activation.userID, now)];
      return Ok(device);
    }

    /** Scans upwards from the network address, stopping short of the broadcast address. */
    method AllocateAddress() returns (r: Option<IPv4>)
      requires pool.WellFormed()
      ensures r == Free(pool, reserved, devices)
    {
      var used := reserved;
      var ids := devices.Keys;
      while ids != {}
        invariant ids <= devices.Keys
        invariant used == reserved + set id | id in devices && id !in ids :: devices[id].address
        decreases ids
      {
        var id :| id in ids;
        used := used + {devices[id].address};
        ids := ids - {id};
      }
      assert used == Used(reserved, devices);
      var address := Next(pool.base);
      while address.Some? && pool.Contains(address.value)
        invariant address.Some? && pool.base < address.value < pool.base + pool.size
        invariant LowestFree(pool, used, pool.base + 1) == LowestFree(pool, used, address.value)
        decreases pool.base + pool.size - address.value
      {
        var next := Next(address.value);
        if next.None? || !pool.Contains(next.value) {
          break;
        }
        if address.value !in used {
          return address;
        }
        address := next;
      }
      return None;
    }

    method Revoke(id: ClientID, now: Instant) returns (r: Result<Device, Failure>)
      modifies this`devices, this`audit
      ensures r.Ok? <==> id in old(devices)
      ensures r.Ok? ==> id in devices && devices[id] == r.value && r.value.revokedAt.Some?
      ensures r.Ok? && old(devices)[id].revokedAt.Some? ==> r.value == old(devices)[id]
      ensures OnlyDevice(old(Model()), Model(), id) && Active(devices) == Active(old(devices)) - {id}
      ensures (Model(), r) == Revoked(old(Model()), id, now)
    {
      RevokedMeaning(Model(), id, now, now);
      if id !in devices {
        return Err(DeviceNotFound);
      }
      var stored := devices[id];
      if stored.revokedAt.None? {
        stored := stored.(revokedAt := Some(now), updatedAt := now);
        devices := devices[id := stored];
        audit := audit + [Audit(DeviceRevoked, id, stored.userID, now)];
      }
      return Ok(stored);
    }

    method Rotate(id: ClientID, key: Bytes, now: Instant) returns (r: Result<Device, Failure>)
      modifies this`devices, this`audit
      ensures r.Ok? <==> id in Active(old(devices))
      ensures r.Ok? ==> id in devices && devices[id] == r.value == old(devices)[id].(key := key, updatedAt := now)
      ensures r.Ok? ==> Active(devices) == Active(old(devices))[id := Active(old(devices))[id].(key := key)]
      ensures r.Err? ==> Model() == old(Model())
      ensures OnlyDevice(old(Model()), Model(), id)
      ensures (Model(), r) == Rotated(old(Model()), id, key, now)
    {
      RotatedMeaning(Model(), id, key, now);
      if id !in devices {
        return Err(DeviceNotFound);
      }
      var stored := devices[id];
      if stored.revokedAt.Some? {
        return Err(AlreadyRevoked);
      }
      stored := stored.(key := key, updatedAt := now);
      devices := devices[id := stored];
      audit := audit + [Audit(KeyRotated, id, stored.userID, now)];
      return Ok(stored);
    }

    /** Configured clients have no record, which is no error. */
    method Touch(id: ClientID, now: Instant)
      modifies this`devices
      ensures Active(devices) == Active(old(devices)) && OnlyDevice(old(Model()), Model(), id)
      ensures id in old(devices) ==> devices[id].lastSeenAt == Some(now)
      ensures Model() == Touched(old(Model()), id, now)
    {
      TouchedMeaning(Model(), id, now);
      if id in devices {
        devices := devices[id := devices[id].(lastSeenAt := Some(now))];
      }
    }

    /** The credentials of all devices not revoked, each once, in the order the database walks them. */
    method ActiveCredentials() returns (credentials: seq<Credential>)
      requires forall id :: id in devices ==> devices[id].clientID == id
      ensures forall c :: c in credentials <==> c.clientID in Active(devices) && Active(devices)[c.clientID] == c
      ensures forall i, j :: 0 <= i < j < |credentials| ==> credentials[i].clientID != credentials[j].clientID
    {
      credentials := [];
      var ids := devices.Keys;
      while ids != {}
        invariant ids <= devices.Keys
        invariant forall c :: c in credentials <==>
                    c.clientID in Active(devices) && Active(devices)[c.clientID] == c && c.clientID !in ids
        invariant forall i, j :: 0 <= i < j < |credentials| ==> credentials[i].clientID != credentials[j].clientID
        decreases ids
      {
        var id :| id in ids;
        ids := ids - {id};
        if devices[id].revokedAt.None? {
          assert forall c :: c in credentials ==> c.clientID != id;
          credentials := credentials + [CredentialOf(devices[id])];
        }
      }
    }
  }

  method PruneActivations(activations: map<Code, Activation>, cutoff: Instant) returns (kept: map<Code, Activation>)
    ensures kept == Pruned(activations, cutoff)
  {
    kept := activations;
    var codes := activations.Keys;
    while codes != {}
      invariant codes <= activations.Keys
      invariant kept == map c | c in activations && (c in codes || Finished(activations[c]) >= cutoff) :: activations[c]
      decreases codes
    {
      var code :| code in codes;
      var activation := activations[code];
      var finished := activation.expiresAt;
      if activation.usedAt.Some? {
        finished := activation.usedAt.value;
      }
      if finished < cutoff {
        kept := kept - {code};
      }
      codes := codes - {code};
    }
  }

  function Next(a: IPv4): Option<IPv4> {
    if a == TWO_32 - 1 then None else Some(a + 1)
  }
}
