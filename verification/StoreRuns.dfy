/** What the control plane's store keeps over every run of its transactions (internal/controlplane/store.go). */
module StoreRuns {
  import opened Words
  import opened Wire
  import opened Relay
  import opened Store

  datatype Site = Site(pool: Pool, reserved: set<IPv4>)

  datatype Request =
    | Create(code: Code, userID: string, deviceName: string, ttl: int, now: Instant)
    | Redeem(code: Code, name: string, platform: string, now: Instant, id: ClientID, key: Bytes)
    | Revoke(id: ClientID, now: Instant)
    | Rotate(id: ClientID, key: Bytes, now: Instant)
    | Touch(id: ClientID, now: Instant)

  datatype Reply = Issued(activation: Result<Activation, Failure>) | Stored(device: Result<Device, Failure>) | Done

  function Serve(site: Site, prune: bool, d: Data, q: Request): (Data, Reply)
    requires site.pool.WellFormed()
  {
    match q
    case Create(code, userID, deviceName, ttl, now) =>
      var (d', r) := Created(prune, d, code, userID, deviceName, ttl, now); (d', Issued(r))
    case Redeem(code, name, platform, now, id, key) =>
      var (d', r) := Enrolled(site.pool, site.reserved, d, code, name, platform, now, id, key); (d', Stored(r))
    case Revoke(id, now) => var (d', r) := Revoked(d, id, now); (d', Stored(r))
    case Rotate(id, key, now) => var (d', r) := Rotated(d, id, key, now); (d', Stored(r))
    case Touch(id, now) => (Touched(d, id, now), Done)
  }

  /** The data, and beside it what was ever asked for: the request behind each code issued, the device it
      bought, and when the last request came. */
  datatype State = State(data: Data, issued: map<Code, Request>, spent: map<Code, ClientID>, clock: Instant)

  function Start(clock: Instant): State {
    State(Data(map[], map[], []), map[], map[], clock)
  }

  /** Time does not run backwards, and random codes and ids are new. */
  predicate CanServe(s: State, q: Request) {
    && s.clock <= q.now
    && (q.Create? ==> q.code !in s.issued)
    && (q.Redeem? ==> q.id !in s.data.devices)
  }

  function Step(site: Site, prune: bool, s: State, q: Request): State
    requires site.pool.WellFormed()
  {
    var (d, r) := Serve(site, prune, s.data, q);
    State(d,
          if q.Create? && r.activation.Ok? then s.issued[q.code := q] else s.issued,
          if q.Redeem? && r.device.Ok? then s.spent[q.code := q.id] else s.spent,
          q.now)
  }

  predicate CanRun(site: Site, prune: bool, s: State, run: seq<Request>)
    requires site.pool.WellFormed()
    decreases |run|
  {
    run == [] || (CanServe(s, run[0]) && CanRun(site, prune, Step(site, prune, s, run[0]), run[1..]))
  }

  function Run(site: Site, prune: bool, s: State, run: seq<Request>): State
    requires site.pool.WellFormed()
    decreases |run|
  {
    if run == [] then s else Run(site, prune, Step(site, prune, s, run[0]), run[1..])
  }

  function Replies(site: Site, prune: bool, s: State, run: seq<Request>): (r: seq<Reply>)
    requires site.pool.WellFormed()
    ensures |r| == |run|
    decreases |run|
  {
    if run == [] then [] else
      [Serve(site, prune, s.data, run[0]).1] + Replies(site, prune, Step(site, prune, s, run[0]), run[1..])
  }

  /** Runs go on: one more request is served from the data the run left, and answered after its replies. */
  lemma {:induction false} RunGoesOn(site: Site, prune: bool, s: State, run: seq<Request>, q: Request)
    requires site.pool.WellFormed()
    ensures var end := Run(site, prune, s, run);
            && Run(site, prune, s, run + [q]).data == Serve(site, prune, end.data, q).0
            && Replies(site, prune, s, run + [q]) == Replies(site, prune, s, run) + [Serve(site, prune, end.data, q).1]
            && (CanRun(site, prune, s, run + [q]) <==> CanRun(site, prune, s, run) && CanServe(end, q))
    decreases |run|
  {
    if run == [] {
      assert run + [q] == [q] && [q][1..] == [];
    } else {
      assert (run + [q])[1..] == run[1..] + [q];
      RunGoesOn(site, prune, Step(site, prune, s, run[0]), run[1..], q);
    }
  }

  // ----- activations -----

  /** An activation on file says what was asked for, and whether it was redeemed. */
  ghost predicate Filed(a: Activation, issued: Request, spent: bool) {
    issued.Create? && a.expiresAt == Expiry(issued) && a.userID == issued.userID && a.deviceName == issued.deviceName
    && (a.usedAt.Some? <==> spent)
  }

  function Expiry(q: Request): Instant {
    if q.Create? then q.now + q.ttl else q.now
  }

  /** The file matches what was handed out, but for activations forgotten when they could not be used. */
  ghost predicate Faithful(s: State) {
    && (forall c :: c in s.data.activations ==>
          c in s.issued && Filed(s.data.activations[c], s.issued[c], c in s.spent))
    && (forall c :: c in s.issued && c !in s.data.activations ==> c in s.spent || Expiry(s.issued[c]) <= s.clock)
    && (forall c :: c in s.spent ==> c in s.issued)
    && (forall c :: c in s.issued ==> s.issued[c].Create?)
  }

  lemma CreateIsFaithful(site: Site, prune: bool, s: State, q: Request)
    requires site.pool.WellFormed() && Faithful(s) && CanServe(s, q) && q.Create?
    ensures Faithful(Step(site, prune, s, q))
  {
    var s' := Step(site, prune, s, q);
    if s' != s.(clock := q.now) {
      var kept := if prune then Pruned(s.data.activations, q.now - DAY) else s.data.activations;
      assert s'.data.activations.Keys == kept.Keys + {q.code};
    }
  }

  lemma StepIsFaithful(site: Site, prune: bool, s: State, q: Request)
    requires site.pool.WellFormed() && Faithful(s) && CanServe(s, q)
    ensures Faithful(Step(site, prune, s, q))
  {
    if q.Create? {
      CreateIsFaithful(site, prune, s, q);
    }
  }

  /** What is redeemable is what was issued, not redeemed yet and not expired. */
  lemma RedeemableIff(s: State, code: Code, now: Instant)
    requires Faithful(s) && s.clock <= now
    ensures Redeemable(s.data.activations, code, now) <==>
            code in s.issued && code !in s.spent && now < Expiry(s.issued[code])
  {
  }

  lemma {:induction false} RunIsFaithful(site: Site, prune: bool, s: State, run: seq<Request>)
    requires site.pool.WellFormed() && Faithful(s) && CanRun(site, prune, s, run)
    ensures Faithful(Run(site, prune, s, run))
    decreases |run|
  {
    if run != [] {
      StepIsFaithful(site, prune, s, run[0]);
      RunIsFaithful(site, prune, Step(site, prune, s, run[0]), run[1..]);
    }
  }

  predicate WellFilled(q: Request)
    requires q.Redeem?
  {
    |q.code| >= 20 && q.code[..3] == "lf_" && |q.name| <= 128 && 0 < |q.platform| <= 32
  }

  /** The code was issued, has not bought a device yet and is not expired. */
  ghost predicate Good(s: State, code: Code, now: Instant) {
    code in s.issued && code !in s.spent && now < Expiry(s.issued[code])
  }

  /** In every run a code buys a device exactly when it was issued, not redeemed before and has not expired,
      the request is well filled and an address is left. Each refusal names its reason, and changes nothing. */
  lemma RedeemsIff(site: Site, start: Instant, run: seq<Request>, q: Request)
    requires site.pool.WellFormed() && CanRun(site, true, Start(start), run)
    requires CanServe(Run(site, true, Start(start), run), q) && q.Redeem?
    ensures var s := Run(site, true, Start(start), run);
            var r := Serve(site, true, s.data, q).1.device;
            var exhausted := Free(site.pool, site.reserved, s.data.devices).None?;
            && (r.Ok? <==> WellFilled(q) && Good(s, q.code, q.now) && !exhausted)
            && (r == Err(PoolExhausted) <==> WellFilled(q) && Good(s, q.code, q.now) && exhausted)
            && (r == Err(NameTooLong) <==> |q.code| >= 20 && q.code[..3] == "lf_" && |q.name| > 128)
            && (r == Err(BadPlatform) <==>
                  |q.code| >= 20 && q.code[..3] == "lf_" && |q.name| <= 128 && !(0 < |q.platform| <= 32))
            && (r.Err? ==> r.error in {InvalidActivation, PoolExhausted, NameTooLong, BadPlatform})
            && (r.Err? ==> Serve(site, true, s.data, q).0 == s.data)
  {
    var s := Run(site, true, Start(start), run);
    RunIsFaithful(site, true, Start(start), run);
    RedeemableIff(s, q.code, q.now);
  }

  /** What a redeemed code buys: a device of the user and, unless the request names it, of the name the code was issued
      for, with the lowest address nobody ever had. Nothing changes but that device, and that code, which is used. */
  lemma RedeemBuys(site: Site, start: Instant, run: seq<Request>, q: Request)
    requires site.pool.WellFormed() && CanRun(site, true, Start(start), run)
    requires CanServe(Run(site, true, Start(start), run), q) && q.Redeem?
    requires Serve(site, true, Run(site, true, Start(start), run).data, q).1.device.Ok?
    ensures var s := Run(site, true, Start(start), run);
            var (d', reply) := Serve(site, true, s.data, q);
            var device := reply.device.value;
            && q.code in s.issued && s.issued[q.code].Create? && q.code in s.data.activations
            && device == Device(q.id, s.issued[q.code].userID, device.name, q.platform, device.address, q.key, q.now,
                                q.now, None, None)
            && device.name == (if q.name == "" then s.issued[q.code].deviceName else q.name)
            && device.address in Assignable(site) - Addresses(s.data.devices)
            && (forall a :: a in Assignable(site) - Addresses(s.data.devices) ==> device.address <= a)
            && d'.devices == s.data.devices[q.id := device]
            && d'.activations
               == s.data.activations[q.code := s.data.activations[q.code].(usedAt := Some(q.now), usedBy := q.id)]
  {
    RunIsFaithful(site, true, Start(start), run);
  }

  /** A code is issued exactly for a proper user, device name and lifetime: fresh codes never collide. */
  lemma IssuesIff(site: Site, start: Instant, run: seq<Request>, q: Request)
    requires site.pool.WellFormed() && CanRun(site, true, Start(start), run)
    requires CanServe(Run(site, true, Start(start), run), q) && q.Create?
    ensures Serve(site, true, Run(site, true, Start(start), run).data, q).1.activation.Ok? <==>
              0 < |q.userID| <= 128 && 0 < |q.deviceName| <= 128 && 60_000_000_000 <= q.ttl <= 86_400_000_000_000
  {
    RunIsFaithful(site, true, Start(start), run);
  }

  lemma {:induction false} SpentStays(site: Site, s: State, run: seq<Request>, code: Code)
    requires site.pool.WellFormed() && code in s.spent
    ensures code in Run(site, true, s, run).spent
    decreases |run|
  {
    if run != [] { SpentStays(site, Step(site, true, s, run[0]), run[1..], code); }
  }

  /** Once redeemed, a code never buys a second device. */
  lemma {:induction false} RedeemedOnce(site: Site, s: State, first: Request, run: seq<Request>, again: Request)
    requires site.pool.WellFormed() && Faithful(s)
    requires CanServe(s, first) && first.Redeem? && Serve(site, true, s.data, first).1.device.Ok?
    requires CanRun(site, true, Step(site, true, s, first), run)
    requires again.Redeem? && again.code == first.code
    requires CanServe(Run(site, true, Step(site, true, s, first), run), again)
    ensures Serve(site, true, Run(site, true, Step(site, true, s, first), run).data, again).1.device.Err?
  {
    var s1 := Step(site, true, s, first);
    StepIsFaithful(site, true, s, first);
    RunIsFaithful(site, true, s1, run);
    SpentStays(site, s1, run, first.code);
    RedeemableIff(Run(site, true, s1, run), again.code, again.now);
  }

  // ----- pruning -----

  /** `pruned` lacks only activations that can never be redeemed. */
  ghost predicate LacksOnlyDead(pruned: map<Code, Activation>, full: map<Code, Activation>, clock: Instant) {
    && (forall c :: c in pruned ==> c in full && full[c] == pruned[c])
    && (forall c :: c in full && c !in pruned ==> full[c].usedAt.Some? || full[c].expiresAt <= clock)
  }

  ghost predicate AlikeButPruned(a: Data, b: Data, clock: Instant) {
    a.devices == b.devices && a.audit == b.audit && LacksOnlyDead(a.activations, b.activations, clock)
  }

  ghost predicate SameButPruned(a: State, b: State) {
    && AlikeButPruned(a.data, b.data, a.clock)
    && a.issued == b.issued && a.spent == b.spent && a.clock == b.clock
  }

  lemma PruneLacksOnlyDead(pruned: map<Code, Activation>, full: map<Code, Activation>, clock: Instant, now: Instant)
    requires LacksOnlyDead(pruned, full, clock) && clock <= now
    ensures LacksOnlyDead(Pruned(pruned, now - DAY), full, now)
  {
  }

  lemma CreatePrunesUnseen(site: Site, a: Data, b: Data, clock: Instant, q: Request)
    requires site.pool.WellFormed() && AlikeButPruned(a, b, clock) && clock <= q.now
    requires q.Create? && q.code !in b.activations
    ensures AlikeButPruned(Serve(site, true, a, q).0, Serve(site, false, b, q).0, q.now)
    ensures Serve(site, true, a, q).1 == Serve(site, false, b, q).1
  {
    assert q.code !in a.activations;
    PruneLacksOnlyDead(a.activations, b.activations, clock, q.now);
  }

  lemma RedeemPrunesUnseen(site: Site, a: Data, b: Data, clock: Instant, q: Request)
    requires site.pool.WellFormed() && AlikeButPruned(a, b, clock) && clock <= q.now && q.Redeem?
    ensures AlikeButPruned(Serve(site, true, a, q).0, Serve(site, false, b, q).0, q.now)
    ensures Serve(site, true, a, q).1 == Serve(site, false, b, q).1
  {
    assert Redeemable(a.activations, q.code, q.now) <==> Redeemable(b.activations, q.code, q.now);
  }

  lemma StepPrunesUnseen(site: Site, a: State, b: State, q: Request)
    requires site.pool.WellFormed() && SameButPruned(a, b) && Faithful(b) && CanServe(b, q)
    ensures SameButPruned(Step(site, true, a, q), Step(site, false, b, q))
    ensures Serve(site, true, a.data, q).1 == Serve(site, false, b.data, q).1
  {
    match q
    case Create(_, _, _, _, _) => CreatePrunesUnseen(site, a.data, b.data, a.clock, q);
    case Redeem(_, _, _, _, _, _) => RedeemPrunesUnseen(site, a.data, b.data, a.clock, q);
    case _ =>
  }

  /** No client can tell the store from one that never prunes: all replies are the same. */
  lemma {:induction false} PruningIsUnseen(site: Site, a: State, b: State, run: seq<Request>)
    requires site.pool.WellFormed() && SameButPruned(a, b) && Faithful(b) && CanRun(site, false, b, run)
    ensures Replies(site, true, a, run) == Replies(site, false, b, run)
    ensures CanRun(site, true, a, run) && SameButPruned(Run(site, true, a, run), Run(site, false, b, run))
    decreases |run|
  {
    if run != [] {
      StepPrunesUnseen(site, a, b, run[0]);
      StepIsFaithful(site, false, b, run[0]);
      PruningIsUnseen(site, Step(site, true, a, run[0]), Step(site, false, b, run[0]), run[1..]);
    }
  }

  // ----- addresses -----

  /** Every device, revoked or not, has a host address of its own, none of them reserved. */
  ghost predicate Placed(site: Site, devices: map<ClientID, Device>) {
    && (forall id :: id in devices ==>
          devices[id].clientID == id && site.pool.IsHost(devices[id].address) && devices[id].address !in site.reserved)
    && (forall id, other :: id in devices && other in devices && id != other ==>
          devices[id].address != devices[other].address)
  }

  ghost predicate SameDevice(before: Device, after: Device) {
    && after.clientID == before.clientID && after.address == before.address && after.userID == before.userID
    && after.createdAt == before.createdAt && (before.revokedAt.Some? ==> after.revokedAt == before.revokedAt)
  }

  /** Devices stay, with their address, owner and enrolment, and a revocation is never undone. */
  ghost predicate Keeps(before: map<ClientID, Device>, after: map<ClientID, Device>) {
    forall id :: id in before ==> id in after && SameDevice(before[id], after[id])
  }

  lemma AddIsPlaced(site: Site, devices: map<ClientID, Device>, device: Device)
    requires Placed(site, devices) && device.clientID !in devices
    requires site.pool.IsHost(device.address) && device.address !in Used(site.reserved, devices)
    ensures Placed(site, devices[device.clientID := device]) && Keeps(devices, devices[device.clientID := device])
  {
    assert forall id :: id in devices ==> devices[id].address in Used(site.reserved, devices);
  }

  lemma UpdateIsPlaced(site: Site, devices: map<ClientID, Device>, id: ClientID, device: Device)
    requires Placed(site, devices) && id in devices && SameDevice(devices[id], device)
    ensures Placed(site, devices[id := device]) && Keeps(devices, devices[id := device])
  {
  }

  lemma RequestIsPlaced(site: Site, d: Data, q: Request)
    requires site.pool.WellFormed() && Placed(site, d.devices) && (q.Redeem? ==> q.id !in d.devices)
    ensures Placed(site, Serve(site, true, d, q).0.devices) && Keeps(d.devices, Serve(site, true, d, q).0.devices)
  {
    var after := Serve(site, true, d, q).0.devices;
    if after != d.devices {
      if q.Redeem? {
        AddIsPlaced(site, d.devices, after[q.id]);
      } else {
        UpdateIsPlaced(site, d.devices, q.id, after[q.id]);
      }
    }
  }

  lemma StepIsPlaced(site: Site, s: State, q: Request)
    requires site.pool.WellFormed() && Placed(site, s.data.devices) && CanServe(s, q)
    ensures Placed(site, Step(site, true, s, q).data.devices)
    ensures Keeps(s.data.devices, Step(site, true, s, q).data.devices)
  {
    RequestIsPlaced(site, s.data, q);
  }

  /** Over every run no two devices ever share an address, and none changes or is taken back. */
  lemma {:induction false} RunIsPlaced(site: Site, s: State, run: seq<Request>)
    requires site.pool.WellFormed() && Placed(site, s.data.devices) && CanRun(site, true, s, run)
    ensures Placed(site, Run(site, true, s, run).data.devices)
    ensures Keeps(s.data.devices, Run(site, true, s, run).data.devices)
    decreases |run|
  {
    if run != [] {
      StepIsPlaced(site, s, run[0]);
      RunIsPlaced(site, Step(site, true, s, run[0]), run[1..]);
    }
  }

  /** The addresses there are to give. */
  ghost function Assignable(site: Site): set<IPv4> {
    (set a: IPv4 | site.pool.IsHost(a)) - site.reserved
  }

  ghost function Addresses(devices: map<ClientID, Device>): set<IPv4> {
    set id | id in devices :: devices[id].address
  }

  /** Distinct addresses are as many as their devices. */
  lemma {:induction false} CountAddresses(devices: map<ClientID, Device>)
    requires forall id, other :: id in devices && other in devices && id != other ==>
               devices[id].address != devices[other].address
    ensures |Addresses(devices)| == |devices|
    decreases |devices|
  {
    if devices == map[] {
      assert Addresses(devices) == {};
    } else {
      var id :| id in devices;
      var rest := devices - {id};
      assert |rest.Keys| == |devices.Keys| - 1 by { assert rest.Keys == devices.Keys - {id}; }
      CountAddresses(rest);
      assert Addresses(devices) == Addresses(rest) + {devices[id].address} by {
        forall a | a in Addresses(devices) ensures a in Addresses(rest) + {devices[id].address} {
          var other :| other in devices && devices[other].address == a;
          assert other == id || (other in rest && rest[other].address == a);
        }
      }
      assert devices[id].address !in Addresses(rest);
    }
  }

  /** The pool is exhausted exactly when it has given out every assignable address. */
  lemma ExhaustedIff(site: Site, devices: map<ClientID, Device>)
    requires site.pool.WellFormed() && Placed(site, devices)
    ensures |devices| <= |Assignable(site)|
    ensures Free(site.pool, site.reserved, devices).None? <==> |devices| == |Assignable(site)|
  {
    var given := Addresses(devices);
    CountAddresses(devices);
    assert given <= Assignable(site);
    SubsetIsSmaller(given, Assignable(site));
    if Free(site.pool, site.reserved, devices).None? {
      assert given == Assignable(site);
    } else {
      var a := Free(site.pool, site.reserved, devices).value;
      assert a in Assignable(site) && a !in given;
    }
  }

  // ----- the audit log -----

  /** The one entry a request leaves, if it did anything; a rotation to the same key did. */
  ghost function Noted(before: Data, q: Request, r: Reply): seq<Audit> {
    match q
    case Create(_, userID, _, _, now) =>
      if r.Issued? && r.activation.Ok? then [Audit(ActivationCreated, "", userID, now)] else []
    case Redeem(_, _, _, now, id, _) =>
      if r.Stored? && r.device.Ok? then [Audit(DeviceEnrolled, id, r.device.value.userID, now)] else []
    case Revoke(id, now) =>
      if id in Active(before.devices) then [Audit(DeviceRevoked, id, before.devices[id].userID, now)] else []
    case Rotate(id, _, now) =>
      if id in Active(before.devices) then [Audit(KeyRotated, id, before.devices[id].userID, now)] else []
    case Touch(_, _) => []
  }

  lemma RequestIsNoted(site: Site, d: Data, q: Request)
    requires site.pool.WellFormed()
    ensures var (d', r) := Serve(site, true, d, q); d'.audit == d.audit + Noted(d, q, r)
  {
  }

  ghost predicate Logged(audit: seq<Audit>, event: Event, id: ClientID, userID: string, at: Instant) {
    Audit(event, id, userID, at) in audit
  }

  /** The log and the devices tell the same story: who was enrolled for whom and when, and who was revoked when. */
  ghost predicate Tells(d: Data) {
    && (forall id :: id in d.devices ==>
          Logged(d.audit, DeviceEnrolled, id, d.devices[id].userID, d.devices[id].createdAt))
    && (forall id :: id in d.devices && d.devices[id].revokedAt.Some? ==>
          Logged(d.audit, DeviceRevoked, id, d.devices[id].userID, d.devices[id].revokedAt.value))
    && (forall e :: e in d.audit && e.event != ActivationCreated ==>
          && e.subjectID in d.devices && e.userID == d.devices[e.subjectID].userID
          && (e.event == DeviceEnrolled ==> e.timestamp == d.devices[e.subjectID].createdAt)
          && (e.event == DeviceRevoked ==> Some(e.timestamp) == d.devices[e.subjectID].revokedAt))
  }

  lemma NothingTold(d: Data, d': Data)
    requires Tells(d) && d'.devices == d.devices
    requires d'.audit == d.audit ||
        exists e: Audit :: e.event == ActivationCreated && d'.audit == d.audit + [e]
    ensures Tells(d')
  {
    forall e: Audit | e in d.audit ensures e in d'.audit {}
  }

  lemma EnrolmentTold(d: Data, d': Data, device: Device)
    requires Tells(d) && device.clientID !in d.devices && device.revokedAt.None?
    requires d'.devices == d.devices[device.clientID := device]
    requires d'.audit == d.audit + [Audit(DeviceEnrolled, device.clientID, device.userID, device.createdAt)]
    ensures Tells(d')
  {
    var told := Audit(DeviceEnrolled, device.clientID, device.userID, device.createdAt);
    assert d'.audit[|d.audit|] == told;
    forall e: Audit | e in d.audit ensures e in d'.audit {}
  }

  lemma ChangeTold(d: Data, d': Data, id: ClientID, device: Device)
    requires Tells(d) && id in d.devices && d'.devices == d.devices[id := device]
    requires device.userID == d.devices[id].userID && device.createdAt == d.devices[id].createdAt
    requires if device.revokedAt == d.devices[id].revokedAt
             then d'.audit == d.audit || exists at :: d'.audit == d.audit + [Audit(KeyRotated, id, device.userID, at)]
             else
               && d.devices[id].revokedAt.None? && device.revokedAt.Some?
               && d'.audit == d.audit + [Audit(DeviceRevoked, id, device.userID, device.revokedAt.value)]
    ensures Tells(d')
  {
    forall e: Audit | e in d.audit ensures e in d'.audit {}
    if device.revokedAt != d.devices[id].revokedAt {
      assert d'.audit[|d.audit|] == Audit(DeviceRevoked, id, device.userID, device.revokedAt.value);
    }
  }

  lemma StepTells(site: Site, s: State, q: Request)
    requires site.pool.WellFormed() && Tells(s.data) && CanServe(s, q)
    ensures Tells(Step(site, true, s, q).data)
  {
    hide Tells;
    var d, d' := s.data, Step(site, true, s, q).data;
    match q
    case Create(_, _, _, _, _) => NothingTold(d, d');
    case Redeem(_, _, _, _, id, _) => if d' == d { NothingTold(d, d'); } else { EnrolmentTold(d, d', d'.devices[id]); }
    case Revoke(id, _) => if d' == d { NothingTold(d, d'); } else { ChangeTold(d, d', id, d'.devices[id]); }
    case Rotate(id, _, _) => if d' == d { NothingTold(d, d'); } else { ChangeTold(d, d', id, d'.devices[id]); }
    case Touch(id, _) => if d' == d { NothingTold(d, d'); } else { ChangeTold(d, d', id, d'.devices[id]); }
  }

  /** The audit log is complete and true: after every run, a device is active exactly if the log says it was enrolled
      and does not say it was revoked, and each entry has the device's owner and time. */
  lemma {:induction false} AuditTells(site: Site, start: Instant, run: seq<Request>, id: ClientID)
    requires site.pool.WellFormed() && CanRun(site, true, Start(start), run)
    ensures var d := Run(site, true, Start(start), run).data;
            && Tells(d)
            && (id in Active(d.devices) <==>
                  && (exists e :: e in d.audit && e.event == DeviceEnrolled && e.subjectID == id)
                  && !(exists e :: e in d.audit && e.event == DeviceRevoked && e.subjectID == id))
  {
    RunTells(site, Start(start), run);
    var d := Run(site, true, Start(start), run).data;
    if id in d.devices {
      assert Logged(d.audit, DeviceEnrolled, id, d.devices[id].userID, d.devices[id].createdAt);
    }
  }

  lemma {:induction false} RunTells(site: Site, s: State, run: seq<Request>)
    requires site.pool.WellFormed() && Tells(s.data) && CanRun(site, true, s, run)
    ensures Tells(Run(site, true, s, run).data)
    decreases |run|
  {
    if run != [] {
      StepTells(site, s, run[0]);
      RunTells(site, Step(site, true, s, run[0]), run[1..]);
    }
  }
}
