/**
 The wire format (internal/protocol/protocol.go): headers, handshakes, the data envelope, path keys
 and packet nonces. HMAC-SHA256 and AES-GCM are parameters, functions of their inputs.
 */
module Protocol {
  import opened Words
  import opened Wire

  datatype Error = BadPacket | AuthFailed | ClockSkew | BadVersion | PayloadTooBig | BadName | EmptyNonce

  const VERSION: byte := 1
  const HEADER_SIZE := 28
  const TAG_SIZE := 16
  const MAX_PAYLOAD := 64 * 1024 - HEADER_SIZE - TAG_SIZE
  const MAX_DATA_PAYLOAD := MAX_PAYLOAD - 8
  const NANOS := 1_000_000_000
  const HANDSHAKE_SKEW := 120 * NANOS
  const HELLO_V1_FIXED := 75
  const HELLO_V2_FIXED := 91
  const WELCOME_SIZE := 72

  const MAGIC := Ascii("LFMP")
  const HELLO_V1_DOMAIN := Ascii("linkforge/hello/v1")
  const HELLO_V2_DOMAIN := Ascii("linkforge/hello/v2")
  const WELCOME_DOMAIN := Ascii("linkforge/welcome/v1")
  const PATH_KEY_LABEL := Ascii("linkforge/path-key/v1")

  // ----- headers -----

  datatype Header = Header(packetType: byte, flags: uint16, sessionID: uint64, pathID: uint32, sequence: uint64)

  function EncodeHeader(h: Header): (b: Bytes)
    ensures |b| == HEADER_SIZE
  {
    MAGIC + [VERSION, h.packetType] + BigEndian(2, h.flags) + BigEndian(8, h.sessionID)
    + BigEndian(4, h.pathID) + BigEndian(8, h.sequence)
  }

  /** Fills a 28-byte buffer field by field. */
  method MarshalHeader(h: Header) returns (b: array<byte>)
    ensures fresh(b) && b[..] == EncodeHeader(h)
  {
    b := new byte[HEADER_SIZE](_ => 0);
    CopyInto(b, 0, MAGIC);
    b[4] := VERSION;
    b[5] := h.packetType;
    assert b[..6] == MAGIC + [VERSION, h.packetType];
    PutBigEndian(b, 6, 2, h.flags);
    PutBigEndian(b, 8, 8, h.sessionID);
    PutBigEndian(b, 16, 4, h.pathID);
    PutBigEndian(b, 20, 8, h.sequence);
  }

  function ParseHeader(packet: Bytes): Result<Header, Error> {
    if |packet| < HEADER_SIZE || packet[0..4] != MAGIC then Err(BadPacket)
    else if packet[4] != VERSION then Err(BadVersion)
    else Ok(Header(packet[5], Uint16(packet[6..8]), Uint64(packet[8..16]), Uint32(packet[16..20]),
      Uint64(packet[20..28])))
  }

  /** Every header survives the wire, whatever follows it. */
  lemma HeaderRoundTrip(h: Header, rest: Bytes)
    ensures ParseHeader(EncodeHeader(h) + rest) == Ok(h)
  {
    var p := EncodeHeader(h) + rest;
    Put16(h.flags); Put64(h.sessionID); Put32(h.pathID); Put64(h.sequence);
    assert p[0..4] == MAGIC;
    assert p[6..8] == BigEndian(2, h.flags);
    assert p[8..16] == BigEndian(8, h.sessionID);
    assert p[16..20] == BigEndian(4, h.pathID);
    assert p[20..28] == BigEndian(8, h.sequence);
  }

  /** A packet parses to a header exactly when it starts with that header's encoding. */
  lemma HeaderInverse(p: Bytes, h: Header)
    ensures ParseHeader(p) == Ok(h) <==> |p| >= HEADER_SIZE && p[..HEADER_SIZE] == EncodeHeader(h)
  {
    if ParseHeader(p) == Ok(h) {
      assert p[..HEADER_SIZE] == p[0..4] + [p[4], p[5]] + p[6..8] + p[8..16] + p[16..20] + p[20..28];
    }
    if |p| >= HEADER_SIZE && p[..HEADER_SIZE] == EncodeHeader(h) {
      HeaderRoundTrip(h, p[HEADER_SIZE..]);
      assert p == p[..HEADER_SIZE] + p[HEADER_SIZE..];
    }
  }

  const TYPE_DATA: byte := 3

  // ----- time and authentication -----

  /** Nanoseconds since the Unix epoch, with seconds that fit Go's `int64`. */
  type Time = t: int | -0x8000_0000_0000_0000 <= t / NANOS < 0x8000_0000_0000_0000

  function Unix(t: Time): uint64 {
    var secs := t / NANOS;
    if secs < 0 then secs + TWO_64 else secs
  }

  function FromUnix(u: uint64): Time {
    (if u >= 0x8000_0000_0000_0000 then u - TWO_64 else u) * NANOS
  }

  /** What second precision leaves of a time. */
  function Truncate(t: Time): (r: Time)
    ensures r <= t < r + NANOS
  {
    t / NANOS * NANOS
  }

  lemma UnixRoundTrip(t: Time)
    ensures FromUnix(Unix(t)) == Truncate(t)
  {
  }

  lemma FromUnixRoundTrip(u: uint64)
    ensures Unix(FromUnix(u)) == u
  {
  }

  predicate Skewed(now: int, t: int) {
    now - t > HANDSHAKE_SKEW || now - t < -HANDSHAKE_SKEW
  }

  /** HMAC-SHA256: key and message to digest. */
  type Hmac = (Bytes, Bytes) -> Digest

  function Sign(hmac: Hmac, key: Bytes, domain: Bytes, message: Bytes): Digest {
    hmac(key, domain + message)
  }

  // ----- hello -----

  datatype Hello = Hello(clientID: Id16, instanceNonce: Id16, nonce: Id16, time: Time, pathName: Bytes, weight: uint16,
                         wireVersion: nat)

  function HelloBodyV2(h: Hello): (b: Bytes)
    requires |h.pathName| < 0x100
    ensures |b| == HELLO_V2_FIXED - 32 + |h.pathName|
  {
    h.clientID + h.instanceNonce + h.nonce + BigEndian(8, Unix(h.time)) + BigEndian(2, h.weight) + [|h.pathName|] +
      h.pathName
  }

  function HelloBodyV1(h: Hello): (b: Bytes)
    requires |h.pathName| < 0x100
    ensures |b| == HELLO_V1_FIXED - 32 + |h.pathName|
  {
    h.clientID + h.nonce + BigEndian(8, Unix(h.time)) + BigEndian(2, h.weight) + [|h.pathName|] + h.pathName
  }

  function EncodeHelloV2(hmac: Hmac, key: Bytes, h: Hello): Bytes
    requires |h.pathName| < 0x100
  {
    HelloBodyV2(h) + Sign(hmac, key, HELLO_V2_DOMAIN, HelloBodyV2(h))
  }

  /** What clients sent before version 2; the relay still accepts it. */
  function EncodeHelloV1(hmac: Hmac, key: Bytes, h: Hello): Bytes
    requires |h.pathName| < 0x100
  {
    HelloBodyV1(h) + Sign(hmac, key, HELLO_V1_DOMAIN, HelloBodyV1(h))
  }

  function HelloBytes(hmac: Hmac, key: Bytes, h: Hello): Result<Bytes, Error> {
    if |h.pathName| > 63 then Err(BadName)
    else if h.instanceNonce == Zeros(16) then Err(EmptyNonce)
    else Ok(EncodeHelloV2(hmac, key, h))
  }

  method FillHello(b: array<byte>, h: Hello)
    requires |h.pathName| <= 63 && b.Length == HELLO_V2_FIXED + |h.pathName|
    modifies b
    ensures b[..b.Length - 32] == HelloBodyV2(h)
  {
    CopyInto(b, 0, h.clientID);
    CopyInto(b, 16, h.instanceNonce);
    CopyInto(b, 32, h.nonce);
    PutBigEndian(b, 48, 8, Unix(h.time));
    PutBigEndian(b, 56, 2, h.weight);
    assert b[..58] == h.clientID + h.instanceNonce + h.nonce + BigEndian(8, Unix(h.time)) + BigEndian(2, h.weight);
    CopyInto(b, 58, [|h.pathName|]);
    CopyInto(b, 59, h.pathName);
    assert b[..59 + |h.pathName|] == HelloBodyV2(h);
  }

  method MarshalHello(hmac: Hmac, key: Bytes, h: Hello) returns (r: Result<array<byte>, Error>)
    ensures r.Ok? <==> HelloBytes(hmac, key, h).Ok?
    ensures r.Ok? ==> fresh(r.value) && r.value[..] == HelloBytes(hmac, key, h).value
    ensures r.Err? ==> r.error == HelloBytes(hmac, key, h).error
    ensures r == Err(BadName) <==> |h.pathName| > 63
    ensures r == Err(EmptyNonce) <==> |h.pathName| <= 63 && forall i :: 0 <= i < 16 ==> h.instanceNonce[i] == 0
    ensures r.Ok? <==> r != Err(BadName) && r != Err(EmptyNonce)
  {
    assert h.instanceNonce == Zeros(16) <==> forall i :: 0 <= i < 16 ==> h.instanceNonce[i] == 0;
    if |h.pathName| > 63 {
      return Err(BadName);
    }
    if h.instanceNonce == Zeros(16) {
      return Err(EmptyNonce);
    }
    var b := new byte[HELLO_V2_FIXED + |h.pathName|](_ => 0);
    FillHello(b, h);
    var macAt := b.Length - 32;
    var mac := Sign(hmac, key, HELLO_V2_DOMAIN, b[..macAt]);
    CopyInto(b, macAt, mac);
    assert b[..] == HelloBodyV2(h) + mac;
    return Ok(b);
  }

  predicate HasV2Length(b: Bytes) {
    |b| >= HELLO_V2_FIXED && |b| == HELLO_V2_FIXED + b[58]
  }

  predicate HasV1Length(b: Bytes) {
    |b| >= HELLO_V1_FIXED && |b| == HELLO_V1_FIXED + b[42]
  }

  function ParseHello(hmac: Hmac, b: Bytes, key: Bytes, now: int): Result<Hello, Error> {
    if HasV2Length(b) then
      var macAt := |b| - 32;
      if Sign(hmac, key, HELLO_V2_DOMAIN, b[..macAt]) != b[macAt..] then Err(AuthFailed) else
        var h := Hello(b[0..16], b[16..32], b[32..48], FromUnix(Uint64(b[48..56])), b[59..macAt], Uint16(b[56..58]), 2);
        if h.instanceNonce == Zeros(16) || h.weight == 0 then Err(BadPacket)
        else if Skewed(now, h.time) then Err(ClockSkew)
        else Ok(h)
    else if !HasV1Length(b) then Err(BadPacket)
    else
      var macAt := |b| - 32;
      if Sign(hmac, key, HELLO_V1_DOMAIN, b[..macAt]) != b[macAt..] then Err(AuthFailed) else
        var h := Hello(b[0..16], Zeros(16), b[16..32], FromUnix(Uint64(b[32..40])), b[43..macAt], Uint16(b[40..42]), 1);
        if h.weight == 0 then Err(BadPacket)
        else if Skewed(now, h.time) then Err(ClockSkew)
        else Ok(h)
  }

  /** What the relay makes of an authentic hello: itself at second precision, unless its weight is zero
      or its clock is off. */
  function Judged(h: Hello, now: int, wireVersion: nat): Result<Hello, Error> {
    if h.weight == 0 then Err(BadPacket)
    else if Skewed(now, Truncate(h.time)) then Err(ClockSkew)
    else Ok(h.(time := Truncate(h.time), wireVersion := wireVersion))
  }

  lemma HelloV2Fields(b: Bytes, h: Hello, mac: Digest)
    requires |h.pathName| < 0x100 && b == HelloBodyV2(h) + mac
    ensures HasV2Length(b) && b[..|b| - 32] == HelloBodyV2(h) && b[|b| - 32..] == mac
    ensures b[0..16] == h.clientID && b[16..32] == h.instanceNonce && b[32..48] == h.nonce
    ensures Uint64(b[48..56]) == Unix(h.time) && Uint16(b[56..58]) == h.weight && b[59..|b| - 32] == h.pathName
  {
    Put64(Unix(h.time)); Put16(h.weight);
    assert b[48..56] == BigEndian(8, Unix(h.time));
    assert b[56..58] == BigEndian(2, h.weight);
    assert b[58] == |h.pathName|;
  }

  lemma HelloV1Fields(b: Bytes, h: Hello, mac: Digest)
    requires |h.pathName| < 0x100 && b == HelloBodyV1(h) + mac
    ensures HasV1Length(b) && b[..|b| - 32] == HelloBodyV1(h) && b[|b| - 32..] == mac
    ensures b[0..16] == h.clientID && b[16..32] == h.nonce
    ensures Uint64(b[32..40]) == Unix(h.time) && Uint16(b[40..42]) == h.weight && b[43..|b| - 32] == h.pathName
    ensures HasV2Length(b) <==> |h.pathName| >= 16 && |h.pathName| - 16 == h.pathName[15]
  {
    Put64(Unix(h.time)); Put16(h.weight);
    assert b[32..40] == BigEndian(8, Unix(h.time));
    assert b[40..42] == BigEndian(2, h.weight);
    assert b[42] == |h.pathName|;
    if |h.pathName| >= 16 {
      assert b[58] == h.pathName[15];
    }
  }

  /** A hello this code marshals is judged on its weight and clock alone, and comes back whole. */
  lemma HelloV2RoundTrip(hmac: Hmac, key: Bytes, h: Hello, now: int)
    requires HelloBytes(hmac, key, h).Ok?
    ensures ParseHello(hmac, HelloBytes(hmac, key, h).value, key, now) == Judged(h, now, 2)
  {
    var b := HelloBytes(hmac, key, h).value;
    HelloV2Fields(b, h, Sign(hmac, key, HELLO_V2_DOMAIN, HelloBodyV2(h)));
    UnixRoundTrip(h.time);
  }

  /** Conversely the only bytes that parse to a version 2 hello are its encoding. */
  lemma HelloV2Inverse(hmac: Hmac, b: Bytes, key: Bytes, now: int)
    requires ParseHello(hmac, b, key, now).Ok? && ParseHello(hmac, b, key, now).value.wireVersion == 2
    ensures var h := ParseHello(hmac, b, key, now).value;
            && b == EncodeHelloV2(hmac, key, h)
            && h.weight != 0 && h.instanceNonce != Zeros(16) && Timely(now, h.time) && Truncate(h.time) == h.time
  {
    var h := ParseHello(hmac, b, key, now).value;
    var macAt := |b| - 32;
    FromUnixRoundTrip(Uint64(b[48..56]));
    assert b[..59] == b[0..16] + b[16..32] + b[32..48] + b[48..56] + b[56..58] + [b[58]];
    assert b[..macAt] == b[..59] + b[59..macAt];
    assert b == b[..macAt] + b[macAt..];
  }

  /** The legacy name collides with the version 2 length check. */
  predicate NameLooksV2(name: Bytes) {
    |name| >= 16 && |name| - 16 == name[15]
  }

  /** A legacy hello is judged like a new one exactly when its name does not make it look like version 2;
      otherwise, the two domains giving different MACs, it is refused as unauthentic. */
  lemma HelloV1RoundTripIff(hmac: Hmac, key: Bytes, h: Hello, now: int)
    requires |h.pathName| < 0x100 && h.instanceNonce == Zeros(16)
    requires Sign(hmac, key, HELLO_V1_DOMAIN, HelloBodyV1(h)) != Sign(hmac, key, HELLO_V2_DOMAIN, HelloBodyV1(h))
    ensures var r := ParseHello(hmac, EncodeHelloV1(hmac, key, h), key, now);
            && (r == Judged(h, now, 1) <==> !NameLooksV2(h.pathName))
            && (NameLooksV2(h.pathName) ==> r == Err(AuthFailed))
  {
    var b := EncodeHelloV1(hmac, key, h);
    HelloV1Fields(b, h, Sign(hmac, key, HELLO_V1_DOMAIN, HelloBodyV1(h)));
    UnixRoundTrip(h.time);
  }

  /** Such names exist within the documented 63 bytes: an authentic, timely legacy hello whose 61-byte
      name has a hyphen in sixteenth place is refused. */
  lemma LegacyNameExample(hmac: Hmac, key: Bytes, h: Hello, now: int)
    requires h.pathName == Ascii("cellular-uplink-") + seq(45, _ => 97)
    requires h.instanceNonce == Zeros(16) && h.weight != 0 && !Skewed(now, Truncate(h.time))
    requires Sign(hmac, key, HELLO_V1_DOMAIN, HelloBodyV1(h)) != Sign(hmac, key, HELLO_V2_DOMAIN, HelloBodyV1(h))
    ensures |h.pathName| == 61
    ensures ParseHello(hmac, EncodeHelloV1(hmac, key, h), key, now) == Err(AuthFailed)
  {
    HelloV1RoundTripIff(hmac, key, h, now);
    assert h.pathName[15] == '-' as int == 45;
  }

  /** The bytes of a hello as `h` with its MAC, said without parsing. A hello of version 1 has no instance nonce, and
      cannot have a name that makes it look like version 2. */
  ghost predicate IsHello(hmac: Hmac, key: Bytes, b: Bytes, h: Hello) {
    && |h.pathName| < 0x100 && h.weight != 0
    && if h.wireVersion == 2 then
         && h.instanceNonce != Zeros(16)
         && b == HelloBodyV2(h) + hmac(key, HELLO_V2_DOMAIN + HelloBodyV2(h))
       else
         && h.wireVersion == 1 && h.instanceNonce == Zeros(16) && !NameLooksV2(h.pathName)
         && b == HelloBodyV1(h) + hmac(key, HELLO_V1_DOMAIN + HelloBodyV1(h))
  }

  /** No clock more than two minutes off is accepted. */
  ghost predicate Timely(now: int, t: int) {
    -120_000_000_000 <= now - t <= 120_000_000_000
  }

  /** Exactly what the relay accepts: of all byte strings, the authentic hellos of either version, in time. */
  lemma HelloAcceptedIff(hmac: Hmac, b: Bytes, key: Bytes, now: int, h: Hello)
    ensures ParseHello(hmac, b, key, now) == Ok(h) <==>
            IsHello(hmac, key, b, h) && Timely(now, h.time) && Truncate(h.time) == h.time
  {
    if ParseHello(hmac, b, key, now) == Ok(h) {
      if h.wireVersion == 2 { HelloV2Inverse(hmac, b, key, now); } else { HelloV1Inverse(hmac, b, key, now); }
    }
    if IsHello(hmac, key, b, h) && Truncate(h.time) == h.time {
      UnixRoundTrip(h.time);
      if h.wireVersion == 2 {
        HelloV2Fields(b, h, hmac(key, HELLO_V2_DOMAIN + HelloBodyV2(h)));
      } else {
        HelloV1Fields(b, h, hmac(key, HELLO_V1_DOMAIN + HelloBodyV1(h)));
      }
    }
  }

  lemma HelloV1Inverse(hmac: Hmac, b: Bytes, key: Bytes, now: int)
    requires ParseHello(hmac, b, key, now).Ok? && ParseHello(hmac, b, key, now).value.wireVersion != 2
    ensures var h := ParseHello(hmac, b, key, now).value;
            && h.wireVersion == 1 && |h.pathName| < 0x100
            && b == HelloBodyV1(h) + hmac(key, HELLO_V1_DOMAIN + HelloBodyV1(h))
            && h.weight != 0 && h.instanceNonce == Zeros(16) && !NameLooksV2(h.pathName)
            && Timely(now, h.time) && Truncate(h.time) == h.time
  {
    var h := ParseHello(hmac, b, key, now).value;
    var macAt := |b| - 32;
    FromUnixRoundTrip(Uint64(b[32..40]));
    assert b[..macAt] == b[0..16] + b[16..32] + b[32..40] + b[40..42] + [b[42]] + b[43..macAt];
    assert b == b[..macAt] + b[macAt..];
    HelloV1Fields(b, h, b[macAt..]);
  }

  /** What nobody signed is refused, as unauthentic if it has the length of a hello. */
  lemma UnsignedHello(hmac: Hmac, b: Bytes, key: Bytes, now: int)
    requires |b| >= 32 ==> && hmac(key, HELLO_V1_DOMAIN + b[..|b| - 32]) != b[|b| - 32..]
                           && hmac(key, HELLO_V2_DOMAIN + b[..|b| - 32]) != b[|b| - 32..]
    ensures ParseHello(hmac, b, key, now)
         == if (|b| >= 91 && |b| - 91 == b[58]) || (|b| >= 75 && |b| - 75 == b[42]) then Err(AuthFailed)
            else Err(BadPacket)
  {
  }

  // ----- welcome -----

  datatype Welcome = Welcome(clientNonce: Id16, serverNonce: Id16, time: Time)

  function WelcomeBody(w: Welcome): (b: Bytes)
    ensures |b| == 40
  {
    w.clientNonce + w.serverNonce + BigEndian(8, Unix(w.time))
  }

  function WelcomeBytes(hmac: Hmac, key: Bytes, header: Header, w: Welcome): (b: Bytes)
    ensures |b| == WELCOME_SIZE
  {
    WelcomeBody(w) + Sign(hmac, key, WELCOME_DOMAIN, EncodeHeader(header) + WelcomeBody(w))
  }

  method MarshalWelcome(hmac: Hmac, key: Bytes, header: Header, w: Welcome) returns (b: array<byte>)
    ensures fresh(b) && b[..] == WelcomeBytes(hmac, key, header, w)
  {
    b := new byte[WELCOME_SIZE](_ => 0);
    CopyInto(b, 0, w.clientNonce);
    CopyInto(b, 16, w.serverNonce);
    PutBigEndian(b, 32, 8, Unix(w.time));
    var headerBytes := MarshalHeader(header);
    assert b[..40] == WelcomeBody(w);
    CopyInto(b, 40, Sign(hmac, key, WELCOME_DOMAIN, headerBytes[..] + b[..40]));
  }

  function ParseWelcome(hmac: Hmac, b: Bytes, key: Bytes, header: Header, expectedNonce: Id16,
                        now: int): Result<Welcome, Error> {
    if |b| != WELCOME_SIZE then Err(BadPacket)
    else if Sign(hmac, key, WELCOME_DOMAIN, EncodeHeader(header) + b[..40]) != b[40..] then Err(AuthFailed) else
      var w := Welcome(b[0..16], b[16..32], FromUnix(Uint64(b[32..40])));
      if w.clientNonce != expectedNonce then Err(AuthFailed)
      else if Skewed(now, w.time) then Err(ClockSkew)
      else Ok(w)
  }

  /** A welcome comes back whole to the client that sent its nonce, and to no other, within the skew. */
  lemma WelcomeRoundTrip(hmac: Hmac, key: Bytes, header: Header, w: Welcome, expectedNonce: Id16, now: int)
    ensures ParseWelcome(hmac, WelcomeBytes(hmac, key, header, w), key, header, expectedNonce, now)
         == if w.clientNonce != expectedNonce then Err(AuthFailed)
            else if Skewed(now, Truncate(w.time)) then Err(ClockSkew)
            else Ok(w.(time := Truncate(w.time)))
  {
    var b := WelcomeBytes(hmac, key, header, w);
    assert b[..40] == WelcomeBody(w) && b[0..16] == w.clientNonce && b[16..32] == w.serverNonce;
    assert b[32..40] == BigEndian(8, Unix(w.time));
    Put64(Unix(w.time));
    UnixRoundTrip(w.time);
  }

  /** Exactly what the client accepts: of all byte strings, the welcome that answers its nonce, authenticated together
      with the header it came under, and in time. */
  lemma WelcomeAcceptedIff(hmac: Hmac, b: Bytes, key: Bytes, header: Header, expectedNonce: Id16, now: int, w: Welcome)
    ensures ParseWelcome(hmac, b, key, header, expectedNonce, now) == Ok(w) <==>
            && b == WelcomeBody(w) + hmac(key, WELCOME_DOMAIN + (EncodeHeader(header) + WelcomeBody(w)))
            && w.clientNonce == expectedNonce && Timely(now, w.time) && Truncate(w.time) == w.time
  {
    var r := ParseWelcome(hmac, b, key, header, expectedNonce, now);
    if r == Ok(w) {
      FromUnixRoundTrip(Uint64(b[32..40]));
      assert b[..40] == b[0..16] + b[16..32] + b[32..40];
      assert b == b[..40] + b[40..];
    }
    if b == WelcomeBody(w) + hmac(key, WELCOME_DOMAIN + (EncodeHeader(header) + WelcomeBody(w))) {
      WelcomeRoundTrip(hmac, key, header, w, expectedNonce, now);
    }
  }

  // ----- payloads -----

  function MarshalPlain(header: Header, payload: Bytes): Result<Bytes, Error> {
    if |payload| > MAX_PAYLOAD then Err(PayloadTooBig) else Ok(EncodeHeader(header) + payload)
  }

  function PlainPayload(packet: Bytes): Result<Bytes, Error> {
    if |packet| < HEADER_SIZE then Err(BadPacket) else Ok(packet[HEADER_SIZE..])
  }

  function DataBytes(sequence: uint64, packet: Bytes): Result<Bytes, Error> {
    if |packet| > MAX_DATA_PAYLOAD then Err(PayloadTooBig) else Ok(BigEndian(8, sequence) + packet)
  }

  method MarshalData(sequence: uint64, packet: Bytes) returns (r: Result<array<byte>, Error>)
    ensures r.Ok? <==> DataBytes(sequence, packet).Ok?
    ensures r.Ok? ==> fresh(r.value) && r.value[..] == DataBytes(sequence, packet).value
    ensures r.Err? ==> r.error == DataBytes(sequence, packet).error
  {
    if |packet| > MAX_DATA_PAYLOAD {
      return Err(PayloadTooBig);
    }
    var payload := new byte[8 + |packet|](_ => 0);
    PutBigEndian(payload, 0, 8, sequence);
    CopyInto(payload, 8, packet);
    assert payload[..] == BigEndian(8, sequence) + packet;
    return Ok(payload);
  }

  function ParseData(payload: Bytes): Result<(uint64, Bytes), Error> {
    if |payload| < 9 then Err(BadPacket) else
      var sequence := Uint64(payload[..8]);
      if sequence == 0 then Err(BadPacket) else Ok((sequence, payload[8..]))
  }

  /** A payload of up to 65,492 bytes goes out, and only such, and comes back with its header. */
  lemma PlainRoundTrip(header: Header, payload: Bytes)
    ensures MarshalPlain(header, payload).Ok? <==> |payload| <= 65_492
    ensures MarshalPlain(header, payload).Err? ==> MarshalPlain(header, payload) == Err(PayloadTooBig)
    ensures MarshalPlain(header, payload).Ok? ==>
              var p := MarshalPlain(header, payload).value;
              ParseHeader(p) == Ok(header) && PlainPayload(p) == Ok(payload)
  {
    if |payload| <= MAX_PAYLOAD {
      HeaderRoundTrip(header, payload);
    }
  }

  /** What has no room for a header has no payload. */
  lemma PlainInverse(packet: Bytes)
    ensures PlainPayload(packet).Ok? <==> |packet| >= 28
    ensures PlainPayload(packet).Ok? ==> packet == packet[..28] + PlainPayload(packet).value
    ensures PlainPayload(packet).Err? ==> PlainPayload(packet) == Err(BadPacket)
  {
  }

  /** An enveloped packet comes back with its number exactly when it has a number and is not empty. */
  lemma DataRoundTripIff(sequence: uint64, packet: Bytes)
    requires DataBytes(sequence, packet).Ok?
    ensures ParseData(DataBytes(sequence, packet).value) == Ok((sequence, packet)) <==> sequence != 0 && packet != []
    ensures sequence == 0 || packet == [] ==> ParseData(DataBytes(sequence, packet).value) == Err(BadPacket)
  {
    var p := DataBytes(sequence, packet).value;
    assert p[..8] == BigEndian(8, sequence) && p[8..] == packet;
    Put64(sequence);
  }

  /** Conversely only the envelope of a packet under a number parses, and 65,484 bytes is the longest packet that gets
      one. */
  lemma DataInverse(payload: Bytes, sequence: uint64, packet: Bytes)
    ensures ParseData(payload) == Ok((sequence, packet)) <==>
            sequence != 0 && packet != [] && payload == BigEndian(8, sequence) + packet
    ensures ParseData(payload).Err? ==> ParseData(payload) == Err(BadPacket)
    ensures DataBytes(sequence, packet).Ok? <==> |packet| <= 65_484
    ensures DataBytes(sequence, packet).Err? ==> DataBytes(sequence, packet) == Err(PayloadTooBig)
  {
    if |payload| >= 9 {
      assert payload == payload[..8] + payload[8..];
    }
    if payload == BigEndian(8, sequence) + packet {
      assert payload[..8] == BigEndian(8, sequence) && payload[8..] == packet;
      Put64(sequence);
    }
  }

  // ----- path keys -----

  /** The HKDF info string: the label padded to 24 bytes, then session and path. */
  function PathKeyInfo(sessionID: uint64, pathID: uint32): (b: Bytes)
    ensures |b| == 36
  {
    PATH_KEY_LABEL + Zeros(3) + BigEndian(8, sessionID) + BigEndian(4, pathID)
  }

  /** Salt and info name the handshake they come from. */
  lemma KeyInputsInjective(cn: Id16, sn: Id16, sid: uint64, pid: uint32, cn': Id16, sn': Id16, sid': uint64,
                           pid': uint32)
    requires cn + sn == cn' + sn' && PathKeyInfo(sid, pid) == PathKeyInfo(sid', pid')
    ensures (cn, sn, sid, pid) == (cn', sn', sid', pid')
  {
    assert cn == (cn + sn)[..16] && cn' == (cn' + sn')[..16];
    assert sn == (cn + sn)[16..] && sn' == (cn' + sn')[16..];
    assert BigEndian(8, sid) == PathKeyInfo(sid, pid)[24..32] && BigEndian(8, sid') == PathKeyInfo(sid', pid')[24..32];
    assert BigEndian(4, pid) == PathKeyInfo(sid, pid)[32..] && BigEndian(4, pid') == PathKeyInfo(sid', pid')[32..];
    Put64(sid); Put64(sid'); Put32(pid); Put32(pid');
  }

  /** A `byte` counter after `i` steps from zero. */
  function CounterByte(i: nat): byte {
    if i == 0 then 0 else NextByte(CounterByte(i - 1))
  }

  function NextByte(b: byte): byte {
    if b == 0xFF then 0 else b + 1
  }

  /** Within the 255 blocks the standard allows, the counter is the block number. */
  lemma {:induction false} CounterIsBlockNumber(i: nat)
    requires i <= 0xFF
    ensures CounterByte(i) == i
  {
    if i > 0 { CounterIsBlockNumber(i - 1); }
  }

  /** T(i) of section 2.3 of RFC 5869; the counter is one byte. */
  function Block(hmac: Hmac, prk: Bytes, info: Bytes, i: nat): Bytes {
    if i == 0 then [] else hmac(prk, Block(hmac, prk, info, i - 1) + info + [CounterByte(i)])
  }

  /** T(1) | ... | T(n). */
  function Blocks(hmac: Hmac, prk: Bytes, info: Bytes, n: nat): (b: Bytes)
    ensures |b| == 32 * n
  {
    if n == 0 then [] else Blocks(hmac, prk, info, n - 1) + Block(hmac, prk, info, n)
  }

  /** Output keying material: the first `length` bytes of as many blocks as that takes. */
  function Okm(hmac: Hmac, secret: Bytes, salt: Bytes, info: Bytes, length: nat): (b: Bytes)
    ensures |b| == length
  {
    Blocks(hmac, hmac(salt, secret), info, (length + 31) / 32)[..length]
  }

  /** The first two blocks, as section 2.3 of RFC 5869 writes them; a path key is the first. */
  lemma FirstBlocks(hmac: Hmac, secret: Bytes, salt: Bytes, info: Bytes)
    ensures var prk := hmac(salt, secret);
            var t1 := hmac(prk, info + [1]);
            && Okm(hmac, secret, salt, info, 32) == t1
            && Okm(hmac, secret, salt, info, 64) == t1 + hmac(prk, t1 + info + [2])
  {
    var prk: Bytes := hmac(salt, secret);
    assert [] + info == info;
    assert CounterByte(1) == 1 && CounterByte(2) == 2;
    assert Block(hmac, prk, info, 1) == hmac(prk, info + [1]);
    assert Blocks(hmac, prk, info, 1) == [] + Block(hmac, prk, info, 1);
    assert Blocks(hmac, prk, info, 2) == Blocks(hmac, prk, info, 1) + Block(hmac, prk, info, 2);
  }

  method Hkdf(hmac: Hmac, secret: Bytes, salt: Bytes, info: Bytes, length: nat) returns (okm: Bytes)
    ensures okm == Okm(hmac, secret, salt, info, length)
  {
    var prk: Bytes := hmac(salt, secret);
    var result: Bytes, previous: Bytes := [], [];
    var counter: byte := 1;
    ghost var n := 0;
    while |result| < length
      invariant result == Blocks(hmac, prk, info, n) && previous == Block(hmac, prk, info, n)
      invariant |result| == 32 * n && counter == CounterByte(n + 1)
      invariant n <= (length + 31) / 32
      decreases length - |result|
    {
      previous := hmac(prk, previous + info + [counter]);
      result := result + previous;
      n := n + 1;
      counter := NextByte(counter);
    }
    okm := result[..length];
  }

  // ----- sealed packets -----

  datatype Direction = ClientToServer | ServerToClient

  /** An AEAD under one key: nonce, text and additional data to text. */
  datatype Aead = Aead(seal: (Bytes, Bytes, Bytes) -> Bytes, open: (Bytes, Bytes, Bytes) -> Option<Bytes>)

  /** What AES-GCM is taken to do: add a tag, and open exactly what it sealed. */
  ghost predicate Correct(aead: Aead) {
    && (forall nonce, text, data ::
          |aead.seal(nonce, text, data)| == |text| + TAG_SIZE
          && aead.open(nonce, aead.seal(nonce, text, data), data) == Some(text))
    && (forall nonce, sealed, data ::
          aead.open(nonce, sealed, data).Some? ==>
            sealed == aead.seal(nonce, aead.open(nonce, sealed, data).value, data))
  }

  function DirectedPath(pathID: uint32, direction: Direction): uint32 {
    var low := pathID % TWO_31;
    if direction == ServerToClient then low + TWO_31 else low
  }

  function PacketNonce(pathID: uint32, sequence: uint64, direction: Direction): (b: Bytes)
    ensures |b| == 12
  {
    BigEndian(4, DirectedPath(pathID, direction)) + BigEndian(8, sequence)
  }

  /** Two packets share a nonce exactly when they share direction, number and the low 31 bits of the path. */
  lemma NonceEqualIff(p: uint32, s: uint64, d: Direction, p': uint32, s': uint64, d': Direction)
    ensures PacketNonce(p, s, d) == PacketNonce(p', s', d') <==> p % TWO_31 == p' % TWO_31 && s == s' && d == d'
  {
    var a, b := PacketNonce(p, s, d), PacketNonce(p', s', d');
    assert a[..4] == BigEndian(4, DirectedPath(p, d)) && b[..4] == BigEndian(4, DirectedPath(p', d'));
    assert a[4..] == BigEndian(8, s) && b[4..] == BigEndian(8, s');
    Put32(DirectedPath(p, d)); Put32(DirectedPath(p', d')); Put64(s); Put64(s');
  }

  /** A nonce tells direction, path and number: the top bit, the 31 bits below it, and the last eight bytes. */
  lemma NonceTells(p: uint32, s: uint64, d: Direction)
    ensures var nonce := PacketNonce(p, s, d);
            && (nonce[0] >= 128 <==> d == ServerToClient)
            && Uint32(nonce[..4]) % 0x8000_0000 == p % 0x8000_0000 && Uint64(nonce[4..]) == s
  {
    var nonce := PacketNonce(p, s, d);
    assert nonce[..4] == BigEndian(4, DirectedPath(p, d)) && nonce[4..] == BigEndian(8, s);
    Put32(DirectedPath(p, d)); Put64(s);
    TopByte(DirectedPath(p, d));
  }

  lemma TopByte(x: uint32)
    ensures BigEndian(4, x)[0] == x / 0x100_0000
  {
    assert BigEndian(1, x / 0x100_0000) == [] + [x / 0x100_0000 % 256];
    assert BigEndian(2, x / 0x1_0000)[0] == BigEndian(1, x / 0x1_0000 / 256)[0];
    assert BigEndian(3, x / 0x100)[0] == BigEndian(2, x / 0x100 / 256)[0];
    assert BigEndian(4, x)[0] == BigEndian(3, x / 256)[0];
  }

  function Seal(aead: Aead, h: Header, direction: Direction, plaintext: Bytes): Result<Bytes, Error> {
    if |plaintext| > MAX_PAYLOAD then Err(PayloadTooBig) else
      var data := EncodeHeader(h);
      Ok(data + aead.seal(PacketNonce(h.pathID, h.sequence, direction), plaintext, data))
  }

  function Open(aead: Aead, h: Header, direction: Direction, packet: Bytes): Result<Bytes, Error> {
    if |packet| < HEADER_SIZE + TAG_SIZE then Err(BadPacket) else
      match aead.open(PacketNonce(h.pathID, h.sequence, direction), packet[HEADER_SIZE..], packet[..HEADER_SIZE])
      case Some(plaintext) => Ok(plaintext)
      case None => Err(AuthFailed)
  }

  /** A sealed packet carries its header in clear and opens, under it, to what was sealed. */
  lemma SealedRoundTrip(aead: Aead, h: Header, direction: Direction, plaintext: Bytes)
    requires Correct(aead) && |plaintext| <= 65_492
    ensures Seal(aead, h, direction, plaintext).Ok?
    ensures var packet := Seal(aead, h, direction, plaintext).value;
            ParseHeader(packet) == Ok(h) && Open(aead, h, direction, packet) == Ok(plaintext)
  {
    var packet := Seal(aead, h, direction, plaintext).value;
    var sealed := aead.seal(PacketNonce(h.pathID, h.sequence, direction), plaintext, EncodeHeader(h));
    HeaderRoundTrip(h, sealed);
    assert packet[HEADER_SIZE..] == sealed && packet[..HEADER_SIZE] == EncodeHeader(h);
  }

  /** Whatever the AEAD is, a packet opens exactly if it is long enough to hold header and tag and the AEAD opens its
      body under its nonce, with its header as additional data; what the AEAD rejects is refused. */
  lemma OpensIff(aead: Aead, h: Header, direction: Direction, packet: Bytes)
    ensures Open(aead, h, direction, packet) == Err(BadPacket) <==> |packet| < 44
    ensures Open(aead, h, direction, packet).Ok? <==>
              |packet| >= 44 &&
              aead.open(PacketNonce(h.pathID, h.sequence, direction), packet[28..], packet[..28]).Some?
    ensures Open(aead, h, direction, packet).Ok? ==>
              Some(Open(aead, h, direction, packet).value) ==
              aead.open(PacketNonce(h.pathID, h.sequence, direction), packet[28..], packet[..28])
    ensures Open(aead, h, direction, packet).Err? && |packet| >= 44 ==>
              Open(aead, h, direction, packet) == Err(AuthFailed)
  {
  }

  /** The converse of the round trip: of the packets that show a header, only the one sealed under it opens. */
  lemma SealedInverse(aead: Aead, h: Header, direction: Direction, packet: Bytes, plaintext: Bytes)
    requires Correct(aead)
    ensures |plaintext| > 65_492 ==> Seal(aead, h, direction, plaintext) == Err(PayloadTooBig)
    ensures |plaintext| <= 65_492 ==>
            (Seal(aead, h, direction, plaintext) == Ok(packet) <==>
             ParseHeader(packet) == Ok(h) && Open(aead, h, direction, packet) == Ok(plaintext))
  {
    HeaderInverse(packet, h);
    if |plaintext| <= MAX_PAYLOAD { SealedRoundTrip(aead, h, direction, plaintext); }
    if |packet| >= HEADER_SIZE {
      assert packet == packet[..HEADER_SIZE] + packet[HEADER_SIZE..];
    }
  }

  // ----- tunnel addresses (internal/protocol/ip.go) -----

  function IPVersion(packet: Bytes): int {
    if packet == [] then 0 else packet[0] / 16
  }

  /** The address field at `v4` or `v6`, by the packet's own version. */
  function AddressAt(packet: Bytes, v4: nat, v6: nat): Option<Bytes>
    requires v4 <= 16 && v6 <= 24
  {
    if IPVersion(packet) == 4 then
      if |packet| < 20 || Uint16(packet[2..4]) > |packet| then None else Some(packet[v4..v4 + 4])
    else if IPVersion(packet) == 6 then
      if |packet| < 40 then None else Some(packet[v6..v6 + 16])
    else
      None
  }

  function SourceIP(packet: Bytes): Option<Bytes> {
    AddressAt(packet, 12, 8)
  }

  function DestinationIP(packet: Bytes): Option<Bytes> {
    AddressAt(packet, 16, 24)
  }

  /** An IPv4 packet laid out as section 3.1 of RFC 791 says: version, then a total length that the packet has, then
      source and destination. */
  lemma IPv4Addresses(first: byte, tos: byte, length: uint16, middle: Bytes, source: Bytes, destination: Bytes,
                      rest: Bytes)
    requires first / 16 == 4 && |middle| == 8 && |source| == 4 && |destination| == 4 && length <= 20 + |rest|
    ensures var packet := [first, tos] + BigEndian(2, length) + middle + source + destination + rest;
            SourceIP(packet) == Some(source) && DestinationIP(packet) == Some(destination)
  {
    var packet := [first, tos] + BigEndian(2, length) + middle + source + destination + rest;
    assert packet[2..4] == BigEndian(2, length);
    Put16(length);
    assert packet[12..16] == source && packet[16..20] == destination;
  }

  /** An IPv6 packet laid out as section 3 of RFC 8200 says. */
  lemma IPv6Addresses(first: byte, middle: Bytes, source: Bytes, destination: Bytes, rest: Bytes)
    requires first / 16 == 6 && |middle| == 7 && |source| == 16 && |destination| == 16
    ensures var packet := [first] + middle + source + destination + rest;
            SourceIP(packet) == Some(source) && DestinationIP(packet) == Some(destination)
  {
    var packet := [first] + middle + source + destination + rest;
    assert packet[8..24] == source && packet[24..40] == destination;
  }

  /** Nothing else has an address: not a packet shorter than its header, nor one cut short of its IPv4 length. */
  lemma AddressesIff(packet: Bytes)
    ensures SourceIP(packet).Some? <==> DestinationIP(packet).Some?
    ensures SourceIP(packet).Some? <==>
            || (|packet| >= 20 && packet[0] / 16 == 4 && Number(packet[2..4]) <= |packet|)
            || (|packet| >= 40 && packet[0] / 16 == 6)
  {
    if |packet| >= 4 { BigEndianOfNumber(packet[2..4]); Pow256Values(); }
  }
}
