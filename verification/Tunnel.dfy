/**
 One direction of one session, end to end: packets read from a TUN, numbered, striped over paths and
 sealed (internal/engine/client.go:363-396, internal/engine/server.go:549-588); a network that may
 lose, repeat and reorder datagrams and invent others; and a receiver that authenticates, filters
 replays and reorders (internal/engine/server.go:480-527, internal/engine/client.go:411-431 and 704-744).

 Accepting a datagram and pushing its packet are separate steps, as the client's receive loops run
 concurrently. The path of each packet is arbitrary, which covers every choice of the scheduler.
 */
module Tunnel {
  import opened Words
  import opened Wire
  import opened Protocol
  import opened Reorder
  import opened ReorderRuns
  import opened Replay
  import Nonces

  /** The constants of a session: its id, direction, key per path, tunnel address and buffer limits. */
  datatype Link = Link(sessionID: uint64, direction: Direction, key: uint32 -> Aead, tunnelIP: Bytes, limits: Limits)

  /** The header and payload a datagram was sealed from, and the packet number if it is data. */
  datatype Origin = Origin(header: Header, payload: Bytes, number: nat)

  /** The receipt of one authentic datagram. */
  datatype Receipt = Receipt(pathID: uint32, sequence: uint64)

  datatype Flow = Flow(
    numbered: seq<Bytes>,
    pathSequence: map<uint32, uint64>,
    network: map<Bytes, Origin>,
    windows: map<uint32, Replay.State>,
    receipts: seq<Receipt>,
    inFlight: seq<Entry<Bytes>>,
    receiver: History<Bytes>)

  datatype Step =
    | OpenPath(pathID: uint32)
    | ClosePath(pathID: uint32)
    | Submit(packet: Bytes, pathID: uint32)
    | SendControl(packetType: byte, payload: Bytes, pathID: uint32)
    | Arrive(datagram: Bytes)
    | PushNext(i: nat, now: int, clock: int)
    | Tick(now: int, clock: int)

  /** Both ends check the address that belongs to the client. */
  predicate Admits(link: Link, packet: Bytes) {
    (if link.direction == ClientToServer then SourceIP(packet) else DestinationIP(packet)) == Some(link.tunnelIP)
  }

  function Initial(): Flow {
    Flow([], map[], map[], map[], [], [], History(Reorder.State(1, map[], None), [], 0, map[]))
  }

  // ----- sender -----

  /** `send` of a path end: spend a number, seal, and hand the datagram to the network. */
  function Transmit(link: Link, s: Flow, packetType: byte, payload: Bytes, pathID: uint32, number: nat): Flow
    requires pathID in s.pathSequence
  {
    var (sequence, sealed) :=
      Nonces.SendStep(link.key(pathID), link.sessionID, pathID, link.direction, s.pathSequence[pathID],
                      packetType, payload);
    var h := Header(packetType, 0, link.sessionID, pathID, sequence);
    var s' := s.(pathSequence := s.pathSequence[pathID := sequence]);
    match sealed
    case Ok(datagram) =>
      s'.(network := s'.network[datagram := Origin(h, payload, number)])
    case Err(_) => s'
  }

  /** A packet read from the TUN is numbered before anything can go wrong with it. (The last number of the 64-bit
      counter, which no possible run reaches, is not given out.) */
  function SubmitStep(link: Link, s: Flow, packet: Bytes, pathID: uint32): Flow {
    if !Admits(link, packet) || pathID !in s.pathSequence || |s.numbered| + 1 >= TWO_64 then s else
      var number := |s.numbered| + 1;
      var s' := s.(numbered := s.numbered + [packet]);
      match DataBytes(number, packet)
      case Ok(payload) => Transmit(link, s', TYPE_DATA, payload, pathID, number)
      case Err(_) => s'
  }

  // ----- receiver -----

  /** The datagram's header and plaintext, if it belongs to an open path of this session and is authentic. */
  function Authentic(link: Link, s: Flow, datagram: Bytes): (r: Option<(Header, Bytes)>)
    ensures r.Some? ==> r.value.0.pathID in s.windows
  {
    match ParseHeader(datagram)
    case Err(_) => None
    case Ok(h) =>
      if h.sessionID != link.sessionID || h.pathID !in s.windows then None else
        match Open(link.key(h.pathID), h, link.direction, datagram)
        case Err(_) => None
        case Ok(payload) => Some((h, payload))
  }

  /** The packet in an authentic payload, if it is data for or from this client. */
  function Extracted(link: Link, h: Header, payload: Bytes): seq<Entry<Bytes>> {
    if h.packetType != TYPE_DATA then [] else
      match ParseData(payload)
      case Err(_) => []
      case Ok((number, packet)) => if Admits(link, packet) then [Entry(number, packet)] else []
  }

  /** An authentic datagram passes the replay window of its path, or is dropped. */
  function ReceiveStep(link: Link, s: Flow, h: Header, payload: Bytes): Flow
    requires h.pathID in s.windows
  {
    var (w, ok) := AcceptStep(s.windows[h.pathID], h.sequence);
    if !ok then s else
      s.(windows := s.windows[h.pathID := w], receipts := s.receipts + [Receipt(h.pathID, h.sequence)],
         inFlight := s.inFlight + Extracted(link, h, payload))
  }

  function ArriveStep(link: Link, s: Flow, datagram: Bytes): Flow {
    match Authentic(link, s, datagram)
    case None => s
    case Some((h, payload)) => ReceiveStep(link, s, h, payload)
  }

  /** Accepted packet `i` reaches the buffer. */
  ghost function DeliverStep(link: Link, s: Flow, i: nat, now: int, clock: int): Flow
    requires i < |s.inFlight|
  {
    var op := Push(s.inFlight[i].sequence, s.inFlight[i].packet, now, clock);
    s.(inFlight := s.inFlight[..i] + s.inFlight[i + 1..], receiver := ReorderRuns.Apply(link.limits, s.receiver, op))
  }

  ghost function Apply(link: Link, s: Flow, step: Step): Flow {
    match step
    case OpenPath(p) =>
      if p in s.pathSequence then s
      else s.(pathSequence := s.pathSequence[p := 0], windows := s.windows[p := EMPTY])
    case ClosePath(p) => s.(windows := s.windows - {p})
    case Submit(packet, p) => SubmitStep(link, s, packet, p)
    case SendControl(t, payload, p) =>
      if t == TYPE_DATA || p !in s.pathSequence then s else Transmit(link, s, t, payload, p, 0)
    case Arrive(datagram) => ArriveStep(link, s, datagram)
    case PushNext(i, now, clock) => if i < |s.inFlight| then DeliverStep(link, s, i, now, clock) else s
    case Tick(now, clock) => s.(receiver := ReorderRuns.Apply(link.limits, s.receiver, ReorderRuns.Flush(now, clock)))
  }

  // ----- runs -----

  /** The datagram shows header `h`, and the AEAD under its path's key accepts it. */
  ghost predicate Opens(link: Link, h: Header, datagram: Bytes) {
    && |datagram| >= 44 && datagram[..28] == EncodeHeader(h)
    && link.key(h.pathID).open(PacketNonce(h.pathID, h.sequence, link.direction), datagram[28..],
                               datagram[..28]).Some?
  }

  /** The datagram is what the sender sealed from `o`. */
  ghost predicate IsSealing(link: Link, o: Origin, datagram: Bytes) {
    var h := o.header;
    && |datagram| >= 44 && datagram[..28] == EncodeHeader(h)
    && datagram[28..]
       == link.key(h.pathID).seal(PacketNonce(h.pathID, h.sequence, link.direction), o.payload, EncodeHeader(h))
  }

  ghost predicate WasSealed(link: Link, s: Flow, h: Header, datagram: Bytes) {
    exists d :: d in s.network && s.network[d].header == h && IsSealing(link, s.network[d], datagram)
  }

  /** What is assumed of the keys, which only the two ends have: nothing opens that was not sealed. */
  ghost predicate Unforged(link: Link, s: Flow, datagram: Bytes) {
    forall h :: Opens(link, h, datagram) ==> WasSealed(link, s, h, datagram)
  }

  /** What cannot happen: a forgery, and the one packet number whose successor wraps. */
  ghost predicate Possible(link: Link, s: Flow, step: Step) {
    match step
    case Arrive(datagram) => Unforged(link, s, datagram)
    case Submit(_, _) => |s.numbered| + 1 < MAX_UINT64
    case _ => true
  }

  ghost function Run(link: Link, steps: seq<Step>): Flow {
    if steps == [] then Initial() else Apply(link, Run(link, steps[..|steps| - 1]), steps[|steps| - 1])
  }

  ghost predicate PossibleRun(link: Link, steps: seq<Step>) {
    steps == [] || (
      && PossibleRun(link, steps[..|steps| - 1])
      && Possible(link, Run(link, steps[..|steps| - 1]), steps[|steps| - 1]))
  }

  ghost predicate WellKeyed(link: Link) {
    WellFormed(link.limits) && forall p :: Correct(link.key(p))
  }

  // ----- the invariant -----

  /** `number` is the number of an admitted packet, and `packet` is that packet. */
  ghost predicate IsNumbered(link: Link, numbered: seq<Bytes>, number: int, packet: Bytes) {
    1 <= number <= |numbered| && numbered[number - 1] == packet && Admits(link, packet)
  }

  ghost predicate Genuine(link: Link, numbered: seq<Bytes>, datagram: Bytes, o: Origin) {
    && o.header.sessionID == link.sessionID
    && Seal(link.key(o.header.pathID), o.header, link.direction, o.payload) == Ok(datagram)
    && (o.header.packetType == TYPE_DATA ==>
          && 1 <= o.number <= |numbered| < TWO_64
          && Admits(link, numbered[o.number - 1])
          && DataBytes(o.number, numbered[o.number - 1]) == Ok(o.payload))
  }

  ghost predicate NetworkGenuine(link: Link, numbered: seq<Bytes>, network: map<Bytes, Origin>) {
    forall d :: d in network ==> Genuine(link, numbered, d, network[d])
  }

  ghost function ReceivedOn(receipts: seq<Receipt>, p: uint32): set<uint64> {
    set r | r in receipts && r.pathID == p :: r.sequence
  }

  ghost predicate ReplayChecked(paths: set<uint32>, windows: map<uint32, Replay.State>, receipts: seq<Receipt>) {
    && (forall p :: p in windows ==> p in paths && Represents(windows[p], ReceivedOn(receipts, p)))
    && (forall r :: r in receipts ==> r.pathID in paths)
    && (forall i, j :: 0 <= i < j < |receipts| ==> receipts[i] != receipts[j])
  }

  ghost predicate EntriesNumbered(link: Link, numbered: seq<Bytes>, entries: seq<Entry<Bytes>>) {
    forall e :: e in entries ==> IsNumbered(link, numbered, e.sequence, e.packet)
  }

  ghost predicate PacketsNumbered(link: Link, numbered: seq<Bytes>, packets: map<uint64, Bytes>) {
    forall n :: n in packets ==> IsNumbered(link, numbered, n, packets[n])
  }

  ghost predicate Good(link: Link, s: Flow) {
    && |s.numbered| < MAX_UINT64
    && NetworkGenuine(link, s.numbered, s.network)
    && ReplayChecked(s.pathSequence.Keys, s.windows, s.receipts)
    && EntriesNumbered(link, s.numbered, s.inFlight)
    && PacketsNumbered(link, s.numbered, s.receiver.accepted)
    && Sound(link.limits, s.receiver)
  }

  // ----- steps keep it -----

  lemma TransmitKeepsGenuine(link: Link, s: Flow, packetType: byte, payload: Bytes, pathID: uint32, number: nat)
    requires pathID in s.pathSequence && NetworkGenuine(link, s.numbered, s.network)
    requires packetType == TYPE_DATA ==>
               && 1 <= number <= |s.numbered| < TWO_64 && Admits(link, s.numbered[number - 1])
               && DataBytes(number, s.numbered[number - 1]) == Ok(payload)
    ensures var s' := Transmit(link, s, packetType, payload, pathID, number);
            && NetworkGenuine(link, s.numbered, s'.network) && s'.pathSequence.Keys == s.pathSequence.Keys
            && s' == s.(network := s'.network, pathSequence := s'.pathSequence)
  {
    var sequence := Succ64(s.pathSequence[pathID]);
    var h := Header(packetType, 0, link.sessionID, pathID, sequence);
    match Seal(link.key(pathID), h, link.direction, payload)
    case Ok(datagram) =>
      assert Genuine(link, s.numbered, datagram, Origin(h, payload, number));
    case Err(_) =>
  }

  lemma NumberingKeeps(link: Link, s: Flow, packet: Bytes)
    requires Good(link, s) && |s.numbered| + 1 < MAX_UINT64
    ensures Good(link, s.(numbered := s.numbered + [packet]))
  {
    var numbered' := s.numbered + [packet];
    forall d | d in s.network ensures Genuine(link, numbered', d, s.network[d]) {
      assert Genuine(link, s.numbered, d, s.network[d]);
    }
  }

  lemma SubmitKeepsGood(link: Link, s: Flow, packet: Bytes, pathID: uint32)
    requires Good(link, s) && |s.numbered| + 1 < MAX_UINT64
    ensures Good(link, SubmitStep(link, s, packet, pathID))
  {
    if Admits(link, packet) && pathID in s.pathSequence {
      NumberingKeeps(link, s, packet);
      var number := |s.numbered| + 1;
      var s' := s.(numbered := s.numbered + [packet]);
      if DataBytes(number, packet).Ok? {
        TransmitKeepsGenuine(link, s', TYPE_DATA, DataBytes(number, packet).value, pathID, number);
      }
    }
  }

  /** An authentic datagram from the network is what its origin says. */
  lemma AuthenticIsOrigin(link: Link, s: Flow, datagram: Bytes)
    requires WellKeyed(link) && NetworkGenuine(link, s.numbered, s.network) && datagram in s.network
    ensures var o := s.network[datagram];
            Authentic(link, s, datagram) == if o.header.pathID in s.windows then Some((o.header, o.payload)) else None
  {
    var o := s.network[datagram];
    assert Genuine(link, s.numbered, datagram, o);
    SealedRoundTrip(link.key(o.header.pathID), o.header, link.direction, o.payload);
  }

  lemma ReceiptKeepsChecked(paths: set<uint32>, windows: map<uint32, Replay.State>, receipts: seq<Receipt>, p: uint32,
                            sequence: uint64)
    requires ReplayChecked(paths, windows, receipts) && p in windows && AcceptStep(windows[p], sequence).1
    ensures ReplayChecked(paths, windows[p := AcceptStep(windows[p], sequence).0], receipts + [Receipt(p, sequence)])
  {
    var r := Receipt(p, sequence);
    AcceptRefines(windows[p], ReceivedOn(receipts, p), sequence);
    forall q ensures ReceivedOn(receipts + [r], q)
                  == if q == p then ReceivedOn(receipts, q) + {sequence} else ReceivedOn(receipts, q)
    {
      ReceivedOnGrows(receipts, r, q);
    }
    assert r in receipts ==> sequence in ReceivedOn(receipts, p);
  }

  lemma ReceivedOnGrows(receipts: seq<Receipt>, r: Receipt, q: uint32)
    ensures ReceivedOn(receipts + [r], q)
         == if q == r.pathID then ReceivedOn(receipts, q) + {r.sequence} else ReceivedOn(receipts, q)
  {
    forall x | x in receipts + [r] ensures x in receipts || x == r {}
    assert forall x :: x in receipts ==> x in receipts + [r];
    assert r in receipts + [r];
  }

  /** What a genuine datagram carries. */
  lemma GenuineCarries(link: Link, numbered: seq<Bytes>, datagram: Bytes, o: Origin)
    requires Genuine(link, numbered, datagram, o)
    ensures o.header.packetType == TYPE_DATA ==>
              1 <= o.number <= |numbered| < TWO_64 && IsNumbered(link, numbered, o.number, numbered[o.number - 1])
    ensures Extracted(link, o.header, o.payload)
         == if o.header.packetType == TYPE_DATA then [Entry(o.number, numbered[o.number - 1])] else []
  {
    if o.header.packetType == TYPE_DATA {
      DataRoundTripIff(o.number, numbered[o.number - 1]);
    }
  }

  lemma ReceiveKeepsGood(link: Link, s: Flow, h: Header, payload: Bytes)
    requires Good(link, s) && h.pathID in s.windows
    requires EntriesNumbered(link, s.numbered, Extracted(link, h, payload))
    ensures Good(link, ReceiveStep(link, s, h, payload))
  {
    if AcceptStep(s.windows[h.pathID], h.sequence).1 {
      ReceiptKeepsChecked(s.pathSequence.Keys, s.windows, s.receipts, h.pathID, h.sequence);
    }
  }

  /** The receiver takes as authentic only what the sender handed to the network. */
  lemma AuthenticWasSent(link: Link, s: Flow, datagram: Bytes)
    requires NetworkGenuine(link, s.numbered, s.network) && Unforged(link, s, datagram)
    requires Authentic(link, s, datagram).Some?
    ensures datagram in s.network
  {
    var h := Authentic(link, s, datagram).value.0;
    HeaderInverse(datagram, h);
    OpensIff(link.key(h.pathID), h, link.direction, datagram);
    assert Opens(link, h, datagram);
    var d :| d in s.network && s.network[d].header == h && IsSealing(link, s.network[d], datagram);
    assert Genuine(link, s.numbered, d, s.network[d]);
    assert datagram == datagram[..28] + datagram[28..];
  }

  lemma ArriveKeepsGood(link: Link, s: Flow, datagram: Bytes)
    requires WellKeyed(link) && Good(link, s) && Unforged(link, s, datagram)
    ensures Good(link, ArriveStep(link, s, datagram))
  {
    var a := Authentic(link, s, datagram);
    if a.Some? {
      AuthenticWasSent(link, s, datagram);
      AuthenticIsOrigin(link, s, datagram);
      GenuineCarries(link, s.numbered, datagram, s.network[datagram]);
      ReceiveKeepsGood(link, s, a.value.0, a.value.1);
    }
  }

  lemma PushKeepsNumbered(link: Link, numbered: seq<Bytes>, h: History<Bytes>, e: Entry<Bytes>, now: int, clock: int)
    requires IsNumbered(link, numbered, e.sequence, e.packet) && PacketsNumbered(link, numbered, h.accepted)
    ensures PacketsNumbered(link, numbered,
                            ReorderRuns.Apply(link.limits, h, Push(e.sequence, e.packet, now, clock)).accepted)
  {
  }

  lemma ReplaceReceiver(link: Link, s: Flow, entries: seq<Entry<Bytes>>, receiver: History<Bytes>)
    requires Good(link, s) && EntriesNumbered(link, s.numbered, entries)
    requires PacketsNumbered(link, s.numbered, receiver.accepted) && Sound(link.limits, receiver)
    ensures Good(link, s.(inFlight := entries, receiver := receiver))
  {
  }

  lemma TakeOut(link: Link, numbered: seq<Bytes>, entries: seq<Entry<Bytes>>, i: nat)
    requires EntriesNumbered(link, numbered, entries) && i < |entries|
    ensures EntriesNumbered(link, numbered, entries[..i] + entries[i + 1..])
    ensures IsNumbered(link, numbered, entries[i].sequence, entries[i].packet)
  {
    assert entries[i] in entries;
    assert forall f :: f in entries[..i] + entries[i + 1..] ==> f in entries;
  }

  /** The buffer only ever sees numbers that were given out, so it never wraps. */
  lemma NumbersNeverWrap(link: Link, s: Flow, op: Op<Bytes>)
    requires WellKeyed(link) && Good(link, s) && (op.Push? ==> op.sequence <= |s.numbered|)
    ensures Sound(link.limits, ReorderRuns.Apply(link.limits, s.receiver, op))
  {
    assert forall n :: n in s.receiver.buffer.pending ==> n in s.receiver.accepted;
    NeverWraps(link.limits, s.receiver.buffer, op);
    ApplyKeepsSound(link.limits, s.receiver, op);
  }

  lemma DeliverKeepsGood(link: Link, s: Flow, i: nat, now: int, clock: int)
    requires WellKeyed(link) && Good(link, s) && i < |s.inFlight|
    ensures Good(link, DeliverStep(link, s, i, now, clock))
  {
    var e := s.inFlight[i];
    var op := Push(e.sequence, e.packet, now, clock);
    TakeOut(link, s.numbered, s.inFlight, i);
    PushKeepsNumbered(link, s.numbered, s.receiver, e, now, clock);
    NumbersNeverWrap(link, s, op);
    ReplaceReceiver(link, s, s.inFlight[..i] + s.inFlight[i + 1..], ReorderRuns.Apply(link.limits, s.receiver, op));
  }

  lemma StepKeepsGood(link: Link, s: Flow, step: Step)
    requires WellKeyed(link) && Good(link, s) && Possible(link, s, step)
    ensures Good(link, Apply(link, s, step))
  {
    match step
    case OpenPath(p) =>
      if p !in s.pathSequence { assert ReceivedOn(s.receipts, p) == {}; }
    case ClosePath(p) =>
    case Submit(packet, p) => SubmitKeepsGood(link, s, packet, p);
    case SendControl(t, payload, p) =>
      if t != TYPE_DATA && p in s.pathSequence { TransmitKeepsGenuine(link, s, t, payload, p, 0); }
    case Arrive(datagram) => ArriveKeepsGood(link, s, datagram);
    case PushNext(i, now, clock) => if i < |s.inFlight| { DeliverKeepsGood(link, s, i, now, clock); }
    case Tick(now, clock) => NumbersNeverWrap(link, s, ReorderRuns.Flush(now, clock));
  }

  lemma {:induction false} RunIsGood(link: Link, steps: seq<Step>)
    requires WellKeyed(link) && PossibleRun(link, steps)
    ensures Good(link, Run(link, steps))
  {
    if steps != [] {
      RunIsGood(link, steps[..|steps| - 1]);
      StepKeepsGood(link, Run(link, steps[..|steps| - 1]), steps[|steps| - 1]);
    }
  }

  // ----- what the tunnel promises -----

  /** Whatever the network does, the stream written to the receiving TUN is a strictly increasing
      selection of the numbered packets, each unchanged and written at most once, each from or to the client's own
      tunnel address, and every missing number below the last is accounted for as skipped. */
  lemma EndToEnd(link: Link, steps: seq<Step>)
    requires WellKeyed(link) && PossibleRun(link, steps)
    ensures Increasing(Run(link, steps).receiver.delivered)
    ensures forall e :: e in Run(link, steps).receiver.delivered ==>
              IsNumbered(link, Run(link, steps).numbered, e.sequence, e.packet)
    ensures forall e :: e in Run(link, steps).receiver.delivered ==> HasAddress(link, e.packet)
    ensures var r := Run(link, steps).receiver;
            |r.delivered| + r.skipped == r.buffer.expected - 1 <= |Run(link, steps).numbered|
  {
    RunIsGood(link, steps);
    var r := Run(link, steps).receiver;
    if r.buffer.expected > 1 {
      assert r.delivered[|r.delivered| - 1] in r.delivered;
    }
  }

  /** Each datagram sealed for a path is processed at most once. */
  lemma {:induction false} ProcessedAtMostOnce(link: Link, steps: seq<Step>, i: nat, j: nat)
    requires WellKeyed(link) && PossibleRun(link, steps)
    requires i < j < |Run(link, steps).receipts|
    ensures Run(link, steps).receipts[i] != Run(link, steps).receipts[j]
  {
    RunIsGood(link, steps);
  }

  /** Of what arrives on an open path, data that is fresh to its window is put on the way to the buffer. */
  lemma ArrivalMeaning(link: Link, s: Flow, datagram: Bytes)
    requires WellKeyed(link) && Good(link, s) && datagram in s.network
    requires s.network[datagram].header.packetType == TYPE_DATA && s.network[datagram].header.pathID in s.windows
    ensures 1 <= s.network[datagram].number <= |s.numbered| < TWO_64
    ensures var o, s' := s.network[datagram], ArriveStep(link, s, datagram);
            && s'.inFlight
               == (if Fresh(ReceivedOn(s.receipts, o.header.pathID), o.header.sequence)
                   then s.inFlight + [Entry(o.number, s.numbered[o.number - 1])] else s.inFlight)
            && s'.receiver == s.receiver && s'.numbered == s.numbered && s'.windows.Keys == s.windows.Keys
  {
    hide Sound, Represents, AcceptStep, Authentic, Correct;
    var o := s.network[datagram];
    AuthenticIsOrigin(link, s, datagram);
    AcceptRefines(s.windows[o.header.pathID], ReceivedOn(s.receipts, o.header.pathID), o.header.sequence);
    GenuineCarries(link, s.numbered, datagram, o);
  }

  /** Nothing is lost but by the network, the replay window or a skip: a data datagram that arrives on an
      open path with a number fresh to its window puts its packet on the way to the buffer. */
  lemma {:induction false} FreshDataGetsThrough(link: Link, steps: seq<Step>, datagram: Bytes)
    requires WellKeyed(link) && PossibleRun(link, steps)
    requires datagram in Run(link, steps).network
    requires Run(link, steps).network[datagram].header.packetType == TYPE_DATA
    requires Run(link, steps).network[datagram].header.pathID in Run(link, steps).windows
    ensures 1 <= Run(link, steps).network[datagram].number <= |Run(link, steps).numbered| < TWO_64
    ensures var s := Run(link, steps);
            var o := s.network[datagram];
            ArriveStep(link, s, datagram).inFlight
              == if Fresh(ReceivedOn(s.receipts, o.header.pathID), o.header.sequence)
                 then s.inFlight + [Entry(o.number, s.numbered[o.number - 1])] else s.inFlight
  {
    RunIsGood(link, steps);
    ArrivalMeaning(link, Run(link, steps), datagram);
  }

  /** And once pushed, that packet is in the buffer's memory, pending or delivered, unless the buffer had already
      gone past its number. */
  lemma {:induction false} FreshDataReachesBuffer(link: Link, steps: seq<Step>, datagram: Bytes, now: int, clock: int)
    requires WellKeyed(link) && PossibleRun(link, steps)
    requires datagram in Run(link, steps).network
    requires var s, o := Run(link, steps), Run(link, steps).network[datagram];
             && o.header.packetType == TYPE_DATA && o.header.pathID in s.windows
             && Fresh(ReceivedOn(s.receipts, o.header.pathID), o.header.sequence)
    ensures var s, o := Run(link, steps), Run(link, steps).network[datagram];
            && 1 <= o.number <= |s.numbered| && |s.inFlight| < |ArriveStep(link, s, datagram).inFlight|
            && var r := DeliverStep(link, ArriveStep(link, s, datagram), |s.inFlight|, now, clock).receiver;
               || (o.number in r.accepted && r.accepted[o.number] == s.numbered[o.number - 1])
               || o.number < s.receiver.buffer.expected
  {
    hide Fresh, PossibleRun, Run;
    RunIsGood(link, steps);
    FreshDataGetsThrough(link, steps, datagram);
    var s, o := Run(link, steps), Run(link, steps).network[datagram];
    var e := Entry(o.number, s.numbered[o.number - 1]);
    assert ArriveStep(link, s, datagram).inFlight[|s.inFlight|] == e;
    ArriveKeepsReceiver(link, s, datagram);
    PushIsRemembered(link, s, e, now, clock);
  }

  lemma ArriveKeepsReceiver(link: Link, s: Flow, datagram: Bytes)
    ensures ArriveStep(link, s, datagram).receiver == s.receiver
  {
  }

  lemma PushIsRemembered(link: Link, s: Flow, e: Entry<Bytes>, now: int, clock: int)
    requires Good(link, s) && 1 <= e.sequence <= |s.numbered| && s.numbered[e.sequence - 1] == e.packet
    ensures var r := ReorderRuns.Apply(link.limits, s.receiver, Push(e.sequence, e.packet, now, clock));
            || (e.sequence in r.accepted && r.accepted[e.sequence] == e.packet)
            || e.sequence < s.receiver.buffer.expected
  {
  }

  // ----- what the receiver checks, whoever sends -----

  /** Exactly the datagrams taken as authentic: those of this session and an open path whose body the AEAD opens. */
  lemma AuthenticIff(link: Link, s: Flow, datagram: Bytes, h: Header, payload: Bytes)
    ensures Authentic(link, s, datagram) == Some((h, payload)) <==>
            && |datagram| >= 44 && datagram[..28] == EncodeHeader(h)
            && h.sessionID == link.sessionID && h.pathID in s.windows
            && link.key(h.pathID).open(PacketNonce(h.pathID, h.sequence, link.direction), datagram[28..],
                                       datagram[..28]) == Some(payload)
  {
    HeaderInverse(datagram, h);
    OpensIff(link.key(h.pathID), h, link.direction, datagram);
  }

  /** The packet has the client's tunnel address where it belongs: as its source on the way to the relay, as its
      destination on the way back. */
  ghost predicate HasAddress(link: Link, packet: Bytes) {
    match link.direction
    case ClientToServer => SourceIP(packet) == Some(link.tunnelIP)
    case ServerToClient => DestinationIP(packet) == Some(link.tunnelIP)
  }

  /** Of an authentic payload exactly a numbered packet of the right address goes on to the buffer. */
  lemma ExtractedIff(link: Link, h: Header, payload: Bytes, number: uint64, packet: Bytes)
    ensures Extracted(link, h, payload) == [Entry(number, packet)] <==>
            && h.packetType == 3 && number != 0 && payload == BigEndian(8, number) + packet && HasAddress(link, packet)
    ensures Extracted(link, h, payload) == [] ||
        exists e :: Extracted(link, h, payload) == [e] && HasAddress(link, e.packet)
  {
    DataInverse(payload, number, packet);
    if Extracted(link, h, payload) != [] {
      assert Extracted(link, h, payload) == [Extracted(link, h, payload)[0]];
    }
  }

  ghost predicate AllAddressed(link: Link, entries: seq<Entry<Bytes>>) {
    forall e :: e in entries ==> HasAddress(link, e.packet)
  }

  ghost predicate HeldAddressed(link: Link, packets: map<uint64, Bytes>) {
    forall n :: n in packets ==> HasAddress(link, packets[n])
  }

  ghost predicate Addressed(link: Link, s: Flow) {
    && AllAddressed(link, s.inFlight) && AllAddressed(link, s.receiver.delivered)
    && HeldAddressed(link, s.receiver.buffer.pending)
  }

  lemma {:induction false} DrainAddressed(link: Link, expected: uint64, pending: map<uint64, Bytes>)
    requires HeldAddressed(link, pending)
    ensures AllAddressed(link, Drain(expected, pending).entries)
    ensures HeldAddressed(link, Drain(expected, pending).pending)
    decreases |pending|
  {
    if expected in pending {
      DrainAddressed(link, Succ64(expected), pending - {expected});
    }
  }

  lemma OutcomeAddressed(link: Link, l: Limits, b: Reorder.State<Bytes>, op: Op<Bytes>)
    requires HeldAddressed(link, b.pending) && (op.Push? ==> HasAddress(link, op.packet))
    ensures AllAddressed(link, Outcome(l, b, op).1.entries)
    ensures HeldAddressed(link, Outcome(l, b, op).0.pending)
  {
    hide HasAddress;
    var held := Held(b, op);
    assert HeldAddressed(link, held);
    DrainAddressed(link, Succ64(b.expected), b.pending);
    if held != map[] { DrainAddressed(link, Lowest(held.Keys), held); }
  }

  lemma StepAddressed(link: Link, s: Flow, step: Step)
    requires Addressed(link, s)
    ensures Addressed(link, Apply(link, s, step))
  {
    hide HasAddress, Outcome, Admits;
    match step
    case Arrive(datagram) => ArriveAddressed(link, s, datagram);
    case PushNext(i, now, clock) =>
      if i < |s.inFlight| {
        var e := s.inFlight[i];
        assert e in s.inFlight;
        OutcomeAddressed(link, link.limits, s.receiver.buffer, Push(e.sequence, e.packet, now, clock));
      }
    case Tick(now, clock) => OutcomeAddressed(link, link.limits, s.receiver.buffer, ReorderRuns.Flush(now, clock));
    case _ =>
  }

  lemma ArriveAddressed(link: Link, s: Flow, datagram: Bytes)
    requires Addressed(link, s)
    ensures Addressed(link, ArriveStep(link, s, datagram))
  {
    hide HasAddress;
    var a := Authentic(link, s, datagram);
    if a.Some? {
      ExtractedIff(link, a.value.0, a.value.1, 0, []);
    }
  }

  /** Whatever is sent, by whoever has the keys, and whatever the AEAD lets through, no packet of another address
      leaves the tunnel. */
  lemma {:induction false} SpoofsNeverLeave(link: Link, steps: seq<Step>)
    ensures Addressed(link, Run(link, steps))
    ensures forall e :: e in Run(link, steps).receiver.delivered ==> HasAddress(link, e.packet)
  {
    if steps != [] {
      SpoofsNeverLeave(link, steps[..|steps| - 1]);
      StepAddressed(link, Run(link, steps[..|steps| - 1]), steps[|steps| - 1]);
    }
  }

  // ----- what the tunnel delivers -----

  /** Reading a packet from the TUN. Only packets of the right address are taken, and only on a path that is open; each
      gets the next number, and unless it is too long a datagram goes out that shows the path's next packet number and
      opens to the packet under its number. */
  lemma SubmitMeaning(link: Link, s: Flow, packet: Bytes, p: uint32) returns (datagram: Bytes)
    requires WellKeyed(link) && |s.numbered| + 1 < TWO_64
    ensures var s' := SubmitStep(link, s, packet, p);
            if !Admits(link, packet) || p !in s.pathSequence then s' == s
            else if |packet| > 65_484 then s' == s.(numbered := s.numbered + [packet])
            else
              && s' == s.(numbered := s.numbered + [packet],
                          pathSequence := s.pathSequence[p := Succ64(s.pathSequence[p])], network := s'.network)
              && s'.network.Keys == s.network.Keys + {datagram}
              && (forall d :: d in s.network && d != datagram ==> s'.network[d] == s.network[d])
              && Conveys(link, datagram, p, Succ64(s.pathSequence[p]), |s.numbered| + 1, packet)
              && s'.network[datagram].header == Header(3, 0, link.sessionID, p, Succ64(s.pathSequence[p]))
              && s'.network[datagram].number == |s.numbered| + 1
  {
    datagram := [];
    if Admits(link, packet) && p in s.pathSequence && |packet| <= MAX_DATA_PAYLOAD {
      var number := |s.numbered| + 1;
      var h := Header(TYPE_DATA, 0, link.sessionID, p, Succ64(s.pathSequence[p]));
      var payload := DataBytes(number, packet).value;
      datagram := Seal(link.key(p), h, link.direction, payload).value;
      SealedRoundTrip(link.key(p), h, link.direction, payload);
      DataRoundTripIff(number, packet);
    }
  }

  /** The datagram is data packet `n` of path `p`, and opens to the envelope of `packet` under `number`. */
  ghost predicate Conveys(link: Link, datagram: Bytes, p: uint32, n: uint64, number: uint64, packet: Bytes) {
    var h := Header(3, 0, link.sessionID, p, n);
    && ParseHeader(datagram) == Ok(h)
    && Open(link.key(p), h, link.direction, datagram).Ok?
    && ParseData(Open(link.key(p), h, link.direction, datagram).value) == Ok((number, packet))
  }

  /** No number above a path's count is on the network or was received, and no count exceeds `bound`. */
  ghost predicate Counting(s: Flow, bound: nat) {
    && (forall p :: p in s.pathSequence ==> s.pathSequence[p] <= bound)
    && (forall d :: d in s.network ==> var h := s.network[d].header;
                                       h.pathID in s.pathSequence && h.sequence <= s.pathSequence[h.pathID])
    && (forall r :: r in s.receipts ==> r.pathID in s.pathSequence && r.sequence <= s.pathSequence[r.pathID])
  }

  lemma TransmitCounts(link: Link, s: Flow, packetType: byte, payload: Bytes, p: uint32, number: nat, bound: nat)
    requires p in s.pathSequence && Counting(s, bound) && bound < MAX_UINT64
    ensures Counting(Transmit(link, s, packetType, payload, p, number), bound + 1)
  {
  }

  lemma SubmitCounts(link: Link, s: Flow, packet: Bytes, p: uint32, bound: nat)
    requires Counting(s, bound) && bound < MAX_UINT64
    ensures Counting(SubmitStep(link, s, packet, p), bound + 1)
  {
    hide Transmit, Admits, DataBytes;
    var number := |s.numbered| + 1;
    if number < TWO_64 && p in s.pathSequence && DataBytes(number, packet).Ok? {
      TransmitCounts(link, s.(numbered := s.numbered + [packet]), TYPE_DATA, DataBytes(number, packet).value, p,
                     number, bound);
    }
  }

  lemma ArriveCounts(link: Link, s: Flow, datagram: Bytes, bound: nat)
    requires WellKeyed(link) && NetworkGenuine(link, s.numbered, s.network) && Unforged(link, s, datagram)
    requires Counting(s, bound)
    ensures Counting(ArriveStep(link, s, datagram), bound)
  {
    hide Authentic, WellKeyed, NetworkGenuine, Unforged, AcceptStep, Extracted;
    if Authentic(link, s, datagram).Some? {
      AuthenticWasSent(link, s, datagram);
      AuthenticIsOrigin(link, s, datagram);
    }
  }

  lemma StepCounts(link: Link, s: Flow, step: Step, bound: nat)
    requires WellKeyed(link) && NetworkGenuine(link, s.numbered, s.network) && Possible(link, s, step)
    requires Counting(s, bound) && bound < MAX_UINT64
    ensures Counting(Apply(link, s, step), bound + 1)
  {
    hide WellKeyed, NetworkGenuine, Unforged, SubmitStep, ArriveStep, Transmit, ReorderRuns.Apply;
    match step
    case OpenPath(p) =>
    case ClosePath(p) =>
    case Submit(packet, p) => SubmitCounts(link, s, packet, p, bound);
    case SendControl(t, payload, p) =>
      if t != TYPE_DATA && p in s.pathSequence { TransmitCounts(link, s, t, payload, p, 0, bound); }
    case Arrive(datagram) => ArriveCounts(link, s, datagram, bound);
    case PushNext(i, now, clock) =>
    case Tick(now, clock) =>
  }

  lemma {:induction false} RunCounts(link: Link, steps: seq<Step>)
    requires WellKeyed(link) && PossibleRun(link, steps) && |steps| <= MAX_UINT64
    ensures Counting(Run(link, steps), |steps|)
  {
    if steps != [] {
      RunCounts(link, steps[..|steps| - 1]);
      RunIsGood(link, steps[..|steps| - 1]);
      StepCounts(link, Run(link, steps[..|steps| - 1]), steps[|steps| - 1], |steps| - 1);
    }
  }

  /** The next packet number of a path is always fresh to its window, in runs short of 2^64 - 1 steps. */
  lemma NextIsFresh(link: Link, steps: seq<Step>, p: uint32)
    requires WellKeyed(link) && PossibleRun(link, steps) && |steps| < MAX_UINT64
    requires p in Run(link, steps).pathSequence
    ensures var s := Run(link, steps);
            s.pathSequence[p] < MAX_UINT64 && Fresh(ReceivedOn(s.receipts, p), s.pathSequence[p] + 1)
  {
    RunCounts(link, steps);
  }

  /** If every numbered packet reached the buffer and nothing was skipped, the output is exactly the input. */
  lemma {:induction false} LosslessWhenAllArrive(link: Link, steps: seq<Step>)
    requires WellKeyed(link) && PossibleRun(link, steps)
    requires forall n :: 1 <= n <= |Run(link, steps).numbered| ==> n in Run(link, steps).receiver.accepted
    requires Run(link, steps).receiver.skipped == 0
    ensures |Run(link, steps).numbered| < MAX_UINT64
    ensures var s := Run(link, steps);
            s.receiver.delivered == Numbered(s.numbered) && s.receiver.buffer.pending == map[]
  {
    RunIsGood(link, steps);
    EndToEnd(link, steps);
    var s := Run(link, steps);
    assert s.receiver.buffer.expected !in s.receiver.accepted;
    assert s.receiver.buffer.expected == |s.numbered| + 1;
    assert forall n :: n in s.receiver.buffer.pending ==> n in s.receiver.accepted;
    assert s.receiver.buffer.pending == map[];
    FullIsNumbered(s.receiver.delivered, s.numbered);
  }

  /** Everything numbered has been delivered or skipped: the next packet is the expected one. */
  ghost predicate NoGap(s: Flow) {
    s.receiver.buffer.expected == |s.numbered| + 1
  }

  /** What is in the network may arrive. */
  lemma NetworkIsUnforged(link: Link, s: Flow, datagram: Bytes)
    requires WellKeyed(link) && NetworkGenuine(link, s.numbered, s.network) && datagram in s.network
    ensures Unforged(link, s, datagram)
  {
    var o := s.network[datagram];
    assert Genuine(link, s.numbered, datagram, o);
    SealedRoundTrip(link.key(o.header.pathID), o.header, link.direction, o.payload);
    assert IsSealing(link, o, datagram);
    forall h | Opens(link, h, datagram) ensures WasSealed(link, s, h, datagram) {
      HeaderInverse(datagram, h);
    }
  }

  /** With no gap, the expected packet is delivered the moment it is pushed. */
  lemma PushDeliversNext(link: Link, s: Flow, packet: Bytes, now: int, clock: int)
    requires Good(link, s) && s.numbered != [] && s.receiver.buffer.expected == |s.numbered|
    ensures var number := |s.numbered|;
            var r := ReorderRuns.Apply(link.limits, s.receiver, Push(number, packet, now, clock));
            && r.delivered == s.receiver.delivered + [Entry(number, packet)] && r.skipped == s.receiver.skipped
            && r.buffer.expected == number + 1
  {
    assert forall n :: n in s.receiver.buffer.pending ==> n in s.receiver.accepted;
    assert s.receiver.buffer.pending == map[];
  }

  lemma OneMore(link: Link, steps: seq<Step>, step: Step)
    ensures Run(link, steps + [step]) == Apply(link, Run(link, steps), step)
    ensures PossibleRun(link, steps + [step]) <==> PossibleRun(link, steps) && Possible(link, Run(link, steps), step)
  {
    assert (steps + [step])[..|steps|] == steps;
  }

  /** The path's window takes the path's next packet number. */
  ghost predicate Ready(s: Flow, p: uint32) {
    && p in s.windows && p in s.pathSequence && s.pathSequence[p] < MAX_UINT64
    && Fresh(ReceivedOn(s.receipts, p), s.pathSequence[p] + 1)
  }

  /** One packet's way through the tunnel. */
  lemma TripDelivers(link: Link, s: Flow, packet: Bytes, p: uint32, now: int, clock: int) returns (datagram: Bytes)
    requires WellKeyed(link) && Good(link, s) && NoGap(s) && |s.numbered| + 1 < MAX_UINT64 && Ready(s, p)
    requires Admits(link, packet) && |packet| <= 65_484
    ensures var s1 := SubmitStep(link, s, packet, p);
            var s2 := ArriveStep(link, s1, datagram);
            && Unforged(link, s1, datagram) && |s.inFlight| < |s2.inFlight|
            && var s3 := DeliverStep(link, s2, |s.inFlight|, now, clock);
               && NoGap(s3) && s3.numbered == s.numbered + [packet] && s3.windows.Keys == s.windows.Keys
               && s3.receiver.delivered == s.receiver.delivered + [Entry(|s.numbered| + 1, packet)]
               && s3.receiver.skipped == s.receiver.skipped
  {
    hide WellKeyed, Good, Fresh, SubmitStep, Admits, ArriveStep, ReorderRuns.Apply, Unforged, Conveys, Sound;
    datagram := SubmitMeaning(link, s, packet, p);
    var s1 := SubmitStep(link, s, packet, p);
    SubmitKeepsGood(link, s, packet, p);
    GoodIsGenuine(link, s1);
    NetworkIsUnforged(link, s1, datagram);
    ArrivalMeaning(link, s1, datagram);
    assert ArriveStep(link, s1, datagram).inFlight[|s.inFlight|] == Entry(|s.numbered| + 1, packet);
    PushDeliversNext(link, s1, packet, now, clock);
  }

  lemma GoodIsGenuine(link: Link, s: Flow)
    requires Good(link, s)
    ensures NetworkGenuine(link, s.numbered, s.network)
  {
  }

  /** The tunnel carries packets: after any run that left no gap, a packet of the right address and size that is
      submitted on an open path, and whose datagram arrives and is pushed, comes out next, under the next number. */
  lemma DeliversNext(link: Link, steps: seq<Step>, packet: Bytes, p: uint32, now: int, clock: int)
    returns (datagram: Bytes, run: seq<Step>)
    requires WellKeyed(link) && PossibleRun(link, steps) && NoGap(Run(link, steps))
    requires |steps| < MAX_UINT64 && |Run(link, steps).numbered| + 1 < MAX_UINT64
    requires p in Run(link, steps).windows && Admits(link, packet) && |packet| <= 65_484
    ensures run == steps + [Submit(packet, p)] + [Arrive(datagram)]
                   + [PushNext(|Run(link, steps).inFlight|, now, clock)]
    ensures PossibleRun(link, run) && NoGap(Run(link, run))
    ensures var s, s' := Run(link, steps), Run(link, run);
            && s'.numbered == s.numbered + [packet] && s'.windows.Keys == s.windows.Keys
            && s'.receiver.delivered == s.receiver.delivered + [Entry(|s.numbered| + 1, packet)]
            && s'.receiver.skipped == s.receiver.skipped
  {
    hide WellKeyed, Fresh, SubmitStep, Admits, ArriveStep, DeliverStep, Unforged, Run, PossibleRun, NoGap;
    var s := Run(link, steps);
    RunIsGood(link, steps);
    NextIsFresh(link, steps, p);
    datagram := TripDelivers(link, s, packet, p, now, clock);
    var steps1 := steps + [Submit(packet, p)];
    var steps2 := steps1 + [Arrive(datagram)];
    run := steps2 + [PushNext(|s.inFlight|, now, clock)];
    OneMore(link, steps, Submit(packet, p));
    OneMore(link, steps1, Arrive(datagram));
    OneMore(link, steps2, PushNext(|s.inFlight|, now, clock));
  }

  /** Packets sent one after another, each on a path of its own choosing, over a network that loses nothing, come out
      unchanged, all of them and in order. */
  lemma {:induction false} DeliversAll(link: Link, steps: seq<Step>, sends: seq<(Bytes, uint32)>, now: int, clock: int)
    returns (run: seq<Step>)
    requires WellKeyed(link) && PossibleRun(link, steps) && NoGap(Run(link, steps))
    requires |steps| + 3 * |sends| < MAX_UINT64 && |Run(link, steps).numbered| + |sends| < MAX_UINT64
    requires forall i :: 0 <= i < |sends| ==> CanTravel(link, Run(link, steps).windows.Keys, sends[i])
    ensures steps <= run && PossibleRun(link, run)
    ensures Run(link, run).numbered == Run(link, steps).numbered + Payloads(sends)
    ensures |Run(link, steps).numbered| <= |Run(link, run).numbered| < MAX_UINT64
    ensures Run(link, run).receiver.skipped == Run(link, steps).receiver.skipped
    ensures Run(link, steps).receiver.skipped == 0 ==>
              Run(link, run).receiver.delivered == Numbered(Run(link, run).numbered)
    decreases |sends|
  {
    hide WellKeyed, Run, PossibleRun, NoGap, Admits, Good, Numbered;
    run := steps;
    RunIsShort(link, steps);
    if sends == [] {
      if Run(link, steps).receiver.skipped == 0 { NothingMissing(link, steps); }
    } else {
      var (packet, p) := sends[0];
      assert CanTravel(link, Run(link, steps).windows.Keys, sends[0]);
      var _, run1 := DeliversNext(link, steps, packet, p, now, clock);
      assert forall i :: 0 <= i < |sends[1..]| ==> sends[1..][i] == sends[i + 1];
      run := DeliversAll(link, run1, sends[1..], now, clock);
    }
  }

  lemma RunIsShort(link: Link, steps: seq<Step>)
    requires WellKeyed(link) && PossibleRun(link, steps)
    ensures |Run(link, steps).numbered| < MAX_UINT64
  {
    RunIsGood(link, steps);
  }

  /** A packet and a path it can be sent over. */
  ghost predicate CanTravel(link: Link, open: set<uint32>, send: (Bytes, uint32)) {
    Admits(link, send.0) && |send.0| <= 65_484 && send.1 in open
  }

  ghost function Payloads(sends: seq<(Bytes, uint32)>): seq<Bytes> {
    if sends == [] then [] else [sends[0].0] + Payloads(sends[1..])
  }

  lemma NothingMissing(link: Link, steps: seq<Step>)
    requires WellKeyed(link) && PossibleRun(link, steps) && NoGap(Run(link, steps))
    requires Run(link, steps).receiver.skipped == 0
    ensures |Run(link, steps).numbered| < MAX_UINT64
    ensures Run(link, steps).receiver.delivered == Numbered(Run(link, steps).numbered)
  {
    RunIsGood(link, steps);
    EndToEnd(link, steps);
    FullIsNumbered(Run(link, steps).receiver.delivered, Run(link, steps).numbered);
  }

  /** Opening the path of each packet to be sent. */
  ghost function Openings(sends: seq<(Bytes, uint32)>): seq<Step> {
    if sends == [] then [] else Openings(sends[..|sends| - 1]) + [OpenPath(sends[|sends| - 1].1)]
  }

  lemma {:induction false} OpeningsOpen(link: Link, sends: seq<(Bytes, uint32)>)
    requires WellKeyed(link)
    ensures |Openings(sends)| == |sends| && PossibleRun(link, Openings(sends))
    ensures var s := Run(link, Openings(sends));
            && s == Initial().(pathSequence := s.pathSequence, windows := s.windows)
            && (forall i :: 0 <= i < |sends| ==> sends[i].1 in s.windows)
            && s.pathSequence.Keys == s.windows.Keys && (forall p :: p in s.pathSequence ==> s.pathSequence[p] == 0)
  {
    hide SubmitStep, ArriveStep, DeliverStep, Transmit, WellKeyed;
    if sends != [] {
      OpeningsOpen(link, sends[..|sends| - 1]);
      OneMore(link, Openings(sends[..|sends| - 1]), OpenPath(sends[|sends| - 1].1));
    }
  }

  /** From the start: paths are opened, packets of the right address and size are sent over them in any distribution,
      nothing is lost, and exactly those packets come out, in order. */
  lemma TunnelDelivers(link: Link, sends: seq<(Bytes, uint32)>, now: int, clock: int) returns (run: seq<Step>)
    requires WellKeyed(link) && 4 * |sends| < MAX_UINT64
    requires forall i :: 0 <= i < |sends| ==> Admits(link, sends[i].0) && |sends[i].0| <= 65_484
    ensures Openings(sends) <= run && PossibleRun(link, run)
    ensures Run(link, run).numbered == Payloads(sends) && |Payloads(sends)| < MAX_UINT64
    ensures Run(link, run).receiver.delivered == Numbered(Payloads(sends))
  {
    OpeningsOpen(link, sends);
    run := DeliversAll(link, Openings(sends), sends, now, clock);
  }
}
