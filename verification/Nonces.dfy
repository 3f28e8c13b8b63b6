/**
 GCM nonces of one session (internal/engine/server.go:299-303 and 810-817, internal/engine/client.go:684-692):
 path ids come from a 32-bit counter, packet numbers from a 64-bit counter per path and direction.
 Section 8.2.1 of NIST SP 800-38D asks that no nonce be used twice under one key; here no nonce is
 used twice in the whole session.
 */
module Nonces {
  import opened Words
  import opened Wire
  import opened Protocol

  /** What `send` does from the last number sent: the number it spends, and the datagram under it. */
  function SendStep(aead: Aead, sessionID: uint64, pathID: uint32, direction: Direction, last: uint64, packetType: byte,
                    payload: Bytes): (uint64, Result<Bytes, Error>)
  {
    var sequence := Succ64(last);
    (sequence, Seal(aead, Header(packetType, 0, sessionID, pathID, sequence), direction, payload))
  }

  datatype Counters = Counters(id: uint32, client: uint64, server: uint64)

  /** The `count`-th packet a path sent in a direction. */
  datatype Use = Use(path: nat, direction: Direction, count: nat)

  /** What decides a sent packet's nonce. */
  datatype Stamp = Stamp(id: uint32, sequence: uint64, direction: Direction)

  datatype Session = Session(nextPathID: uint32, paths: seq<Counters>, uses: seq<Use>, stamps: seq<Stamp>)

  datatype Op = Handshake | Send(path: nat, direction: Direction)

  function Succ32(x: uint32): uint32 {
    if x == TWO_32 - 1 then 0 else x + 1
  }

  function Counter(c: Counters, d: Direction): uint64 {
    if d == ClientToServer then c.client else c.server
  }

  function Bump(c: Counters, d: Direction): Counters {
    if d == ClientToServer then c.(client := Succ64(c.client)) else c.(server := Succ64(c.server))
  }

  /** How often `path` has sent in direction `d`. */
  function Sent(uses: seq<Use>, path: nat, d: Direction): nat {
    if uses == [] then 0
    else
      var last := uses[|uses| - 1];
      Sent(uses[..|uses| - 1], path, d) + (if last.path == path && last.direction == d then 1 else 0)
  }

  /** A `uint64` counter after `n` increments. */
  function Counted64(n: nat): uint64 {
    if n == 0 then 0 else Succ64(Counted64(n - 1))
  }

  lemma {:induction false} CountedValue(n: nat)
    requires n <= TWO_64
    ensures Counted64(n) == if n == TWO_64 then 0 else n
  {
    if n > 0 { CountedValue(n - 1); }
  }

  function Apply(s: Session, op: Op): Session {
    match op
    case Handshake =>
      var id := Succ32(s.nextPathID);
      if id == 0 || id >= TWO_31 then s.(nextPathID := id)
      else s.(nextPathID := id, paths := s.paths + [Counters(id, 0, 0)])
    case Send(path, d) =>
      if path >= |s.paths| then s else
        var c := Bump(s.paths[path], d);
        Session(s.nextPathID, s.paths[path := c], s.uses + [Use(path, d, Sent(s.uses, path, d) + 1)],
                s.stamps + [Stamp(c.id, Counter(c, d), d)])
  }

  function Run(ops: seq<Op>): Session {
    if ops == [] then Session(0, [], [], []) else Apply(Run(ops[..|ops| - 1]), ops[|ops| - 1])
  }

  function Handshakes(ops: seq<Op>): nat {
    if ops == [] then 0
    else Handshakes(ops[..|ops| - 1]) + (if ops[|ops| - 1].Handshake? then 1 else 0)
  }

  // ----- path ids -----

  ghost predicate IdsIncrease(paths: seq<Counters>, handshakes: nat) {
    && (forall i :: 0 <= i < |paths| ==> 0 < paths[i].id <= handshakes && paths[i].id < TWO_31)
    && (forall i, j :: 0 <= i < j < |paths| ==> paths[i].id < paths[j].id)
  }

  /** The `uint32` handshake counter after `n` increments. */
  function Counted32(n: nat): uint32 {
    if n == 0 then 0 else Succ32(Counted32(n - 1))
  }

  lemma {:induction false} Counted32Value(n: nat)
    requires n <= TWO_32
    ensures Counted32(n) == if n == TWO_32 then 0 else n
  {
    if n > 0 { Counted32Value(n - 1); }
  }

  /** Sends leave ids and the handshake counter alone. */
  lemma {:induction false} CounterCountsHandshakes(ops: seq<Op>)
    ensures Run(ops).nextPathID == Counted32(Handshakes(ops))
  {
    if ops != [] { CounterCountsHandshakes(ops[..|ops| - 1]); }
  }

  /** Until the handshake counter has gone all the way round, path ids are distinct and below 2^31. */
  lemma {:induction false} PathIdsIncrease(ops: seq<Op>)
    requires Handshakes(ops) <= TWO_32
    ensures IdsIncrease(Run(ops).paths, Handshakes(ops))
  {
    if ops != [] {
      var front := ops[..|ops| - 1];
      PathIdsIncrease(front);
      CounterCountsHandshakes(ops);
      Counted32Value(Handshakes(ops));
    }
  }

  /** Once it has, the first id is handed out again. */
  lemma {:induction false} FirstIdComesBack(ops: seq<Op>)
    ensures Handshakes(ops) >= 1 ==> |Run(ops).paths| >= 1 && Run(ops).paths[0].id == 1
    ensures Handshakes(ops) > TWO_32 ==> exists i :: 0 < i < |Run(ops).paths| && Run(ops).paths[i].id == 1
  {
    if ops != [] {
      var front, last := ops[..|ops| - 1], ops[|ops| - 1];
      FirstIdComesBack(front);
      CounterCountsHandshakes(ops);
      var before, after := Run(front), Run(ops);
      assert |before.paths| <= |after.paths| && forall i :: 0 <= i < |before.paths| ==>
          after.paths[i].id == before.paths[i].id;
      if Handshakes(front) == 0 && last.Handshake? {
        Counted32Value(1);
        FirstPath(front);
      } else if Handshakes(front) == TWO_32 && last.Handshake? {
        Counted32Value(TWO_32);
        assert Counted32(TWO_32 + 1) == 1;
        assert after.paths[|before.paths|].id == 1;
      } else if Handshakes(front) > TWO_32 {
        var i :| 0 < i < |before.paths| && before.paths[i].id == 1;
        assert after.paths[i].id == 1;
      }
    }
  }

  lemma {:induction false} FirstPath(ops: seq<Op>)
    requires Handshakes(ops) == 0
    ensures Run(ops).paths == []
  {
    if ops != [] { FirstPath(ops[..|ops| - 1]); }
  }

  lemma PathIdsDistinctIff(ops: seq<Op>)
    ensures (forall i, j :: 0 <= i < j < |Run(ops).paths| ==> Run(ops).paths[i].id != Run(ops).paths[j].id)
            <==> Handshakes(ops) <= TWO_32
  {
    if Handshakes(ops) <= TWO_32 { PathIdsIncrease(ops); }
    FirstIdComesBack(ops);
  }

  // ----- uses -----

  /** Entry `i` of the log: an actual send, and the stamp it got. */
  ghost predicate IsUse(s: Session, i: nat)
    requires i < |s.uses| == |s.stamps|
  {
    var u := s.uses[i];
    && u.path < |s.paths|
    && 1 <= u.count <= Sent(s.uses, u.path, u.direction)
    && s.stamps[i] == Stamp(s.paths[u.path].id, Counted64(u.count), u.direction)
  }

  ghost predicate Logged(s: Session) {
    && |s.stamps| == |s.uses|
    && (forall i :: 0 <= i < |s.uses| ==> IsUse(s, i))
    && (forall i, j :: 0 <= i < j < |s.uses| ==> s.uses[i] != s.uses[j])
  }

  ghost predicate Counted(s: Session) {
    forall p, d :: 0 <= p < |s.paths| ==> Counter(s.paths[p], d) == Counted64(Sent(s.uses, p, d))
  }

  /** Each send from the first to the last is in the log. */
  ghost predicate Complete(s: Session) {
    forall p, d, k :: 1 <= k <= Sent(s.uses, p, d) ==> Use(p, d, k) in s.uses
  }

  lemma SentGrows(uses: seq<Use>, u: Use, path: nat, d: Direction)
    ensures Sent(uses + [u], path, d) == Sent(uses, path, d) + (if u.path == path && u.direction == d then 1 else 0)
  {
    assert (uses + [u])[..|uses|] == uses;
  }

  lemma {:induction false} NoUseNoSends(uses: seq<Use>, path: nat, d: Direction)
    requires forall i :: 0 <= i < |uses| ==> uses[i].path != path
    ensures Sent(uses, path, d) == 0
  {
    if uses != [] { NoUseNoSends(uses[..|uses| - 1], path, d); }
  }

  lemma HandshakeKeepsLog(s: Session)
    requires Logged(s) && Counted(s) && Complete(s)
    ensures var s' := Apply(s, Handshake); Logged(s') && Counted(s') && Complete(s')
  {
    var s' := Apply(s, Handshake);
    forall i | 0 <= i < |s'.uses| ensures IsUse(s', i) { assert IsUse(s, i); }
    forall d ensures Sent(s.uses, |s.paths|, d) == 0 {
      forall i | 0 <= i < |s.uses| ensures s.uses[i].path != |s.paths| { assert IsUse(s, i); }
      NoUseNoSends(s.uses, |s.paths|, d);
    }
  }

  lemma SendCounts(s: Session, path: nat, d: Direction)
    requires path < |s.paths| && Counted(s)
    ensures Counted(Apply(s, Send(path, d)))
    ensures forall p, e :: Sent(Apply(s, Send(path, d)).uses, p, e)
                        == Sent(s.uses, p, e) + (if p == path && e == d then 1 else 0)
  {
    var s' := Apply(s, Send(path, d));
    forall p, e ensures Sent(s'.uses, p, e) == Sent(s.uses, p, e) + (if p == path && e == d then 1 else 0) {
      SentGrows(s.uses, Use(path, d, Sent(s.uses, path, d) + 1), p, e);
    }
  }

  lemma SendKeepsLog(s: Session, path: nat, d: Direction)
    requires path < |s.paths| && Logged(s) && Counted(s)
    ensures Logged(Apply(s, Send(path, d)))
  {
    var s' := Apply(s, Send(path, d));
    SendCounts(s, path, d);
    forall i | 0 <= i < |s'.uses| ensures IsUse(s', i) {
      if i < |s.uses| { assert IsUse(s, i); }
    }
    forall i | 0 <= i < |s.uses| ensures s.uses[i] != s'.uses[|s.uses|] { assert IsUse(s, i); }
  }

  lemma SendKeepsComplete(s: Session, path: nat, d: Direction)
    requires path < |s.paths| && Complete(s) && Counted(s)
    ensures Complete(Apply(s, Send(path, d)))
  {
    var s' := Apply(s, Send(path, d));
    SendCounts(s, path, d);
    forall p, e, k | 1 <= k <= Sent(s'.uses, p, e) ensures Use(p, e, k) in s'.uses {
      if k <= Sent(s.uses, p, e) {
        assert Use(p, e, k) in s.uses;
      } else {
        assert s'.uses[|s.uses|] == Use(p, e, k);
      }
    }
  }

  lemma {:induction false} RunKeepsLog(ops: seq<Op>)
    ensures Logged(Run(ops)) && Counted(Run(ops)) && Complete(Run(ops))
  {
    if ops != [] {
      RunKeepsLog(ops[..|ops| - 1]);
      var s := Run(ops[..|ops| - 1]);
      match ops[|ops| - 1]
      case Handshake => HandshakeKeepsLog(s);
      case Send(path, d) =>
        if path < |s.paths| {
          SendCounts(s, path, d);
          SendKeepsLog(s, path, d);
          SendKeepsComplete(s, path, d);
        }
    }
  }

  // ----- nonces -----

  function Nonce(t: Stamp): Bytes {
    PacketNonce(t.id, t.sequence, t.direction)
  }

  ghost predicate NoncesDistinct(stamps: seq<Stamp>) {
    forall i, j :: 0 <= i < j < |stamps| ==> Nonce(stamps[i]) != Nonce(stamps[j])
  }

  /** With at most 2^32 handshakes, no nonce of the session repeats exactly while no path has sent more
      than 2^64 packets in one direction. */
  lemma NoncesDistinctIff(ops: seq<Op>)
    requires Handshakes(ops) <= TWO_32
    ensures NoncesDistinct(Run(ops).stamps) <==> WithinLimits(Run(ops))
  {
    PathIdsIncrease(ops);
    RunKeepsLog(ops);
    var s := Run(ops);
    if forall p, d :: 0 <= p < |s.paths| ==> Sent(s.uses, p, d) <= TWO_64 {
      forall i, j | 0 <= i < j < |s.stamps| ensures Nonce(s.stamps[i]) != Nonce(s.stamps[j]) {
        DifferentUses(s, Handshakes(ops), i, j);
      }
    } else {
      var p, d :| 0 <= p < |s.paths| && Sent(s.uses, p, d) > TWO_64;
      Wraps(s, p, d);
    }
  }

  lemma DifferentUses(s: Session, handshakes: nat, i: nat, j: nat)
    requires Logged(s) && IdsIncrease(s.paths, handshakes) && i < j < |s.uses|
    requires forall p, d :: 0 <= p < |s.paths| ==> Sent(s.uses, p, d) <= TWO_64
    ensures Nonce(s.stamps[i]) != Nonce(s.stamps[j])
  {
    assert IsUse(s, i) && IsUse(s, j);
    var u, v := s.uses[i], s.uses[j];
    assert u != v;
    assert u.count <= TWO_64 && v.count <= TWO_64;
    DifferentStamps(s.paths[u.path].id, s.paths[v.path].id, u, v);
  }

  lemma DifferentStamps(a: uint32, b: uint32, u: Use, v: Use)
    requires a < TWO_31 && b < TWO_31 && u != v && (a == b ==> u.path == v.path)
    requires 1 <= u.count <= TWO_64 && 1 <= v.count <= TWO_64
    ensures Nonce(Stamp(a, Counted64(u.count), u.direction)) != Nonce(Stamp(b, Counted64(v.count), v.direction))
  {
    hide Counted64, PacketNonce;
    if u.count != v.count { CountsDiffer(u.count, v.count); }
    NonceEqualIff(a, Counted64(u.count), u.direction, b, Counted64(v.count), v.direction);
  }

  lemma CountsDiffer(m: nat, n: nat)
    requires 1 <= m <= TWO_64 && 1 <= n <= TWO_64 && m != n
    ensures Counted64(m) != Counted64(n)
  {
    hide Counted64;
    CountedValue(m);
    CountedValue(n);
  }

  /** The packet after the 2^64th repeats the nonce of the first. */
  lemma Wraps(s: Session, p: nat, d: Direction)
    requires Logged(s) && Complete(s) && p < |s.paths| && Sent(s.uses, p, d) > TWO_64
    ensures !NoncesDistinct(s.stamps)
  {
    var first, again := Use(p, d, 1), Use(p, d, TWO_64 + 1);
    assert first in s.uses && again in s.uses;
    var i :| 0 <= i < |s.uses| && s.uses[i] == first;
    var j :| 0 <= j < |s.uses| && s.uses[j] == again;
    assert IsUse(s, i) && IsUse(s, j);
    CountedValue(TWO_64);
    CountedValue(0);
    assert s.stamps[i] == s.stamps[j] && i != j;
  }

  // ----- the object -----

  /** One end of a path: `clientPath` and `serverPath` send alike, in opposite directions. */
  class PathEnd {
    const sessionID: uint64
    const pathID: uint32
    const direction: Direction
    var sequence: uint64

    constructor (sessionID: uint64, pathID: uint32, direction: Direction)
      ensures this.sessionID == sessionID && this.pathID == pathID && this.direction == direction && sequence == 0
    {
      this.sessionID, this.pathID, this.direction, this.sequence := sessionID, pathID, direction, 0;
    }

    /** This is the end of path `path` of session `s` that sends in this direction. */
    ghost predicate Speaks(s: Session, path: nat)
      reads this
    {
      path < |s.paths| && s.paths[path].id == pathID && Counter(s.paths[path], direction) == sequence
    }

    /** Sends in a session that has come about by `ops`. The packet's stamp is the session's next, its nonce is one
        the session has not used within its limits, and it opens to what was sent. */
    method Send(aead: Aead, packetType: byte, payload: Bytes, ghost ops: seq<Op>, ghost path: nat)
      returns (r: Result<Bytes, Error>)
      requires Speaks(Run(ops), path)
      modifies this
      ensures (sequence, r) == SendStep(aead, sessionID, pathID, direction, old(sequence), packetType, payload)
      ensures Speaks(Run(ops + [Op.Send(path, direction)]), path)
      ensures Run(ops + [Op.Send(path, direction)]).stamps == Run(ops).stamps + [Stamp(pathID, sequence, direction)]
      ensures Handshakes(ops) <= TWO_32 && WithinLimits(Run(ops + [Op.Send(path, direction)])) ==>
                forall t :: t in Run(ops).stamps ==> Nonce(t) != PacketNonce(pathID, sequence, direction)
      ensures Correct(aead) && r.Ok? ==>
                && ParseHeader(r.value) == Ok(Header(packetType, 0, sessionID, pathID, sequence))
                && Open(aead, Header(packetType, 0, sessionID, pathID, sequence), direction, r.value) == Ok(payload)
    {
      sequence := Succ64(sequence);
      r := Seal(aead, Header(packetType, 0, sessionID, pathID, sequence), direction, payload);
      assert (ops + [Op.Send(path, direction)])[..|ops|] == ops;
      NextIsFresh(ops, path, direction);
      if Correct(aead) && r.Ok? {
        SealedRoundTrip(aead, Header(packetType, 0, sessionID, pathID, sequence), direction, payload);
      }
    }
  }

  /** No path has sent more than 2^64 packets in one direction. */
  ghost predicate WithinLimits(s: Session) {
    forall p, d :: 0 <= p < |s.paths| ==> Sent(s.uses, p, d) <= TWO_64
  }

  /** Within the limits the next packet's nonce is new. */
  lemma NextIsFresh(ops: seq<Op>, path: nat, d: Direction)
    requires path < |Run(ops).paths|
    ensures Run(ops + [Send(path, d)]) == Apply(Run(ops), Send(path, d))
    ensures Handshakes(ops) <= TWO_32 && WithinLimits(Run(ops + [Send(path, d)])) ==>
              forall t :: t in Run(ops).stamps ==>
                Nonce(t) != Nonce(Run(ops + [Send(path, d)]).stamps[|Run(ops).stamps|])
  {
    var more := ops + [Send(path, d)];
    assert more[..|ops|] == ops;
    if Handshakes(ops) <= TWO_32 && WithinLimits(Run(more)) {
      NoncesDistinctIff(more);
      forall t | t in Run(ops).stamps ensures Nonce(t) != Nonce(Run(more).stamps[|Run(ops).stamps|]) {
        var i :| 0 <= i < |Run(ops).stamps| && Run(ops).stamps[i] == t;
        assert Run(more).stamps[i] == t;
      }
    }
  }

  /** A new path's two ends start where the session's counters do. */
  lemma NewPathStarts(ops: seq<Op>)
    requires |Run(ops + [Handshake]).paths| > |Run(ops).paths|
    ensures var s := Run(ops + [Handshake]);
            var c := s.paths[|Run(ops).paths|];
            |s.paths| == |Run(ops).paths| + 1 && c == Counters(s.nextPathID, 0, 0) && s.stamps == Run(ops).stamps
  {
    assert (ops + [Handshake])[..|ops|] == ops;
  }
}
