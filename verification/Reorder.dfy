/**
 Ordered delivery (internal/reorder/reorder.go): a buffer that releases packets in
 sequence order and gives up on a gap when it has waited too long or holds too much.

 `State` and the functions over it say what one call does; `Buffer` is the object the
 program keeps, each method proved to do that. The lemmas are about whole runs.
 */
module Reorder {
  import opened Words

  /** A packet together with the sequence number it was pushed under. */
  datatype Entry<T> = Entry(sequence: uint64, packet: T)

  /** The fields of a buffer; `None` is Go's zero `time.Time`. */
  datatype State<T> = State(expected: uint64, pending: map<uint64, T>, gapSince: Option<int>)

  datatype Limits = Limits(maxPackets: int, maxDelay: int)

  /** What one call hands on: the released packets in order, and how many numbers it gave up on. */
  datatype Out<T> = Out(entries: seq<Entry<T>>, skipped: uint64)

  datatype Drained<T> = Drained(entries: seq<Entry<T>>, expected: uint64, pending: map<uint64, T>)

  const DEFAULT_MAX_DELAY := 80_000_000

  function Normalize(maxPackets: int, maxDelay: int): (l: Limits)
    ensures WellFormed(l)
    ensures maxPackets >= 16 ==> l.maxPackets == maxPackets
    ensures maxPackets < 16 ==> l.maxPackets == 16
    ensures maxDelay > 0 ==> l.maxDelay == maxDelay
    ensures maxDelay <= 0 ==> l.maxDelay == 80_000_000
  {
    Limits(if maxPackets < 16 then 16 else maxPackets,
           if maxDelay <= 0 then DEFAULT_MAX_DELAY else maxDelay)
  }

  predicate WellFormed(l: Limits) {
    l.maxPackets >= 16 && l.maxDelay > 0
  }

  function Packets<T>(entries: seq<Entry<T>>): (r: seq<T>)
    ensures |r| == |entries|
    ensures forall i :: 0 <= i < |r| ==> r[i] == entries[i].packet
  {
    seq(|entries|, i requires 0 <= i < |entries| => entries[i].packet)
  }

  // ----- one call -----

  function Drain<T>(expected: uint64, pending: map<uint64, T>): Drained<T>
    decreases |pending|
  {
    if expected in pending then
      var rest := Drain(Succ64(expected), pending - {expected});
      Drained([Entry(expected, pending[expected])] + rest.entries, rest.expected, rest.pending)
    else
      Drained([], expected, pending)
  }

  /** Draining with `done` already out. */
  function DrainAfter<T>(done: seq<Entry<T>>, expected: uint64, pending: map<uint64, T>): Drained<T> {
    var d := Drain(expected, pending);
    Drained(done + d.entries, d.expected, d.pending)
  }

  lemma DrainOne<T>(done: seq<Entry<T>>, expected: uint64, pending: map<uint64, T>)
    requires expected in pending
    ensures DrainAfter(done, expected, pending)
         == DrainAfter(done + [Entry(expected, pending[expected])], Succ64(expected), pending - {expected})
    ensures Packets(done + [Entry(expected, pending[expected])]) == Packets(done) + [pending[expected]]
  {
    var e := [Entry(expected, pending[expected])];
    var rest := Drain(Succ64(expected), pending - {expected});
    assert done + (e + rest.entries) == (done + e) + rest.entries;
  }

  ghost predicate IsLowest(k: uint64, keys: set<uint64>) {
    k in keys && forall j :: j in keys ==> k <= j
  }

  lemma LowestExists(keys: set<uint64>)
    requires keys != {}
    ensures exists k :: IsLowest(k, keys)
    decreases |keys|
  {
    var k :| k in keys;
    if keys == {k} {
      assert IsLowest(k, keys);
    } else {
      assert keys == {k} + (keys - {k});
      LowestExists(keys - {k});
      var m :| IsLowest(m, keys - {k});
      var least := if k <= m then k else m;
      forall j | j in keys ensures least <= j {
        assert j == k || j in keys - {k};
      }
      assert IsLowest(least, keys);
    }
  }

  ghost function Lowest(keys: set<uint64>): (k: uint64)
    requires keys != {}
    ensures IsLowest(k, keys)
  {
    LowestExists(keys);
    var k :| IsLowest(k, keys);
    k
  }

  /** The state and output after draining from `expected`; `clock` is the wall-clock reading drain takes. */
  function Release<T>(expected: uint64, pending: map<uint64, T>, prefix: seq<Entry<T>>, skipped: uint64, clock: int)
    : (State<T>, Out<T>)
  {
    var d := Drain(expected, pending);
    (State(d.expected, d.pending, if d.pending == map[] then None else Some(clock)), Out(prefix + d.entries, skipped))
  }

  ghost function ForceDrainStep<T>(b: State<T>, clock: int): (State<T>, Out<T>) {
    if b.pending == map[] then (b, Out([], 0)) else
      var lowest := Lowest(b.pending.Keys);
      Release(lowest, b.pending, [], Sub64(lowest, b.expected), clock)
  }

  /** A push of a number beyond the gap trips the size or the age limit. */
  predicate PushForces<T>(l: Limits, b: State<T>, sequence: uint64, now: int) {
    && sequence > b.expected
    && sequence !in b.pending
    && (|b.pending| + 1 >= l.maxPackets || (b.gapSince.Some? && now - b.gapSince.value >= l.maxDelay))
  }

  predicate Expired<T>(l: Limits, b: State<T>, now: int) {
    |b.pending| != 0 && b.gapSince.Some? && now - b.gapSince.value >= l.maxDelay
  }

  ghost function PushStep<T>(l: Limits, b: State<T>, sequence: uint64, packet: T, now: int, clock: int)
    : (State<T>, Out<T>)
  {
    if sequence < b.expected then
      (b, Out([], 0))
    else if sequence == b.expected then
      Release(Succ64(b.expected), b.pending, [Entry(sequence, packet)], 0, clock)
    else if sequence in b.pending then
      (b, Out([], 0))
    else
      var gapSince := if b.gapSince.None? then Some(now) else b.gapSince;
      var waiting := State(b.expected, b.pending[sequence := packet], gapSince);
      if |waiting.pending| >= l.maxPackets || now - waiting.gapSince.value >= l.maxDelay then
        ForceDrainStep(waiting, clock)
      else
        (waiting, Out([], 0))
  }

  ghost function FlushStep<T>(l: Limits, b: State<T>, now: int, clock: int): (State<T>, Out<T>) {
    if Expired(l, b, now) then ForceDrainStep(b, clock) else (b, Out([], 0))
  }

  // ----- the object -----

  class Buffer<T> {
    var expected: uint64
    var pending: map<uint64, T>
    var gapSince: Option<int>
    const limits: Limits

    ghost function Model(): State<T>
      reads this
    {
      State(expected, pending, gapSince)
    }

    constructor (maxPackets: int, maxDelay: int)
      ensures Model() == State(1, map[], None) && limits == Normalize(maxPackets, maxDelay)
    {
      expected := 1;
      pending := map[];
      gapSince := None;
      limits := Normalize(maxPackets, maxDelay);
    }

    method Reset()
      modifies this
      ensures Model() == State(1, map[], None)
    {
      expected := 1;
      pending := map[];
      gapSince := None;
    }

    method Push(sequence: uint64, packet: T, now: int, clock: int) returns (packets: seq<T>, skipped: uint64)
      modifies this
      ensures var (b, out) := PushStep(limits, old(Model()), sequence, packet, now, clock);
              Model() == b && packets == Packets(out.entries) && skipped == out.skipped
    {
      packets, skipped := [], 0;
      if sequence < expected {
        return;
      }
      if sequence == expected {
        expected := Succ64(expected);
        ghost var d := Drain(expected, pending);
        var more := DrainReady(clock);
        packets := [packet] + more;
        assert packets == Packets([Entry(sequence, packet)] + d.entries);
        return;
      }
      if sequence in pending {
        return;
      }
      pending := pending[sequence := packet];
      if gapSince.None? {
        gapSince := Some(now);
      }
      if |pending| >= limits.maxPackets || now - gapSince.value >= limits.maxDelay {
        packets, skipped := ForceDrain(clock);
      }
    }

    method FlushExpired(now: int, clock: int) returns (packets: seq<T>, skipped: uint64)
      modifies this
      ensures var (b, out) := FlushStep(limits, old(Model()), now, clock);
              Model() == b && packets == Packets(out.entries) && skipped == out.skipped
    {
      packets, skipped := [], 0;
      if |pending| == 0 || gapSince.None? || now - gapSince.value < limits.maxDelay {
        return;
      }
      packets, skipped := ForceDrain(clock);
    }

    method DrainReady(clock: int) returns (packets: seq<T>)
      modifies this
      ensures var (b, out) := Release(old(expected), old(pending), [], 0, clock);
              Model() == b && packets == Packets(out.entries)
    {
      packets := [];
      ghost var done: seq<Entry<T>> := [];
      while expected in pending
        invariant packets == Packets(done)
        invariant DrainAfter(done, expected, pending) == DrainAfter([], old(expected), old(pending))
        decreases |pending|
      {
        var packet := pending[expected];
        DrainOne(done, expected, pending);
        done := done + [Entry(expected, packet)];
        pending := pending - {expected};
        packets := packets + [packet];
        expected := Succ64(expected);
      }
      ghost var all := Drain(old(expected), old(pending)).entries;
      assert DrainAfter(done, expected, pending).entries == done;
      assert DrainAfter([], old(expected), old(pending)).entries == all;
      gapSince := if |pending| == 0 then None else Some(clock);
    }

    method ForceDrain(clock: int) returns (packets: seq<T>, skipped: uint64)
      modifies this
      ensures var (b, out) := ForceDrainStep(old(Model()), clock);
              Model() == b && packets == Packets(out.entries) && skipped == out.skipped
    {
      if |pending| == 0 {
        return [], 0;
      }
      var lowest: uint64 := MAX_UINT64;
      var rest := pending.Keys;
      while rest != {}
        invariant rest <= pending.Keys
        invariant forall j :: j in pending && j !in rest ==> lowest <= j
        invariant lowest == MAX_UINT64 || lowest in pending
        decreases rest
      {
        var sequence :| sequence in rest;
        if sequence < lowest {
          lowest := sequence;
        }
        rest := rest - {sequence};
      }
      ghost var some :| some in pending;
      assert lowest <= some;
      assert IsLowest(lowest, pending.Keys);
      skipped := Sub64(lowest, expected);
      expected := lowest;
      packets := DrainReady(clock);
    }
  }
}
