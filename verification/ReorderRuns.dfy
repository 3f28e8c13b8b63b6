/** What every run of pushes and flushes keeps, for the buffer of internal/reorder/reorder.go. */
module ReorderRuns {
  import opened Words
  import opened Reorder

  datatype Op<T> =
    | Push(sequence: uint64, packet: T, now: int, clock: int)
    | Flush(now: int, clock: int)

  /** A buffer with the memory of its run: what came out, what was given up, what was taken in. */
  datatype History<T> = History(buffer: State<T>, delivered: seq<Entry<T>>, skipped: nat, accepted: map<uint64, T>)

  ghost predicate Takes<T>(b: State<T>, sequence: uint64) {
    b.expected <= sequence && sequence !in b.pending
  }

  ghost function Outcome<T>(l: Limits, b: State<T>, op: Op<T>): (State<T>, Out<T>) {
    match op
    case Push(sequence, packet, now, clock) => PushStep(l, b, sequence, packet, now, clock)
    case Flush(now, clock) => FlushStep(l, b, now, clock)
  }

  ghost function Apply<T>(l: Limits, h: History<T>, op: Op<T>): History<T> {
    var (b, out) := Outcome(l, h.buffer, op);
    History(b, h.delivered + out.entries, h.skipped + out.skipped,
            if op.Push? && Takes(h.buffer, op.sequence) then h.accepted[op.sequence := op.packet] else h.accepted)
  }

  ghost function Run<T>(l: Limits, ops: seq<Op<T>>): History<T> {
    if ops == [] then History(State(1, map[], None), [], 0, map[])
    else Apply(l, Run(l, ops[..|ops| - 1]), ops[|ops| - 1])
  }

  // ----- the invariant -----

  ghost predicate Valid<T>(l: Limits, b: State<T>) {
    && 1 <= b.expected
    && (forall k :: k in b.pending ==> b.expected < k)
    && |b.pending| < l.maxPackets
    && (b.gapSince.None? <==> b.pending == map[])
  }

  ghost predicate Increasing<T>(entries: seq<Entry<T>>) {
    forall i, j :: 0 <= i < j < |entries| ==> entries[i].sequence < entries[j].sequence
  }

  /** The last packet out is the one just before `expected`: a skip is always followed by a delivery. */
  ghost predicate EndsAt<T>(entries: seq<Entry<T>>, expected: uint64) {
    |entries| > 0 && entries[|entries| - 1].sequence == expected - 1
  }

  /** Order and accounting: the numbers below `expected` are the delivered ones, in increasing order,
      and as many others as were skipped. */
  ghost predicate Ordered<T>(h: History<T>) {
    && h.buffer.expected - 1 == |h.delivered| + h.skipped
    && (h.buffer.expected == 1 || EndsAt(h.delivered, h.buffer.expected))
    && Increasing(h.delivered)
    && (forall e :: e in h.delivered ==> 1 <= e.sequence < h.buffer.expected)
  }

  /** Content: every packet taken in is delivered under its number or still held, unchanged, and there
      are no others. */
  ghost predicate Remembered<T>(h: History<T>) {
    && (forall e :: e in h.delivered ==> e.sequence in h.accepted && h.accepted[e.sequence] == e.packet)
    && (forall s :: s in h.buffer.pending ==> s in h.accepted && h.accepted[s] == h.buffer.pending[s])
    && (forall s :: s in h.accepted ==> s in h.buffer.pending || Entry(s, h.accepted[s]) in h.delivered)
  }

  ghost predicate Sound<T>(l: Limits, h: History<T>) {
    Valid(l, h.buffer) && Ordered(h) && Remembered(h)
  }

  /** No push carries the one number whose successor wraps to zero. */
  ghost predicate NoWrap<T>(ops: seq<Op<T>>) {
    forall op :: op in ops ==> NotLast(op)
  }

  ghost predicate NotLast<T>(op: Op<T>) {
    op.Push? ==> op.sequence != MAX_UINT64
  }

  /** The accounting holds after every step of the run. */
  ghost predicate SoundThroughout<T>(l: Limits, ops: seq<Op<T>>) {
    Sound(l, Run(l, ops)) && (ops == [] || SoundThroughout(l, ops[..|ops| - 1]))
  }

  // ----- one call -----

  /** `d` is what is left after taking the unbroken stretch of `pending` that starts at `expected`. */
  ghost predicate TakesStretch<T>(expected: uint64, pending: map<uint64, T>, d: Drained<T>) {
    && d.expected == expected + |d.entries|
    && (forall i :: 0 <= i < |d.entries| ==>
          var e := d.entries[i]; e.sequence == expected + i && e.sequence in pending && pending[e.sequence] == e.packet)
    && (forall k :: k in d.pending ==> d.expected < k && k in pending && d.pending[k] == pending[k])
    && (forall k :: k in pending ==> if k < d.expected then Entry(k, pending[k]) in d.entries else k in d.pending)
    && |d.pending| + |d.entries| == |pending|
  }

  /** The drain went past the last 64-bit number, which it delivered. */
  ghost predicate Wrapped<T>(entries: seq<Entry<T>>, expected: uint64) {
    expected == 0 && entries != [] && entries[|entries| - 1].sequence == MAX_UINT64
  }

  /** A drain takes the unbroken stretch, unless it delivers the last 64-bit number and wraps. */
  lemma {:induction false} DrainMeaning<T>(expected: uint64, pending: map<uint64, T>)
    requires 1 <= expected && forall k :: k in pending ==> expected <= k
    ensures if Drain(expected, pending).expected == 0
            then Wrapped(Drain(expected, pending).entries, 0) && MAX_UINT64 in pending &&
              Drain(expected, pending).pending == map[]
            else TakesStretch(expected, pending, Drain(expected, pending))
    decreases |pending|
  {
    hide TakesStretch, Wrapped, Drain;
    if expected !in pending {
      DrainStops(expected, pending);
    } else if expected == MAX_UINT64 {
      DrainLast(pending);
    } else {
      var rest := pending - {expected};
      assert |rest| == |pending| - 1 by { assert rest.Keys == pending.Keys - {expected}; }
      DrainMeaning(expected + 1, rest);
      DrainGoesOn(expected, pending);
      if Drain(expected + 1, rest).expected != 0 { StretchGrows(expected, pending, Drain(expected + 1, rest)); }
    }
  }

  lemma DrainStops<T>(expected: uint64, pending: map<uint64, T>)
    requires 1 <= expected && expected !in pending && forall k :: k in pending ==> expected <= k
    ensures Drain(expected, pending).expected == expected
    ensures TakesStretch(expected, pending, Drain(expected, pending))
  {
  }

  lemma DrainGoesOn<T>(expected: uint64, pending: map<uint64, T>)
    requires expected in pending && expected < MAX_UINT64
    ensures var r := Drain(expected + 1, pending - {expected});
            && Drain(expected, pending)
               == Drained([Entry(expected, pending[expected])] + r.entries, r.expected, r.pending)
            && (Wrapped(r.entries, 0) ==> Wrapped(Drain(expected, pending).entries, 0))
  {
  }

  lemma DrainLast<T>(pending: map<uint64, T>)
    requires MAX_UINT64 in pending && forall k :: k in pending ==> MAX_UINT64 <= k
    ensures Drain(MAX_UINT64, pending) == Drained([Entry(MAX_UINT64, pending[MAX_UINT64])], 0, map[])
    ensures Wrapped(Drain(MAX_UINT64, pending).entries, 0)
  {
    var rest := pending - {MAX_UINT64};
    assert forall k :: k !in rest;
    assert rest == map[];
    assert Drain(0, rest) == Drained([], 0, rest);
  }

  lemma StretchGrows<T>(expected: uint64, pending: map<uint64, T>, r: Drained<T>)
    requires expected in pending && expected < MAX_UINT64 && forall k :: k in pending ==> expected <= k
    requires TakesStretch(expected + 1, pending - {expected}, r)
    ensures TakesStretch(expected, pending,
        Drained([Entry(expected, pending[expected])] + r.entries, r.expected, r.pending))
  {
    var first, rest := Entry(expected, pending[expected]), pending - {expected};
    var d := Drained([first] + r.entries, r.expected, r.pending);
    assert |rest| == |pending| - 1 by { assert rest.Keys == pending.Keys - {expected}; }
    forall k | k in pending && k < d.expected ensures Entry(k, pending[k]) in d.entries {
      if k == expected {
        assert d.entries[0] == first;
      } else {
        assert k in rest && Entry(k, rest[k]) in r.entries;
      }
    }
  }

  /** What the buffer holds while it decides: its pending packets, plus the pushed one if it takes it. */
  ghost function Held<T>(b: State<T>, op: Op<T>): map<uint64, T> {
    if op.Push? && Takes(b, op.sequence) then b.pending[op.sequence := op.packet] else b.pending
  }

  /** One call moves `expected` by what it delivers plus what it skips; what it delivers it held, in order
      and under its own number; what it held and did not deliver it still holds. */
  ghost predicate Conserves<T>(b: State<T>, held: map<uint64, T>, b': State<T>, out: Out<T>) {
    && b'.expected - b.expected == |out.entries| + out.skipped
    && Increasing(out.entries)
    && (b'.expected == b.expected || EndsAt(out.entries, b'.expected))
    && (forall e :: e in out.entries ==>
          b.expected <= e.sequence < b'.expected && e.sequence in held && held[e.sequence] == e.packet)
    && (forall s :: s in b'.pending ==> s in held && held[s] == b'.pending[s])
    && (forall s :: s in held ==> s in b'.pending || Entry(s, held[s]) in out.entries)
  }

  lemma StretchInOrder<T>(expected: uint64, pending: map<uint64, T>, d: Drained<T>)
    requires TakesStretch(expected, pending, d)
    ensures Increasing(d.entries) && (d.entries != [] ==> EndsAt(d.entries, d.expected))
    ensures forall e :: e in d.entries ==>
              expected <= e.sequence < d.expected && e.sequence in pending && pending[e.sequence] == e.packet
    ensures forall k :: k in pending ==> k in d.pending || Entry(k, pending[k]) in d.entries
    ensures expected in pending ==> d.entries != []
  {
  }

  lemma StretchIsValid<T>(l: Limits, from: uint64, held: map<uint64, T>, d: Drained<T>, gapSince: Option<int>)
    requires TakesStretch(from, held, d) && d.entries != [] && 1 <= from
    requires |held| <= l.maxPackets && (gapSince.None? <==> d.pending == map[])
    ensures Valid(l, State(d.expected, d.pending, gapSince))
  {
  }

  lemma StretchConserves<T>(b: State<T>, from: uint64, held: map<uint64, T>, d: Drained<T>, gapSince: Option<int>)
    requires TakesStretch(from, held, d) && d.entries != [] && b.expected <= from
    ensures Conserves(b, held, State(d.expected, d.pending, gapSince), Out(d.entries, from - b.expected))
  {
    StretchInOrder(from, held, d);
  }

  lemma ReleaseConserves<T>(l: Limits, b: State<T>, held: map<uint64, T>, from: uint64, clock: int)
    requires WellFormed(l) && 1 <= b.expected <= from
    requires forall k :: k in held ==> from <= k
    requires |held| <= l.maxPackets && from in held
    requires Release(from, held, [], from - b.expected, clock).0.expected != 0
    ensures var (b', out) := Release(from, held, [], from - b.expected, clock);
            Valid(l, b') && Conserves(b, held, b', out) && |out.entries| > 0
  {
    hide Drain, TakesStretch, Valid, Conserves, Increasing, EndsAt;
    DrainMeaning(from, held);
    var d := Drain(from, held);
    StretchInOrder(from, held, d);
    var gapSince := if d.pending == map[] then None else Some(clock);
    StretchIsValid(l, from, held, d, gapSince);
    StretchConserves(b, from, held, d, gapSince);
    assert [] + d.entries == d.entries;
  }

  lemma ForceDrainConserves<T>(l: Limits, b: State<T>, held: map<uint64, T>, gapSince: Option<int>, clock: int)
    requires WellFormed(l) && 1 <= b.expected && held != map[]
    requires forall k :: k in held ==> b.expected < k
    requires |held| <= l.maxPackets
    requires ForceDrainStep(State(b.expected, held, gapSince), clock).0.expected != 0
    ensures var (b', out) := ForceDrainStep(State(b.expected, held, gapSince), clock);
            Valid(l, b') && Conserves(b, held, b', out) && |out.entries| > 0 && out.skipped > 0
  {
    ReleaseConserves(l, b, held, Lowest(held.Keys), clock);
  }

  /** Delivering the pushed packet and then draining is draining with the pushed packet held. */
  lemma ReleasePushed<T>(b: State<T>, sequence: uint64, packet: T, clock: int)
    requires sequence == b.expected && sequence !in b.pending
    ensures Release(Succ64(sequence), b.pending, [Entry(sequence, packet)], 0, clock)
         == Release(sequence, b.pending[sequence := packet], [], 0, clock)
  {
    assert b.pending[sequence := packet] - {sequence} == b.pending;
    var d := Drain(sequence, b.pending[sequence := packet]);
    assert [] + d.entries == d.entries;
  }

  lemma OutcomeConserves<T>(l: Limits, b: State<T>, op: Op<T>)
    requires WellFormed(l) && Valid(l, b)
    requires Outcome(l, b, op).0.expected != 0
    ensures var (b', out) := Outcome(l, b, op);
            Valid(l, b') && Conserves(b, Held(b, op), b', out)
  {
    var held := Held(b, op);
    match op
    case Push(sequence, packet, now, clock) =>
      if sequence == b.expected {
        ReleasePushed(b, sequence, packet, clock);
        assert held.Keys == b.pending.Keys + {sequence};
        ReleaseConserves(l, b, held, sequence, clock);
      } else if sequence > b.expected && sequence !in b.pending {
        assert |held| == |b.pending| + 1 by { assert held.Keys == b.pending.Keys + {sequence}; }
        if PushForces(l, b, sequence, now) {
          ForceDrainConserves(l, b, held, if b.gapSince.None? then Some(now) else b.gapSince, clock);
        }
      }
    case Flush(now, clock) =>
      if Expired(l, b, now) {
        ForceDrainConserves(l, b, held, b.gapSince, clock);
      }
  }

  // ----- every run -----

  lemma ApplyKeepsSound<T>(l: Limits, h: History<T>, op: Op<T>)
    requires WellFormed(l) && Sound(l, h)
    requires Outcome(l, h.buffer, op).0.expected != 0
    ensures Sound(l, Apply(l, h, op))
  {
    hide Ordered, Remembered, Outcome, Valid, Conserves;
    OutcomeConserves(l, h.buffer, op);
    ApplyIsOrdered(l, h, op);
    ApplyRemembers(l, h, op);
  }

  lemma ApplyIsOrdered<T>(l: Limits, h: History<T>, op: Op<T>)
    requires Valid(l, h.buffer) && Ordered(h)
    requires var (b, out) := Outcome(l, h.buffer, op); Conserves(h.buffer, Held(h.buffer, op), b, out)
    ensures Ordered(Apply(l, h, op))
  {
    hide Outcome, Valid;
    var (b, out) := Outcome(l, h.buffer, op);
    IncreasingAppend(h.delivered, out.entries, h.buffer.expected);
    if out.entries == [] {
      assert h.delivered + out.entries == h.delivered;
    }
  }

  lemma ApplyRemembers<T>(l: Limits, h: History<T>, op: Op<T>)
    requires Valid(l, h.buffer) && Ordered(h) && Remembered(h)
    requires var (b, out) := Outcome(l, h.buffer, op); Conserves(h.buffer, Held(h.buffer, op), b, out)
    ensures Remembered(Apply(l, h, op))
  {
    var h' := Apply(l, h, op);
    var held := Held(h.buffer, op);
    assert forall s :: s in held ==> s in h'.accepted && h'.accepted[s] == held[s];
    forall e | e in h'.delivered ensures e.sequence in h'.accepted && h'.accepted[e.sequence] == e.packet {
      if e in h.delivered {
        assert e.sequence < h.buffer.expected;
      }
    }
    forall s | s in h'.accepted ensures s in h'.buffer.pending || Entry(s, h'.accepted[s]) in h'.delivered {
      if s !in held {
        assert Entry(s, h.accepted[s]) in h.delivered;
      }
    }
  }

  lemma IncreasingAppend<T>(a: seq<Entry<T>>, b: seq<Entry<T>>, bound: int)
    requires Increasing(a) && Increasing(b)
    requires forall e :: e in a ==> e.sequence < bound
    requires forall e :: e in b ==> bound <= e.sequence
    ensures Increasing(a + b)
  {
    forall i, j | 0 <= i < j < |a + b| ensures (a + b)[i].sequence < (a + b)[j].sequence {
      if i < |a| { assert a[i] in a; }
      if j >= |a| { assert b[j - |a|] in b; }
    }
  }

  /** A call wraps only by delivering the last number, which it must hold; then nothing is left pending. */
  lemma WrapMeaning<T>(l: Limits, b: State<T>, op: Op<T>)
    requires WellFormed(l) && Valid(l, b) && Outcome(l, b, op).0.expected == 0
    ensures Wrapped(Outcome(l, b, op).1.entries, 0) && MAX_UINT64 in Held(b, op)
    ensures Outcome(l, b, op).0.pending == map[]
  {
    hide TakesStretch;
    var held := Held(b, op);
    if op.Push? && op.sequence == b.expected {
      ReleasePushed(b, op.sequence, op.packet, op.clock);
    }
    var from := if op.Push? && op.sequence == b.expected then op.sequence else Lowest(held.Keys);
    DrainMeaning(from, held);
    assert [] + Drain(from, held).entries == Drain(from, held).entries;
  }

  /** The accounting survives a step exactly if the step does not deliver the last number. */
  lemma StepIsSoundIff<T>(l: Limits, h: History<T>, op: Op<T>)
    requires WellFormed(l) && Sound(l, h)
    ensures Sound(l, Apply(l, h, op)) <==> !Delivered(Apply(l, h, op), MAX_UINT64)
  {
    var h' := Apply(l, h, op);
    if h'.buffer.expected == 0 {
      WrapMeaning(l, h.buffer, op);
      var entries := Outcome(l, h.buffer, op).1.entries;
      assert h'.delivered[|h.delivered| + |entries| - 1].sequence == MAX_UINT64;
    } else {
      ApplyKeepsSound(l, h, op);
      assert forall i :: 0 <= i < |h'.delivered| ==> h'.delivered[i] in h'.delivered;
    }
  }

  ghost predicate Delivered<T>(h: History<T>, s: uint64) {
    exists i :: 0 <= i < |h.delivered| && h.delivered[i].sequence == s
  }

  /** The accounting holds at every step of a run exactly if the run does not deliver the number 2^64-1. */
  lemma {:induction false} RunIsSoundIff<T>(l: Limits, ops: seq<Op<T>>)
    requires WellFormed(l)
    ensures SoundThroughout(l, ops) <==> !Delivered(Run(l, ops), MAX_UINT64)
  {
    if ops != [] {
      var front, last := ops[..|ops| - 1], ops[|ops| - 1];
      RunIsSoundIff(l, front);
      if SoundThroughout(l, front) {
        StepIsSoundIff(l, Run(l, front), last);
      } else {
        var i :| 0 <= i < |Run(l, front).delivered| && Run(l, front).delivered[i].sequence == MAX_UINT64;
        assert Run(l, ops).delivered[i] == Run(l, front).delivered[i];
      }
    }
  }

  lemma NeverWraps<T>(l: Limits, b: State<T>, op: Op<T>)
    requires WellFormed(l) && Valid(l, b) && NotLast(op) && MAX_UINT64 !in b.pending
    ensures Outcome(l, b, op).0.expected != 0 && MAX_UINT64 !in Outcome(l, b, op).0.pending
  {
    if Outcome(l, b, op).0.expected == 0 {
      WrapMeaning(l, b, op);
    } else {
      OutcomeConserves(l, b, op);
    }
  }

  /** What a caller can check: a run that never pushes 2^64-1 keeps the accounting. */
  lemma {:induction false} RunIsSound<T>(l: Limits, ops: seq<Op<T>>)
    requires WellFormed(l) && NoWrap(ops)
    ensures SoundThroughout(l, ops) && MAX_UINT64 !in Run(l, ops).buffer.pending
  {
    if ops != [] {
      var front, last := ops[..|ops| - 1], ops[|ops| - 1];
      assert ops == front + [last] && last in ops;
      RunIsSound(l, front);
      NeverWraps(l, Run(l, front).buffer, last);
      ApplyKeepsSound(l, Run(l, front), last);
    }
  }

  /** The failure that condition shuts out: 2^64-1 is delivered, and then 1. */
  lemma WrapReordersExample<T>(p: T)
    ensures var l := Limits(16, 1);
            var ops := [Push(MAX_UINT64, p, 0, 0), Flush(1, 1), Push(1, p, 2, 2), Flush(3, 3)];
            Run(l, ops).delivered == [Entry(MAX_UINT64, p), Entry(1, p)] && !Increasing(Run(l, ops).delivered)
  {
    var l := Limits(16, 1);
    var ops := [Push(MAX_UINT64, p, 0, 0), Flush(1, 1), Push(1, p, 2, 2), Flush(3, 3)];
    var none: map<uint64, T> := map[];
    var last, one := none[MAX_UINT64 := p], none[1 := p];
    assert Run(l, [ops[0]]) == Apply(l, Run(l, []), ops[0]);
    assert Run(l, [ops[0]]).buffer == State(1, last, Some(0));
    ForcesAlone(State(1, last, Some(0)), MAX_UINT64, p, 1);
    assert ops[..3][..2] == [ops[0], ops[1]] && [ops[0], ops[1]][..1] == [ops[0]];
    assert Run(l, ops[..3][..2]) == Apply(l, Run(l, [ops[0]]), ops[1]);
    assert Run(l, ops[..3][..2]).buffer == State(0, none, None);
    assert Run(l, ops[..3][..2]).delivered == [Entry(MAX_UINT64, p)];
    assert Run(l, ops[..3]) == Apply(l, Run(l, ops[..3][..2]), ops[2]);
    assert Run(l, ops[..3]).buffer == State(0, one, Some(2));
    ForcesAlone(State(0, one, Some(2)), 1, p, 3);
    assert Run(l, ops) == Apply(l, Run(l, ops[..3]), ops[3]);
    assert Run(l, ops).delivered[0].sequence > Run(l, ops).delivered[1].sequence;
  }

  /** A forced drain of a buffer that holds one packet. */
  lemma ForcesAlone<T>(b: State<T>, s: uint64, p: T, clock: int)
    requires b.pending.Keys == {s} && b.pending[s] == p
    ensures ForceDrainStep(b, clock) == (State(Succ64(s), map[], None), Out([Entry(s, p)], Sub64(s, b.expected)))
  {
    var none: map<uint64, T> := map[];
    assert b.pending - {s} == none;
    assert Lowest(b.pending.Keys) == s;
    assert Drain(Succ64(s), none) == Drained([], Succ64(s), none);
    assert Drain(s, b.pending) == Drained([Entry(s, p)] + [], Succ64(s), none);
    assert [] + ([Entry(s, p)] + []) == [Entry(s, p)];
  }

  /** No loss and no duplicate inside the buffer: a packet taken in is either out, once, or still held. */
  lemma TakenOnce<T>(l: Limits, ops: seq<Op<T>>, s: uint64)
    requires WellFormed(l) && NoWrap(ops) && s in Run(l, ops).accepted
    ensures var h := Run(l, ops);
            && (s in h.buffer.pending <==> Entry(s, h.accepted[s]) !in h.delivered)
            && (forall i, j ::
                  (0 <= i < |h.delivered| && 0 <= j < |h.delivered| &&
                   h.delivered[i].sequence == s && h.delivered[j].sequence == s) ==> i == j)
  {
    RunIsSound(l, ops);
  }

  // ----- skips -----

  /** The call gives up on a gap. */
  ghost predicate Forces<T>(l: Limits, b: State<T>, op: Op<T>) {
    match op
    case Push(sequence, _, now, _) => PushForces(l, b, sequence, now)
    case Flush(now, _) => Expired(l, b, now)
  }

  /** No call of the run gives up on a gap. */
  ghost predicate NeverForced<T>(l: Limits, ops: seq<Op<T>>) {
    ops == [] || (
      && NeverForced(l, ops[..|ops| - 1])
      && !Forces(l, Run(l, ops[..|ops| - 1]).buffer, ops[|ops| - 1]))
  }

  lemma SkipsIffForces<T>(l: Limits, b: State<T>, op: Op<T>)
    requires WellFormed(l) && Valid(l, b)
    requires Outcome(l, b, op).0.expected != 0
    ensures Outcome(l, b, op).1.skipped > 0 <==> Forces(l, b, op)
  {
    if Forces(l, b, op) {
      var held := Held(b, op);
      assert op.Push? ==> held.Keys == b.pending.Keys + {op.sequence};
      ForceDrainConserves(l, b, held, if b.gapSince.None? then Some(op.now) else b.gapSince, op.clock);
    }
  }

  lemma {:induction false} NothingSkippedIff<T>(l: Limits, ops: seq<Op<T>>)
    requires WellFormed(l) && NoWrap(ops)
    ensures Run(l, ops).skipped == 0 <==> NeverForced(l, ops)
  {
    if ops != [] {
      var front, last := ops[..|ops| - 1], ops[|ops| - 1];
      assert ops == front + [last];
      assert last in ops;
      NothingSkippedIff(l, front);
      RunIsSound(l, front);
      NeverWraps(l, Run(l, front).buffer, last);
      SkipsIffForces(l, Run(l, front).buffer, last);
    }
  }

  // ----- patience -----

  /** Since when a buffer that holds packets has been waiting, by the times of the calls alone: since the last call
      that delivered something, or since the push that found nothing held. */
  ghost function WaitingSince<T>(l: Limits, ops: seq<Op<T>>): Option<int> {
    if ops == [] || Run(l, ops).buffer.pending == map[] then None else
      var front, last := ops[..|ops| - 1], ops[|ops| - 1];
      if |Run(l, ops).delivered| > |Run(l, front).delivered| then Some(last.clock)
      else if Run(l, front).buffer.pending == map[] then Some(last.now)
      else WaitingSince(l, front)
  }

  /** The gap clock runs from exactly then. */
  lemma {:induction false} ClockIsWaitingSince<T>(l: Limits, ops: seq<Op<T>>)
    requires WellFormed(l) && NoWrap(ops)
    ensures Run(l, ops).buffer.gapSince == WaitingSince(l, ops)
  {
    if ops != [] {
      var front, last := ops[..|ops| - 1], ops[|ops| - 1];
      assert ops == front + [last] && last in ops;
      ClockIsWaitingSince(l, front);
      RunIsSound(l, front);
      RunIsSound(l, ops);
      var b := Run(l, front).buffer;
      NeverWraps(l, b, last);
      ClockMoves(l, b, last);
    }
  }

  /** What one call does to the gap clock. */
  lemma ClockMoves<T>(l: Limits, b: State<T>, op: Op<T>)
    requires WellFormed(l) && Valid(l, b) && Outcome(l, b, op).0.expected != 0
    ensures var (b', out) := Outcome(l, b, op);
            b'.gapSince == if b'.pending == map[] then None
                           else if out.entries != [] then Some(op.clock)
                           else if b.pending == map[] then Some(op.now) else b.gapSince
  {
    hide Drain;
    if Forces(l, b, op) {
      var held := Held(b, op);
      assert op.Push? ==> held.Keys == b.pending.Keys + {op.sequence};
      ForceDrainDelivers(l, b, held, if b.gapSince.None? then Some(op.now) else b.gapSince, op.clock);
    }
  }

  lemma ForceDrainDelivers<T>(l: Limits, b: State<T>, held: map<uint64, T>, gapSince: Option<int>, clock: int)
    requires WellFormed(l) && 1 <= b.expected && held != map[] && |held| <= l.maxPackets
    requires forall k :: k in held ==> b.expected < k
    requires ForceDrainStep(State(b.expected, held, gapSince), clock).0.expected != 0
    ensures ForceDrainStep(State(b.expected, held, gapSince), clock).1.entries != []
  {
    ForceDrainConserves(l, b, held, gapSince, clock);
  }

  ghost predicate Delivers<T>(l: Limits, ops: seq<Op<T>>, i: nat)
    requires i < |ops|
  {
    |Run(l, ops[..i]).delivered| < |Run(l, ops[..i + 1]).delivered|
  }

  ghost predicate FindsNothing<T>(l: Limits, ops: seq<Op<T>>, i: nat)
    requires i < |ops|
  {
    Run(l, ops[..i]).buffer.pending == map[]
  }

  /** Each call comes after the one before it is over. */
  ghost predicate ClocksOrdered<T>(ops: seq<Op<T>>) {
    && (forall i :: 0 <= i < |ops| ==> ops[i].now <= ops[i].clock)
    && (forall i, j :: 0 <= i < j < |ops| ==> ops[i].clock <= ops[j].now)
  }

  /** `now` is `maxDelay` after the last delivery, and after the last call that found nothing held. */
  ghost predicate Late<T>(l: Limits, ops: seq<Op<T>>, now: int) {
    forall i :: 0 <= i < |ops| ==>
      && (Delivers(l, ops, i) ==> now - ops[i].clock >= l.maxDelay)
      && (FindsNothing(l, ops, i) ==> now - ops[i].now >= l.maxDelay)
  }

  lemma StartsEmpty<T>(l: Limits)
    ensures Run<T>(l, []).buffer.pending == map[]
  {
  }

  lemma {:induction false} LateIff<T>(l: Limits, ops: seq<Op<T>>, now: int)
    requires WellFormed(l) && NoWrap(ops) && ClocksOrdered(ops) && Run(l, ops).buffer.pending != map[]
    ensures WaitingSince(l, ops).Some?
    ensures Late(l, ops, now) <==> now - WaitingSince(l, ops).value >= l.maxDelay
  {
    hide Run;
    StartsEmpty<T>(l);
    var front, last := ops[..|ops| - 1], ops[|ops| - 1];
    assert ops == front + [last] && ops[..|front|] == front && ops[..|ops|] == ops;
    forall i | 0 <= i < |front|
      ensures Delivers(l, ops, i) <==> Delivers(l, front, i)
      ensures FindsNothing(l, ops, i) <==> FindsNothing(l, front, i)
    {
      assert ops[..i] == front[..i] && ops[..i + 1] == front[..i + 1];
    }
    if !Delivers(l, ops, |front|) && Run(l, front).buffer.pending != map[] {
      LateIff(l, front, now);
    }
  }

  /** Patience: a call gives up on a gap exactly if packets are held and nothing was delivered, nor the gap opened,
      for `maxDelay`, unless a push fills the buffer first. */
  lemma SkipsIffLate<T>(l: Limits, ops: seq<Op<T>>, op: Op<T>)
    requires WellFormed(l) && NoWrap(ops) && NotLast(op) && ClocksOrdered(ops)
    ensures var h := Run(l, ops);
            var beyond := op.Push? && op.sequence > h.buffer.expected && op.sequence !in h.buffer.pending;
            Apply(l, h, op).skipped > h.skipped <==>
            || (beyond && |h.buffer.pending| + 1 >= l.maxPackets)
            || ((beyond || op.Flush?) && h.buffer.pending != map[] && Late(l, ops, op.now))
  {
    var h := Run(l, ops);
    RunIsSound(l, ops);
    NeverWraps(l, h.buffer, op);
    SkipsIffForces(l, h.buffer, op);
    ClockIsWaitingSince(l, ops);
    if h.buffer.pending != map[] { LateIff(l, ops, op.now); }
  }

  // ----- arrival order -----

  ghost predicate Settled<T>(b: State<T>, op: Op<T>) {
    op.Push? ==> op.sequence < b.expected || op.sequence in b.pending
  }

  ghost predicate Carries<T>(op: Op<T>, s: uint64, p: T) {
    op.Push? && op.sequence == s && op.packet == p
  }

  ghost predicate Pushed<T>(ops: seq<Op<T>>, s: uint64, p: T) {
    exists i :: 0 <= i < |ops| && Carries(ops[i], s, p)
  }

  ghost predicate AllPushed<T>(ops: seq<Op<T>>, accepted: map<uint64, T>) {
    forall s :: s in accepted ==> Pushed(ops, s, accepted[s])
  }

  /** Whatever was taken in was pushed. */
  lemma {:induction false} AcceptedWerePushed<T>(l: Limits, ops: seq<Op<T>>)
    ensures AllPushed(ops, Run(l, ops).accepted)
  {
    if ops != [] {
      var front, last := ops[..|ops| - 1], ops[|ops| - 1];
      AcceptedWerePushed(l, front);
      var before, after := Run(l, front).accepted, Run(l, ops).accepted;
      forall s | s in after ensures Pushed(ops, s, after[s]) {
        if s in before && after[s] == before[s] {
          var i :| 0 <= i < |front| && Carries(front[i], s, before[s]);
          assert Carries(ops[i], s, after[s]);
        } else {
          assert Carries(ops[|front|], s, after[s]);
        }
      }
    }
  }

  /** Every pushed number is behind `expected` or held. */
  lemma {:induction false} PushedIsSettled<T>(l: Limits, ops: seq<Op<T>>)
    requires WellFormed(l) && NoWrap(ops)
    ensures forall op :: op in ops ==> Settled(Run(l, ops).buffer, op)
  {
    if ops != [] {
      var front, last := ops[..|ops| - 1], ops[|ops| - 1];
      assert ops == front + [last] && last in ops;
      PushedIsSettled(l, front);
      RunIsSound(l, front);
      NeverWraps(l, Run(l, front).buffer, last);
      OutcomeSettles(l, Run(l, front).buffer, last);
    }
  }

  lemma OutcomeSettles<T>(l: Limits, b: State<T>, op: Op<T>)
    requires WellFormed(l) && Valid(l, b) && Outcome(l, b, op).0.expected != 0
    ensures Settled(Outcome(l, b, op).0, op)
    ensures forall o :: Settled(b, o) ==> Settled(Outcome(l, b, op).0, o)
  {
    OutcomeConserves(l, b, op);
  }

  ghost function Numbered<T>(packets: seq<T>): seq<Entry<T>>
    requires |packets| < MAX_UINT64
  {
    seq(|packets|, i requires 0 <= i < |packets| => Entry(i + 1, packets[i]))
  }

  /** `ops` pushes the packets numbered 1..n in some order, each at least once, and nothing else. */
  ghost predicate Shuffles<T>(ops: seq<Op<T>>, packets: seq<T>)
    requires |packets| < MAX_UINT64
  {
    && (forall op :: op in ops && op.Push? ==>
          1 <= op.sequence <= |packets| && op.packet == packets[op.sequence - 1])
    && (forall i :: 0 <= i < |packets| ==> Pushed(ops, i + 1, packets[i]))
  }

  lemma ShufflesMeansNoWrap<T>(l: Limits, ops: seq<Op<T>>, packets: seq<T>)
    requires WellFormed(l) && |packets| < MAX_UINT64 && Shuffles(ops, packets)
    ensures NoWrap(ops)
  {
  }

  lemma ShuffledAccepted<T>(l: Limits, ops: seq<Op<T>>, packets: seq<T>)
    requires WellFormed(l) && |packets| < MAX_UINT64 && Shuffles(ops, packets)
    ensures forall s :: s in Run(l, ops).accepted ==> 1 <= s <= |packets| && Run(l, ops).accepted[s] == packets[s - 1]
  {
    AcceptedWerePushed(l, ops);
    forall s | s in Run(l, ops).accepted ensures 1 <= s <= |packets| && Run(l, ops).accepted[s] == packets[s - 1] {
      ShuffledPushed(ops, packets, s, Run(l, ops).accepted[s]);
    }
  }

  lemma ShuffledPushed<T>(ops: seq<Op<T>>, packets: seq<T>, s: uint64, p: T)
    requires |packets| < MAX_UINT64 && Shuffles(ops, packets) && Pushed(ops, s, p)
    ensures 1 <= s <= |packets| && p == packets[s - 1]
  {
    var i :| 0 <= i < |ops| && Carries(ops[i], s, p);
    assert ops[i] in ops;
  }

  lemma ShuffledPasses<T>(l: Limits, ops: seq<Op<T>>, packets: seq<T>, k: nat)
    requires WellFormed(l) && |packets| < MAX_UINT64 && Shuffles(ops, packets) && k < |packets|
    ensures Run(l, ops).buffer.expected != k + 1
  {
    ShufflesMeansNoWrap(l, ops, packets);
    RunIsSound(l, ops);
    PushedIsSettled(l, ops);
    assert Pushed(ops, k + 1, packets[k]);
    var i :| 0 <= i < |ops| && Carries(ops[i], k + 1, packets[k]);
    assert ops[i] in ops;
    assert Settled(Run(l, ops).buffer, ops[i]);
  }

  lemma ShuffledExpectsPastEnd<T>(l: Limits, ops: seq<Op<T>>, packets: seq<T>)
    requires WellFormed(l) && |packets| < MAX_UINT64 && Shuffles(ops, packets)
    ensures |packets| < Run(l, ops).buffer.expected
  {
    ShufflesMeansNoWrap(l, ops, packets);
    RunIsSound(l, ops);
    var x := Run(l, ops).buffer.expected;
    if x <= |packets| {
      ShuffledPasses(l, ops, packets, x - 1);
    }
  }

  /** At the end of such a run the buffer expects n + 1 and holds nothing. */
  lemma ShuffledEnd<T>(l: Limits, ops: seq<Op<T>>, packets: seq<T>)
    requires WellFormed(l) && |packets| < MAX_UINT64 && Shuffles(ops, packets)
    ensures NoWrap(ops) && Sound(l, Run(l, ops))
    ensures Run(l, ops).buffer.expected == |packets| + 1 && Run(l, ops).buffer.pending == map[]
    ensures forall e :: e in Run(l, ops).delivered ==>
              1 <= e.sequence <= |packets| && e.packet == packets[e.sequence - 1]
  {
    hide Shuffles, NoWrap, Valid, Ordered;
    ShufflesMeansNoWrap(l, ops, packets);
    RunIsSound(l, ops);
    ShuffledAccepted(l, ops, packets);
    ShuffledExpectsPastEnd(l, ops, packets);
    AcceptedBelow(l, Run(l, ops), |packets|);
  }

  /** If only numbers up to `n` were taken in and `expected` is past them, it is next to them. */
  lemma AcceptedBelow<T>(l: Limits, h: History<T>, n: nat)
    requires Sound(l, h) && n < h.buffer.expected
    requires forall s :: s in h.accepted ==> 1 <= s <= n
    ensures h.buffer.expected == n + 1 && h.buffer.pending == map[]
  {
    if h.buffer.expected > 1 {
      assert h.delivered[|h.delivered| - 1] in h.delivered;
    }
    assert forall s :: s !in h.buffer.pending;
  }

  /** Whatever the arrival order and duplication, the output is all the packets in order exactly when no
      call gave up on a gap, and the buffer ends empty, waiting for the next number. */
  lemma ArrivalOrderIrrelevant<T>(l: Limits, ops: seq<Op<T>>, packets: seq<T>)
    requires WellFormed(l) && |packets| < MAX_UINT64 && Shuffles(ops, packets)
    ensures var h := Run(l, ops);
            && h.buffer == State(|packets| + 1, map[], None)
            && (h.delivered == Numbered(packets) <==> NeverForced(l, ops))
            && (NeverForced(l, ops) <==> h.skipped == 0)
  {
    ShuffledEnd(l, ops, packets);
    NothingSkippedIff(l, ops);
    var h := Run(l, ops);
    if h.skipped == 0 {
      FullIsNumbered(h.delivered, packets);
    }
  }

  lemma FullIsNumbered<T>(entries: seq<Entry<T>>, packets: seq<T>)
    requires Increasing(entries) && |entries| == |packets| < MAX_UINT64
    requires forall e :: e in entries ==> 1 <= e.sequence <= |packets| && e.packet == packets[e.sequence - 1]
    ensures entries == Numbered(packets)
  {
    IncreasingFillsRange(entries, |packets|);
    forall i | 0 <= i < |packets| ensures entries[i] == Numbered(packets)[i] {
      assert entries[i] in entries;
    }
  }

  /** n strictly increasing numbers between 1 and n are 1..n. */
  lemma {:induction false} IncreasingFillsRange<T>(entries: seq<Entry<T>>, n: nat)
    requires Increasing(entries) && |entries| == n
    requires forall e :: e in entries ==> 1 <= e.sequence <= n
    ensures forall i :: 0 <= i < n ==> entries[i].sequence == i + 1
  {
    forall i | 0 <= i < n ensures entries[i].sequence == i + 1 {
      AtLeast(entries, i);
      AtMost(entries, i, n);
    }
  }

  lemma {:induction false} AtLeast<T>(entries: seq<Entry<T>>, i: nat)
    requires Increasing(entries) && i < |entries|
    requires forall e :: e in entries ==> 1 <= e.sequence
    ensures entries[i].sequence >= i + 1
  {
    assert entries[i] in entries;
    if i > 0 { AtLeast(entries, i - 1); }
  }

  lemma {:induction false} AtMost<T>(entries: seq<Entry<T>>, i: nat, n: nat)
    requires Increasing(entries) && i < |entries|
    requires forall e :: e in entries ==> e.sequence <= n
    ensures entries[i].sequence + (|entries| - 1 - i) <= n
    decreases |entries| - i
  {
    assert entries[i] in entries;
    if i + 1 < |entries| { AtMost(entries, i + 1, n); }
  }

  // ----- progress -----

  /** Each flush in the list comes after the deadline of the gap it finds, if it finds one. */
  ghost predicate EachExpires<T>(l: Limits, h: History<T>, flushes: seq<Op<T>>)
    decreases |flushes|
  {
    flushes == [] || (
      && flushes[0].Flush?
      && (h.buffer.pending == map[] || Expired(l, h.buffer, flushes[0].now))
      && EachExpires(l, Apply(l, h, flushes[0]), flushes[1..]))
  }

  ghost function Continue<T>(l: Limits, h: History<T>, ops: seq<Op<T>>): History<T>
    decreases |ops|
  {
    if ops == [] then h else Continue(l, Apply(l, h, ops[0]), ops[1..])
  }

  /** A loss never stalls the buffer: as many expired flushes as there are packets waiting empty it, and
      everything it took in is then delivered, with the accounting intact unless 2^64-1 was among it. */
  lemma {:induction false} FlushesEmpty<T>(l: Limits, h: History<T>, flushes: seq<Op<T>>)
    requires WellFormed(l) && Sound(l, h) && EachExpires(l, h, flushes)
    requires |flushes| >= |h.buffer.pending|
    ensures Continue(l, h, flushes).buffer.pending == map[] && Continue(l, h, flushes).accepted == h.accepted
    ensures Sound(l, Continue(l, h, flushes)) <==> MAX_UINT64 !in h.buffer.pending
    ensures MAX_UINT64 !in h.buffer.pending ==>
              forall s :: s in h.accepted ==> Entry(s, h.accepted[s]) in Continue(l, h, flushes).delivered
    decreases |flushes|
  {
    if flushes != [] {
      var h1 := Apply(l, h, flushes[0]);
      if h1.buffer.expected == 0 {
        WrapMeaning(l, h.buffer, flushes[0]);
        NothingToFlush(l, h1, flushes[1..]);
      } else {
        ApplyKeepsSound(l, h, flushes[0]);
        OutcomeConserves(l, h.buffer, flushes[0]);
        if h.buffer.pending != map[] { ForceDrainShrinks(l, h.buffer, flushes[0].clock); }
        FlushesEmpty(l, h1, flushes[1..]);
      }
    }
  }

  lemma {:induction false} NothingToFlush<T>(l: Limits, h: History<T>, flushes: seq<Op<T>>)
    requires h.buffer.pending == map[] && EachExpires(l, h, flushes)
    ensures Continue(l, h, flushes) == h
    decreases |flushes|
  {
    if flushes != [] {
      assert Apply(l, h, flushes[0]) == h;
      NothingToFlush(l, h, flushes[1..]);
    }
  }

  lemma ForceDrainShrinks<T>(l: Limits, b: State<T>, clock: int)
    requires Valid(l, b) && b.pending != map[]
    ensures |ForceDrainStep(b, clock).0.pending| < |b.pending|
  {
    var lowest := Lowest(b.pending.Keys);
    DrainMeaning(lowest, b.pending);
    if Drain(lowest, b.pending).expected != 0 {
      StretchInOrder(lowest, b.pending, Drain(lowest, b.pending));
    }
  }

  // ----- what a caller must promise -----

  ghost function Deadline<T>(l: Limits, b: State<T>): int {
    if b.gapSince.Some? then b.gapSince.value + l.maxDelay else 0
  }

  /** There are always as many expired flushes as one likes. */
  lemma {:induction false} SomeExpire<T>(l: Limits, h: History<T>, n: nat) returns (flushes: seq<Op<T>>)
    requires WellFormed(l) && Sound(l, h)
    ensures |flushes| == n && EachExpires(l, h, flushes) && NoWrap(flushes)
    decreases n
  {
    flushes := [];
    if n > 0 {
      var flush := Flush(Deadline(l, h.buffer), 0);
      var h1 := Apply(l, h, flush);
      if h1.buffer.expected == 0 {
        WrapMeaning(l, h.buffer, flush);
        flushes := IdleFlushes(l, h1, n - 1);
      } else {
        ApplyKeepsSound(l, h, flush);
        flushes := SomeExpire(l, h1, n - 1);
      }
      flushes := [flush] + flushes;
    }
  }

  lemma {:induction false} IdleFlushes<T>(l: Limits, h: History<T>, n: nat) returns (flushes: seq<Op<T>>)
    requires h.buffer.pending == map[]
    ensures |flushes| == n && EachExpires(l, h, flushes) && NoWrap(flushes)
    decreases n
  {
    flushes := [];
    if n > 0 {
      assert Apply(l, h, Flush(0, 0)) == h;
      flushes := IdleFlushes(l, h, n - 1);
      flushes := [Flush(0, 0)] + flushes;
    }
  }

  lemma {:induction false} RunContinues<T>(l: Limits, ops: seq<Op<T>>, more: seq<Op<T>>)
    ensures Run(l, ops + more) == Continue(l, Run(l, ops), more)
    decreases |more|
  {
    if more == [] {
      assert ops + more == ops;
    } else {
      assert ops + more == ops + [more[0]] + more[1..];
      assert (ops + [more[0]])[..|ops|] == ops;
      RunContinues(l, ops + [more[0]], more[1..]);
    }
  }

  /** A number held for good is still pending while the accounting holds. */
  lemma {:induction false} LastIsPending<T>(l: Limits, ops: seq<Op<T>>)
    requires WellFormed(l) && SoundThroughout(l, ops) && !NoWrap(ops)
    ensures MAX_UINT64 in Run(l, ops).buffer.pending
  {
    hide Ordered, Remembered, Outcome, Increasing, EndsAt;
    var front, last := ops[..|ops| - 1], ops[|ops| - 1];
    assert ops == front + [last];
    OutcomeConserves(l, Run(l, front).buffer, last);
    if NotLast(last) {
      LastIsPending(l, front);
    }
  }

  /** Pushing 2^64-1 is fatal in the end: a run keeps the accounting whatever follows, short of pushing 2^64-1,
      exactly if it did not push 2^64-1 itself. */
  lemma StaysSoundIff<T>(l: Limits, ops: seq<Op<T>>)
    requires WellFormed(l)
    ensures (forall more :: NoWrap(more) ==> SoundThroughout(l, ops + more)) <==> NoWrap(ops)
  {
    if NoWrap(ops) {
      forall more | NoWrap(more) ensures SoundThroughout(l, ops + more) {
        RunIsSound(l, ops + more);
      }
    } else {
      assert NoWrap<T>([]) && ops + [] == ops;
      if SoundThroughout(l, ops) {
        LastIsPending(l, ops);
        var h := Run(l, ops);
        var flushes := SomeExpire(l, h, |h.buffer.pending|);
        FlushesEmpty(l, h, flushes);
        RunContinues(l, ops, flushes);
        assert !SoundThroughout(l, ops + flushes);
      }
    }
  }
}
