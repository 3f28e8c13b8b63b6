/**
 Anti-replay (internal/protocol/protocol.go:422-458): a 64-bit bitmap over the last 64 sequence
 numbers. The lemmas say that the bitmap is exactly the set of accepted numbers it can still see,
 and so what the window decides over any run of arrivals.
 */
module Replay {
  import opened Words
  import opened Bits

  datatype State = State(started: bool, highest: uint64, bitmap: uint64)

  const EMPTY := State(false, 0, 0)

  lemma SetBitFits(bitmap: uint64, d: nat)
    requires d < 64
    ensures Or(bitmap, Shl(1, d)) < TWO_64
  {
    Powers();
    OrFits(bitmap, Shl(1, d), 64);
  }

  function SetBit(bitmap: uint64, d: nat): uint64
    requires d < 64
  {
    SetBitFits(bitmap, d);
    Or(bitmap, Shl(1, d))
  }

  /** The decision on one sequence number and the window after it. */
  function AcceptStep(w: State, sequence: uint64): (State, bool) {
    if !w.started then
      (State(true, sequence, 1), true)
    else if sequence > w.highest then
      var shift := sequence - w.highest;
      (State(true, sequence, SetBit(if shift >= 64 then 0 else Shl(w.bitmap, shift), 0)), true)
    else
      var delta := w.highest - sequence;
      if delta >= 64 || And(w.bitmap, Shl(1, delta)) != 0 then (w, false)
      else (State(true, w.highest, SetBit(w.bitmap, delta)), true)
  }

  class ReplayWindow {
    var highest: uint64
    var bitmap: uint64
    var started: bool
    /** Every number accepted so far. */
    ghost var accepted: set<uint64>

    ghost predicate Valid()
      reads this
    {
      Represents(Model(), accepted)
    }

    ghost function Model(): State
      reads this
    {
      State(started, highest, bitmap)
    }

    constructor ()
      ensures Valid() && Model() == EMPTY && accepted == {}
    {
      highest, bitmap, started, accepted := 0, 0, false, {};
    }

    method Accept(sequence: uint64) returns (ok: bool)
      requires Valid()
      modifies this
      ensures Valid() && (Model(), ok) == AcceptStep(old(Model()), sequence)
      ensures ok <==> Fresh(old(accepted), sequence)
      ensures accepted == if ok then old(accepted) + {sequence} else old(accepted)
    {
      AcceptRefines(Model(), accepted, sequence);
      if !started {
        started := true;
        highest := sequence;
        bitmap := 1;
        accepted := accepted + {sequence};
        return true;
      }
      if sequence > highest {
        var shift := sequence - highest;
        if shift >= 64 {
          bitmap := 0;
        } else {
          bitmap := Shl(bitmap, shift);
        }
        highest := sequence;
        SetBitFits(bitmap, 0);
        bitmap := Or(bitmap, 1);
        accepted := accepted + {sequence};
        return true;
      }
      var delta := highest - sequence;
      if delta >= 64 || And(bitmap, Shl(1, delta)) != 0 {
        return false;
      }
      SetBitFits(bitmap, delta);
      bitmap := Or(bitmap, Shl(1, delta));
      accepted := accepted + {sequence};
      return true;
    }
  }

  // ----- the set the bitmap stands for -----

  ghost predicate IsMax(m: uint64, s: set<uint64>) {
    m in s && forall x :: x in s ==> x <= m
  }

  /** Bit `d` is set exactly when the number `d` behind the highest was accepted. */
  ghost predicate Represents(w: State, accepted: set<uint64>) {
    if !w.started then
      accepted == {}
    else
      && IsMax(w.highest, accepted)
      && (forall d :: 0 <= d < 64 ==> (Bit(w.bitmap, d) <==> w.highest - d in accepted))
  }

  /** `m` is so far ahead of `sequence` that the bitmap no longer covers it. */
  predicate Outruns(m: int, sequence: int) {
    m - sequence >= 64
  }

  /** The rule itself: new to the window, and either above everything accepted or fewer than 64 behind. */
  ghost predicate Fresh(accepted: set<uint64>, sequence: uint64) {
    sequence !in accepted && forall m :: m in accepted ==> !Outruns(m, sequence)
  }

  lemma AcceptRefines(w: State, accepted: set<uint64>, sequence: uint64)
    requires Represents(w, accepted)
    ensures var (w', ok) := AcceptStep(w, sequence);
            && (ok <==> Fresh(accepted, sequence))
            && Represents(w', if ok then accepted + {sequence} else accepted)
  {
    var (w', ok) := AcceptStep(w, sequence);
    if !w.started {
      forall d | 0 <= d < 64 ensures Bit(1, d) <==> sequence - d == sequence {
        if d > 0 { ZeroBit(d - 1); }
      }
    } else if sequence > w.highest {
      var shift := sequence - w.highest;
      var moved := if shift >= 64 then 0 else Shl(w.bitmap, shift);
      forall d | 0 <= d < 64 ensures Bit(w'.bitmap, d) <==> sequence - d in accepted + {sequence} {
        OrBit(moved, 1, d);
        if d > 0 { ZeroBit(d - 1); }
        ZeroBit(d);
        if shift < 64 { ShlBit(w.bitmap, shift, d); }
      }
    } else {
      var delta := w.highest - sequence;
      if delta < 64 {
        MaskTestsBit(w.bitmap, delta);
        assert w.highest - delta == sequence;
      }
      if ok {
        forall d | 0 <= d < 64 ensures Bit(w'.bitmap, d) <==> w.highest - d in accepted + {sequence} {
          OrBit(w.bitmap, Shl(1, delta), d);
          ShlBit(1, delta, d);
          if delta < d { ZeroBit(d - delta - 1); }
        }
      }
    }
  }

  // ----- every run of arrivals -----

  function Decide(w: State, arrivals: seq<uint64>): (r: (State, seq<bool>))
    ensures |r.1| == |arrivals|
  {
    if arrivals == [] then (w, []) else
      var (before, decisions) := Decide(w, arrivals[..|arrivals| - 1]);
      var (after, ok) := AcceptStep(before, arrivals[|arrivals| - 1]);
      (after, decisions + [ok])
  }

  /** The numbers an initially empty window has accepted. */
  ghost function AcceptedIn(arrivals: seq<uint64>): set<uint64> {
    var d := Decide(EMPTY, arrivals).1;
    set i | 0 <= i < |arrivals| && d[i] :: arrivals[i]
  }

  lemma {:induction false} AcceptedPrefix(arrivals: seq<uint64>, n: nat)
    requires n <= |arrivals|
    ensures Decide(EMPTY, arrivals[..n]).1 == Decide(EMPTY, arrivals).1[..n]
    decreases |arrivals|
  {
    if n < |arrivals| {
      var front := arrivals[..|arrivals| - 1];
      AcceptedPrefix(front, n);
      assert front[..n] == arrivals[..n];
    } else {
      assert arrivals[..n] == arrivals;
    }
  }

  /** The bitmap stands for everything accepted, however long the run. */
  lemma {:induction false} RunRepresents(arrivals: seq<uint64>)
    ensures Represents(Decide(EMPTY, arrivals).0, AcceptedIn(arrivals))
  {
    if arrivals != [] {
      var n := |arrivals| - 1;
      var front, last := arrivals[..n], arrivals[n];
      RunRepresents(front);
      AcceptedPrefix(arrivals, n);
      var d := Decide(EMPTY, arrivals).1;
      AcceptRefines(Decide(EMPTY, front).0, AcceptedIn(front), last);
      assert AcceptedIn(arrivals) == if d[n] then AcceptedIn(front) + {last} else AcceptedIn(front);
    }
  }

  /** Over any run: a number is accepted exactly when no equal number was accepted before and no accepted
      number is 64 or more above it. So no number is accepted twice, and reordering by less than 64 is
      never mistaken for a replay. */
  lemma RunDecides(arrivals: seq<uint64>, i: nat)
    requires i < |arrivals|
    ensures var d := Decide(EMPTY, arrivals).1;
            d[i] <==> forall j :: 0 <= j < i && d[j] ==>
                        arrivals[j] != arrivals[i] && !Outruns(arrivals[j], arrivals[i])
  {
    var d := Decide(EMPTY, arrivals).1;
    var upTo, before := arrivals[..i + 1], arrivals[..i];
    AcceptedPrefix(arrivals, i + 1);
    AcceptedPrefix(arrivals, i);
    assert upTo[..i] == before && upTo[i] == arrivals[i];
    RunRepresents(before);
    AcceptRefines(Decide(EMPTY, before).0, AcceptedIn(before), arrivals[i]);
    assert d[i] == d[..i + 1][i];
    assert d[i] <==> Fresh(AcceptedIn(before), arrivals[i]);
    forall x | x in AcceptedIn(before) ensures exists j :: 0 <= j < i && d[j] && arrivals[j] == x {
      var j :| 0 <= j < i && Decide(EMPTY, before).1[j] && before[j] == x;
      assert d[..i][j] == d[j] && arrivals[j] == x;
    }
    forall j | 0 <= j < i && d[j] ensures arrivals[j] in AcceptedIn(before) {
      assert d[..i][j] && before[j] == arrivals[j];
    }
  }
}
