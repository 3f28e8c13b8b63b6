/** Sums of the values of a finite map. */
module Sums {

  ghost function Sum<K>(m: map<K, real>): real
    decreases |m|
  {
    if m == map[] then 0.0 else
      var k :| k in m;
      m[k] + Sum(m - {k})
  }

  lemma {:induction false} SumRemove<K>(m: map<K, real>, k: K)
    requires k in m
    ensures Sum(m) == m[k] + Sum(m - {k})
    decreases |m|
  {
    var c :| c in m && Sum(m) == m[c] + Sum(m - {c});
    if c != k {
      SumRemove(m - {c}, k);
      SumRemove(m - {k}, c);
      assert m - {c} - {k} == m - {k} - {c};
    }
  }

  /** Setting one value moves the sum by the change. */
  lemma SumUpdate<K>(m: map<K, real>, k: K, v: real)
    ensures Sum(m[k := v]) == Sum(m) + v - (if k in m then m[k] else 0.0)
  {
    SumRemove(m[k := v], k);
    assert m[k := v] - {k} == m - {k};
    if k in m { SumRemove(m, k); } else { assert m - {k} == m; }
  }

  lemma {:induction false} SumPointwise<K>(a: map<K, real>, b: map<K, real>, c: map<K, real>)
    requires a.Keys == b.Keys == c.Keys
    requires forall k :: k in a ==> c[k] == a[k] + b[k]
    ensures Sum(c) == Sum(a) + Sum(b)
    decreases |a|
  {
    if a == map[] {
      assert b == map[] && c == map[];
    } else {
      var k :| k in a;
      SumRemove(a, k); SumRemove(b, k); SumRemove(c, k);
      SumPointwise(a - {k}, b - {k}, c - {k});
    }
  }

  lemma {:induction false} SumMono<K>(a: map<K, real>, b: map<K, real>)
    requires a.Keys == b.Keys
    requires forall k :: k in a ==> a[k] <= b[k]
    ensures Sum(a) <= Sum(b)
    decreases |a|
  {
    if a == map[] {
      assert b == map[];
    } else {
      var k :| k in a;
      SumRemove(a, k); SumRemove(b, k);
      SumMono(a - {k}, b - {k});
    }
  }

  /** `n` times `x`, as repeated addition. */
  function Copies(n: nat, x: real): real {
    if n == 0 then 0.0 else Copies(n - 1, x) + x
  }

  lemma {:induction false} CopiesGrow(a: nat, b: nat, x: real)
    requires a < b && x > 0.0
    ensures Copies(a, x) + x <= Copies(b, x)
    decreases b
  {
    if a + 1 < b { CopiesGrow(a, b - 1, x); }
  }

  lemma {:induction false} CopiesAdd(a: nat, b: nat, x: real)
    ensures Copies(a + b, x) == Copies(a, x) + Copies(b, x)
  {
    if b > 0 { CopiesAdd(a, b - 1, x); }
  }

  lemma {:induction false} CopiesOfCopies(a: nat, b: nat, x: real)
    ensures Copies(a * b, x) == Copies(a, Copies(b, x))
  {
    if a > 0 {
      CopiesOfCopies(a - 1, b, x);
      CopiesAdd((a - 1) * b, b, x);
      assert (a - 1) * b + b == a * b;
    } else {
      assert a * b == 0;
    }
  }

  lemma {:induction false} CopiesScale(n: nat, x: real, f: real, y: real)
    requires y == x * f
    ensures Copies(n, y) == Copies(n, x) * f
  {
    if n > 0 {
      CopiesScale(n - 1, x, f, y);
      Distribute(Copies(n - 1, x), x, Copies(n, x), f);
    }
  }

  lemma Distribute(a: real, b: real, c: real, f: real)
    requires a + b == c
    ensures a * f + b * f == c * f
  {
  }

  lemma CopiesSwap(p: nat, b: nat, q: nat, c: nat, x: real)
    requires p * b == q * c
    ensures Copies(p, Copies(b, x)) == Copies(q, Copies(c, x))
  {
    CopiesOfCopies(p, b, x);
    CopiesOfCopies(q, c, x);
  }

  /** Terms above `-bound` sum to more than minus as many copies of it. */
  lemma {:induction false} SumAbove<K>(m: map<K, real>, bound: real)
    requires m != map[] && forall k :: k in m ==> m[k] > -bound
    ensures Sum(m) > -Copies(|m|, bound)
    decreases |m|
  {
    var k :| k in m;
    SumRemove(m, k);
    var rest := m - {k};
    assert rest.Keys == m.Keys - {k};
    assert |rest.Keys| == |m.Keys| - 1;
    if rest != map[] {
      SumAbove(rest, bound);
    }
  }

  /** Terms of at most `bound` sum to at most as many copies of it. */
  lemma {:induction false} SumBelow<K>(m: map<K, real>, bound: real)
    requires forall k :: k in m ==> m[k] <= bound
    ensures Sum(m) <= Copies(|m|, bound)
    decreases |m|
  {
    if m != map[] {
      var k :| k in m;
      SumRemove(m, k);
      assert |m - {k}| == |m| - 1 by { assert (m - {k}).Keys == m.Keys - {k}; }
      SumBelow(m - {k}, bound);
    }
  }

  lemma {:induction false} CopiesMono(a: nat, b: nat, x: real, y: real)
    requires a <= b && 0.0 <= x <= y
    ensures 0.0 <= Copies(a, x) <= Copies(b, y)
  {
    if b > 0 { CopiesMono(if a == b then a - 1 else a, b - 1, x, y); }
  }

  lemma {:induction false} SumNonNegative<K>(m: map<K, real>)
    requires forall k :: k in m ==> m[k] >= 0.0
    ensures Sum(m) >= 0.0
    decreases |m|
  {
    if m != map[] {
      var k :| k in m;
      SumRemove(m, k);
      SumNonNegative(m - {k});
    }
  }

  lemma {:induction false} CopiesOfZero(n: nat)
    ensures Copies(n, 0.0) == 0.0
  {
    if n > 0 { CopiesOfZero(n - 1); }
  }

  lemma {:induction false} SumNonPositive<K>(m: map<K, real>)
    requires forall k :: k in m ==> m[k] <= 0.0
    ensures Sum(m) <= 0.0
    decreases |m|
  {
    if m != map[] {
      var k :| k in m;
      SumRemove(m, k);
      SumNonPositive(m - {k});
    }
  }

  lemma SumPositive<K>(m: map<K, real>)
    requires m != map[] && forall k :: k in m ==> m[k] > 0.0
    ensures Sum(m) > 0.0
  {
    SumAbove(m, 0.0);
    CopiesOfZero(|m|);
  }

  /** A map splits into the part on `keys` and the rest. */
  lemma {:induction false} SumSplit<K>(m: map<K, real>, keys: set<K>)
    ensures Sum(m) == Sum(map k | k in m && k in keys :: m[k]) + Sum(m - keys)
    decreases |m|
  {
    var inside := map k | k in m && k in keys :: m[k];
    if m == map[] {
      assert inside == map[] && m - keys == map[];
    } else {
      var k :| k in m;
      var rest := m - {k};
      SumSplit(rest, keys);
      SumRemove(m, k);
      var restInside := map j | j in rest && j in keys :: rest[j];
      if k in keys {
        SumRemove(inside, k);
        assert inside - {k} == restInside && m - keys == rest - keys;
      } else {
        SumRemove(m - keys, k);
        assert inside == restInside && (m - keys) - {k} == rest - keys;
      }
    }
  }

  // ----- whole numbers -----

  ghost function Total<K>(m: map<K, nat>): nat
    decreases |m|
  {
    if m == map[] then 0 else
      var k :| k in m;
      m[k] + Total(m - {k})
  }

  lemma {:induction false} TotalRemove<K>(m: map<K, nat>, k: K)
    requires k in m
    ensures Total(m) == m[k] + Total(m - {k})
    decreases |m|
  {
    var c :| c in m && Total(m) == m[c] + Total(m - {c});
    if c != k {
      TotalRemove(m - {c}, k);
      TotalRemove(m - {k}, c);
      assert m - {c} - {k} == m - {k} - {c};
    }
  }

  lemma {:induction false} TotalMono<K>(a: map<K, nat>, b: map<K, nat>)
    requires a.Keys == b.Keys && forall k :: k in a ==> a[k] <= b[k]
    ensures Total(a) <= Total(b)
    decreases |a|
  {
    if a == map[] {
      assert b == map[];
    } else {
      var k :| k in a;
      TotalRemove(a, k); TotalRemove(b, k);
      TotalMono(a - {k}, b - {k});
    }
  }

  /** Terms at or below another map's, with equal totals, are that map's. */
  lemma TotalSqueeze<K>(a: map<K, nat>, b: map<K, nat>, k: K)
    requires a.Keys == b.Keys && k in a && forall j :: j in a ==> a[j] <= b[j]
    requires Total(a) == Total(b)
    ensures a[k] == b[k]
  {
    TotalRemove(a, k); TotalRemove(b, k);
    TotalMono(a - {k}, b - {k});
  }

  function Multiples<K>(m: map<K, nat>, f: nat): map<K, nat> {
    map k | k in m :: f * m[k]
  }

  lemma {:induction false} TotalPointwise<K>(a: map<K, nat>, b: map<K, nat>, c: map<K, nat>)
    requires a.Keys == b.Keys == c.Keys && forall k :: k in a ==> c[k] == a[k] + b[k]
    ensures Total(c) == Total(a) + Total(b)
    decreases |a|
  {
    if a == map[] {
      assert b == map[] && c == map[];
    } else {
      var k :| k in a;
      TotalRemove(a, k); TotalRemove(b, k); TotalRemove(c, k);
      TotalPointwise(a - {k}, b - {k}, c - {k});
    }
  }

  lemma OneMore(f: nat, x: nat)
    ensures (f + 1) * x == f * x + x
  {
  }

  lemma {:induction false} TotalMultiples<K>(m: map<K, nat>, f: nat)
    ensures Total(Multiples(m, f)) == f * Total(m)
    decreases f
  {
    if f == 0 {
      forall k | k in m ensures Multiples(m, 0)[k] == 0 {}
      ZeroTotal(Multiples(m, 0));
    } else {
      TotalMultiples(m, f - 1);
      forall k | k in m ensures Multiples(m, f)[k] == Multiples(m, f - 1)[k] + m[k] { OneMore(f - 1, m[k]); }
      TotalPointwise(Multiples(m, f - 1), m, Multiples(m, f));
      OneMore(f - 1, Total(m));
    }
  }

  lemma {:induction false} ZeroTotal<K>(m: map<K, nat>)
    requires forall k :: k in m ==> m[k] == 0
    ensures Total(m) == 0
    decreases |m|
  {
    if m != map[] {
      var k :| k in m;
      TotalRemove(m, k);
      ZeroTotal(m - {k});
    }
  }

  lemma {:induction false} SumOfCopies<K>(b: map<K, real>, m: map<K, nat>, unit: real)
    requires b.Keys == m.Keys && forall k :: k in b ==> b[k] == Copies(m[k], unit)
    ensures Sum(b) == Copies(Total(m), unit)
    decreases |b|
  {
    if b == map[] {
      assert m == map[];
    } else {
      var k :| k in b;
      SumRemove(b, k); TotalRemove(m, k);
      SumOfCopies(b - {k}, m - {k}, unit);
      CopiesAdd(m[k], Total(m - {k}), unit);
    }
  }
}
