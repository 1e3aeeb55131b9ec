/** Adding up a weight over the threads of a map. */
module Sums {

  ghost function {:induction false} Sum<T(!new)>(m: map<nat, T>, w: T -> nat): nat
    decreases |m|
  {
    if m == map[] then 0
    else
      var t :| t in m;
      assert |m - {t}| < |m| by { Smaller(m, t); }
      w(m[t]) + Sum(m - {t}, w)
  }

  lemma Smaller<T>(m: map<nat, T>, t: nat)
    requires t in m
    ensures |m - {t}| < |m|
  {
    assert |m.Keys| == |m| && |(m - {t}).Keys| == |m - {t}|;
    assert m.Keys == (m - {t}).Keys + {t};
  }

  lemma {:induction false} SumOf<T(!new)>(m: map<nat, T>, w: T -> nat, t: nat)
    requires t in m
    ensures Sum(m, w) == w(m[t]) + Sum(m - {t}, w)
    decreases |m|
  {
    var u :| u in m && Sum(m, w) == w(m[u]) + Sum(m - {u}, w);
    if u != t {
      Smaller(m, u);
      Smaller(m, t);
      SumOf(m - {u}, w, t);
      SumOf(m - {t}, w, u);
      assert m - {u} - {t} == m - {t} - {u};
    }
  }

  /** Changing one entry changes the sum by the difference of its weights. */
  lemma SumAfter<T(!new)>(m: map<nat, T>, w: T -> nat, t: nat, x: T)
    requires t in m
    ensures Sum(m[t := x], w) == Sum(m, w) - w(m[t]) + w(x)
  {
    SumOf(m, w, t);
    SumOf(m[t := x], w, t);
    assert m - {t} == m[t := x] - {t};
  }

  lemma {:induction false} SumZero<T(!new)>(m: map<nat, T>, w: T -> nat)
    requires forall t | t in m :: w(m[t]) == 0
    ensures Sum(m, w) == 0
    decreases |m|
  {
    if m == map[] {
    } else {
      var t :| t in m;
      Smaller(m, t);
      SumOf(m, w, t);
      SumZero(m - {t}, w);
    }
  }

  lemma {:induction false} SumAtMost<T(!new)>(m: map<nat, T>, w: T -> nat, bound: nat)
    requires forall t | t in m :: w(m[t]) <= bound
    ensures Sum(m, w) <= bound * |m|
    decreases |m|
  {
    if m == map[] {
    } else {
      var t :| t in m;
      Smaller(m, t);
      SumOf(m, w, t);
      SumAtMost(m - {t}, w, bound);
      assert |m| >= |m - {t}| + 1;
      assert bound * |m| >= bound * (|m - {t}| + 1);
    }
  }
}
