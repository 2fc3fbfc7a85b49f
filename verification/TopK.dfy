/** The k largest logits of a row, softmax over them, and the top-p draw, over the reals. */
module TopK {

  const FLOAT_EPSILON: real := 1.0 / 8388608.0
  const DOUBLE_EPSILON: real := 1.0 / 4503599627370496.0

  // ---- indices -----------------------------------------------------------------------------------

  /** Different indices below `n`. */
  predicate Indices(ids: seq<nat>, n: nat) {
    && (forall i :: 0 <= i < |ids| ==> ids[i] < n)
    && (forall i, j :: 0 <= i < j < |ids| ==> ids[i] != ids[j])
  }

  function Below(n: nat): (s: set<nat>)
    ensures |s| == n && forall i: nat :: i in s <==> i < n
  {
    if n == 0 then {} else Below(n - 1) + {n - 1}
  }

  function Members(ids: seq<nat>): (s: set<nat>)
    ensures forall i :: i in s <==> i in ids
  {
    if ids == [] then {} else Members(ids[..|ids| - 1]) + {ids[|ids| - 1]}
  }

  lemma {:induction false} MembersCount(ids: seq<nat>, n: nat)
    requires Indices(ids, n)
    ensures |Members(ids)| == |ids|
  {
    hide Indices;
    if ids != [] {
      var m := |ids| - 1;
      LastIsNew(ids, n);
      MembersCount(ids[..m], n);
    }
  }

  lemma LastIsNew(ids: seq<nat>, n: nat)
    requires Indices(ids, n) && ids != []
    ensures var m := |ids| - 1; Indices(ids[..m], n) && ids[m] !in ids[..m]
  {
  }

  /** As many different indices as there are include every one. */
  lemma AllIndices(ids: seq<nat>, n: nat, i: nat)
    requires Indices(ids, n) && |ids| == n && i < n
    ensures i in ids
  {
    MembersCount(ids, n);
    var members, all := Members(ids), Below(n);
    assert members <= all;
    if i !in members {
      assert members <= all - {i};
      SubsetSize(members, all - {i});
    }
  }

  lemma {:induction false} SubsetSize(a: set<nat>, b: set<nat>)
    requires a <= b
    ensures |a| <= |b|
  {
    if a != {} {
      var x :| x in a;
      SubsetSize(a - {x}, b - {x});
    }
  }

  /** The values in the order of the indices, largest first. */
  predicate Descending(values: seq<real>, order: seq<nat>) {
    && Indices(order, |values|)
    && (forall i, j :: 0 <= i < j < |order| ==> values[order[i]] >= values[order[j]])
  }

  /** No index left out has a larger value than one that is in. */
  predicate Largest(row: seq<real>, ids: seq<nat>) {
    && Indices(ids, |row|)
    && (forall i, j :: 0 <= i < |ids| && 0 <= j < |row| && j !in ids ==> row[j] <= row[ids[i]])
  }

  /** `std::sort` of the indices by value. */
  method Sort(values: seq<real>) returns (order: seq<nat>)
    ensures Descending(values, order) && |order| == |values|
  {
    order := [];
    var i := 0;
    while i < |values|
      invariant 0 <= i <= |values| && |order| == i
      invariant Descending(values, order) && Indices(order, i)
    {
      var p := 0;
      while p < |order| && values[order[p]] >= values[i]
        invariant 0 <= p <= |order|
        invariant forall q :: 0 <= q < p ==> values[order[q]] >= values[i]
      {
        p := p + 1;
      }
      Insert(values, order, i, p);
      order := order[..p] + [i] + order[p..];
      i := i + 1;
    }
  }

  lemma Insert(values: seq<real>, order: seq<nat>, i: nat, p: nat)
    requires i < |values| && p <= |order| && Descending(values, order) && Indices(order, i)
    requires forall q :: 0 <= q < p ==> values[order[q]] >= values[i]
    requires p < |order| ==> values[order[p]] < values[i]
    ensures var r := order[..p] + [i] + order[p..];
            Descending(values, r) && Indices(r, i + 1)
  {
    var r := order[..p] + [i] + order[p..];
    assert |r| == |order| + 1;
    assert forall q :: 0 <= q < p ==> r[q] == order[q];
    assert forall q :: p < q < |r| ==> r[q] == order[q - 1];
    assert r[p] == i;
    forall a, b | 0 <= a < b < |r| ensures r[a] != r[b] && values[r[a]] >= values[r[b]] {
      if b == p {
      } else if a == p {
        assert values[order[b - 1]] <= values[order[p]];
      }
    }
  }

  /** The first `k` of a descending order are the largest. */
  lemma PrefixLargest(row: seq<real>, order: seq<nat>, k: nat)
    requires Descending(row, order) && |order| == |row| && k <= |row|
    ensures Largest(row, order[..k])
  {
    forall i, j | 0 <= i < k && 0 <= j < |row| && j !in order[..k] ensures row[j] <= row[order[..k][i]] {
      AllIndices(order, |row|, j);
      assert order == order[..k] + order[k..];
      var m :| 0 <= m < |order| - k && order[k..][m] == j;
      assert order[k + m] == j;
    }
  }

  /** `std::nth_element`: the `k` largest come first, in some order. */
  method NthElement(row: seq<real>, k: nat) returns (indices: seq<nat>)
    requires k <= |row|
    ensures |indices| == |row| && Indices(indices, |row|) && Largest(row, indices[..k])
  {
    indices := Sort(row);
    PrefixLargest(row, indices, k);
  }

  /** `std::max_element`: the first of the largest. */
  method MaxElement(row: seq<real>) returns (best: nat)
    requires row != []
    ensures best < |row| && (forall j :: 0 <= j < |row| ==> row[j] <= row[best])
    ensures forall j :: 0 <= j < best ==> row[j] < row[best]
  {
    best := 0;
    var i := 1;
    while i < |row|
      invariant 1 <= i <= |row| && best < i
      invariant forall j :: 0 <= j < i ==> row[j] <= row[best]
      invariant forall j :: 0 <= j < best ==> row[j] < row[best]
    {
      if row[best] < row[i] { best := i; }
      i := i + 1;
    }
  }

  // ---- softmax -------------------------------------------------------------------------------------

  /** What is asked of the exponential function. */
  ghost predicate Exponential(exp: real -> real) {
    && exp(0.0) == 1.0
    && (forall x {:trigger exp(x)} :: exp(x) > 0.0)
    && (forall x, y {:trigger exp(x), exp(y)} :: x < y ==> exp(x) < exp(y))
  }

  function Sum(xs: seq<real>): real {
    if xs == [] then 0.0 else Sum(xs[..|xs| - 1]) + xs[|xs| - 1]
  }

  /** The position in `ids` of the first largest logit. */
  function Best(row: seq<real>, ids: seq<nat>): (b: nat)
    requires Indices(ids, |row|) && ids != []
    ensures b < |ids| && forall i :: 0 <= i < |ids| ==> row[ids[i]] <= row[ids[b]]
  {
    var n := |ids| - 1;
    if n == 0 then 0
    else
      var b := Best(row, ids[..n]);
      if row[ids[b]] < row[ids[n]] then n else b
  }

  function Temperature(t: real): (r: real)
    ensures r > 0.0
  {
    if t < FLOAT_EPSILON then FLOAT_EPSILON else t
  }

  /** `exp` of each logit below the largest, scaled by the temperature. */
  function Weights(exp: real -> real, row: seq<real>, ids: seq<nat>, top: real, t: real): (w: seq<real>)
    requires Indices(ids, |row|) && t > 0.0
    ensures |w| == |ids| && forall i :: 0 <= i < |ids| ==> w[i] == exp((row[ids[i]] - top) / t)
  {
    if ids == [] then []
    else
      var n := |ids| - 1;
      Weights(exp, row, ids[..n], top, t) + [exp((row[ids[n]] - top) / t)]
  }

  function Times(x: real, c: real): real { x * c }

  function Scaled(xs: seq<real>, c: real): (r: seq<real>)
    ensures |r| == |xs| && forall i :: 0 <= i < |xs| ==> r[i] == Times(xs[i], c)
  {
    if xs == [] then [] else Scaled(xs[..|xs| - 1], c) + [Times(xs[|xs| - 1], c)]
  }

  function Uniform(k: nat): (r: seq<real>)
    requires k > 0
    ensures |r| == k
  {
    seq(k, i => 1.0 / k as real)
  }

  function SoftmaxRow(exp: real -> real, row: seq<real>, ids: seq<nat>, temperature: real): (p: seq<real>)
    requires Indices(ids, |row|) && ids != []
    ensures |p| == |ids|
  {
    var w := Weights(exp, row, ids, row[ids[Best(row, ids)]], Temperature(temperature));
    if Sum(w) <= FLOAT_EPSILON then Uniform(|ids|) else Scaled(w, 1.0 / Sum(w))
  }

  lemma {:induction false} SumAtLeast(xs: seq<real>, k: nat)
    requires k < |xs| && forall i :: 0 <= i < |xs| ==> xs[i] > 0.0
    ensures Sum(xs) >= xs[k]
  {
    var n := |xs| - 1;
    if k < n { SumAtLeast(xs[..n], k); } else { SumPositive(xs[..n]); }
  }

  lemma {:induction false} SumPositive(xs: seq<real>)
    requires forall i :: 0 <= i < |xs| ==> xs[i] > 0.0
    ensures Sum(xs) >= 0.0
  {
    if xs != [] { SumPositive(xs[..|xs| - 1]); }
  }

  lemma {:induction false} SumScaled(xs: seq<real>, c: real)
    ensures Sum(Scaled(xs, c)) == Sum(xs) * c
  {
    if xs != [] {
      var n := |xs| - 1;
      SumScaled(xs[..n], c);
      assert Scaled(xs, c)[..n] == Scaled(xs[..n], c);
    }
  }

  lemma {:induction false} SumBelow(xs: seq<real>, c: real)
    requires forall i :: 0 <= i < |xs| ==> xs[i] <= c
    ensures Sum(xs) <= |xs| as real * c
  {
    if xs != [] { SumBelow(xs[..|xs| - 1], c); }
  }

  lemma WeightOfBest(exp: real -> real, t: real)
    requires Exponential(exp) && t > 0.0
    ensures exp(0.0 / t) == 1.0
  {
    assert 0.0 / t == 0.0;
  }

  /** The largest logit's weight is one and the others are positive, so they add up to at least one:
      the uniform fallback is never taken. */
  lemma {:induction false} SoftmaxScales(exp: real -> real, row: seq<real>, ids: seq<nat>, temperature: real)
    requires Exponential(exp) && Indices(ids, |row|) && ids != []
    ensures var w := Weights(exp, row, ids, row[ids[Best(row, ids)]], Temperature(temperature));
            && Sum(w) >= 1.0
            && (forall i :: 0 <= i < |w| ==> w[i] > 0.0)
            && SoftmaxRow(exp, row, ids, temperature) == Scaled(w, 1.0 / Sum(w))
  {
    hide Exponential, Best, Sum, Temperature;
    var b, t := Best(row, ids), Temperature(temperature);
    var w := Weights(exp, row, ids, row[ids[b]], t);
    assert row[ids[b]] - row[ids[b]] == 0.0;
    WeightOfBest(exp, t);
    forall i | 0 <= i < |w| ensures w[i] > 0.0 { WeightPositive(exp, (row[ids[i]] - row[ids[b]]) / t); }
    SumAtLeast(w, b);
  }

  predicate SameOrder(xs: seq<real>, ys: seq<real>) {
    |xs| == |ys| && forall i, j :: 0 <= i < |xs| && 0 <= j < |xs| ==> (xs[i] < xs[j] <==> ys[i] < ys[j])
  }

  predicate Probabilities(p: seq<real>) {
    Sum(p) == 1.0 && forall i :: 0 <= i < |p| ==> p[i] > 0.0
  }

  /** The values at the indices. */
  function Picked(row: seq<real>, ids: seq<nat>): (r: seq<real>)
    requires Indices(ids, |row|)
    ensures |r| == |ids| && forall i :: 0 <= i < |ids| ==> r[i] == row[ids[i]]
  {
    if ids == [] then [] else Picked(row, ids[..|ids| - 1]) + [row[ids[|ids| - 1]]]
  }

  lemma SameOrderTrans(xs: seq<real>, ys: seq<real>, zs: seq<real>)
    requires SameOrder(xs, ys) && SameOrder(ys, zs)
    ensures SameOrder(xs, zs)
  {
  }

  lemma ScaledOrderAt(w: seq<real>, c: real, i: nat, j: nat)
    requires c > 0.0 && i < |w| && j < |w|
    ensures w[i] < w[j] <==> Scaled(w, c)[i] < Scaled(w, c)[j]
  {
    hide Times;
    TimesOrder(w[i], w[j], c);
  }

  lemma ScaledSameOrder(w: seq<real>, c: real)
    requires c > 0.0
    ensures SameOrder(w, Scaled(w, c))
  {
    hide Scaled;
    var p := Scaled(w, c);
    forall i, j | 0 <= i < |w| && 0 <= j < |w| ensures w[i] < w[j] <==> p[i] < p[j] { ScaledOrderAt(w, c, i, j); }
  }

  lemma {:induction false} WeightsSameOrder(exp: real -> real, row: seq<real>, ids: seq<nat>, top: real, t: real)
    requires Exponential(exp) && Indices(ids, |row|) && t > 0.0
    ensures SameOrder(Picked(row, ids), Weights(exp, row, ids, top, t))
  {
    hide Exponential;
    var w := Weights(exp, row, ids, top, t);
    forall i, j | 0 <= i < |w| && 0 <= j < |w| ensures row[ids[i]] < row[ids[j]] <==> w[i] < w[j] {
      WeightOrder(exp, row[ids[i]] - top, row[ids[j]] - top, t);
    }
  }

  /** Softmax gives probabilities: they add up to one, ... */
  lemma {:induction false} SoftmaxAddsToOne(exp: real -> real, row: seq<real>, ids: seq<nat>, temperature: real)
    requires Exponential(exp) && Indices(ids, |row|) && ids != []
    ensures Sum(SoftmaxRow(exp, row, ids, temperature)) == 1.0
  {
    hide Best, Sum, Exponential, SoftmaxRow, Weights, Temperature, Scaled;
    var w := Weights(exp, row, ids, row[ids[Best(row, ids)]], Temperature(temperature));
    SoftmaxScales(exp, row, ids, temperature);
    var c := Inverse(Sum(w));
    SumScaled(w, c);
  }

  /** ... every one is positive, ... */
  lemma {:induction false} SoftmaxPositive(exp: real -> real, row: seq<real>, ids: seq<nat>, temperature: real, i: nat)
    requires Exponential(exp) && Indices(ids, |row|) && i < |ids|
    ensures SoftmaxRow(exp, row, ids, temperature)[i] > 0.0
  {
    hide Best, Sum, Exponential, SoftmaxRow, Temperature;
    var w := Weights(exp, row, ids, row[ids[Best(row, ids)]], Temperature(temperature));
    SoftmaxScales(exp, row, ids, temperature);
    var c := Inverse(Sum(w));
    Product(w[i], c);
  }

  /** ... and they are in the order of the logits. */
  lemma {:induction false} SoftmaxSameOrder(exp: real -> real, row: seq<real>, ids: seq<nat>, temperature: real)
    requires Exponential(exp) && Indices(ids, |row|) && ids != []
    ensures SameOrder(Picked(row, ids), SoftmaxRow(exp, row, ids, temperature))
  {
    hide Best, Sum, Exponential, SoftmaxRow, Weights, Temperature, SameOrder, Scaled, Picked;
    var t, top := Temperature(temperature), row[ids[Best(row, ids)]];
    var w := Weights(exp, row, ids, top, t);
    SoftmaxScales(exp, row, ids, temperature);
    var c := Inverse(Sum(w));
    ScaledSameOrder(w, c);
    WeightsSameOrder(exp, row, ids, top, t);
    SameOrderTrans(Picked(row, ids), w, Scaled(w, c));
  }

  // ---- the probabilities themselves ------------------------------------------------------------

  /** The largest of the row's values at the indices. */
  ghost predicate IsTop(row: seq<real>, ids: seq<nat>, top: real)
    requires Indices(ids, |row|)
  {
    (exists i :: 0 <= i < |ids| && row[ids[i]] == top) && forall i :: 0 <= i < |ids| ==> row[ids[i]] <= top
  }

  /** `exp` of how far the value at `id` is below `top`, over the temperature, which is at least 2^-23. */
  function Weight(exp: real -> real, row: seq<real>, id: nat, top: real, temperature: real): real
    requires id < |row|
  {
    exp((row[id] - top) / if temperature > 1.0 / 8388608.0 then temperature else 1.0 / 8388608.0)
  }

  /** `p` adds up to one and is in the proportion of the weights. */
  ghost predicate IsSoftmax(exp: real -> real, row: seq<real>, ids: seq<nat>, temperature: real, p: seq<real>)
    requires Indices(ids, |row|)
  {
    && |p| == |ids| && Sum(p) == 1.0
    && exists top :: IsTop(row, ids, top) && InProportion(exp, row, ids, temperature, p, top)
  }

  ghost predicate InProportion(exp: real -> real, row: seq<real>, ids: seq<nat>, temperature: real, p: seq<real>,
      top: real)
    requires Indices(ids, |row|) && |p| == |ids|
  {
    forall i, j :: 0 <= i < |ids| && 0 <= j < |ids| ==>
      p[i] * Weight(exp, row, ids[j], top, temperature) == p[j] * Weight(exp, row, ids[i], top, temperature)
  }

  lemma WeightIs(exp: real -> real, row: seq<real>, id: nat, top: real, temperature: real)
    requires id < |row|
    ensures Weight(exp, row, id, top, temperature) == exp((row[id] - top) / Temperature(temperature))
  {
  }

  lemma Exchange(x: real, y: real, c: real)
    ensures Times(x, c) * y == Times(y, c) * x
  {
    assert (x * c) * y == (y * c) * x;
  }

  /** The softmax of the row's values at the indices. */
  lemma {:induction false} SoftmaxIs(exp: real -> real, row: seq<real>, ids: seq<nat>, temperature: real)
    requires Exponential(exp) && Indices(ids, |row|) && ids != []
    ensures IsSoftmax(exp, row, ids, temperature, SoftmaxRow(exp, row, ids, temperature))
  {
    hide Best, Sum, Exponential, SoftmaxRow, Temperature, Scaled, Times, Weight, Weights;
    var t, top := Temperature(temperature), row[ids[Best(row, ids)]];
    var p, w := SoftmaxRow(exp, row, ids, temperature), Weights(exp, row, ids, top, t);
    SoftmaxAddsToOne(exp, row, ids, temperature);
    SoftmaxScales(exp, row, ids, temperature);
    forall i, j | 0 <= i < |ids| && 0 <= j < |ids|
      ensures p[i] * Weight(exp, row, ids[j], top, temperature) == p[j] * Weight(exp, row, ids[i], top, temperature)
    {
      WeightIs(exp, row, ids[i], top, temperature);
      WeightIs(exp, row, ids[j], top, temperature);
      Exchange(w[i], w[j], 1.0 / Sum(w));
    }
    assert IsTop(row, ids, top);
    assert InProportion(exp, row, ids, temperature, p, top);
  }

  /** So each is to each other as their weights are. */
  lemma {:induction false} SoftmaxRatio(exp: real -> real, row: seq<real>, ids: seq<nat>, temperature: real, top: real,
      i: nat, j: nat)
    requires Exponential(exp) && Indices(ids, |row|) && i < |ids| && j < |ids| && IsTop(row, ids, top)
    ensures var p := SoftmaxRow(exp, row, ids, temperature);
            && Weight(exp, row, ids[j], top, temperature) > 0.0
            && p[i] == p[j] * Weight(exp, row, ids[i], top, temperature) / Weight(exp, row, ids[j], top, temperature)
  {
    hide SoftmaxRow, Exponential, Weight, Sum;
    SoftmaxIs(exp, row, ids, temperature);
    var p := SoftmaxRow(exp, row, ids, temperature);
    var other :| IsTop(row, ids, other) && InProportion(exp, row, ids, temperature, p, other);
    assert other == top;
    WeightIsPositive(exp, row, ids[j], top, temperature);
    Quotient(p[i], Weight(exp, row, ids[j], top, temperature), p[j] * Weight(exp, row, ids[i], top, temperature));
  }

  lemma WeightIsPositive(exp: real -> real, row: seq<real>, id: nat, top: real, temperature: real)
    requires Exponential(exp) && id < |row|
    ensures Weight(exp, row, id, top, temperature) > 0.0
  {
  }

  lemma Quotient(x: real, y: real, z: real)
    requires y > 0.0 && x * y == z
    ensures x == z / y
  {
  }

  lemma Inverse(total: real) returns (c: real)
    requires total >= 1.0
    ensures c == 1.0 / total && c > 0.0 && total * c == 1.0
  {
    c := 1.0 / total;
  }

  lemma WeightPositive(exp: real -> real, x: real)
    requires Exponential(exp)
    ensures exp(x) > 0.0
  {
  }

  lemma Product(x: real, y: real)
    requires x > 0.0 && y > 0.0
    ensures x * y > 0.0
  {
  }

  lemma WeightOrder(exp: real -> real, x: real, y: real, t: real)
    requires Exponential(exp) && t > 0.0
    ensures x < y <==> exp(x / t) < exp(y / t)
  {
    DivideOrder(x, y, t);
    DivideOrder(y, x, t);
    if x / t < y / t { assert exp(x / t) < exp(y / t); }
    if y / t < x / t { assert exp(y / t) < exp(x / t); }
  }

  lemma DivideOrder(x: real, y: real, t: real)
    requires t > 0.0
    ensures x < y <==> x / t < y / t
  {
    assert (x / t) * t == x && (y / t) * t == y;
    if x / t < y / t { Product(y / t - x / t, t); }
    if x / t >= y / t { assert (x / t - y / t) * t >= 0.0; }
  }

  lemma TimesOrder(x: real, y: real, c: real)
    requires c > 0.0
    ensures x < y <==> Times(x, c) < Times(y, c)
  {
    ScaleOrder(x, y, c);
  }

  lemma ScaleOrder(x: real, y: real, c: real)
    requires c > 0.0
    ensures x < y <==> x * c < y * c
  {
    if x < y { Product(y - x, c); } else { assert (x - y) * c >= 0.0; }
  }
}
