/** Top-p sampling among the k largest logits of each row of a batch (`sampling_cpu_util.cc`). */
module Sampling {
  import opened Strings
  import opened TopK

  // ---- one row -----------------------------------------------------------------------------------

  /** The least number of the first values, at least one, whose sum reaches `p`; or all of them. */
  function CutFrom(xs: seq<real>, p: real, n: nat): (cut: nat)
    requires 1 <= n <= |xs| && forall m :: 1 <= m < n ==> Sum(xs[..m]) < p
    ensures n <= cut <= |xs|
    ensures cut == |xs| || Sum(xs[..cut]) >= p
    ensures forall m :: 1 <= m < cut ==> Sum(xs[..m]) < p
    decreases |xs| - n
  {
    if n == |xs| || Sum(xs[..n]) >= p then n else CutFrom(xs, p, n + 1)
  }

  /** The first position whose running sum is at least `r`. */
  function PickFrom(xs: seq<real>, r: real, i: nat): (pick: Option<nat>)
    requires i <= |xs| && forall m :: 1 <= m <= i ==> Sum(xs[..m]) < r
    ensures pick.Some? ==> i <= pick.value < |xs| && r <= Sum(xs[..pick.value + 1])
    ensures pick.Some? ==> forall m :: 1 <= m <= pick.value ==> Sum(xs[..m]) < r
    ensures pick.None? ==> forall m :: 1 <= m <= |xs| ==> Sum(xs[..m]) < r
    decreases |xs| - i
  {
    if i == |xs| then None else if r <= Sum(xs[..i + 1]) then Some(i) else PickFrom(xs, r, i + 1)
  }

  /** A number drawn uniformly up to `total`; `u` is what the generator gave, below one. */
  function Portion(u: real, total: real): real { u * total }

  datatype Sample = Sample(id: nat, score: real)

  /** The `k` largest ids of a row, their probabilities, and an order of these. */
  datatype Candidates = Candidates(row: seq<real>, ids: seq<nat>, p: seq<real>, order: seq<nat>)

  predicate Shaped(c: Candidates) {
    Indices(c.ids, |c.row|) && c.ids != [] && |c.p| == |c.ids| && Indices(c.order, |c.ids|) && |c.order| == |c.ids|
  }

  /** The token drawn; `u` is the random number, as a fraction of the kept probability, and
      `fallback` the score used if the kept probability is zero. */
  function RowDraw(c: Candidates, topP: real, fallback: real, u: real): Sample
    requires Shaped(c)
  {
    if |c.ids| == 1 then Sample(c.ids[0], 1.0)
    else
      var xs := Picked(c.p, c.order);
      var cut := CutFrom(xs, topP, 1);
      var total := Sum(xs[..cut]);
      if total <= DOUBLE_EPSILON then Sample(c.ids[c.order[0]], fallback)
      else
        match PickFrom(xs[..cut], Portion(u, total), 0)
        case Some(i) => Sample(c.ids[c.order[i]], xs[i])
        case None => Sample(0, 0.0)
  }

  /** The weight of the first in order: its logit below the row's largest, scaled. */
  function FallbackScore(exp: real -> real, c: Candidates, temperature: real): real
    requires Shaped(c)
  {
    exp((c.row[c.ids[c.order[0]]] - c.row[c.ids[Best(c.row, c.ids)]]) / Temperature(temperature))
  }

  method DrawRow(exp: real -> real, row: seq<real>, ids: seq<nat>, probabilities: seq<real>, top: real,
                 temperature: real, topP: real, u: real)
    returns (sample: Sample, ghost c: Candidates)
    requires Indices(ids, |row|) && |ids| > 1 && |probabilities| == |ids| && top == row[ids[Best(row, ids)]]
    ensures c.row == row && c.ids == ids && c.p == probabilities && Shaped(c) && Descending(c.p, c.order)
    ensures sample == RowDraw(c, topP, FallbackScore(exp, c, temperature), u)
  {
    hide Best, Sum, CutFrom, PickFrom, Picked;
    var indexOfTopK := Sort(probabilities);
    c := Candidates(row, ids, probabilities, indexOfTopK);
    var cumulative, finalSize := CutOff(probabilities, indexOfTopK, topP);
    if cumulative <= DOUBLE_EPSILON {
      var id := ids[indexOfTopK[0]];
      return Sample(id, exp((row[id] - top) / Temperature(temperature))), c;
    }
    var pick := PickKept(probabilities, indexOfTopK, finalSize, Portion(u, cumulative));
    match pick
    case Some(i) => return Sample(ids[indexOfTopK[i]], probabilities[indexOfTopK[i]]), c;
    case None => return Sample(0, 0.0), c;
  }

  /** The loop that finds where the running sum reaches `p`. */
  method CutOff(probabilities: seq<real>, order: seq<nat>, p: real) returns (cumulative: real, finalSize: nat)
    requires Indices(order, |probabilities|) && order != []
    ensures var xs := Picked(probabilities, order);
            finalSize == CutFrom(xs, p, 1) && cumulative == Sum(xs[..finalSize])
  {
    hide Sum, CutFrom;
    ghost var xs := Picked(probabilities, order);
    cumulative, finalSize := 0.0, 0;
    var i := 0;
    SumOfNone(xs);
    while i < |order|
      invariant 0 <= i < |order| && finalSize == i && cumulative == Sum(xs[..i])
      invariant forall m :: 1 <= m <= i ==> Sum(xs[..m]) < p
    {
      SumNext(xs, i);
      cumulative := cumulative + probabilities[order[i]];
      finalSize := i + 1;
      if cumulative >= p || i == |order| - 1 { break; }
      i := i + 1;
    }
    CutIs(xs, p, finalSize);
  }

  /** The loop that finds which of the kept values the random number falls to. */
  method PickKept(probabilities: seq<real>, order: seq<nat>, finalSize: nat, randomSample: real)
      returns (pick: Option<nat>)
    requires Indices(order, |probabilities|) && finalSize <= |order|
    ensures pick == PickFrom(Picked(probabilities, order)[..finalSize], randomSample, 0)
  {
    hide Sum, PickFrom;
    ghost var kept := Picked(probabilities, order)[..finalSize];
    var current, j := 0.0, 0;
    SumOfNone(kept);
    while j < finalSize
      invariant 0 <= j <= finalSize && current == Sum(kept[..j])
      invariant forall m :: 1 <= m <= j ==> Sum(kept[..m]) < randomSample
    {
      SumNext(kept, j);
      current := current + probabilities[order[j]];
      if randomSample <= current {
        PickIs(kept, randomSample, 0, j);
        return Some(j);
      }
      j := j + 1;
    }
    PickNone(kept, randomSample, 0);
    return None;
  }

  lemma SumOfNone(xs: seq<real>)
    ensures Sum(xs[..0]) == 0.0
  {
  }

  lemma SumNext(xs: seq<real>, i: nat)
    requires i < |xs|
    ensures Sum(xs[..i + 1]) == Sum(xs[..i]) + xs[i]
  {
    assert xs[..i + 1][..i] == xs[..i];
  }

  lemma CutIs(xs: seq<real>, p: real, n: nat)
    requires 1 <= n <= |xs| && (n == |xs| || Sum(xs[..n]) >= p)
    requires forall m :: 1 <= m < n ==> Sum(xs[..m]) < p
    ensures CutFrom(xs, p, 1) == n
  {
    hide Sum;
  }

  lemma {:induction false} PickIs(xs: seq<real>, r: real, j: nat, i: nat)
    requires j <= i < |xs| && r <= Sum(xs[..i + 1]) && forall m :: 1 <= m <= i ==> Sum(xs[..m]) < r
    ensures PickFrom(xs, r, j) == Some(i)
    decreases i - j
  {
    hide Sum;
    if j < i { PickIs(xs, r, j + 1, i); }
  }

  lemma {:induction false} PickNone(xs: seq<real>, r: real, j: nat)
    requires j <= |xs| && forall m :: 1 <= m <= |xs| ==> Sum(xs[..m]) < r
    ensures PickFrom(xs, r, j) == None
    decreases |xs| - j
  {
    hide Sum;
    if j < |xs| { PickNone(xs, r, j + 1); }
  }

  // ---- what is drawn -----------------------------------------------------------------------------

  /** The ids are the row's largest logits', their probabilities stand in the order of the logits,
      and `order` is by descending probability. */
  predicate Posed(c: Candidates) {
    && Shaped(c) && Largest(c.row, c.ids) && Descending(c.p, c.order)
    && Probabilities(c.p) && SameOrder(Picked(c.row, c.ids), c.p)
  }

  lemma {:induction false} PrefixSums(xs: seq<real>, m: nat, n: nat)
    requires m <= n <= |xs| && forall i :: 0 <= i < |xs| ==> xs[i] > 0.0
    ensures Sum(xs[..m]) <= Sum(xs[..n])
  {
    if m < n {
      PrefixSums(xs, m, n - 1);
      assert xs[..n][..n - 1] == xs[..n - 1];
    }
  }

  /** The first in order has the largest logit, and the largest probability. */
  lemma FirstIsBest(c: Candidates, i: nat)
    requires Posed(c) && i < |c.ids|
    ensures c.row[c.ids[i]] <= c.row[c.ids[c.order[0]]] && c.p[i] <= c.p[c.order[0]]
  {
    hide Sum, Picked;
    AllIndices(c.order, |c.ids|, i);
    var m :| 0 <= m < |c.order| && c.order[m] == i;
    assert c.p[c.order[m]] <= c.p[c.order[0]];
    var logits := Picked(c.row, c.ids);
    assert !(logits[c.order[0]] < logits[i]);
  }

  /** So it has at least an equal share of the probability. */
  lemma FirstShare(c: Candidates)
    requires Posed(c)
    ensures c.p[c.order[0]] * |c.ids| as real >= 1.0
  {
    hide Sum, Picked, SameOrder;
    forall i | 0 <= i < |c.p| ensures c.p[i] <= c.p[c.order[0]] { FirstIsBest(c, i); }
    SumBelow(c.p, c.p[c.order[0]]);
  }

  lemma ShareIsLarge(x: real, k: nat)
    requires x * k as real >= 1.0 && 0 < k < 0x8000_0000
    ensures x > DOUBLE_EPSILON
  {
    SmallTimes(x, DOUBLE_EPSILON, k as real);
  }

  lemma SmallTimes(x: real, e: real, k: real)
    requires k >= 0.0
    ensures x <= e ==> x * k <= e * k
  {
    if x <= e { assert (e - x) * k >= 0.0; }
  }

  /** Some kept position is picked. */
  lemma PickWithin(xs: seq<real>, cut: nat, r: real) returns (i: nat)
    requires 1 <= cut <= |xs| && r < Sum(xs[..cut])
    ensures i < cut && PickFrom(xs[..cut], r, 0) == Some(i)
    ensures r <= Sum(xs[..i + 1]) && forall m :: 1 <= m <= i ==> Sum(xs[..m]) < r
  {
    hide Sum;
    var kept := xs[..cut];
    assert forall m :: 0 <= m <= cut ==> kept[..m] == xs[..m];
    var pick := PickFrom(kept, r, 0);
    assert kept[..cut] == xs[..cut];
    i := pick.value;
  }

  /** For every random number below one: the draw gives the token at a position of the nucleus,
      which is the shortest descending run that reaches `p`, or all `k`; the position is the one
      whose share of the kept probability the random number falls into; and the score is the
      token's probability. */
  lemma {:induction false} DrawIsInNucleus(c: Candidates, topP: real, fallback: real, u: real)
      returns (i: nat, cut: nat)
    requires Posed(c) && 1 < |c.ids| < 0x8000_0000 && 0.0 <= u < 1.0
    ensures var xs := Picked(c.p, c.order);
            && i < cut <= |c.ids|
            && RowDraw(c, topP, fallback, u) == Sample(c.ids[c.order[i]], xs[i])
            && (cut == |c.ids| || Sum(xs[..cut]) >= topP)
            && (forall m :: 1 <= m < cut ==> Sum(xs[..m]) < topP)
            && Portion(u, Sum(xs[..cut])) <= Sum(xs[..i + 1])
            && (forall m :: 1 <= m <= i ==> Sum(xs[..m]) < Portion(u, Sum(xs[..cut])))
  {
    hide Sum, PickFrom, CutFrom, Picked, Portion, SameOrder;
    var xs := Picked(c.p, c.order);
    cut := CutFrom(xs, topP, 1);
    TotalIsLarge(c, cut);
    var total := Sum(xs[..cut]);
    Fraction(u, total);
    i := PickWithin(xs, cut, Portion(u, total));
  }

  lemma TotalIsLarge(c: Candidates, cut: nat)
    requires Posed(c) && |c.ids| < 0x8000_0000 && 1 <= cut <= |c.ids|
    ensures Sum(Picked(c.p, c.order)[..cut]) > DOUBLE_EPSILON
  {
    hide Sum, Picked, SameOrder;
    var xs := Picked(c.p, c.order);
    FirstShare(c);
    PrefixSums(xs, 1, cut);
    SumOfOne(xs);
    ShareIsLarge(xs[0], |c.ids|);
  }

  lemma SumOfOne(xs: seq<real>)
    requires xs != []
    ensures Sum(xs[..1]) == xs[0]
  {
    assert xs[..1] == [xs[0]] && xs[..1][..0] == [];
  }

  lemma Fraction(u: real, total: real)
    requires 0.0 <= u < 1.0 && total > 0.0
    ensures 0.0 <= Portion(u, total) < total
  {
    Product(1.0 - u, total);
    assert (1.0 - u) * total == total - u * total;
  }

  /** Whatever is drawn is one of the row's `k` ids, and no token left out has a larger logit. */
  lemma DrawIsAmongLargest(c: Candidates, topP: real, fallback: real, u: real)
    requires Posed(c) && |c.ids| < 0x8000_0000 && 0.0 <= u < 1.0
    ensures var id := RowDraw(c, topP, fallback, u).id;
            id in c.ids && forall j :: 0 <= j < |c.row| && j !in c.ids ==> c.row[j] <= c.row[id]
  {
    hide Sum, SameOrder;
    if |c.ids| > 1 {
      var i, cut := DrawIsInNucleus(c, topP, fallback, u);
    }
  }

  /** With `k` one or `p` zero, the draw is a largest logit of the whole row. */
  lemma {:induction false} GreedyIsArgmax(c: Candidates, topP: real, fallback: real, u: real, j: nat)
    requires Posed(c) && |c.ids| < 0x8000_0000 && 0.0 <= u < 1.0
    requires (|c.ids| == 1 || topP <= 0.0) && j < |c.row|
    ensures var id := RowDraw(c, topP, fallback, u).id;
            id in c.ids && c.row[j] <= c.row[id]
  {
    hide Sum, SameOrder;
    if |c.ids| > 1 {
      var i, cut := DrawIsInNucleus(c, topP, fallback, u);
      SumOfOne(Picked(c.p, c.order));
      assert cut == 1;
    }
    if j in c.ids {
      var m :| 0 <= m < |c.ids| && c.ids[m] == j;
      FirstIsBest(c, m);
    }
  }
}
