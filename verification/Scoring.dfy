/** The log likelihood of given tokens (`scoring_cpu_util.cc`): the logarithm of the softmax over
    the whole vocabulary, in whatever order the ids come. */
module Scoring {
  import opened Results
  import opened SamplingBatch
  import opened TopK

  /** All the indices of a row, in their own order. */
  function InOrder(n: nat): (ids: seq<nat>)
    ensures |ids| == n && forall i :: 0 <= i < n ==> ids[i] == i
  {
    if n == 0 then [] else InOrder(n - 1) + [n - 1]
  }

  lemma InOrderIndices(n: nat)
    ensures Indices(InOrder(n), n)
  {
  }

  /** The probability of a token under the softmax of the whole row. */
  function TokenProbability(exp: real -> real, row: seq<real>, temperature: real, id: nat): real
    requires id < |row|
  {
    InOrderIndices(|row|);
    SoftmaxRow(exp, row, InOrder(|row|), temperature)[id]
  }

  // ---- sums in another order -----------------------------------------------------------------

  function WithoutAt<T>(xs: seq<T>, k: nat): (r: seq<T>)
    requires k < |xs|
    ensures |r| == |xs| - 1 && forall i :: 0 <= i < |r| ==> r[i] == xs[if i < k then i else i + 1]
  {
    xs[..k] + xs[k + 1..]
  }

  lemma {:induction false} SumWithout(xs: seq<real>, k: nat)
    requires k < |xs|
    ensures Sum(xs) == Sum(WithoutAt(xs, k)) + xs[k]
  {
    var n := |xs| - 1;
    if k < n {
      SumWithout(xs[..n], k);
      assert WithoutAt(xs, k)[..n - 1] == WithoutAt(xs[..n], k);
      assert WithoutAt(xs, k)[n - 1] == xs[n];
    } else {
      assert WithoutAt(xs, k) == xs[..n];
    }
  }

  /** Where `x` is in a list of different indices. */
  function Position(ids: seq<nat>, x: nat): (k: nat)
    requires x in ids
    ensures k < |ids| && ids[k] == x
    ensures forall i :: 0 <= i < k ==> ids[i] != x
  {
    if ids[0] == x then 0 else 1 + Position(ids[1..], x)
  }

  lemma {:induction false} SumAnyOrder(exp: real -> real, row: seq<real>, ids: seq<nat>, n: nat, top: real, t: real)
    requires Indices(ids, |row|) && |ids| == n <= |row| && t > 0.0
    requires Indices(ids, n) && Indices(InOrder(n), |row|)
    ensures Sum(Weights(exp, row, ids, top, t)) == Sum(Weights(exp, row, InOrder(n), top, t))
    decreases n
  {
    hide Sum, Weights;
    if n == 0 {
      assert ids == InOrder(n);
    } else {
      var last: nat := n - 1;
      AllIndices(ids, n, last);
      var k := Position(ids, last);
      var rest := WithoutAt(ids, k);
      RestIndices(ids, n, k);
      InOrderIndices(last);
      var w, weights := Weights(exp, row, ids, top, t), Weights(exp, row, InOrder(n), top, t);
      SumWithout(w, k);
      WeightsWithout(exp, row, ids, top, t, k);
      SumAnyOrder(exp, row, rest, last, top, t);
      SumLast(weights);
      WeightsFront(exp, row, n, top, t);
    }
  }

  lemma RestIndices(ids: seq<nat>, n: nat, k: nat)
    requires Indices(ids, n) && |ids| == n && k < n && ids[k] == n - 1
    ensures Indices(WithoutAt(ids, k), n - 1)
  {
    var rest := WithoutAt(ids, k);
    forall i | 0 <= i < |rest| ensures rest[i] < n - 1 {
      var at := if i < k then i else i + 1;
      assert ids[at] != ids[k];
    }
  }

  lemma WeightsWithout(exp: real -> real, row: seq<real>, ids: seq<nat>, top: real, t: real, k: nat)
    requires Indices(ids, |row|) && k < |ids| && t > 0.0 && Indices(WithoutAt(ids, k), |row|)
    ensures WithoutAt(Weights(exp, row, ids, top, t), k) == Weights(exp, row, WithoutAt(ids, k), top, t)
    ensures Weights(exp, row, ids, top, t)[k] == exp((row[ids[k]] - top) / t)
  {
    var a, b := WithoutAt(Weights(exp, row, ids, top, t), k), Weights(exp, row, WithoutAt(ids, k), top, t);
    forall i | 0 <= i < |a| ensures a[i] == b[i] {}
  }

  lemma SumLast(xs: seq<real>)
    requires xs != []
    ensures Sum(xs) == Sum(xs[..|xs| - 1]) + xs[|xs| - 1]
  {
  }

  lemma WeightsFront(exp: real -> real, row: seq<real>, n: nat, top: real, t: real)
    requires 0 < n <= |row| && t > 0.0 && Indices(InOrder(n), |row|) && Indices(InOrder(n - 1), |row|)
    ensures Weights(exp, row, InOrder(n), top, t)[..n - 1] == Weights(exp, row, InOrder(n - 1), top, t)
    ensures Weights(exp, row, InOrder(n), top, t)[n - 1] == exp((row[n - 1] - top) / t)
  {
    var a, b := Weights(exp, row, InOrder(n), top, t)[..n - 1], Weights(exp, row, InOrder(n - 1), top, t);
    forall i | 0 <= i < |a| ensures a[i] == b[i] {}
  }

  /** The largest logit is the same in whatever order the ids come. */
  lemma {:induction false} SameBest(row: seq<real>, ids: seq<nat>)
    requires Indices(ids, |row|) && |ids| == |row| && ids != []
    requires Indices(InOrder(|row|), |row|)
    ensures row[ids[Best(row, ids)]] == row[InOrder(|row|)[Best(row, InOrder(|row|))]]
  {
    hide Best;
    var a, b := Best(row, ids), Best(row, InOrder(|row|));
    AllIndices(ids, |row|, b);
    var k := Position(ids, b);
    assert row[ids[k]] <= row[ids[a]];
    assert row[InOrder(|row|)[ids[a]]] <= row[InOrder(|row|)[b]];
  }

  /** However the vocabulary is ordered, a token gets the same probability. */
  lemma {:induction false} AnyOrderSameProbability(exp: real -> real, row: seq<real>, ids: seq<nat>, temperature: real,
      id: nat)
    requires Exponential(exp) && Indices(ids, |row|) && |ids| == |row| && id < |row|
    ensures id in ids
    ensures SoftmaxRow(exp, row, ids, temperature)[Position(ids, id)] == TokenProbability(exp, row, temperature, id)
  {
    hide Exponential, Sum, Weights, Best, SoftmaxRow, Temperature, Position, Scaled;
    AllIndices(ids, |row|, id);
    InOrderIndices(|row|);
    var all, t := InOrder(|row|), Temperature(temperature);
    SameBest(row, ids);
    var top := row[ids[Best(row, ids)]];
    SumAnyOrder(exp, row, ids, |row|, top, t);
    SoftmaxScales(exp, row, ids, temperature);
    SoftmaxScales(exp, row, all, temperature);
    assert Weights(exp, row, ids, top, t)[Position(ids, id)] == Weights(exp, row, all, top, t)[id];
  }

  // ---- the loops -------------------------------------------------------------------------------

  /** The logarithm of the token's probability under the softmax of the whole row of batch `b`; the sequences
      are of one position. */
  ghost predicate Scored(exp: real -> real, log: real -> real, logits: seq<real>, vocab: nat, temperature: real,
                         b: nat, id: int, score: real)
  {
    && 0 <= id < vocab && (b + 1) * vocab <= |logits| && b * vocab <= (b + 1) * vocab
    && LogLikelihood(exp, log, logits[b * vocab..(b + 1) * vocab], temperature, id, score)
  }

  ghost predicate LogLikelihood(exp: real -> real, log: real -> real, row: seq<real>, temperature: real, id: nat,
      score: real)
  {
    exists p :: LogOf(exp, log, row, temperature, id, score, p)
  }

  ghost predicate LogOf(exp: real -> real, log: real -> real, row: seq<real>, temperature: real, id: nat, score: real,
      p: seq<real>)
  {
    && |p| == |row| && id < |row| && Indices(InOrder(|row|), |row|)
    && IsSoftmax(exp, row, InOrder(|row|), temperature, p) && score == log(p[id])
  }

  lemma {:induction false} ProbabilityIs(exp: real -> real, log: real -> real, logits: seq<real>, vocab: nat,
      temperature: real, b: nat, id: nat)
    requires Exponential(exp) && id < vocab && (b + 1) * vocab <= |logits|
    ensures Scored(exp, log, logits, vocab, temperature, b, id,
                   log(TokenProbability(exp, Chunk(logits, b, vocab), temperature, id)))
  {
    hide Exponential, SoftmaxRow, IsSoftmax, Chunk;
    ChunkIs(logits, b, vocab);
    var row := Chunk(logits, b, vocab);
    InOrderIndices(vocab);
    SoftmaxIs(exp, row, InOrder(vocab), temperature);
    var p := SoftmaxRow(exp, row, InOrder(vocab), temperature);
    assert LogOf(exp, log, row, temperature, id, log(p[id]), p);
  }

  method ComputeLogLikelihood(exp: real -> real, log: real -> real, logits: seq<real>, sampledIds: seq<int>,
      temperature: real)
    returns (r: Result<seq<real>, Code>)
    requires sampledIds != [] && Exponential(exp)
    ensures var vocab := |logits| / |sampledIds|;
            && (r.Ok? <==>
                  && (forall i :: 0 <= i < |sampledIds| ==> 0 <= sampledIds[i] < vocab)
                  && |logits| % |sampledIds| == 0 && temperature >= 0.0)
            && (r.Err? ==> r.error == InvalidArgument)
            && (r.Ok? ==> |r.value| == |sampledIds|)
            && (r.Ok? ==>
                  forall b :: 0 <= b < |sampledIds| ==> Scored(exp, log, logits, vocab, temperature, b, sampledIds[b],
                      r.value[b]))
  {
    hide Exponential, Scored, Chunk, Largest;
    var batch := |sampledIds|;
    var vocab := |logits| / batch;
    var i := 0;
    while i < batch
      invariant 0 <= i <= batch && forall j :: 0 <= j < i ==> 0 <= sampledIds[j] < vocab
    {
      if sampledIds[i] < 0 || sampledIds[i] >= vocab {
        return Err(InvalidArgument);
      }
      i := i + 1;
    }
    if |logits| % batch != 0 {
      return Err(InvalidArgument);
    }
    Divides(|logits|, batch);
    if temperature < 0.0 {
      return Err(InvalidArgument);
    }
    var confidence: seq<real> := [];
    var b := 0;
    while b < batch
      invariant 0 <= b <= batch && |confidence| == b
      invariant forall j :: 0 <= j < b ==> Scored(exp, log, logits, vocab, temperature, j, sampledIds[j], confidence[j])
    {
      assert sampledIds[b] < vocab;
      MulMono(b + 1, batch, vocab);
      var score := ScoreRow(exp, log, logits, vocab, b, sampledIds[b], temperature);
      confidence := confidence + [score];
      b := b + 1;
    }
    return Ok(confidence);
  }

  /** The internal error for a token that is not among the ids is never returned. */
  method ScoreRow(exp: real -> real, log: real -> real, logits: seq<real>, vocab: nat, b: nat, id: nat,
      temperature: real)
    returns (score: real)
    requires Exponential(exp) && id < vocab && (b + 1) * vocab <= |logits|
    ensures Scored(exp, log, logits, vocab, temperature, b, id, score)
  {
    hide Exponential, SoftmaxRow, Chunk, Largest, Best, Scored;
    var row := Chunk(logits, b, vocab);
    var ids := TopKOfRow(row, vocab);
    IndicesOfLargest(row, ids);
    var probabilities, top := SoftmaxOfRow(exp, row, ids, temperature);
    AnyOrderSameProbability(exp, row, ids, temperature, id);
    var k := 0;
    while k < |ids| && ids[k] != id
      invariant 0 <= k <= |ids| && forall j :: 0 <= j < k ==> ids[j] != id
    {
      k := k + 1;
    }
    if k == |ids| {
      assert false;
    }
    ProbabilityIs(exp, log, logits, vocab, temperature, b, id);
    return log(probabilities[k]);
  }

  lemma IndicesOfLargest(row: seq<real>, ids: seq<nat>)
    requires Largest(row, ids)
    ensures Indices(ids, |row|)
  {
  }
}
