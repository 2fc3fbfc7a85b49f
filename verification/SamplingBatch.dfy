/** The loops over batches and sequence positions: every row of the flattened tensors is in bounds,
    and each result depends on its own row only. */
module SamplingBatch {
  import opened Results
  import opened Sampling
  import opened TopK

  // ---- flattened tensors -----------------------------------------------------------------------

  lemma MulMono(a: nat, b: nat, w: nat)
    requires a <= b
    ensures a * w <= b * w
  {
  }

  /** The `i`-th stretch of `w` values. */
  function Chunk<T>(xs: seq<T>, i: nat, w: nat): (r: seq<T>)
    requires (i + 1) * w <= |xs|
    ensures |r| == w
  {
    MulMono(i, i + 1, w);
    assert (i + 1) * w == i * w + w;
    xs[i * w..(i + 1) * w]
  }

  lemma ChunkOfFirst<T>(xs: seq<T>, ys: seq<T>, i: nat, w: nat)
    requires (i + 1) * w <= |xs|
    ensures (i + 1) * w <= |xs + ys| && Chunk(xs + ys, i, w) == Chunk(xs, i, w)
  {
    MulMono(i, i + 1, w);
  }

  lemma ChunkOfLast<T>(xs: seq<T>, ys: seq<T>, i: nat, w: nat)
    requires |xs| == i * w && |ys| == w
    ensures |xs + ys| == (i + 1) * w && Chunk(xs + ys, i, w) == ys
  {
    assert (i + 1) * w == i * w + w;
  }

  /** Which row of the flattened tensor stands for position `s` of batch `b`; it is in bounds. */
  function RowIndex(b: nat, s: nat, seqSize: nat): nat { b * seqSize + s }

  lemma {:induction false} RowFits(b: nat, s: nat, batch: nat, seqSize: nat, w: nat)
    requires b < batch && s < seqSize
    ensures RowIndex(b, s, seqSize) < batch * seqSize
    ensures (RowIndex(b, s, seqSize) + 1) * w <= (batch * seqSize) * w
  {
    MulMono(b + 1, batch, seqSize);
    assert (b + 1) * seqSize == b * seqSize + seqSize;
    MulMono(RowIndex(b, s, seqSize) + 1, batch * seqSize, w);
  }

  /** The rows of two positions are different stretches, in the order of the positions. */
  lemma {:induction false} RowsInOrder(b: nat, s: nat, b': nat, s': nat, seqSize: nat)
    requires s < seqSize && (b < b' || (b == b' && s < s'))
    ensures RowIndex(b, s, seqSize) < RowIndex(b', s', seqSize)
  {
    if b < b' {
      MulMono(b + 1, b', seqSize);
      assert (b + 1) * seqSize == b * seqSize + seqSize;
    }
  }

  function Flat<T>(rows: seq<seq<T>>): seq<T> {
    if rows == [] then [] else Flat(rows[..|rows| - 1]) + rows[|rows| - 1]
  }

  lemma {:induction false} FlatLength<T>(rows: seq<seq<T>>, w: nat)
    requires forall b :: 0 <= b < |rows| ==> |rows[b]| == w
    ensures |Flat(rows)| == |rows| * w
  {
    if rows != [] {
      var n := |rows| - 1;
      FlatLength(rows[..n], w);
      assert (n + 1) * w == n * w + w;
    }
  }

  lemma {:induction false} FlatRow<T>(rows: seq<seq<T>>, w: nat, b: nat)
    requires b < |rows| && forall i :: 0 <= i < |rows| ==> |rows[i]| == w
    ensures (b + 1) * w <= |Flat(rows)| && Chunk(Flat(rows), b, w) == rows[b]
  {
    var n := |rows| - 1;
    FlatLength(rows[..n], w);
    FlatLength(rows, w);
    MulMono(b + 1, n + 1, w);
    if b < n {
      FlatRow(rows[..n], w, b);
      ChunkOfFirst(Flat(rows[..n]), rows[n], b, w);
    } else {
      ChunkOfLast(Flat(rows[..n]), rows[n], n, w);
    }
  }

  lemma SliceSlice<T>(xs: seq<T>, lo: nat, hi: nat, i: nat, j: nat)
    requires lo <= hi <= |xs| && i <= j <= hi - lo
    ensures xs[lo..hi][i..j] == xs[lo + i..lo + j]
  {
    var a, b := xs[lo..hi][i..j], xs[lo + i..lo + j];
    assert |a| == |b|;
    forall k | 0 <= k < |a| ensures a[k] == b[k] {
      assert a[k] == xs[lo..hi][i + k] == xs[lo + (i + k)];
    }
  }

  lemma RowOffset(b: nat, s: nat, seqSize: nat, w: nat)
    ensures RowIndex(b, s, seqSize) * w == b * (seqSize * w) + s * w
    ensures (RowIndex(b, s, seqSize) + 1) * w == b * (seqSize * w) + (s + 1) * w
  {
    assert (b * seqSize + s) * w == (b * seqSize) * w + s * w;
    assert (b * seqSize) * w == b * (seqSize * w);
    assert (RowIndex(b, s, seqSize) + 1) * w == RowIndex(b, s, seqSize) * w + w;
    assert (s + 1) * w == s * w + w;
  }

  /** Stretches of stretches. */
  lemma {:induction false} ChunkOfChunk<T>(xs: seq<T>, b: nat, s: nat, seqSize: nat, w: nat)
    requires s < seqSize && (b + 1) * (seqSize * w) <= |xs|
    ensures (s + 1) * w <= seqSize * w && (RowIndex(b, s, seqSize) + 1) * w <= |xs|
    ensures Chunk(Chunk(xs, b, seqSize * w), s, w) == Chunk(xs, RowIndex(b, s, seqSize), w)
  {
    hide RowIndex;
    var size := seqSize * w;
    MulMono(s + 1, seqSize, w);
    MulMono(s, s + 1, w);
    RowOffset(b, s, seqSize, w);
    assert (b + 1) * size == b * size + size;
    SliceSlice(xs, b * size, b * size + size, s * w, (s + 1) * w);
  }

  /** The ids copied into one flat list: row by row, they are the ids of each position. */
  lemma {:induction false} FlatIds(tops: seq<seq<nat>>, seqSize: nat, k: nat, b: nat, s: nat)
    requires b < |tops| && s < seqSize && forall i :: 0 <= i < |tops| ==> |tops[i]| == seqSize * k
    ensures (RowIndex(b, s, seqSize) + 1) * k <= |Flat(tops)| && (s + 1) * k <= |tops[b]|
    ensures Chunk(Flat(tops), RowIndex(b, s, seqSize), k) == Chunk(tops[b], s, k)
  {
    hide Chunk, RowIndex, Flat;
    FlatRow(tops, seqSize * k, b);
    ChunkOfChunk(Flat(tops), b, s, seqSize, k);
  }

  // ---- the top k of every row ------------------------------------------------------------------

  /** `ids` are `k` largest logits of the row. */
  predicate TopOf(logits: seq<real>, vocab: nat, r: nat, k: nat, ids: seq<nat>) {
    && (r + 1) * vocab <= |logits|
    && |ids| == k && Largest(Chunk(logits, r, vocab), ids)
  }

  /** As `TopOf` for every position of one batch, one after the other. */
  predicate TopsOf(logits: seq<real>, vocab: nat, b: nat, seqSize: nat, k: nat, n: nat, ids: seq<nat>) {
    |ids| == n * k && forall s :: 0 <= s < n ==> TopAt(logits, vocab, b, seqSize, k, ids, s)
  }

  predicate TopAt(logits: seq<real>, vocab: nat, b: nat, seqSize: nat, k: nat, ids: seq<nat>, s: nat) {
    (s + 1) * k <= |ids| && TopOf(logits, vocab, RowIndex(b, s, seqSize), k, Chunk(ids, s, k))
  }

  method TopKOfRow(row: seq<real>, k: nat) returns (ids: seq<nat>)
    requires 1 <= k <= |row|
    ensures |ids| == k && Largest(row, ids)
  {
    if k == 1 {
      var best := MaxElement(row);
      ids := [best];
    } else {
      var indices := NthElement(row, k);
      ids := indices[..k];
    }
  }

  method TopKTokenIds(logits: seq<real>, k: nat, batch: nat, seqSize: nat) returns (r: Result<seq<seq<nat>>, Code>)
    requires batch * seqSize >= 1 && 1 <= k <= |logits| / (batch * seqSize)
    ensures r.Err? <==> |logits| % (batch * seqSize) != 0
    ensures r.Err? ==> r.error == InvalidArgument
    ensures r.Ok? ==> |r.value| == batch &&
                      forall b :: 0 <= b < batch ==>
                        TopsOf(logits, |logits| / (batch * seqSize), b, seqSize, k, seqSize, r.value[b])
  {
    hide Largest, Chunk, RowIndex;
    if |logits| % (batch * seqSize) != 0 {
      return Err(InvalidArgument);
    }
    var vocab := |logits| / (batch * seqSize);
    Divides(|logits|, batch * seqSize);
    var out: seq<seq<nat>> := [];
    var b := 0;
    while b < batch
      invariant 0 <= b <= batch && |out| == b
      invariant forall i :: 0 <= i < b ==> TopsOf(logits, vocab, i, seqSize, k, seqSize, out[i])
    {
      var ids := TopKOfBatch(logits, vocab, k, batch, seqSize, b);
      out := out + [ids];
      b := b + 1;
    }
    return Ok(out);
  }

  lemma Divides(n: nat, d: nat)
    requires d >= 1 && n % d == 0
    ensures d * (n / d) == n
  {
  }

  lemma NoProduct(d: nat, v: nat)
    ensures v == 0 ==> d * v == 0
  {
  }

  method TopKOfBatch(logits: seq<real>, vocab: nat, k: nat, batch: nat, seqSize: nat, b: nat) returns (ids: seq<nat>)
    requires b < batch && 1 <= k <= vocab && (batch * seqSize) * vocab == |logits|
    ensures TopsOf(logits, vocab, b, seqSize, k, seqSize, ids)
  {
    hide Largest, Chunk, RowIndex, TopsOf;
    ids := [];
    NoTops(logits, vocab, b, seqSize, k);
    var s := 0;
    while s < seqSize
      invariant 0 <= s <= seqSize && TopsOf(logits, vocab, b, seqSize, k, s, ids)
    {
      RowFits(b, s, batch, seqSize, vocab);
      var top := TopKOfRow(Chunk(logits, RowIndex(b, s, seqSize), vocab), k);
      MoreTops(logits, vocab, b, seqSize, k, s, ids, top);
      ids := ids + top;
      s := s + 1;
    }
  }

  lemma NoTops(logits: seq<real>, vocab: nat, b: nat, seqSize: nat, k: nat)
    ensures TopsOf(logits, vocab, b, seqSize, k, 0, [])
  {
  }

  lemma {:induction false} MoreTops(logits: seq<real>, vocab: nat, b: nat, seqSize: nat, k: nat, n: nat, ids: seq<nat>,
      top: seq<nat>)
    requires TopsOf(logits, vocab, b, seqSize, k, n, ids) && TopOf(logits, vocab, RowIndex(b, n, seqSize), k, top)
    ensures TopsOf(logits, vocab, b, seqSize, k, n + 1, ids + top)
  {
    hide TopAt;
    TopAtLast(logits, vocab, b, seqSize, k, n, ids, top);
    forall s | 0 <= s < n + 1 ensures TopAt(logits, vocab, b, seqSize, k, ids + top, s) {
      if s < n { TopAtStays(logits, vocab, b, seqSize, k, ids, top, s); }
    }
  }

  lemma {:induction false} TopAtLast(logits: seq<real>, vocab: nat, b: nat, seqSize: nat, k: nat, n: nat, ids: seq<nat>,
      top: seq<nat>)
    requires |ids| == n * k && TopOf(logits, vocab, RowIndex(b, n, seqSize), k, top)
    ensures |ids + top| == (n + 1) * k && TopAt(logits, vocab, b, seqSize, k, ids + top, n)
  {
    hide TopOf, RowIndex, Chunk;
    TopLength(logits, vocab, RowIndex(b, n, seqSize), k, top);
    ChunkOfLast(ids, top, n, k);
  }

  lemma TopAtStays(logits: seq<real>, vocab: nat, b: nat, seqSize: nat, k: nat, ids: seq<nat>, top: seq<nat>, s: nat)
    requires TopAt(logits, vocab, b, seqSize, k, ids, s)
    ensures TopAt(logits, vocab, b, seqSize, k, ids + top, s)
  {
    hide TopOf, RowIndex, Chunk;
    ChunkOfFirst(ids, top, s, k);
  }

  lemma TopLength(logits: seq<real>, vocab: nat, r: nat, k: nat, ids: seq<nat>)
    requires TopOf(logits, vocab, r, k, ids)
    ensures |ids| == k
  {
  }

  // ---- softmax of every row ----------------------------------------------------------------------

  /** The softmax loops for one row: the largest logit, the weights and their sum, the scaling. */
  method SoftmaxOfRow(exp: real -> real, row: seq<real>, ids: seq<nat>, temperature: real)
      returns (p: seq<real>, top: real)
    requires Indices(ids, |row|) && ids != []
    ensures p == SoftmaxRow(exp, row, ids, temperature) && top == row[ids[Best(row, ids)]]
  {
    hide Sum, Temperature;
    var best := BestOf(row, ids);
    top := row[ids[best]];
    var sum, w: seq<real>, t := 0.0, [], Temperature(temperature);
    var i := 0;
    SumEmpty();
    while i < |ids|
      invariant 0 <= i <= |ids| && sum == Sum(w)
      invariant w == Weights(exp, row, ids[..i], top, t)
    {
      assert ids[..i + 1][..i] == ids[..i];
      var weight := exp((row[ids[i]] - top) / t);
      SumPush(w, weight);
      w := w + [weight];
      sum := sum + weight;
      i := i + 1;
    }
    assert ids[..i] == ids;
    if sum <= FLOAT_EPSILON {
      return Uniform(|ids|), top;
    }
    p := ScaleAll(w, 1.0 / sum);
  }

  lemma SumEmpty()
    ensures Sum([]) == 0.0
  {
  }

  lemma SumPush(w: seq<real>, x: real)
    ensures Sum(w + [x]) == Sum(w) + x
  {
    assert (w + [x])[..|w|] == w;
  }

  method BestOf(row: seq<real>, ids: seq<nat>) returns (best: nat)
    requires Indices(ids, |row|) && ids != []
    ensures best == Best(row, ids)
  {
    best := 0;
    var i := 1;
    while i < |ids|
      invariant 1 <= i <= |ids| && best == Best(row, ids[..i])
    {
      assert ids[..i + 1][..i] == ids[..i];
      if row[ids[best]] < row[ids[i]] { best := i; }
      i := i + 1;
    }
    assert ids[..i] == ids;
  }

  method ScaleAll(w: seq<real>, c: real) returns (p: seq<real>)
    ensures p == Scaled(w, c)
  {
    hide Times;
    p := [];
    var i := 0;
    while i < |w|
      invariant 0 <= i <= |w| && p == Scaled(w[..i], c)
    {
      assert w[..i + 1] == w[..i] + [w[i]];
      ScaledPush(w[..i], w[i], c);
      p := p + [Times(w[i], c)];
      i := i + 1;
    }
    assert w[..i] == w;
  }

  lemma ScaledPush(w: seq<real>, x: real, c: real)
    ensures Scaled(w + [x], c) == Scaled(w, c) + [Times(x, c)]
  {
    hide Times;
    assert (w + [x])[..|w|] == w;
  }

  // ---- sampling every row --------------------------------------------------------------------------

  datatype Params = Params(exp: real -> real, p: real, temperature: real)

  /** The sample of row `r` is a draw among `k` of its largest logits, with their softmax and its own
      random number. */
  ghost predicate DrawnAt(params: Params, logits: seq<real>, vocab: nat, r: nat, k: nat, u: real, sample: Sample) {
    (r + 1) * vocab <= |logits| && exists c :: DrawnFrom(params, Chunk(logits, r, vocab), k, c, u, sample)
  }

  ghost predicate DrawnFrom(params: Params, row: seq<real>, k: nat, c: Candidates, u: real, sample: Sample) {
    && c.row == row && |c.ids| == k && Shaped(c) && Largest(row, c.ids)
    && c.p == SoftmaxRow(params.exp, row, c.ids, params.temperature) && Descending(c.p, c.order)
    && sample == RowDraw(c, params.p, FallbackScore(params.exp, c, params.temperature), u)
  }

  ghost predicate BatchDrawn(params: Params, logits: seq<real>, vocab: nat, b: nat, seqSize: nat, k: nat,
                             draws: seq<real>, n: nat, samples: seq<Sample>)
  {
    && |samples| == n
    && forall s :: 0 <= s < n ==>
         RowIndex(b, s, seqSize) < |draws| &&
         DrawnAt(params, logits, vocab, RowIndex(b, s, seqSize), k, draws[RowIndex(b, s, seqSize)], samples[s])
  }

  /** A draw told in full: `ids` are `k` largest of the row and `p` their softmax; in the order of their
      probabilities, the first `cut` are the fewest that reach `topP`, or all; and the `i`-th of them is the one
      into whose share of their sum the random number falls. */
  ghost predicate Nucleus(params: Params, row: seq<real>, k: nat, u: real, sample: Sample, ids: seq<nat>, p: seq<real>,
      order: seq<nat>, i: nat, cut: nat)
  {
    && |ids| == |p| == |order| == k && Largest(row, ids) && IsSoftmax(params.exp, row, ids, params.temperature, p)
    && Descending(p, order)
    && i < cut <= k && sample == Sample(ids[order[i]], p[order[i]])
    && var xs := Picked(p, order);
       && (cut == k || Sum(xs[..cut]) >= params.p) && (forall m :: 1 <= m < cut ==> Sum(xs[..m]) < params.p)
       && u * Sum(xs[..cut]) <= Sum(xs[..i + 1])
       && (forall m :: 1 <= m <= i ==> Sum(xs[..m]) < u * Sum(xs[..cut]))
  }

  ghost predicate NucleusDraw(params: Params, row: seq<real>, k: nat, u: real, sample: Sample) {
    exists ids, p, order, i, cut :: Nucleus(params, row, k, u, sample, ids, p, order, i, cut)
  }

  /** The sample at position `s` of batch `b` is drawn from that position's values, with its random number. */
  ghost predicate DrawnWell(params: Params, logits: seq<real>, vocab: nat, b: nat, s: nat, seqSize: nat, k: nat,
                            draws: seq<real>, samples: seq<Sample>)
  {
    var r := b * seqSize + s;
    && s < |samples| && r < |draws| && (r + 1) * vocab <= |logits| && r * vocab <= (r + 1) * vocab
    && NucleusDraw(params, logits[r * vocab..(r + 1) * vocab], k, draws[r], samples[s])
  }

  /** Such a draw is what the row's function gives. */
  lemma {:induction false} DrawnIsNucleus(params: Params, row: seq<real>, k: nat, c: Candidates, u: real,
      sample: Sample)
    requires Exponential(params.exp) && 0.0 <= u < 1.0 && 1 <= k < 0x8000_0000
    requires DrawnFrom(params, row, k, c, u, sample)
    ensures NucleusDraw(params, row, k, u, sample)
  {
    hide Exponential, SoftmaxRow, SameOrder, Sum, FallbackScore, RowDraw, IsSoftmax, Picked, Nucleus;
    PosedFrom(params, row, k, c, u, sample);
    SoftmaxIs(params.exp, row, c.ids, params.temperature);
    var fallback := FallbackScore(params.exp, c, params.temperature);
    if k == 1 {
      OnlyOne(c, params.p, fallback, u);
      OneProbability(c, u);
      assert Nucleus(params, row, k, u, sample, c.ids, c.p, c.order, 0, 1) by {
        OneNucleus(params, row, c, u, sample);
      }
    } else {
      var i, cut := DrawIsInNucleus(c, params.p, fallback, u);
      PickedAt(c.p, c.order, i);
      assert Nucleus(params, row, k, u, sample, c.ids, c.p, c.order, i, cut) by {
        ManyNucleus(params, row, k, c, u, sample, i, cut);
      }
    }
  }

  lemma PickedAt(p: seq<real>, order: seq<nat>, i: nat)
    requires Indices(order, |p|) && i < |order|
    ensures Picked(p, order)[i] == p[order[i]]
  {
  }

  lemma {:induction false} PosedFrom(params: Params, row: seq<real>, k: nat, c: Candidates, u: real, sample: Sample)
    requires Exponential(params.exp) && 1 <= k && DrawnFrom(params, row, k, c, u, sample)
    ensures Posed(c) && |c.ids| == |c.p| == |c.order| == k
  {
    hide Exponential, SoftmaxRow, SameOrder, Sum, FallbackScore, RowDraw, Picked;
    SoftmaxAddsToOne(params.exp, row, c.ids, params.temperature);
    SoftmaxSameOrder(params.exp, row, c.ids, params.temperature);
    forall i | 0 <= i < |c.ids| ensures SoftmaxRow(params.exp, row, c.ids, params.temperature)[i] > 0.0 {
      SoftmaxPositive(params.exp, row, c.ids, params.temperature, i);
    }
  }

  lemma OneProbability(c: Candidates, u: real)
    requires Posed(c) && |c.ids| == 1 && u < 1.0
    ensures c.order == [0] && c.p == [1.0] && Picked(c.p, c.order) == [1.0] && Sum([1.0]) == 1.0
  {
    assert c.p[..0] == [] && [1.0][..0] == [];
    assert Sum(c.p) == Sum(c.p[..0]) + c.p[0];
    assert c.order[..0] == [];
  }

  lemma OneNucleus(params: Params, row: seq<real>, c: Candidates, u: real, sample: Sample)
    requires Shaped(c) && Largest(row, c.ids) && |c.ids| == 1 && c.row == row && 0.0 <= u < 1.0
    requires IsSoftmax(params.exp, row, c.ids, params.temperature, c.p) && Descending(c.p, c.order)
    requires sample == Sample(c.ids[0], 1.0)
    requires c.order == [0] && c.p == [1.0] && Picked(c.p, c.order) == [1.0] && Sum([1.0]) == 1.0
    ensures Nucleus(params, row, 1, u, sample, c.ids, c.p, c.order, 0, 1)
  {
    hide Sum, IsSoftmax, Picked;
    assert [1.0][..1] == [1.0];
  }

  lemma ManyNucleus(params: Params, row: seq<real>, k: nat, c: Candidates, u: real, sample: Sample, i: nat, cut: nat)
    requires Shaped(c) && Largest(row, c.ids) && |c.ids| == |c.p| == |c.order| == k && c.row == row
    requires IsSoftmax(params.exp, row, c.ids, params.temperature, c.p) && Descending(c.p, c.order)
    requires i < cut <= k && sample == Sample(c.ids[c.order[i]], c.p[c.order[i]])
    requires var xs := Picked(c.p, c.order);
             && (cut == k || Sum(xs[..cut]) >= params.p) && (forall m :: 1 <= m < cut ==> Sum(xs[..m]) < params.p)
             && Portion(u, Sum(xs[..cut])) <= Sum(xs[..i + 1])
             && (forall m :: 1 <= m <= i ==> Sum(xs[..m]) < Portion(u, Sum(xs[..cut])))
    ensures Nucleus(params, row, k, u, sample, c.ids, c.p, c.order, i, cut)
  {
    hide Sum, IsSoftmax, Picked;
  }

  lemma {:induction false} BatchDrawnWell(params: Params, logits: seq<real>, vocab: nat, b: nat, seqSize: nat, k: nat,
      draws: seq<real>, samples: seq<Sample>, s: nat)
    requires Exponential(params.exp) && (forall d :: d in draws ==> 0.0 <= d < 1.0) && 1 <= k < 0x8000_0000
    requires BatchDrawn(params, logits, vocab, b, seqSize, k, draws, seqSize, samples) && s < seqSize
    ensures DrawnWell(params, logits, vocab, b, s, seqSize, k, draws, samples)
  {
    hide Exponential, DrawnFrom, NucleusDraw, RowIndex;
    var r := RowIndex(b, s, seqSize);
    assert r == b * seqSize + s by { RowOffset(b, s, seqSize, 1); }
    var row := Chunk(logits, r, vocab);
    var c :| DrawnFrom(params, row, k, c, draws[r], samples[s]);
    assert draws[r] in draws;
    DrawnIsNucleus(params, row, k, c, draws[r], samples[s]);
    ChunkIs(logits, r, vocab);
  }

  lemma ChunkIs(logits: seq<real>, r: nat, vocab: nat)
    requires (r + 1) * vocab <= |logits|
    ensures r * vocab <= (r + 1) * vocab && Chunk(logits, r, vocab) == logits[r * vocab..(r + 1) * vocab]
  {
    MulMono(r, r + 1, vocab);
  }

  /** Every sample of every batch. */
  ghost predicate AllDrawn(params: Params, logits: seq<real>, vocab: nat, batch: nat, seqSize: nat, k: nat,
                           draws: seq<real>, samples: seq<seq<Sample>>)
  {
    && |samples| == batch
    && forall b, s :: 0 <= b < batch && 0 <= s < seqSize ==>
         DrawnWell(params, logits, vocab, b, s, seqSize, k, draws, samples[b])
  }

  lemma {:induction false} AllDrawnWell(params: Params, logits: seq<real>, vocab: nat, batch: nat, seqSize: nat, k: nat,
      draws: seq<real>, samples: seq<seq<Sample>>)
    requires Exponential(params.exp) && (forall d :: d in draws ==> 0.0 <= d < 1.0) && 1 <= k < 0x8000_0000
    requires |samples| == batch
    requires forall b :: 0 <= b < batch ==> BatchDrawn(params, logits, vocab, b, seqSize, k, draws, seqSize, samples[b])
    ensures AllDrawn(params, logits, vocab, batch, seqSize, k, draws, samples)
  {
    hide Exponential, BatchDrawn, DrawnWell;
    forall b, s | 0 <= b < batch && 0 <= s < seqSize
      ensures DrawnWell(params, logits, vocab, b, s, seqSize, k, draws, samples[b])
    {
      BatchDrawnWell(params, logits, vocab, b, seqSize, k, draws, samples[b], s);
    }
  }

  /** `draws` are the random numbers, one a row, in the order in which they are used. */
  method TopKTopPSampling(params: Params, logits: seq<real>, k: int, batch: nat, seqSize: nat, draws: seq<real>)
    returns (r: Result<seq<seq<Sample>>, Code>)
    requires batch * seqSize >= 1 && |draws| == batch * seqSize
    ensures r.Ok? <==>
              && logits != [] && |logits| % (batch * seqSize) == 0 && k > 0
              && 0.0 <= params.p <= 1.0 && params.temperature >= 0.0
    ensures r.Ok? ==> var vocab := |logits| / (batch * seqSize);
                      && vocab >= 1 && |r.value| == batch
                      && forall b :: 0 <= b < batch ==>
                           BatchDrawn(params, logits, vocab, b, seqSize, if k < vocab then k else vocab,
                                      draws, seqSize, r.value[b])
    ensures r.Err? ==> r.error == InvalidArgument
    ensures r.Ok? && Exponential(params.exp) && (forall d :: d in draws ==> 0.0 <= d < 1.0) && k < 0x8000_0000 ==>
              var vocab := |logits| / (batch * seqSize);
              AllDrawn(params, logits, vocab, batch, seqSize, if k < vocab then k else vocab, draws, r.value)
  {
    hide Largest, RowIndex, DrawnAt, Chunk, SoftmaxRow, TopsOf, Exponential, AllDrawn, BatchDrawn;
    if logits == [] || |logits| % (batch * seqSize) != 0 || k <= 0 || params.p < 0.0 || params.p > 1.0 {
      return Err(InvalidArgument);
    }
    var vocab := |logits| / (batch * seqSize);
    Divides(|logits|, batch * seqSize);
    NoProduct(batch * seqSize, vocab);
    var size := if k < vocab then k else vocab;
    var top := TopKTokenIds(logits, size, batch, seqSize);
    if params.temperature < 0.0 {
      return Err(InvalidArgument);
    }
    var out: seq<seq<Sample>> := [];
    var b := 0;
    while b < batch
      invariant 0 <= b <= batch && |out| == b
      invariant forall i :: 0 <= i < b ==> BatchDrawn(params, logits, vocab, i, seqSize, size, draws, seqSize, out[i])
    {
      var samples := SampleBatch(params, logits, vocab, size, batch, seqSize, b, top.value[b], draws);
      out := out + [samples];
      b := b + 1;
    }
    if Exponential(params.exp) && (forall d :: d in draws ==> 0.0 <= d < 1.0) && k < 0x8000_0000 {
      AllDrawnWell(params, logits, vocab, batch, seqSize, size, draws, out);
    }
    return Ok(out);
  }

  method SampleBatch(params: Params, logits: seq<real>, vocab: nat, k: nat, batch: nat, seqSize: nat, b: nat,
                     tops: seq<nat>, draws: seq<real>) returns (samples: seq<Sample>)
    requires b < batch && 1 <= k <= vocab && (batch * seqSize) * vocab == |logits| && |draws| == batch * seqSize
    requires TopsOf(logits, vocab, b, seqSize, k, seqSize, tops)
    ensures BatchDrawn(params, logits, vocab, b, seqSize, k, draws, seqSize, samples)
  {
    hide Largest, RowIndex, DrawnAt, SoftmaxRow, Best, Chunk;
    samples := [];
    var s := 0;
    while s < seqSize
      invariant 0 <= s <= seqSize && BatchDrawn(params, logits, vocab, b, seqSize, k, draws, s, samples)
    {
      var r := RowIndex(b, s, seqSize);
      RowFits(b, s, batch, seqSize, vocab);
      assert TopAt(logits, vocab, b, seqSize, k, tops, s);
      var sample := SampleAt(params, logits, vocab, r, k, Chunk(tops, s, k), draws[r]);
      samples := samples + [sample];
      s := s + 1;
    }
  }

  method SampleAt(params: Params, logits: seq<real>, vocab: nat, r: nat, k: nat, ids: seq<nat>, u: real)
      returns (sample: Sample)
    requires k >= 1 && TopOf(logits, vocab, r, k, ids)
    ensures DrawnAt(params, logits, vocab, r, k, u, sample)
  {
    hide Chunk, SoftmaxRow, Best, RowDraw, FallbackScore;
    var row := Chunk(logits, r, vocab);
    var probabilities, top := SoftmaxOfRow(params.exp, row, ids, params.temperature);
    ghost var c: Candidates;
    if k == 1 {
      sample := Sample(ids[0], 1.0);
      c := Candidates(row, ids, probabilities, [0]);
      OnlyOne(c, params.p, FallbackScore(params.exp, c, params.temperature), u);
    } else {
      sample, c := DrawRow(params.exp, row, ids, probabilities, top, params.temperature, params.p, u);
    }
    assert DrawnFrom(params, row, k, c, u, sample);
  }

  lemma OnlyOne(c: Candidates, topP: real, fallback: real, u: real)
    requires Shaped(c) && |c.ids| == 1
    ensures RowDraw(c, topP, fallback, u) == Sample(c.ids[0], 1.0)
  {
  }

  /** Every sample is one of `k` tokens of its own row outside which no token has a larger logit;
      and with `k` one or `p` zero, no token of the row has. */
  lemma SampledIsAmongLargest(params: Params, logits: seq<real>, vocab: nat, r: nat, k: nat, u: real, sample: Sample)
    requires Exponential(params.exp) && 0.0 <= u < 1.0 && 1 <= k < 0x8000_0000
    requires DrawnAt(params, logits, vocab, r, k, u, sample)
    ensures exists ids :: |ids| == k && Largest(Chunk(logits, r, vocab), ids) && sample.id in ids
    ensures k == 1 || params.p <= 0.0 ==>
            forall j :: 0 <= j < vocab ==>
              sample.id < vocab && Chunk(logits, r, vocab)[j] <= Chunk(logits, r, vocab)[sample.id]
  {
    hide Chunk, RowDraw, Exponential, SoftmaxRow, SameOrder, Sum, FallbackScore;
    var row := Chunk(logits, r, vocab);
    var c :| DrawnFrom(params, row, k, c, u, sample);
    SoftmaxAddsToOne(params.exp, row, c.ids, params.temperature);
    SoftmaxSameOrder(params.exp, row, c.ids, params.temperature);
    forall i | 0 <= i < |c.ids| ensures SoftmaxRow(params.exp, row, c.ids, params.temperature)[i] > 0.0 {
      SoftmaxPositive(params.exp, row, c.ids, params.temperature, i);
    }
    DrawIsAmongLargest(c, params.p, FallbackScore(params.exp, c, params.temperature), u);
    if k == 1 || params.p <= 0.0 {
      forall j | 0 <= j < vocab ensures sample.id < vocab && row[j] <= row[sample.id] {
        GreedyIsArgmax(c, params.p, FallbackScore(params.exp, c, params.temperature), u, j);
      }
    }
  }
}
