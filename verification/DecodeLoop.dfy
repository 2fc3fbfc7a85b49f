/** The decode loop: steps of the model until every candidate has stopped or a limit is reached. */
module DecodeLoop {
  import opened StopTokenDetector
  import opened DecodeSpec
  import opened DecodeOneStep

  /** What the model returns: the tokens of its `k`-th step, candidate by candidate. */
  type Model = nat -> seq<seq<int>>

  predicate ShouldStop(hitStopTokens: bool, benchmarkCount: int, numDecodedSteps: int, currentStep: int,
                       maxNumTokens: int, maxOutputTokens: int)
  {
    if hitStopTokens && benchmarkCount == 0 then true
    else if benchmarkCount > 0 && numDecodedSteps >= benchmarkCount then true
    else if currentStep >= maxNumTokens then true
    else numDecodedSteps >= maxOutputTokens
  }

  /** Every step brings at least one token, the same number for each of `n` candidates. */
  ghost predicate Regular(model: Model, n: nat) {
    forall k: nat :: |model(k)| == n && n > 0 && model(k)[0] != []
                     && forall i :: 0 <= i < n ==> |model(k)[i]| == |model(k)[0]|
  }

  /** The columns of the first `k` steps. */
  ghost function ColumnsUpTo(model: Model, n: nat, k: nat): (r: seq<seq<int>>)
    requires Regular(model, n)
    ensures Columns(r, n) && |r| >= k
  {
    if k == 0 then [] else ColumnsUpTo(model, n, k - 1) + StepColumns(model, n, k - 1)
  }

  /** It stops when all candidates have, unless steps are counted for a benchmark; when that count is reached; and
      when the cache is full or as many tokens have come out as may. */
  lemma StopsIff(hit: bool, count: int, steps: int, current: int, maxTokens: int, maxOutput: int)
    ensures ShouldStop(hit, count, steps, current, maxTokens, maxOutput) <==>
            (hit && count == 0) || (0 < count <= steps) || maxTokens <= current || maxOutput <= steps
  {
  }

  /** The tokenizer's word-boundary mark is shown as a space, everything else as it is. */
  predicate Spaced(raw: string, shown: string) {
    |shown| == |raw| && forall i :: 0 <= i < |raw| ==> shown[i] == if raw[i] == '\U{2581}' then ' ' else raw[i]
  }

  /** `shown` is a beginning of the text with spaces, and all of it if `whole`. */
  ghost predicate ShowsOf(raw: string, shown: string, whole: bool) {
    exists plain :: Spaced(raw, plain) && shown <= plain && (whole ==> shown == plain)
  }

  lemma DespaceIff(raw: string, shown: string)
    ensures shown == Despace(raw) <==> Spaced(raw, shown)
  {
  }

  function Despace(s: string): (r: string)
    ensures |r| == |s|
  {
    seq(|s|, i requires 0 <= i < |s| => if s[i] == '\U{2581}' then ' ' else s[i])
  }

  lemma DespaceJoin(a: string, b: string)
    ensures Despace(a + b) == Despace(a) + Despace(b)
  {
  }

  lemma EmittedText(before: Decoded, after: Decoded, text: string)
    requires Emits(before, after, "", text)
    ensures Despace(TextOf(after.out.emitted)) == Despace(TextOf(before.out.emitted)) + Despace(text)
    ensures text == "" ==> Despace(TextOf(after.out.emitted)) == Despace(TextOf(before.out.emitted))
  {
    assert text[0..] == text;
    DespaceJoin(TextOf(before.out.emitted), text);
  }

  /** One more step of the model continues the run over all columns so far. */
  lemma OneMoreStep(seqs: seq<seq<int>>, detok: Detokenizer, start: seq<Decoded>, model: Model, k: nat,
      mid: seq<Decoded>)
    requires Fits(seqs, start) && Regular(model, |start|)
    requires mid == RunCols(seqs, detok, start, ColumnsUpTo(model, |start|, k)).states
    requires k > 0 ==> !AllFound(mid)
    ensures RunCols(seqs, detok, mid, StepColumns(model, |start|, k)).states ==
            RunCols(seqs, detok, start, ColumnsUpTo(model, |start|, k + 1)).states
    ensures RunCols(seqs, detok, start, ColumnsUpTo(model, |start|, k + 1)).used ==
            |ColumnsUpTo(model, |start|, k)| + RunCols(seqs, detok, mid, StepColumns(model, |start|, k)).used
    ensures |ColumnsUpTo(model, |start|, k + 1)| ==
            |ColumnsUpTo(model, |start|, k)| + |StepColumns(model, |start|, k)|
  {
    hide RunCols, AllFound;
    RunColsJoin(seqs, detok, start, ColumnsUpTo(model, |start|, k), StepColumns(model, |start|, k));
  }

  ghost function StepColumns(model: Model, n: nat, k: nat): (r: seq<seq<int>>)
    requires Regular(model, n)
    ensures Columns(r, n) && r != []
  {
    ColumnsOf(model(k), |model(k)[0]|)
  }

  /** The tokens of candidate `i` in the first `k` steps, one step after the other. */
  ghost function TokensUpTo(model: Model, n: nat, k: nat, i: nat): seq<int>
    requires Regular(model, n) && i < n
  {
    if k == 0 then [] else TokensUpTo(model, n, k - 1, i) + model(k - 1)[i]
  }

  /** They are the candidate's row of the columns. */
  lemma {:induction false} RowsOfModel(model: Model, n: nat, k: nat, i: nat)
    requires Regular(model, n) && i < n
    ensures RowOf(ColumnsUpTo(model, n, k), i) == TokensUpTo(model, n, k, i)
  {
    hide RowOf;
    if k == 0 {
      RowAt([], i);
    } else {
      RowsOfModel(model, n, k - 1, i);
      RowsOfColumns(model(k - 1), |model(k - 1)[0]|, i);
      RowOfJoin(ColumnsUpTo(model, n, k - 1), StepColumns(model, n, k - 1), i);
    }
  }

  method AppendTexts(finalTexts: seq<string>, resultTexts: seq<string>, ghost before: seq<Decoded>,
      ghost after: seq<Decoded>)
    returns (r: seq<string>)
    requires Told(before, after, resultTexts) && Final(before, finalTexts)
    ensures Final(after, r)
  {
    hide Emits, Despace, TextOf, Spaced;
    r := finalTexts;
    forall i | 0 <= i < |finalTexts| ensures finalTexts[i] == Despace(TextOf(before[i].out.emitted)) {
      DespaceIff(TextOf(before[i].out.emitted), finalTexts[i]);
    }
    var j := 0;
    while j < |r|
      invariant 0 <= j <= |r| == |finalTexts|
      invariant forall i :: 0 <= i < j ==> r[i] == Despace(TextOf(after[i].out.emitted))
      invariant forall i :: j <= i < |r| ==> r[i] == finalTexts[i]
    {
      EmittedText(before[j], after[j], resultTexts[j]);
      if resultTexts[j] != "" {
        r := r[j := r[j] + Despace(resultTexts[j])];
      }
      j := j + 1;
    }
    forall i | 0 <= i < |r| ensures Spaced(TextOf(after[i].out.emitted), r[i]) {
      DespaceIff(TextOf(after[i].out.emitted), r[i]);
    }
  }

  /** The texts returned are those emitted, with spaces. */
  ghost predicate Final(ds: seq<Decoded>, texts: seq<string>) {
    |texts| == |ds| && forall i :: 0 <= i < |texts| ==> Spaced(TextOf(ds[i].out.emitted), texts[i])
  }

  function Min(a: int, b: int): int { if a < b then a else b }
  function Max(a: int, b: int): int { if a > b then a else b }

  /** The loop, without a benchmark token count and without cancellation. */
  method Decode(decoder: StepDecoder, model: Model, maxNumTokens: int, maxOutputTokens: int)
    returns (status: Status, finalTexts: seq<string>, iterations: nat)
    requires decoder.Valid() && Regular(model, decoder.numCandidates)
    requires decoder.detector.stopSequences != []
    requires forall i :: 0 <= i < decoder.numCandidates ==> decoder.states[i] == Start(decoder.detector.stopSequences)
    modifies decoder, decoder.detector
    ensures decoder.Valid() && status == Ok
    ensures decoder.detector.stopSequences == old(decoder.detector.stopSequences)
    ensures 1 <= iterations <= Max(1, Min(maxOutputTokens, maxNumTokens - old(decoder.executorStep)))
    ensures decoder.executorStep >= old(decoder.executorStep)
    ensures decoder.states ==
            RunCols(decoder.detector.stopSequences, decoder.detok, old(decoder.states),
                ColumnsUpTo(model, decoder.numCandidates, iterations)).states
    ensures Final(decoder.states, finalTexts)
    ensures AllFound(decoder.states) || decoder.executorStep >= maxNumTokens
            || decoder.executorStep - old(decoder.executorStep) >= maxOutputTokens
    ensures iterations > 1 ==>
              var cols := ColumnsUpTo(model, decoder.numCandidates, iterations - 1);
              && !AllFound(RunCols(decoder.detector.stopSequences, decoder.detok, old(decoder.states), cols).states)
              && old(decoder.executorStep) + |cols| < maxNumTokens && |cols| < maxOutputTokens
    ensures var cols := ColumnsUpTo(model, decoder.numCandidates, iterations);
            var ran := RunCols(decoder.detector.stopSequences, decoder.detok, old(decoder.states), cols);
            decoder.executorStep == old(decoder.executorStep) +
              if AllFound(ran.states) && ran.used < |cols| then ran.used - 1 else |cols|
  {
    hide RunCols, AllFound, ColumnsUpTo, Told, Start;
    var n := decoder.numCandidates;
    var startStep := decoder.executorStep;
    ghost var seqs, detok, start := decoder.detector.stopSequences, decoder.detok, decoder.states;
    finalTexts := seq(n, _ => "");
    NothingYet(seqs, detok, start, finalTexts, model);
    iterations := 0;
    while true
      invariant decoder.Valid() && decoder.detector.stopSequences == seqs
      invariant Final(decoder.states, finalTexts)
      invariant decoder.states == RunCols(seqs, detok, start, ColumnsUpTo(model, n, iterations)).states
      invariant iterations > 0 ==> !AllFound(decoder.states)
      invariant decoder.executorStep == startStep + |ColumnsUpTo(model, n, iterations)|
      invariant iterations > 0 ==>
                  decoder.executorStep < maxNumTokens && decoder.executorStep - startStep < maxOutputTokens
      decreases maxNumTokens - decoder.executorStep + (if iterations == 0 then 1 else 0), iterations == 0
    {
      ghost var before := decoder.states;
      OneMoreStep(seqs, detok, start, model, iterations, before);
      var done;
      status, done := decoder.Run(model(iterations));
      iterations := iterations + 1;
      finalTexts := AppendTexts(finalTexts, decoder.resultText, before, decoder.states);
      if ShouldStop(done, 0, decoder.executorStep - startStep, decoder.executorStep, maxNumTokens, maxOutputTokens) {
        break;
      }
    }
  }

  lemma NothingYet(seqs: seq<seq<int>>, detok: Detokenizer, start: seq<Decoded>, texts: seq<string>, model: Model)
    requires Fits(seqs, start) && Regular(model, |start|)
    requires |texts| == |start| && forall i :: 0 <= i < |start| ==> start[i] == Start(seqs) && texts[i] == ""
    ensures Final(start, texts) && start == RunCols(seqs, detok, start, ColumnsUpTo(model, |start|, 0)).states
    ensures ColumnsUpTo(model, |start|, 0) == []
  {
  }

  /** The tokens candidate `i` has been given when the loop ends after `k` steps. */
  ghost function RowGiven(seqs: seq<seq<int>>, detok: Detokenizer, start: seq<Decoded>, model: Model, k: nat,
      i: nat): seq<int>
    requires Fits(seqs, start) && Regular(model, |start|) && i < |start|
  {
    var cols := ColumnsUpTo(model, |start|, k);
    RowOf(cols[..RunCols(seqs, detok, start, cols).used], i)
  }

  /** What `Decode` returns for a candidate that stopped on the only stop sequence: the text of its
      tokens before that sequence, or a beginning of it; all of it if no bytes waited as the match
      began and either nothing was withheld or the first stop token decodes by itself. */
  lemma {:induction false} ReturnsTextBeforeStop(p: seq<int>, detok: Detokenizer, start: seq<Decoded>, model: Model,
      k: nat,
                                                 states: seq<Decoded>, texts: seq<string>, i: nat)
    returns (n: nat)
    requires p != [] && Fits([p], start) && Regular(model, |start|) && i < |start| && start[i] == Start([p])
    requires states == RunCols([p], detok, start, ColumnsUpTo(model, |start|, k)).states
    requires Final(states, texts) && states[i].stop.found
    ensures var row := RowGiven([p], detok, start, model, k, i);
            && |p| <= n <= |row| && JustStopped(p, row[..n]) && row[n - |p|..n] == p
            && ShowsOf(PlainText(detok, row[..n - |p|]), texts[i],
                       Clear(p, detok, DecodeRow([p], detok, row[..n - |p|]).out))
  {
    hide RunCols, ColumnsUpTo, DecodeRow, Despace, Spaced, PlainText, TextOf, JustStopped, RowAfter, Clear;
    var cols := ColumnsUpTo(model, |start|, k);
    var row := RowGiven([p], detok, start, model, k, i);
    EmptyRow([p], detok);
    ColumnsAreRows([p], detok, start, cols, i, []);
    assert [] + row == row;
    DecodeRowStop([p], detok, row);
    n := EmittedIsTextBefore(p, detok, row);
    var emitted := TextOf(DecodeRow([p], detok, row).out.emitted);
    DespaceBegins(emitted, PlainText(detok, row[..n - |p|]));
    DespaceIff(emitted, texts[i]);
    DespaceIff(PlainText(detok, row[..n - |p|]), Despace(PlainText(detok, row[..n - |p|])));
  }

  lemma DespaceBegins(a: string, b: string)
    requires a <= b
    ensures Despace(a) <= Despace(b)
  {
    assert b == a + b[|a|..];
    DespaceJoin(a, b[|a|..]);
  }
}
