/** Running the decoder: one call of `Run` on a step of one or more tokens per candidate, and the
    decode loop around it. */
module DecodeOneStep {
  import opened Strings
  import opened StopTokenDetector
  import opened DecodeSpec

  // ---- all candidates, token by token ----------------------------------------------------

  predicate Fits(seqs: seq<seq<int>>, ds: seq<Decoded>) {
    Sequences(seqs) && forall i :: 0 <= i < |ds| ==> |ds[i].stop.progress| == |seqs|
  }

  predicate AllFound(ds: seq<Decoded>) {
    forall i :: 0 <= i < |ds| ==> ds[i].stop.found
  }

  /** One token for every candidate. */
  function StepAll(seqs: seq<seq<int>>, detok: Detokenizer, ds: seq<Decoded>, col: seq<int>): (r: seq<Decoded>)
    requires Fits(seqs, ds) && |col| == |ds|
    ensures |r| == |ds| && Fits(seqs, r)
  {
    seq(|ds|, i requires 0 <= i < |ds| => StepDecode(seqs, detok, ds[i], col[i]))
  }

  /** The candidates after some columns of tokens, and how many columns were looked at: none after
      the one at which every candidate has stopped. */
  datatype Ran = Ran(states: seq<Decoded>, used: nat)

  predicate Columns(cols: seq<seq<int>>, n: nat) {
    forall j :: 0 <= j < |cols| ==> |cols[j]| == n
  }

  function RunCols(seqs: seq<seq<int>>, detok: Detokenizer, ds: seq<Decoded>, cols: seq<seq<int>>): (r: Ran)
    requires Fits(seqs, ds) && Columns(cols, |ds|)
    ensures |r.states| == |ds| && Fits(seqs, r.states) && r.used <= |cols|
    ensures cols != [] && !AllFound(r.states) ==> r.used == |cols|
    decreases |cols|
  {
    if cols == [] then Ran(ds, 0)
    else
      var next := StepAll(seqs, detok, ds, cols[0]);
      if AllFound(next) then Ran(next, 1)
      else
        var rest := RunCols(seqs, detok, next, cols[1..]);
        Ran(rest.states, 1 + rest.used)
  }

  /** Columns given in two steps: the second step counts only if the first did not end the run. */
  lemma {:induction false} RunColsJoin(seqs: seq<seq<int>>, detok: Detokenizer, ds: seq<Decoded>, a: seq<seq<int>>,
      b: seq<seq<int>>)
    requires Fits(seqs, ds) && Columns(a, |ds|) && Columns(b, |ds|)
    ensures Columns(a + b, |ds|)
    ensures var x := RunCols(seqs, detok, ds, a);
            RunCols(seqs, detok, ds, a + b) ==
            if a != [] && AllFound(x.states) then x
            else var y := RunCols(seqs, detok, x.states, b); Ran(y.states, |a| + y.used)
    decreases |a|
  {
    if a == [] {
      assert a + b == b;
    } else {
      var next := StepAll(seqs, detok, ds, a[0]);
      assert (a + b)[0] == a[0] && (a + b)[1..] == a[1..] + b;
      if !AllFound(next) {
        RunColsJoin(seqs, detok, next, a[1..], b);
      }
    }
  }

  /** The decode loop's steps, of any lengths: it goes on until all candidates have stopped. */
  function RunSteps(seqs: seq<seq<int>>, detok: Detokenizer, ds: seq<Decoded>,
      steps: seq<seq<seq<int>>>): (r: seq<Decoded>)
    requires Fits(seqs, ds) && forall k :: 0 <= k < |steps| ==> steps[k] != [] && Columns(steps[k], |ds|)
    ensures |r| == |ds| && Fits(seqs, r)
    decreases |steps|
  {
    if steps == [] then ds
    else
      var x := RunCols(seqs, detok, ds, steps[0]);
      if AllFound(x.states) then x.states else RunSteps(seqs, detok, x.states, steps[1..])
  }

  function Flatten(steps: seq<seq<seq<int>>>): seq<seq<int>> {
    if steps == [] then [] else steps[0] + Flatten(steps[1..])
  }

  /** Speculative decoding refines plain decoding: however the tokens are grouped into steps, the
      candidates end as if the tokens had come one at a time. */
  lemma {:induction false} StepsAreColumns(seqs: seq<seq<int>>, detok: Detokenizer, ds: seq<Decoded>,
      steps: seq<seq<seq<int>>>)
    requires Fits(seqs, ds) && forall k :: 0 <= k < |steps| ==> steps[k] != [] && Columns(steps[k], |ds|)
    ensures Columns(Flatten(steps), |ds|)
    ensures RunSteps(seqs, detok, ds, steps) == RunCols(seqs, detok, ds, Flatten(steps)).states
    decreases |steps|
  {
    if steps != [] {
      var x := RunCols(seqs, detok, ds, steps[0]);
      StepsAreColumns(seqs, detok, x.states, steps[1..]);
      RunColsJoin(seqs, detok, ds, steps[0], Flatten(steps[1..]));
    }
  }

  /** Candidate `i` of a run is its row of the tokens looked at, decoded. */
  lemma {:induction false} ColumnsAreRows(seqs: seq<seq<int>>, detok: Detokenizer, ds: seq<Decoded>,
      cols: seq<seq<int>>, i: nat, row: seq<int>)
    requires Fits(seqs, ds) && Columns(cols, |ds|) && i < |ds| && ds[i] == DecodeRow(seqs, detok, row)
    ensures var r := RunCols(seqs, detok, ds, cols);
            r.states[i] == DecodeRow(seqs, detok, row + RowOf(cols[..r.used], i))
    decreases |cols|
  {
    var r := RunCols(seqs, detok, ds, cols);
    if cols == [] {
      assert row + RowOf(cols[..0], i) == row;
    } else {
      var next := StepAll(seqs, detok, ds, cols[0]);
      DecodeMore(seqs, detok, row, cols[0][i]);
      if AllFound(next) {
        assert cols[..1][1..] == [];
        assert RowOf(cols[..1], i) == [cols[0][i]] + RowOf(cols[..1][1..], i) == [cols[0][i]];
      } else {
        ColumnsAreRows(seqs, detok, next, cols[1..], i, row + [cols[0][i]]);
        var used := RunCols(seqs, detok, next, cols[1..]).used;
        assert cols[..1 + used][1..] == cols[1..][..used];
        Assoc(row, [cols[0][i]], RowOf(cols[1..][..used], i));
      }
    }
  }

  /** Row `i` of some columns. */
  function RowOf(cols: seq<seq<int>>, i: nat): seq<int>
    requires forall j :: 0 <= j < |cols| ==> i < |cols[j]|
  {
    if cols == [] then [] else [cols[0][i]] + RowOf(cols[1..], i)
  }

  /** The columns of a step given row by row. */
  function ColumnsOf(tokenIds: seq<seq<int>>, len: nat): (r: seq<seq<int>>)
    requires forall i :: 0 <= i < |tokenIds| ==> |tokenIds[i]| == len
    ensures |r| == len && Columns(r, |tokenIds|)
  {
    seq(len, j requires 0 <= j < len => Column(tokenIds, j))
  }

  function Column(tokenIds: seq<seq<int>>, j: nat): (r: seq<int>)
    requires forall i :: 0 <= i < |tokenIds| ==> j < |tokenIds[i]|
    ensures |r| == |tokenIds|
  {
    seq(|tokenIds|, i requires 0 <= i < |tokenIds| => tokenIds[i][j])
  }

  /** A candidate's row of a step's columns is what the step brought for it, token by token. */
  lemma {:induction false} RowsOfColumns(tokenIds: seq<seq<int>>, len: nat, i: nat)
    requires (forall k :: 0 <= k < |tokenIds| ==> |tokenIds[k]| == len) && i < |tokenIds|
    ensures RowOf(ColumnsOf(tokenIds, len), i) == tokenIds[i]
  {
    var cols := ColumnsOf(tokenIds, len);
    forall j | 0 <= j < len ensures cols[j][i] == tokenIds[i][j] {}
    RowAt(cols, i);
  }

  lemma {:induction false} RowAt(cols: seq<seq<int>>, i: nat)
    requires forall j :: 0 <= j < |cols| ==> i < |cols[j]|
    ensures |RowOf(cols, i)| == |cols| && forall j :: 0 <= j < |cols| ==> RowOf(cols, i)[j] == cols[j][i]
  {
    if cols != [] { RowAt(cols[1..], i); }
  }

  lemma {:induction false} RowOfJoin(a: seq<seq<int>>, b: seq<seq<int>>, i: nat)
    requires forall j :: 0 <= j < |a| ==> i < |a[j]|
    requires forall j :: 0 <= j < |b| ==> i < |b[j]|
    ensures forall j :: 0 <= j < |a + b| ==> i < |(a + b)[j]|
    ensures RowOf(a + b, i) == RowOf(a, i) + RowOf(b, i)
  {
    var t := a + b;
    forall j | 0 <= j < |t| ensures i < |t[j]| {}
    RowAt(a, i);
    RowAt(b, i);
    RowAt(t, i);
  }

  function Texts(units: seq<Unit>): (r: seq<string>)
    ensures |r| == |units|
  {
    seq(|units|, i requires 0 <= i < |units| => units[i].text)
  }

  /** From `before` to `after` a candidate emitted what its result text grew by. */
  ghost predicate Emits(before: Decoded, after: Decoded, oldText: string, newText: string) {
    oldText <= newText && TextOf(after.out.emitted) == TextOf(before.out.emitted) + newText[|oldText|..]
  }

  /** Since `start`, each candidate has emitted its result text. */
  ghost predicate Told(start: seq<Decoded>, now: seq<Decoded>, texts: seq<string>) {
    |start| == |now| == |texts| &&
    forall i :: 0 <= i < |now| ==> Emits(start[i], now[i], "", texts[i])
  }

  lemma ToldMore(start: seq<Decoded>, mid: seq<Decoded>, now: seq<Decoded>, oldTexts: seq<string>, texts: seq<string>)
    requires Told(start, mid, oldTexts) && |now| == |mid| == |texts|
    requires forall i :: 0 <= i < |now| ==> Emits(mid[i], now[i], oldTexts[i], texts[i])
    ensures Told(start, now, texts)
  {
    forall i | 0 <= i < |now| ensures Emits(start[i], now[i], "", texts[i]) {
      assert Emits(start[i], mid[i], "", oldTexts[i]) && Emits(mid[i], now[i], oldTexts[i], texts[i]);
      Assoc(TextOf(start[i].out.emitted), oldTexts[i], texts[i][|oldTexts[i]|..]);
      assert texts[i] == oldTexts[i] + texts[i][|oldTexts[i]|..];
    }
  }

  lemma ToldNothing(ds: seq<Decoded>, texts: seq<string>)
    requires |texts| == |ds| && forall i :: 0 <= i < |texts| ==> texts[i] == ""
    ensures Told(ds, ds, texts)
  {
    forall i | 0 <= i < |ds| ensures Emits(ds[i], ds[i], "", texts[i]) {
      assert TextOf(ds[i].out.emitted) + "" == TextOf(ds[i].out.emitted);
    }
  }

  /** The run over the remaining columns, after the first of them. */
  lemma RunColsStep(seqs: seq<seq<int>>, detok: Detokenizer, ds: seq<Decoded>, cols: seq<seq<int>>, step: nat,
      goal: Ran)
    requires Fits(seqs, ds) && Columns(cols, |ds|) && step < |cols|
    requires goal == RunFrom(seqs, detok, ds, cols, step)
    ensures var next := StepAll(seqs, detok, ds, cols[step]);
            goal == if AllFound(next) then Ran(next, step + 1) else RunFrom(seqs, detok, next, cols, step + 1)
  {
    assert cols[step..][0] == cols[step] && cols[step..][1..] == cols[step + 1..];
  }

  function RunFrom(seqs: seq<seq<int>>, detok: Detokenizer, ds: seq<Decoded>, cols: seq<seq<int>>, step: nat): Ran
    requires Fits(seqs, ds) && Columns(cols, |ds|) && step <= |cols|
  {
    var rest := RunCols(seqs, detok, ds, cols[step..]);
    Ran(rest.states, step + rest.used)
  }

  lemma RunFromEnds(seqs: seq<seq<int>>, detok: Detokenizer, ds: seq<Decoded>, cols: seq<seq<int>>)
    requires Fits(seqs, ds) && Columns(cols, |ds|)
    ensures RunFrom(seqs, detok, ds, cols, 0) == RunCols(seqs, detok, ds, cols)
    ensures RunFrom(seqs, detok, ds, cols, |cols|) == Ran(ds, |cols|)
  {
    assert cols[0..] == cols && cols[|cols|..] == [];
  }

  lemma EmitsNoText(before: Decoded, after: Decoded, text: string)
    ensures after.out.emitted == before.out.emitted ==> Emits(before, after, text, text)
  {
    assert text[|text|..] == "";
    assert TextOf(before.out.emitted) + "" == TextOf(before.out.emitted);
  }

  lemma EmitsUnits(before: Decoded, after: Decoded, units: seq<Unit>, text: string)
    requires after.out.emitted == before.out.emitted + units
    ensures Emits(before, after, text, text + TextOf(units))
  {
    TextOfJoin(before.out.emitted, units);
    assert (text + TextOf(units))[|text|..] == TextOf(units);
  }

  // The queue of texts, as the loop that releases them sees it.

  lemma QueueMore(queue: seq<Unit>)
    requires queue != []
    ensures Texts(queue) == Texts(queue[..|queue| - 1]) + [queue[|queue| - 1].text]
  {
  }

  lemma QueueStarts(queue: seq<Unit>, waiting: seq<Unit>)
    ensures waiting[0..] == waiting && TextOf(queue[..0]) == ""
  {
  }

  lemma QueueStep(queue: seq<Unit>, waiting: seq<Unit>, n: nat)
    requires n < |waiting| <= |queue| && waiting == queue[..|waiting|]
    ensures Texts(waiting[n..]) != [] && Texts(waiting[n..])[1..] == Texts(waiting[n + 1..])
    ensures TextOf(queue[..n + 1]) == TextOf(queue[..n]) + Texts(waiting[n..])[0]
  {
    assert queue[..n + 1][..n] == queue[..n];
  }

  lemma QueueEnds(queue: seq<Unit>, left: seq<Unit>)
    requires queue != []
    ensures |Texts(left)| == |left| && Texts(queue[|queue|..]) == []
    ensures TextOf(queue[..|queue|]) == TextOf(queue[..|queue| - 1]) + queue[|queue| - 1].text
  {
    assert queue[..|queue|] == queue && queue[|queue|..] == [];
  }

  lemma TextsBut(units: seq<Unit>, u: Unit)
    ensures (units + [u])[..|units + [u]| - 1] == units && (units + [u])[|units + [u]| - 1] == u
  {
  }

  // ---- the decoder object --------------------------------------------------------------------

  class StepDecoder {
    const detok: Detokenizer
    const detector: Detector
    const numCandidates: nat
    var bpePartial: seq<seq<int>>
    var pending: seq<seq<string>>
    var resultText: seq<string>
    /** The step the executor stands at. */
    var executorStep: int
    /** The candidates as `DecodeSpec` sees them. */
    ghost var states: seq<Decoded>

    ghost predicate Shaped()
      reads this, detector
    {
      && detector.Shaped() && |detector.found| == numCandidates > 0
      && |bpePartial| == |pending| == |resultText| == |states| == numCandidates
      && Fits(detector.stopSequences, states)
      && (forall i :: 0 <= i < numCandidates ==>
            bpePartial[i] == states[i].out.partial && pending[i] == Texts(states[i].out.pending))
    }

    ghost predicate Valid()
      reads this, detector
    {
      && Shaped() && detector.Valid()
      && forall i :: 0 <= i < numCandidates ==> states[i].stop == detector.Row(i)
    }

    constructor (detok: Detokenizer, detector: Detector, numCandidates: nat, executorStep: int)
      requires detector.Valid() && |detector.found| == numCandidates > 0
      ensures Valid()
      ensures this.detok == detok && this.detector == detector && this.numCandidates == numCandidates
      ensures this.executorStep == executorStep
      ensures forall i :: 0 <= i < numCandidates ==> states[i] == Decoded(detector.Row(i), RowOut([], [], []))
    {
      this.detok, this.detector, this.numCandidates, this.executorStep := detok, detector, numCandidates, executorStep;
      bpePartial := seq(numCandidates, _ => []);
      pending := seq(numCandidates, _ => []);
      resultText := seq(numCandidates, _ => "");
      states := seq(numCandidates, i requires 0 <= i < |detector.found|
          && detector.Shaped() reads detector => Decoded(detector.Row(i), RowOut([], [], [])));
    }

    /** Queue the decoded text if a stop sequence may be under way, and let go of what is more than
        the match under way needs. */
    method ReleaseText(i: nat, text: string, maxLength: nat, ghost queue: seq<Unit>) returns (released: string)
      requires i < |pending| && queue != [] && queue[|queue| - 1].text == text
      requires pending[i] == Texts(queue[..|queue| - 1])
      modifies this`pending
      ensures released == TextOf(queue[..Excess(queue, maxLength)])
      ensures pending == old(pending)[i := Texts(queue[Excess(queue, maxLength)..])]
    {
      hide Texts, TextOf;
      released := "";
      ghost var n := 0;
      if maxLength > 0 {
        QueueMore(queue);
        pending := pending[i := pending[i] + [text]];
      }
      ghost var waiting := if maxLength > 0 then queue else queue[..|queue| - 1];
      QueueStarts(queue, waiting);
      while |pending[i]| > maxLength
        invariant |pending| == |old(pending)| && pending == old(pending)[i := pending[i]]
        invariant n <= |waiting| && pending[i] == Texts(waiting[n..])
        invariant released == TextOf(queue[..n])
        invariant n > 0 ==> |waiting| - n >= maxLength
        decreases |pending[i]|
      {
        QueueStep(queue, waiting, n);
        released := released + pending[i][0];
        pending := pending[i := pending[i][1..]];
        n := n + 1;
      }
      QueueEnds(queue, waiting[n..]);
      if maxLength == 0 {
        released := released + text;
      }
    }

    /** What one token emits for candidate `i`, once the detector has seen it. */
    method EmitToken(i: nat, token: int)
      requires Shaped() && i < numCandidates
      requires detector.Row(i) == StepRow(detector.stopSequences, states[i].stop, token)
      modifies this`bpePartial, this`pending, this`resultText, this`states
      ensures Shaped()
      ensures states == old(states)[i := StepDecode(detector.stopSequences, detok, old(states)[i], token)]
      ensures resultText == old(resultText)[i := resultText[i]]
      ensures Emits(old(states)[i], states[i], old(resultText)[i], resultText[i])
    {
      hide TextOf, StepRow, Emits, Texts;
      ghost var before := states[i];
      ghost var after := StepDecode(detector.stopSequences, detok, before, token);
      var ids := bpePartial[i] + [token];
      var decoded := detok(ids);
      EmitsNoText(before, after, resultText[i]);
      if decoded.None? {
        bpePartial := bpePartial[i := ids];
      } else if !detector.found[i] {
        bpePartial := bpePartial[i := []];
        ghost var queue := before.out.pending + [Unit(ids, decoded.value)];
        TextsBut(before.out.pending, Unit(ids, decoded.value));
        var released := ReleaseText(i, decoded.value, detector.maxProgress[i], queue);
        EmitsUnits(before, after, queue[..Excess(queue, detector.maxProgress[i])], resultText[i]);
        resultText := resultText[i := resultText[i] + released];
      }
      states := states[i := after];
    }

    /** One step of the model: `tokenIds` holds the same number of tokens for every candidate.  The
        executor has moved on by that many; if every candidate stops before the last of them, it is
        moved back. */
    method Run(tokenIds: seq<seq<int>>) returns (status: Status, done: bool)
      requires Valid() && |tokenIds| == numCandidates
      modifies this`bpePartial, this`pending, this`resultText, this`states, this`executorStep
      modifies detector`found, detector`maxProgress, detector`progress, detector`matchedLength, detector`rows
      ensures Valid()
      ensures executorStep >= old(executorStep)
      ensures status == Ok ==> forall i :: 0 <= i < numCandidates ==> |tokenIds[i]| == |tokenIds[0]|
      ensures detector.stopSequences != [] ==>
                (forall i :: 0 <= i < numCandidates ==> |tokenIds[i]| == |tokenIds[0]|) ==> status == Ok
      ensures status == Ok ==>
                var len := |tokenIds[0]|;
                var ran := RunCols(detector.stopSequences, detok, old(states), ColumnsOf(tokenIds, len));
                && states == ran.states
                && (done <==> len > 0 && AllFound(ran.states))
                && executorStep == old(executorStep) + (if done && ran.used < len then ran.used - 1 else len)
      ensures status == Ok ==> Told(old(states), states, resultText)
    {
      hide RunCols, RunFrom, StepAll, Told, Emits, TextOf, AllFound;
      var len := |tokenIds[0]|;
      executorStep := executorStep + len;
      for i := 1 to |tokenIds|
        invariant forall j :: 0 <= j < i ==> |tokenIds[j]| == len
      {
        if |tokenIds[i]| != len {
          return InvalidArgument, false;
        }
      }
      resultText := seq(numCandidates, _ => "");
      ghost var cols := ColumnsOf(tokenIds, len);
      ghost var goal := RunCols(detector.stopSequences, detok, states, cols);
      RunFromEnds(detector.stopSequences, detok, states, cols);
      ToldNothing(states, resultText);
      for step := 0 to len
        invariant Valid() && detector.stopSequences == old(detector.stopSequences)
        invariant executorStep == old(executorStep) + len
        invariant step > 0 ==> !AllFound(states)
        invariant goal == RunFrom(detector.stopSequences, detok, states, cols, step)
        invariant Told(old(states), states, resultText)
      {
        ghost var mid, oldTexts := states, resultText;
        RunColsStep(detector.stopSequences, detok, states, cols, step, goal);
        var ok := StepCandidates(Column(tokenIds, step));
        if ok != Ok {
          return ok, false;
        }
        ToldMore(old(states), mid, states, oldTexts, resultText);
        var allDone := AllStopped();
        if allDone {
          if step != len - 1 {
            var diff := len - step;
            executorStep := executorStep - diff;
          }
          return Ok, true;
        }
      }
      RunFromEnds(detector.stopSequences, detok, states, cols);
      return Ok, false;
    }

    /** One token for each candidate: all through the detector first, then decoded. */
    method StepCandidates(tokens: seq<int>) returns (status: Status)
      requires Valid() && |tokens| == numCandidates
      modifies this`bpePartial, this`pending, this`resultText, this`states
      modifies detector`found, detector`maxProgress, detector`progress, detector`matchedLength, detector`rows
      ensures Valid() && |resultText| == |old(resultText)|
      ensures status == Ok <==> detector.stopSequences != []
      ensures status != Ok ==> states == old(states) && resultText == old(resultText)
      ensures status == Ok ==> states == StepAll(detector.stopSequences, detok, old(states), tokens)
      ensures status == Ok ==> forall i :: 0 <= i < numCandidates ==>
                Emits(old(states)[i], states[i], old(resultText)[i], resultText[i])
    {
      status := detector.ProcessTokens(tokens);
      if status != Ok {
        assert forall j :: 0 <= j < numCandidates ==> detector.Row(j) == old(detector.Row(j));
        return;
      }
      DecodeCandidates(tokens);
    }

    /** The detector has seen the tokens; now each candidate's text. */
    method DecodeCandidates(tokens: seq<int>)
      requires Shaped() && detector.Valid() && |tokens| == numCandidates
      requires forall i :: 0 <= i < numCandidates ==>
                 detector.Row(i) == StepRow(detector.stopSequences, states[i].stop, tokens[i])
      modifies this`bpePartial, this`pending, this`resultText, this`states
      ensures Valid() && |resultText| == |old(resultText)|
      ensures states == StepAll(detector.stopSequences, detok, old(states), tokens)
      ensures forall i :: 0 <= i < numCandidates ==>
                Emits(old(states)[i], states[i], old(resultText)[i], resultText[i])
    {
      hide Emits, StepDecode, StepRow, Texts;
      for i := 0 to numCandidates
        invariant Shaped() && |resultText| == |old(resultText)|
        invariant forall j :: 0 <= j < i ==> states[j] == StepDecode(detector.stopSequences, detok, old(states)[j],
                  tokens[j])
        invariant forall j :: i <= j < numCandidates ==>
                    states[j] == old(states)[j] && resultText[j] == old(resultText)[j]
        invariant forall j :: 0 <= j < i ==> Emits(old(states)[j], states[j], old(resultText)[j], resultText[j])
      {
        EmitToken(i, tokens[i]);
      }
      forall j | 0 <= j < numCandidates ensures states[j].stop == detector.Row(j) {
        StepDecodeStop(detector.stopSequences, detok, old(states)[j], tokens[j]);
      }
    }

    method AllStopped() returns (done: bool)
      requires Valid()
      ensures done <==> AllFound(states)
    {
      var _, allDone := detector.AllDone();
      forall j | 0 <= j < numCandidates ensures states[j].stop.found == detector.Row(j).found {}
      if allDone {
        forall j | 0 <= j < numCandidates ensures states[j].stop.found { assert detector.Row(j).found; }
      }
      return allDone;
    }
  }

  lemma StepDecodeStop(seqs: seq<seq<int>>, detok: Detokenizer, d: Decoded, x: int)
    requires Sequences(seqs) && |d.stop.progress| == |seqs|
    ensures StepDecode(seqs, detok, d, x).stop == StepRow(seqs, d.stop, x)
  {
  }

  /** How much of the queue is more than the match under way needs. */
  function Excess(queue: seq<Unit>, most: nat): (n: nat)
    ensures n <= |queue|
  {
    if |queue| > most then |queue| - most else 0
  }
}
