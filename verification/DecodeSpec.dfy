/** Decoding one row of tokens into text: what is emitted, what is withheld while a stop
    sequence may be under way, and what waits for an incomplete byte sequence to end. */
module DecodeSpec {
  import opened Strings
  import opened StopTokenDetector

  /** The tokenizer: the text of some token ids, or `None` for an incomplete byte sequence. */
  type Detokenizer = seq<int> -> Option<string>

  /** Token ids that were decoded together. */
  datatype Unit = Unit(ids: seq<int>, text: string)

  /** Token ids of an unfinished byte sequence, the queue of withheld units, the units emitted. */
  datatype RowOut = RowOut(partial: seq<int>, pending: seq<Unit>, emitted: seq<Unit>)

  datatype Decoded = Decoded(stop: RowState, out: RowOut)

  function TextOf(units: seq<Unit>): string {
    if units == [] then "" else TextOf(units[..|units| - 1]) + units[|units| - 1].text
  }

  function TokensOf(units: seq<Unit>): seq<int> {
    if units == [] then [] else TokensOf(units[..|units| - 1]) + units[|units| - 1].ids
  }

  lemma {:induction false} TokensOfJoin(a: seq<Unit>, b: seq<Unit>)
    ensures TokensOf(a + b) == TokensOf(a) + TokensOf(b)
  {
    if b == [] {
      assert a + b == a;
    } else {
      var n := |b| - 1;
      TokensOfJoin(a, b[..n]);
      assert (a + b)[..|a| + n] == a + b[..n];
      Assoc(TokensOf(a), TokensOf(b[..n]), b[n].ids);
    }
  }

  lemma {:induction false} TextOfJoin(a: seq<Unit>, b: seq<Unit>)
    ensures TextOf(a + b) == TextOf(a) + TextOf(b)
  {
    if b == [] {
      assert a + b == a;
    } else {
      var n := |b| - 1;
      TextOfJoin(a, b[..n]);
      assert (a + b)[..|a| + n] == a + b[..n];
      Assoc(TextOf(a), TextOf(b[..n]), b[n].text);
    }
  }

  /** Keep the latest `most` units of the queue; the others are emitted. */
  function Release(out: RowOut, most: nat): RowOut {
    var n := if |out.pending| > most then |out.pending| - most else 0;
    RowOut(out.partial, out.pending[n..], out.emitted + out.pending[..n])
  }

  /** One token, after the detector has seen it. */
  function StepOut(detok: Detokenizer, out: RowOut, x: int, found: bool, maxProgress: nat): RowOut {
    var ids := out.partial + [x];
    match detok(ids)
    case None => out.(partial := ids)
    case Some(text) =>
      if found then out
      else Release(RowOut([], out.pending + [Unit(ids, text)], out.emitted), maxProgress)
  }

  function StepDecode(seqs: seq<seq<int>>, detok: Detokenizer, d: Decoded, x: int): (r: Decoded)
    requires Sequences(seqs) && |d.stop.progress| == |seqs|
    ensures |r.stop.progress| == |seqs|
  {
    var stop := StepRow(seqs, d.stop, x);
    Decoded(stop, StepOut(detok, d.out, x, stop.found, stop.maxProgress))
  }

  function Start(seqs: seq<seq<int>>): Decoded {
    Decoded(Fresh(seqs), RowOut([], [], []))
  }

  function DecodeRow(seqs: seq<seq<int>>, detok: Detokenizer, row: seq<int>): (r: Decoded)
    requires Sequences(seqs)
    ensures |r.stop.progress| == |seqs|
  {
    if row == [] then Start(seqs)
    else StepDecode(seqs, detok, DecodeRow(seqs, detok, row[..|row| - 1]), row[|row| - 1])
  }

  lemma {:induction false} DecodeRowStop(seqs: seq<seq<int>>, detok: Detokenizer, row: seq<int>)
    requires Sequences(seqs)
    ensures DecodeRow(seqs, detok, row).stop == RowAfter(seqs, row)
  {
    if row != [] { DecodeRowStop(seqs, detok, row[..|row| - 1]); }
  }

  // ---- every token is accounted for -------------------------------------------------------

  /** A unit is decoded as soon as its ids can be. */
  ghost predicate UnitOk(detok: Detokenizer, u: Unit) {
    u.ids != [] && detok(u.ids) == Some(u.text) && NoneYet(detok, u.ids[..|u.ids| - 1])
  }

  /** No beginning of `ids` can be decoded. */
  ghost predicate NoneYet(detok: Detokenizer, ids: seq<int>) {
    forall n | 0 < n <= |ids| :: detok(ids[..n]).None?
  }

  ghost predicate UnitsOk(detok: Detokenizer, units: seq<Unit>) {
    forall j :: 0 <= j < |units| ==> UnitOk(detok, units[j])
  }

  /** Emitted units, withheld units and unfinished ids make up the row, in order. */
  ghost predicate Accounts(detok: Detokenizer, row: seq<int>, out: RowOut) {
    && UnitsOk(detok, out.emitted) && UnitsOk(detok, out.pending) && NoneYet(detok, out.partial)
    && row == TokensOf(out.emitted) + TokensOf(out.pending) + out.partial
  }

  lemma {:induction false} ReleaseAccounts(detok: Detokenizer, row: seq<int>, out: RowOut, most: nat)
    requires Accounts(detok, row, out)
    ensures Accounts(detok, row, Release(out, most))
  {
    var n := if |out.pending| > most then |out.pending| - most else 0;
    var a, b := out.pending[..n], out.pending[n..];
    assert out.pending == a + b;
    TokensOfJoin(a, b);
    TokensOfJoin(out.emitted, a);
    Assoc(TokensOf(out.emitted), TokensOf(a), TokensOf(b));
  }

  lemma StepAccounts(detok: Detokenizer, row: seq<int>, out: RowOut, x: int, maxProgress: nat)
    requires Accounts(detok, row, out)
    ensures Accounts(detok, row + [x], StepOut(detok, out, x, false, maxProgress))
  {
    var ids := out.partial + [x];
    Assoc(TokensOf(out.emitted) + TokensOf(out.pending), out.partial, [x]);
    assert ids[..|ids| - 1] == out.partial;
    if detok(ids).None? {
      forall n | 0 < n <= |ids| ensures detok(ids[..n]).None? {
        if n < |ids| { assert ids[..n] == out.partial[..n]; } else { assert ids[..n] == ids; }
      }
    } else {
      UnitAccounts(detok, row + [x], out, Unit(ids, detok(ids).value));
      ReleaseAccounts(detok, row + [x], RowOut([], out.pending + [Unit(ids, detok(ids).value)], out.emitted),
          maxProgress);
    }
  }

  lemma UnitAccounts(detok: Detokenizer, row: seq<int>, out: RowOut, u: Unit)
    requires UnitsOk(detok, out.emitted) && UnitsOk(detok, out.pending) && UnitOk(detok, u)
    requires row == TokensOf(out.emitted) + TokensOf(out.pending) + u.ids
    ensures Accounts(detok, row, RowOut([], out.pending + [u], out.emitted))
  {
    hide UnitOk;
    TokensOfJoin(out.pending, [u]);
    assert TokensOf([u]) == TokensOf([u][..0]) + u.ids == u.ids;
    Assoc(TokensOf(out.emitted), TokensOf(out.pending), u.ids);
    assert row + [] == row;
  }

  /** Until the row stops, nothing is lost: emitted text, queue and buffer cover every token. */
  lemma {:induction false} RowAccounts(seqs: seq<seq<int>>, detok: Detokenizer, row: seq<int>)
    requires Sequences(seqs) && !DecodeRow(seqs, detok, row).stop.found
    ensures Accounts(detok, row, DecodeRow(seqs, detok, row).out)
  {
    if row != [] {
      var n := |row| - 1;
      NotFoundBefore(seqs, detok, row, n);
      RowAccounts(seqs, detok, row[..n]);
      StepAccounts(detok, row[..n], DecodeRow(seqs, detok, row[..n]).out, row[n],
          DecodeRow(seqs, detok, row).stop.maxProgress);
      assert row == row[..n] + [row[n]];
    }
  }

  lemma {:induction false} NotFoundBefore(seqs: seq<seq<int>>, detok: Detokenizer, row: seq<int>, n: nat)
    requires Sequences(seqs) && !DecodeRow(seqs, detok, row).stop.found && n <= |row|
    ensures !DecodeRow(seqs, detok, row[..n]).stop.found
    decreases |row|
  {
    if n == |row| {
      assert row[..n] == row;
    } else {
      var m := |row| - 1;
      assert row[..m][..n] == row[..n];
      NotFoundBefore(seqs, detok, row[..m], n);
    }
  }

  /** Once the row has stopped, nothing more is emitted. */
  lemma {:induction false} NothingAfterStop(seqs: seq<seq<int>>, detok: Detokenizer, row: seq<int>, more: seq<int>)
    requires Sequences(seqs) && DecodeRow(seqs, detok, row).stop.found
    ensures DecodeRow(seqs, detok, row + more).stop.found
    ensures DecodeRow(seqs, detok, row + more).out.emitted == DecodeRow(seqs, detok, row).out.emitted
    decreases |more|
  {
    if more == [] {
      assert row + more == row;
    } else {
      var n := |more| - 1;
      NothingAfterStop(seqs, detok, row, more[..n]);
      assert (row + more)[..|row| + n] == row + more[..n];
    }
  }

  // ---- nothing of a stop sequence is emitted ------------------------------------------------

  lemma {:induction false} UnitsHaveTokens(detok: Detokenizer, units: seq<Unit>)
    requires UnitsOk(detok, units)
    ensures |TokensOf(units)| >= |units|
  {
    if units != [] { UnitsHaveTokens(detok, units[..|units| - 1]); }
  }

  /** As many tokens are withheld as the longest match under way is long. */
  lemma {:induction false} WithholdsMatch(seqs: seq<seq<int>>, detok: Detokenizer, row: seq<int>)
    requires Sequences(seqs) && !DecodeRow(seqs, detok, row).stop.found
    ensures |TokensOf(DecodeRow(seqs, detok, row).out.emitted)| + DecodeRow(seqs, detok, row).stop.maxProgress <= |row|
  {
    if row != [] {
      var n := |row| - 1;
      var before, after := DecodeRow(seqs, detok, row[..n]), DecodeRow(seqs, detok, row);
      NotFoundBefore(seqs, detok, row, n);
      WithholdsMatch(seqs, detok, row[..n]);
      RowAccounts(seqs, detok, row);
      DecodeRowStop(seqs, detok, row[..n]);
      RowAfterSound(seqs, row[..n]);
      MaxGrowsByOne(seqs, before.stop, row[n]);
      UnitsHaveTokens(detok, after.out.pending);
      ReleasesOnlyExcess(detok, before.out, row[n], after.stop.maxProgress);
    }
  }

  /** What one more token does to a row that goes on: if its bytes are incomplete they wait; else its text joins the
      end of the queue, of which only the latest texts stay, no more than the longest match is long, and the
      oldest go out in order. */
  lemma {:induction false} QueueIs(seqs: seq<seq<int>>, detok: Detokenizer, row: seq<int>, x: int)
    requires Sequences(seqs) && !DecodeRow(seqs, detok, row + [x]).stop.found
    ensures var a, r := DecodeRow(seqs, detok, row).out, DecodeRow(seqs, detok, row + [x]);
            var ids, most, b := a.partial + [x], r.stop.maxProgress, r.out;
            if detok(ids).None? then b == RowOut(ids, a.pending, a.emitted)
            else
              && b.partial == [] && |b.pending| == (if |a.pending| + 1 < most then |a.pending| + 1 else most)
              && b.emitted + b.pending == a.emitted + a.pending + [Unit(ids, detok(ids).value)]
  {
    hide DecodeRow, StepRow;
    DecodeMore(seqs, detok, row, x);
    var a := DecodeRow(seqs, detok, row).out;
    var r := DecodeRow(seqs, detok, row + [x]);
    var ids := a.partial + [x];
    if detok(ids).Some? {
      var queue := a.pending + [Unit(ids, detok(ids).value)];
      var n := if |queue| > r.stop.maxProgress then |queue| - r.stop.maxProgress else 0;
      assert queue == queue[..n] + queue[n..];
      Assoc(a.emitted, queue[..n], queue[n..]);
      Assoc(a.emitted, a.pending, [Unit(ids, detok(ids).value)]);
    }
  }

  lemma ReleasesOnlyExcess(detok: Detokenizer, out: RowOut, x: int, most: nat)
    ensures var r := StepOut(detok, out, x, false, most);
            r.emitted == out.emitted || |r.pending| == most
  {
    var ids := out.partial + [x];
    if detok(ids).Some? && |out.pending| + 1 <= most {
      assert out.emitted + (out.pending + [Unit(ids, detok(ids).value)])[..0] == out.emitted;
    }
  }

  lemma MaxGrowsByOne(seqs: seq<seq<int>>, st: RowState, x: int)
    requires Sequences(seqs) && |st.progress| == |seqs| && !st.found
    requires forall k :: 0 <= k < |seqs| ==> st.progress[k] <= st.maxProgress
    ensures StepRow(seqs, st, x).maxProgress <= st.maxProgress + 1
  {
    StepUpToIs(seqs, st, x, |seqs|);
  }

  /** No token of the stop sequence that ended the row is among the emitted ones: what was
      emitted is the decoding of a beginning of the row that ends where that sequence starts, or
      before. */
  lemma {:induction false} StopNeverEmitted(seqs: seq<seq<int>>, detok: Detokenizer, row: seq<int>)
    requires Sequences(seqs) && DecodeRow(seqs, detok, row).stop.found
    ensures var d := DecodeRow(seqs, detok, row);
            && UnitsOk(detok, d.out.emitted)
            && TokensOf(d.out.emitted) <= row
            && |TokensOf(d.out.emitted)| + d.stop.matchedLength <= |row|
  {
    var n := |row| - 1;
    var before := DecodeRow(seqs, detok, row[..n]);
    assert row == row[..n] + [row[n]];
    if before.stop.found {
      StopNeverEmitted(seqs, detok, row[..n]);
    } else {
      RowAccounts(seqs, detok, row[..n]);
      WithholdsMatch(seqs, detok, row[..n]);
      DecodeRowStop(seqs, detok, row[..n]);
      RowAfterSound(seqs, row[..n]);
      CompletesByOne(seqs, before.stop, row[n]);
    }
  }

  lemma CompletesByOne(seqs: seq<seq<int>>, st: RowState, x: int)
    requires Sequences(seqs) && |st.progress| == |seqs| && !st.found && StepRow(seqs, st, x).found
    requires forall k :: 0 <= k < |seqs| ==> st.progress[k] <= st.maxProgress
    ensures StepRow(seqs, st, x).matchedLength <= st.maxProgress + 1
  {
    StepUpToIs(seqs, st, x, |seqs|);
  }

  /** The row stops at its `n`-th token. */
  ghost predicate StopsAt(seqs: seq<seq<int>>, row: seq<int>, n: nat)
    requires Sequences(seqs)
  {
    0 < n <= |row| && RowAfter(seqs, row[..n]).found && !RowAfter(seqs, row[..n - 1]).found
  }

  lemma {:induction false} StopPlace(seqs: seq<seq<int>>, row: seq<int>) returns (n: nat)
    requires Sequences(seqs) && RowAfter(seqs, row).found
    ensures StopsAt(seqs, row, n)
  {
    var m := |row| - 1;
    if RowAfter(seqs, row[..m]).found {
      n := StopPlace(seqs, row[..m]);
      assert row[..m][..n] == row[..n] && row[..m][..n - 1] == row[..n - 1];
    } else {
      n := |row|;
      assert row[..n] == row;
    }
  }

  /** Not only of that sequence: whichever sequences the stopping token completes, what is emitted in
      the end is the decoding of a beginning of the row that ends where the longest of them starts,
      or before. */
  lemma {:induction false} CompletedNeverEmitted(seqs: seq<seq<int>>, detok: Detokenizer, row: seq<int>, n: nat, k: nat)
    requires Sequences(seqs) && StopsAt(seqs, row, n)
    requires k < |seqs| && RowAfter(seqs, row[..n]).progress[k] == |seqs[k]|
    ensures |seqs[k]| <= n && row[n - |seqs[k]|..n] == seqs[k]
    ensures var emitted := DecodeRow(seqs, detok, row).out.emitted;
            UnitsOk(detok, emitted) && TokensOf(emitted) <= row[..n - |seqs[k]|]
  {
    hide DecodeRow, RowAfter, UnitsOk, TokensOf, MatchesEnd, Advance, StepUpTo;
    var before, x := row[..n - 1], row[n - 1];
    assert row[..n] == before + [x] && row[..n] + row[n..] == row;
    StopStep(seqs, detok, before, x, k);
    NothingAfterStop(seqs, detok, row[..n], row[n..]) by { DecodeRowStop(seqs, detok, row[..n]); }
    assert row[..n][n - |seqs[k]|..] == row[n - |seqs[k]|..n];
    var tokens := TokensOf(DecodeRow(seqs, detok, before).out.emitted);
    assert tokens == before[..|tokens|] == row[..n - |seqs[k]|][..|tokens|];
  }

  /** The token that stops the row and completes sequence `k`. */
  lemma {:induction false} StopStep(seqs: seq<seq<int>>, detok: Detokenizer, row: seq<int>, x: int, k: nat)
    requires Sequences(seqs) && !RowAfter(seqs, row).found && RowAfter(seqs, row + [x]).found
    requires k < |seqs| && RowAfter(seqs, row + [x]).progress[k] == |seqs[k]|
    ensures MatchesEnd(seqs[k], row + [x], |seqs[k]|) && |seqs[k]| <= |row| + 1
            && (row + [x])[|row| + 1 - |seqs[k]|..] == seqs[k]
    ensures var emitted := DecodeRow(seqs, detok, row).out.emitted;
            && DecodeRow(seqs, detok, row + [x]).out.emitted == emitted
            && UnitsOk(detok, emitted) && TokensOf(emitted) <= row
            && |TokensOf(emitted)| + |seqs[k]| <= |row| + 1
  {
    hide DecodeRow, TokensOf, UnitOk, Advance, StepUpTo;
    var d := DecodeRow(seqs, detok, row);
    DecodeRowStop(seqs, detok, row);
    RowAccounts(seqs, detok, row);
    WithholdsMatch(seqs, detok, row);
    RowAfterSound(seqs, row);
    StepUpToIs(seqs, d.stop, x, |seqs|);
    assert (row + [x])[..|row|] == row;
    assert RowAfter(seqs, row + [x]) == StepUpTo(seqs, d.stop, x, |seqs|);
    AdvanceKeepsMatch(seqs[k], row, d.stop.progress[k], x);
    DecodeMore(seqs, detok, row, x);
    DecodeRowStop(seqs, detok, row + [x]);
    EmitsNothing(detok, d.out, x, RowAfter(seqs, row + [x]).maxProgress);
    assert seqs[k][..|seqs[k]|] == seqs[k];
    Assoc(TokensOf(d.out.emitted), TokensOf(d.out.pending), d.out.partial);
  }

  // ---- a single stop sequence: when the emitted text is exactly the text before it ----------

  /** Counting back from a completed match. */
  lemma {:induction false} CountBack(p: seq<int>, row: seq<int>, q: nat)
    requires p != [] && Progress(p, row) == |p| && 1 <= q <= |p|
    ensures |p| <= |row| && Progress(p, row[..|row| - |p| + q]) == q
    decreases |p| - q
  {
    ProgressIsMatch(p, row);
    if q == |p| {
      assert row[..|row|] == row;
    } else {
      CountBack(p, row, q + 1);
      var t := row[..|row| - |p| + q + 1];
      assert t[..|t| - 1] == row[..|row| - |p| + q];
    }
  }

  lemma SingleFollows(p: seq<int>, row: seq<int>)
    requires p != []
    ensures RowAfter([p], row).found <==> Fired(p, row)
    ensures !RowAfter([p], row).found ==> RowAfter([p], row).progress == [Progress(p, row)]
  {
    RowFollowsEach([p], row);
    assert [p][0] == p;
  }

  lemma SingleMax(p: seq<int>, row: seq<int>)
    requires p != [] && !RowAfter([p], row).found
    ensures RowAfter([p], row).maxProgress == Progress(p, row)
  {
    SingleFollows(p, row);
    if row != [] {
      var before := RowAfter([p], row[..|row| - 1]);
      if !before.found { StepUpToIs([p], before, row[|row| - 1], 1); }
    }
  }

  /** A stop sequence of one token never has anything withheld. */
  lemma {:induction false} SingleTokenNoQueue(p: seq<int>, detok: Detokenizer, row: seq<int>)
    requires |p| == 1 && !DecodeRow([p], detok, row).stop.found
    ensures DecodeRow([p], detok, row).out.pending == []
  {
    if row != [] {
      var n := |row| - 1;
      NotFoundBefore([p], detok, row, n);
      SingleTokenNoQueue(p, detok, row[..n]);
      DecodeRowStop([p], detok, row);
      SingleMax(p, row);
      SingleFollows(p, row);
      FiredStep(p, row);
    }
  }

  /** The row has just stopped: its last token completed `p`. */
  ghost predicate JustStopped(p: seq<int>, row: seq<int>)
    requires p != []
  {
    row != [] && RowAfter([p], row).found && !RowAfter([p], row[..|row| - 1]).found
  }

  lemma {:induction false} JustStoppedIs(p: seq<int>, row: seq<int>)
    requires p != [] && JustStopped(p, row)
    ensures Progress(p, row) == |p| <= |row| && row[|row| - |p|..] == p
  {
    hide Fired, Progress, RowAfter;
    SingleFollows(p, row);
    SingleFollows(p, row[..|row| - 1]);
    FiredStep(p, row);
    ProgressIsMatch(p, row);
  }

  lemma StopFits(p: seq<int>, row: seq<int>)
    requires p != [] && JustStopped(p, row)
    ensures |p| <= |row|
  {
    hide JustStopped;
    JustStoppedIs(p, row);
  }

  /** What the queue held when the match began goes out only where there is room for it: after
      `q` tokens of the match, `k` of the old units are out, and none of the new ones. */
  ghost predicate Released(p: seq<int>, detok: Detokenizer, before: RowOut, now: RowOut, q: nat, k: nat,
      added: seq<Unit>)
    requires p != []
  {
    && k <= |before.pending| && |added| <= q
    && now.emitted == before.emitted + before.pending[..k]
    && now.pending == before.pending[k..] + added
    && (q == 0 ==> k == 0 && now.partial == before.partial)
    && (q >= 1 && Blocked(p, detok, before) ==> |added| < q && k < |before.pending|)
    && (q >= 1 && Clear(p, detok, before) ==> k == |before.pending|)
  }

  /** At the start of the match no bytes wait, but units are withheld and the first token of the
      stop sequence does not decode by itself. */
  ghost predicate Blocked(p: seq<int>, detok: Detokenizer, before: RowOut)
    requires p != []
  {
    before.partial == [] && before.pending != [] && detok([p[0]]).None?
  }

  /** At the start of the match no bytes wait, and either nothing is withheld or the first token
      of the stop sequence decodes by itself. */
  ghost predicate Clear(p: seq<int>, detok: Detokenizer, before: RowOut)
    requires p != []
  {
    before.partial == [] && (before.pending == [] || detok([p[0]]).Some?)
  }

  lemma ReleaseStep(p: seq<int>, detok: Detokenizer, before: RowOut, now: RowOut, q: nat, k: nat, added: seq<Unit>,
      x: int)
    returns (k': nat, added': seq<Unit>)
    requires p != [] && Released(p, detok, before, now, q, k, added)
    requires q == 0 ==> x == p[0]
    ensures Released(p, detok, before, StepOut(detok, now, x, false, q + 1), q + 1, k', added')
  {
    var ids := now.partial + [x];
    if q == 0 && before.partial == [] { assert ids == [p[0]]; }
    if detok(ids).None? {
      k', added' := k, added;
    } else {
      var u := Unit(ids, detok(ids).value);
      added' := added + [u];
      var kept := |before.pending| - k;
      var n := if kept + |added'| > q + 1 then kept + |added'| - (q + 1) else 0;
      k' := k + n;
      QueueSplit(before, k, added, u, n);
    }
  }

  /** The oldest `n` of the queue, when `u` has joined it, are old units. */
  lemma QueueSplit(before: RowOut, k: nat, added: seq<Unit>, u: Unit, n: nat)
    requires k + n <= |before.pending|
    ensures var queue := (before.pending[k..] + added) + [u];
            && queue[n..] == before.pending[k + n..] + (added + [u])
            && (before.emitted + before.pending[..k]) + queue[..n] == before.emitted + before.pending[..k + n]
  {
    var queue := (before.pending[k..] + added) + [u];
    assert queue[..n] == before.pending[k..k + n];
    assert before.pending[..k + n] == before.pending[..k] + before.pending[k..k + n];
    Assoc(before.emitted, before.pending[..k], before.pending[k..k + n]);
  }

  lemma {:induction false} DuringMatch(p: seq<int>, detok: Detokenizer, row: seq<int>, q: nat)
      returns (k: nat, added: seq<Unit>)
    requires p != [] && JustStopped(p, row) && q < |p| <= |row|
    ensures var s := |row| - |p|;
            Released(p, detok, DecodeRow([p], detok, row[..s]).out, DecodeRow([p], detok, row[..s + q]).out, q, k,
                added)
  {
    hide DecodeRow, JustStopped;
    var s := |row| - |p|;
    var before := DecodeRow([p], detok, row[..s]).out;
    if q == 0 {
      k, added := 0, [];
      assert before.emitted + before.pending[..0] == before.emitted;
      assert before.pending[0..] + [] == before.pending;
    } else {
      k, added := DuringMatch(p, detok, row, q - 1);
      MatchToken(p, detok, row, q);
      k, added := ReleaseStep(p, detok, before, DecodeRow([p], detok, row[..s + q - 1]).out, q - 1, k, added,
          row[s + q - 1]);
    }
  }

  /** The `q`-th token of the match. */
  lemma MatchToken(p: seq<int>, detok: Detokenizer, row: seq<int>, q: nat)
    requires p != [] && JustStopped(p, row) && 1 <= q < |p| <= |row|
    ensures var s := |row| - |p|;
            && row[s + q - 1] == p[q - 1]
            && DecodeRow([p], detok, row[..s + q]).out ==
               StepOut(detok, DecodeRow([p], detok, row[..s + q - 1]).out, row[s + q - 1], false, q)
  {
    hide StepOut, JustStopped, RowAfter;
    var s := |row| - |p|;
    var t := row[..s + q];
    assert t[..|t| - 1] == row[..s + q - 1] && t[|t| - 1] == row[s + q - 1];
    JustStoppedIs(p, row);
    assert row[s + q - 1] == row[s..][q - 1];
    StillRunning(p, detok, row, q);
  }

  /** In the middle of the match the row has not stopped, and the match is `q` long. */
  lemma StillRunning(p: seq<int>, detok: Detokenizer, row: seq<int>, q: nat)
    requires p != [] && JustStopped(p, row) && 1 <= q < |p| <= |row|
    ensures var d := DecodeRow([p], detok, row[..|row| - |p| + q]);
            !d.stop.found && d.stop.maxProgress == q
  {
    var n := |row| - |p| + q;
    JustStoppedIs(p, row);
    CountBack(p, row, q);
    DecodeRowStop([p], detok, row[..|row| - 1]);
    NotFoundBefore([p], detok, row[..|row| - 1], n);
    assert row[..|row| - 1][..n] == row[..n];
    DecodeRowStop([p], detok, row[..n]);
    SingleMax(p, row[..n]);
  }

  /** The last token of the stop sequence emits nothing. */
  lemma {:induction false} LastTokenEmitsNothing(p: seq<int>, detok: Detokenizer, row: seq<int>)
    requires p != [] && JustStopped(p, row)
    ensures DecodeRow([p], detok, row).out.emitted == DecodeRow([p], detok, row[..|row| - 1]).out.emitted
  {
    DecodeRowStop([p], detok, row);
  }

  /** Of what was withheld when the match began, `k` units had gone out when the row stopped:
      all of them exactly when the start was clear, if no bytes were waiting. */
  lemma EmittedAtStop(p: seq<int>, detok: Detokenizer, row: seq<int>) returns (k: nat)
    requires p != [] && JustStopped(p, row) && |p| <= |row|
    ensures var before := DecodeRow([p], detok, row[..|row| - |p|]).out;
            k <= |before.pending| && DecodeRow([p], detok, row).out.emitted == before.emitted + before.pending[..k]
    ensures var before := DecodeRow([p], detok, row[..|row| - |p|]).out;
            before.partial == [] ==> (k == |before.pending| <==> Clear(p, detok, before))
  {
    hide DecodeRow, JustStopped;
    NotStoppedAtStart(p, detok, row);
    LastTokenEmitsNothing(p, detok, row);
    var added;
    k, added := DuringMatch(p, detok, row, |p| - 1);
    assert row[..|row| - |p| + (|p| - 1)] == row[..|row| - 1];
    if |p| == 1 { SingleTokenNoQueue(p, detok, row[..|row| - 1]); }
  }

  lemma NotStoppedAtStart(p: seq<int>, detok: Detokenizer, row: seq<int>)
    requires p != [] && JustStopped(p, row) && |p| <= |row|
    ensures !DecodeRow([p], detok, row[..|row| - |p|]).stop.found
  {
    hide DecodeRow, RowAfter;
    DecodeRowStop([p], detok, row[..|row| - 1]);
    NotFoundBefore([p], detok, row[..|row| - 1], |row| - |p|);
    assert row[..|row| - 1][..|row| - |p|] == row[..|row| - |p|];
  }

  /** With one stop sequence, every token before the stop has been emitted exactly when, at the
      start of the match, no bytes were waiting and either nothing was withheld or the first token
      of the stop sequence decodes by itself. */
  lemma {:induction false} EmitsAllBeforeStopIff(p: seq<int>, detok: Detokenizer, row: seq<int>)
    requires p != [] && JustStopped(p, row)
    ensures |p| <= |row|
    ensures TokensOf(DecodeRow([p], detok, row).out.emitted) == row[..|row| - |p|] <==>
            Clear(p, detok, DecodeRow([p], detok, row[..|row| - |p|]).out)
  {
    hide DecodeRow, JustStopped, Accounts, TokensOf;
    StopFits(p, row);
    var s := |row| - |p|;
    NotStoppedAtStart(p, detok, row);
    RowAccounts([p], detok, row[..s]);
    var k := EmittedAtStop(p, detok, row);
    EmittedSplit(detok, row[..s], DecodeRow([p], detok, row[..s]).out, k);
  }

  /** The units emitted before the match and the first `k` withheld ones make up the whole row
      exactly when nothing else is left. */
  lemma EmittedSplit(detok: Detokenizer, row: seq<int>, out: RowOut, k: nat)
    requires Accounts(detok, row, out) && k <= |out.pending|
    ensures TokensOf(out.emitted + out.pending[..k]) == row <==> out.partial == [] && k == |out.pending|
  {
    var a, b := out.pending[..k], out.pending[k..];
    assert out.pending == a + b;
    TokensOfJoin(a, b);
    TokensOfJoin(out.emitted, a);
    UnitsHaveTokens(detok, b);
    Assoc(TokensOf(out.emitted), TokensOf(a), TokensOf(b));
    Assoc(TokensOf(out.emitted) + TokensOf(a), TokensOf(b), out.partial);
    assert row == (TokensOf(out.emitted) + TokensOf(a)) + (TokensOf(b) + out.partial);
    if out.partial == [] && k == |out.pending| {
      assert b == [];
      assert TokensOf(b) + out.partial == [];
    }
  }

  /** Before decoding, from the stop sequence and the tokenizer alone: can text be withheld and no bytes
      wait while a match is under way that will have to start again, and does the first stop token
      not decode by itself? */
  ghost predicate CanLose(p: seq<int>, detok: Detokenizer)
    requires p != []
  {
    detok([p[0]]).None? && exists row :: Restarts(p, detok, row)
  }

  ghost predicate Restarts(p: seq<int>, detok: Detokenizer, row: seq<int>)
    requires p != []
  {
    && !RowAfter([p], row).found && DecodeRow([p], detok, row).out.partial == []
    && 1 <= Progress(p, row) < |p| && p[Progress(p, row)] != p[0]
  }

  /** On every row that stops, all tokens before the stop are emitted if no bytes wait at the match's
      start. */
  ghost predicate LosesNothing(p: seq<int>, detok: Detokenizer)
    requires p != []
  {
    forall row :: JustStopped(p, row) ==>
      && |p| <= |row|
      && (DecodeRow([p], detok, row[..|row| - |p|]).out.partial == [] ==>
            TokensOf(DecodeRow([p], detok, row).out.emitted) == row[..|row| - |p|])
  }

  /** With no bytes waiting, text is withheld exactly if a match is under way. */
  lemma {:induction false} QueueIffMatch(p: seq<int>, detok: Detokenizer, row: seq<int>)
    requires p != [] && !RowAfter([p], row).found && DecodeRow([p], detok, row).out.partial == []
    ensures DecodeRow([p], detok, row).out.pending != [] <==> Progress(p, row) >= 1
  {
    hide TokensOf;
    DecodeRowStop([p], detok, row);
    SingleMax(p, row);
    if row != [] {
      var n := |row| - 1;
      NotFoundBefore([p], detok, row, n);
    }
  }

  /** `p` after such a row stops it, though a match was under way. */
  lemma {:induction false} StopsAfter(p: seq<int>, row: seq<int>)
    requires p != [] && !RowAfter([p], row).found && 1 <= Progress(p, row) < |p| && p[Progress(p, row)] != p[0]
    ensures JustStopped(p, row + p)
  {
    hide RowAfter, Progress, Fired;
    SingleFollows(p, row);
    RunsThrough(p, row, |p| - 1);
    RunsThrough(p, row, |p|);
    assert (row + p)[..|row + p| - 1] == row + p[..|p| - 1] && row + p[..|p|] == row + p;
    SingleFollows(p, row + p[..|p| - 1]);
    FiredStep(p, row + p);
    SingleFollows(p, row + p);
  }

  lemma {:induction false} RunsThrough(p: seq<int>, row: seq<int>, q: nat)
    requires p != [] && !Fired(p, row) && 1 <= Progress(p, row) < |p| && p[Progress(p, row)] != p[0] && q <= |p|
    ensures q >= 1 ==> Progress(p, row + p[..q]) == q
    ensures q < |p| ==> !Fired(p, row + p[..q])
  {
    hide Fired;
    if q == 0 {
      assert row + p[..0] == row;
    } else {
      RunsThrough(p, row, q - 1);
      var t := row + p[..q];
      assert t[..|t| - 1] == row + p[..q - 1] && t[|t| - 1] == p[q - 1];
      FiredStep(p, t);
    }
  }

  /** All the text before the stop is emitted, on every row without waiting bytes, exactly if none can
      be lost in that way. */
  lemma {:induction false} LosesNothingIff(p: seq<int>, detok: Detokenizer)
    requires p != []
    ensures LosesNothing(p, detok) <==> !CanLose(p, detok)
  {
    hide DecodeRow, RowAfter, Progress, JustStopped, TokensOf;
    if CanLose(p, detok) {
      var row :| Restarts(p, detok, row);
      StopsAfter(p, row);
      assert (row + p)[..|row + p| - |p|] == row;
      EmitsAllBeforeStopIff(p, detok, row + p);
      QueueIffMatch(p, detok, row);
    } else {
      forall row | JustStopped(p, row)
        ensures |p| <= |row|
        ensures DecodeRow([p], detok, row[..|row| - |p|]).out.partial == [] ==>
                  TokensOf(DecodeRow([p], detok, row).out.emitted) == row[..|row| - |p|]
      {
        EmitsAllBeforeStopIff(p, detok, row);
        if DecodeRow([p], detok, row[..|row| - |p|]).out.partial == [] { ClearUnlessRestarted(p, detok, row); }
      }
    }
  }

  lemma {:induction false} ClearUnlessRestarted(p: seq<int>, detok: Detokenizer, row: seq<int>)
    requires p != [] && JustStopped(p, row) && |p| <= |row|
    requires DecodeRow([p], detok, row[..|row| - |p|]).out.partial == [] && !CanLose(p, detok)
    ensures Clear(p, detok, DecodeRow([p], detok, row[..|row| - |p|]).out)
  {
    hide DecodeRow, RowAfter, Progress, JustStopped, Fired;
    var s := |row| - |p|;
    var before := row[..s];
    NotStoppedAtStart(p, detok, row);
    DecodeRowStop([p], detok, before);
    QueueIffMatch(p, detok, before);
    SingleFollows(p, before);
    JustStoppedIs(p, row);
    CountBack(p, row, 1);
    assert row[..s + 1] == before + [row[s]] && row[s] == row[s..][0];
    ProgressOne(p, before, row[s]);
    if Progress(p, before) >= 1 { assert Restarts(p, detok, before); }
  }

  lemma ProgressOne(p: seq<int>, row: seq<int>, x: int)
    requires p != [] && !Fired(p, row) && Progress(p, row + [x]) == 1 && x == p[0]
    ensures Progress(p, row) < |p| && (Progress(p, row) >= 1 ==> p[Progress(p, row)] != p[0])
  {
    assert (row + [x])[..|row|] == row && row[..|row|] == row;
  }

  /** So nothing is lost if the first stop token decodes by itself, or if all stop tokens are alike. */
  lemma {:induction false} SafeStops(p: seq<int>, detok: Detokenizer)
    requires p != [] && (detok([p[0]]).Some? || forall i :: 0 <= i < |p| ==> p[i] == p[0])
    ensures LosesNothing(p, detok)
  {
    hide LosesNothing, DecodeRow, RowAfter, Progress;
    LosesNothingIff(p, detok);
  }

  lemma DecodeMore(seqs: seq<seq<int>>, detok: Detokenizer, row: seq<int>, x: int)
    requires Sequences(seqs)
    ensures DecodeRow(seqs, detok, row + [x]) == StepDecode(seqs, detok, DecodeRow(seqs, detok, row), x)
  {
    assert (row + [x])[..|row|] == row;
  }

  /** It is not enough that no bytes wait when the match begins: for the stop sequence 1 2 3, where
      1 alone is an incomplete byte sequence, the text of the first 1 2 in the row 1 2 1 2 3 is never
      emitted. */
  lemma WithheldTextIsLost(detok: Detokenizer, text: string)
    requires detok([1]).None? && detok([1, 2]) == Some(text)
    ensures DecodeRow([[1, 2, 3]], detok, [1, 2]).out == RowOut([], [Unit([1, 2], text)], [])
    ensures DecodeRow([[1, 2, 3]], detok, [1, 2, 1, 2, 3]).stop.found
    ensures DecodeRow([[1, 2, 3]], detok, [1, 2, 1, 2, 3]).out.emitted == []
  {
    hide DecodeRow, StepOut;
    var u := Unit([1, 2], text);
    var d0 := Start([[1, 2, 3]]);
    assert DecodeRow([[1, 2, 3]], detok, []) == d0 by { EmptyRow([[1, 2, 3]], detok); }
    assert [] + [1] == [1] && [1] + [2] == [1, 2] && [] + [u] == [u];
    assert [1, 2] + [1] == [1, 2, 1] && [1, 2, 1] + [2] == [1, 2, 1, 2];
    var d1 := TokenOf123(detok, [], 1, d0, false, 1);
    FirstByte(detok, [], 1);
    var d2 := TokenOf123(detok, [1], 2, d1, false, 2);
    SecondByte(detok, text, [], 2);
    var d3 := TokenOf123(detok, [1, 2], 1, d2, false, 1);
    FirstByte(detok, [u], 1);
    var d4 := TokenOf123(detok, [1, 2, 1], 2, d3, false, 2);
    SecondByte(detok, text, [u], 2);
    var d5 := TokenOf123(detok, [1, 2, 1, 2], 3, d4, true, 3);
    EmitsNothing(detok, d4.out, 3, 3);
    assert [1, 2, 1, 2] + [3] == [1, 2, 1, 2, 3];
  }

  lemma EmptyRow(seqs: seq<seq<int>>, detok: Detokenizer)
    requires Sequences(seqs)
    ensures DecodeRow(seqs, detok, []) == Start(seqs)
  {
  }

  lemma FirstByte(detok: Detokenizer, pending: seq<Unit>, m: nat)
    requires detok([1]).None?
    ensures StepOut(detok, RowOut([], pending, []), 1, false, m) == RowOut([1], pending, [])
  {
    assert [] + [1] == [1];
  }

  lemma SecondByte(detok: Detokenizer, text: string, pending: seq<Unit>, m: nat)
    requires detok([1, 2]) == Some(text) && |pending| < m
    ensures StepOut(detok, RowOut([1], pending, []), 2, false, m) == RowOut([], pending + [Unit([1, 2], text)], [])
  {
    assert [1] + [2] == [1, 2];
  }

  lemma EmitsNothing(detok: Detokenizer, out: RowOut, x: int, m: nat)
    ensures StepOut(detok, out, x, true, m).emitted == out.emitted
  {
  }

  lemma TokenOf123(detok: Detokenizer, row: seq<int>, x: int, d: Decoded, found: bool, m: nat) returns (r: Decoded)
    requires d == DecodeRow([[1, 2, 3]], detok, row) && !d.stop.found && |d.stop.progress| == 1
    requires m == Advance([1, 2, 3], d.stop.progress[0], x) && found == (m == 3)
    ensures r == DecodeRow([[1, 2, 3]], detok, row + [x])
    ensures r.stop.found == found && r.stop.progress == [m] && r.out == StepOut(detok, d.out, x, found, m)
  {
    hide DecodeRow, StepOut;
    DecodeMore([[1, 2, 3]], detok, row, x);
    r := DecodeRow([[1, 2, 3]], detok, row + [x]);
    StepUpToIs([[1, 2, 3]], d.stop, x, 1);
  }

  // ---- the text itself ------------------------------------------------------------------------

  /** The text of a row decoded with no stop sequence: as far as it goes without bytes that wait. */
  function PlainText(detok: Detokenizer, row: seq<int>): string {
    TextOf(DecodeRow([], detok, row).out.emitted)
  }

  lemma {:induction false} NothingWithheld(detok: Detokenizer, row: seq<int>)
    ensures var d := DecodeRow([], detok, row); !d.stop.found && d.out.pending == []
  {
    if row != [] { NothingWithheld(detok, row[..|row| - 1]); }
  }

  /** A row can be cut into units in one way only: the units of a beginning begin those of the row. */
  lemma {:induction false} UnitsBegin(detok: Detokenizer, a: seq<Unit>, more: seq<int>, b: seq<Unit>, rest: seq<int>)
    requires UnitsOk(detok, a) && UnitsOk(detok, b) && NoneYet(detok, rest)
    requires TokensOf(a) + more == TokensOf(b) + rest
    ensures a <= b
    decreases |a|
  {
    hide UnitOk;
    if a != [] {
      FirstUnit(a);
      Assoc(a[0].ids, TokensOf(a[1..]), more);
      UnitAt(detok, a);
      if b == [] {
        NoTokens();
        assert rest == a[0].ids + (TokensOf(a[1..]) + more);
        NotWaiting(detok, a[0].ids, TokensOf(a[1..]) + more);
        assert false;
      }
      FirstUnit(b);
      Assoc(b[0].ids, TokensOf(b[1..]), rest);
      UnitAt(detok, b);
      SameFirst(detok, a[0], TokensOf(a[1..]) + more, b[0], TokensOf(b[1..]) + rest);
      UnitsBegin(detok, a[1..], more, b[1..], rest);
    }
  }

  lemma UnitAt(detok: Detokenizer, units: seq<Unit>)
    requires UnitsOk(detok, units) && units != []
    ensures var u := units[0]; u.ids != [] && detok(u.ids) == Some(u.text) && NoneYet(detok, u.ids[..|u.ids| - 1])
  {
  }

  lemma FirstUnit(units: seq<Unit>)
    requires units != []
    ensures TokensOf(units) == units[0].ids + TokensOf(units[1..])
  {
    assert units == [units[0]] + units[1..];
    TokensOfJoin([units[0]], units[1..]);
    assert [units[0]][..0] == [];
    assert TokensOf([units[0]]) == TokensOf([]) + units[0].ids == units[0].ids;
  }

  lemma NotWaiting(detok: Detokenizer, ids: seq<int>, more: seq<int>)
    requires ids != [] && detok(ids).Some?
    ensures !NoneYet(detok, ids + more)
  {
    assert (ids + more)[..|ids|] == ids;
  }

  lemma ShorterBegins(a: seq<int>, x: seq<int>, b: seq<int>, y: seq<int>)
    requires a + x == b + y && |a| < |b|
    ensures b[..|b| - 1][..|a|] == a
  {
    assert (a + x)[..|a|] == a && (b + y)[..|a|] == b[..|a|];
  }

  lemma SameFirst(detok: Detokenizer, u: Unit, x: seq<int>, v: Unit, y: seq<int>)
    requires u.ids + x == v.ids + y
    requires u.ids != [] && detok(u.ids) == Some(u.text) && NoneYet(detok, u.ids[..|u.ids| - 1])
    requires v.ids != [] && detok(v.ids) == Some(v.text) && NoneYet(detok, v.ids[..|v.ids| - 1])
    ensures u == v && x == y
  {
    var t, m, n := u.ids + x, |u.ids|, |v.ids|;
    assert u.ids == t[..m] && v.ids == t[..n];
    if m < n {
      ShorterBegins(u.ids, x, v.ids, y);
      assert false;
    }
    if n < m {
      ShorterBegins(v.ids, y, u.ids, x);
      assert false;
    }
    assert x == t[m..] && y == t[n..];
  }

  lemma TextBegins(a: seq<Unit>, b: seq<Unit>)
    requires a <= b
    ensures TextOf(a) <= TextOf(b)
  {
    assert b == a + b[|a|..];
    TextOfJoin(a, b[|a|..]);
  }

  /** Units that make up a beginning of the row have a beginning of its text, and all of it if they
      make up the whole row. */
  lemma {:induction false} UnitsAreText(detok: Detokenizer, units: seq<Unit>, row: seq<int>)
    requires UnitsOk(detok, units) && TokensOf(units) <= row
    ensures TextOf(units) <= PlainText(detok, row)
    ensures TokensOf(units) == row ==> TextOf(units) == PlainText(detok, row)
  {
    hide UnitsOk, TokensOf, TextOf, DecodeRow;
    var d := DecodeRow([], detok, row);
    NothingWithheld(detok, row);
    RowAccounts([], detok, row);
    var more := row[|TokensOf(units)|..];
    assert TokensOf(units) + more == row;
    assert TokensOf([]) == [] by { NoTokens(); }
    assert TokensOf(d.out.emitted) + [] == TokensOf(d.out.emitted);
    UnitsBegin(detok, units, more, d.out.emitted, d.out.partial);
    TextBegins(units, d.out.emitted);
    if TokensOf(units) == row {
      var left := d.out.emitted[|units|..];
      assert d.out.emitted == units + left;
      TokensOfJoin(units, left);
      UnitsHaveTokens(detok, left) by { LaterOk(detok, d.out.emitted, |units|); }
      assert |TokensOf(units + left)| == |TokensOf(units)| + |TokensOf(left)|;
      assert left == [] && units + left == units;
    }
  }

  lemma NoTokens()
    ensures TokensOf([]) == []
  {
  }

  lemma LaterOk(detok: Detokenizer, units: seq<Unit>, n: nat)
    requires UnitsOk(detok, units) && n <= |units|
    ensures UnitsOk(detok, units[n..])
  {
    hide UnitOk;
  }

  /** What a row that stops has emitted, against the text before the stop. */
  ghost predicate StoppedText(p: seq<int>, detok: Detokenizer, row: seq<int>, n: nat, text: string)
    requires p != []
  {
    && |p| <= n <= |row| && JustStopped(p, row[..n]) && row[n - |p|..n] == p
    && text <= PlainText(detok, row[..n - |p|])
    && (Clear(p, detok, DecodeRow([p], detok, row[..n - |p|]).out) ==> text == PlainText(detok, row[..n - |p|]))
  }

  /** With one stop sequence, what a stopped row emits is a beginning of the text before the stop, and
      all of it if the match's start was clear. */
  lemma {:induction false} EmittedIsTextBefore(p: seq<int>, detok: Detokenizer, row: seq<int>) returns (n: nat)
    requires p != [] && RowAfter([p], row).found
    ensures StoppedText(p, detok, row, n, TextOf(DecodeRow([p], detok, row).out.emitted))
  {
    hide DecodeRow, RowAfter, TextOf, TokensOf, UnitsOk, Clear, PlainText;
    n := StopPlace([p], row);
    CompletedAtStop(p, row, n);
    CompletedNeverEmitted([p], detok, row, n, 0);
    var emitted := DecodeRow([p], detok, row).out.emitted;
    UnitsAreText(detok, emitted, row[..n - |p|]);
    assert row[..n][..n - 1] == row[..n - 1];
    EmitsAllBeforeStopIff(p, detok, row[..n]);
    assert row[..n][..n - |p|] == row[..n - |p|] && row[..n] + row[n..] == row;
    DecodeRowStop([p], detok, row[..n]);
    NothingAfterStop([p], detok, row[..n], row[n..]);
  }

  lemma CompletedAtStop(p: seq<int>, row: seq<int>, n: nat)
    requires p != [] && StopsAt([p], row, n)
    ensures RowAfter([p], row[..n]).progress[0] == |p|
  {
    assert row[..n][..n - 1] == row[..n - 1];
    StepUpToIs([p], RowAfter([p], row[..n - 1]), row[n - 1], 1);
  }
}
