/** Detection of stop token sequences in a batch of token rows: the matcher of one sequence,
    one row against all sequences, and the detector that holds them. */
module StopTokenDetector {

  // ---- one sequence ---------------------------------------------------------------------

  /** How far `p` is matched after the token `x`.  On a mismatch, and after a complete match, the
      matcher starts again with `x` alone. */
  function Advance(p: seq<int>, progress: nat, x: int): (r: nat)
    requires p != []
    ensures r <= |p| && r <= progress + 1
  {
    if progress < |p| && p[progress] == x then progress + 1
    else if p[0] == x then 1
    else 0
  }

  function Progress(p: seq<int>, row: seq<int>): (r: nat)
    requires p != []
    ensures r <= |p|
  {
    if row == [] then 0 else Advance(p, Progress(p, row[..|row| - 1]), row[|row| - 1])
  }

  /** The last `q` tokens of `row` are the first `q` of `p`. */
  predicate MatchesEnd(p: seq<int>, row: seq<int>, q: int) {
    0 <= q <= |p| && q <= |row| && row[|row| - q..] == p[..q]
  }

  predicate OccursAt(p: seq<int>, row: seq<int>, i: int) {
    0 <= i && i + |p| <= |row| && row[i..i + |p|] == p
  }

  ghost predicate OccursIn(p: seq<int>, row: seq<int>) {
    exists i :: OccursAt(p, row, i)
  }

  /** The matcher has completed `p` at some moment. */
  ghost predicate Fired(p: seq<int>, row: seq<int>)
    requires p != []
  {
    exists n :: 0 <= n <= |row| && Progress(p, row[..n]) == |p|
  }

  lemma MatchesEndStep(p: seq<int>, row: seq<int>, x: int, q: int)
    requires 1 <= q <= |p|
    ensures MatchesEnd(p, row + [x], q) <==> MatchesEnd(p, row, q - 1) && p[q - 1] == x
  {
    var t := row + [x];
    if q <= |t| {
      assert t[|t| - q..] == row[|row| - (q - 1)..] + [x];
      assert p[..q] == p[..q - 1] + [p[q - 1]];
      if MatchesEnd(p, t, q) {
        assert row[|row| - (q - 1)..] == t[|t| - q..][..q - 1] == p[..q][..q - 1] == p[..q - 1];
        assert x == t[|t| - q..][q - 1] == p[..q][q - 1];
      }
    }
  }

  /** Soundness of the matcher: its progress is always a real partial match. */
  lemma {:induction false} ProgressIsMatch(p: seq<int>, row: seq<int>)
    requires p != []
    ensures MatchesEnd(p, row, Progress(p, row))
  {
    if row != [] {
      var n := |row| - 1;
      ProgressIsMatch(p, row[..n]);
      assert row == row[..n] + [row[n]];
      AdvanceKeepsMatch(p, row[..n], Progress(p, row[..n]), row[n]);
    }
  }

  lemma AdvanceKeepsMatch(p: seq<int>, row: seq<int>, progress: nat, x: int)
    requires p != [] && MatchesEnd(p, row, progress)
    ensures MatchesEnd(p, row + [x], Advance(p, progress, x))
  {
    var r := Advance(p, progress, x);
    if r > 0 {
      MatchesEndStep(p, row, x, r);
    }
  }

  // ---- when the matcher misses nothing ------------------------------------------------------

  /** Wherever the first token of `p` comes again in `p`, `p` begins again and runs on to its end. */
  predicate RestartSafe(p: seq<int>) {
    forall i :: 1 <= i < |p| && p[i] == p[0] ==> p[i..] == p[..|p| - i]
  }

  /** The matcher completes `p` exactly on the rows that contain it. */
  ghost predicate Exact(p: seq<int>)
    requires p != []
  {
    forall row :: Fired(p, row) <==> OccursIn(p, row)
  }

  /** Both ends being matched, the shorter one ends the longer one. */
  lemma MatchInMatch(p: seq<int>, row: seq<int>, r: nat, g: nat)
    requires MatchesEnd(p, row, r) && MatchesEnd(p, row, g) && r <= g
    ensures p[g - r..g] == p[..r]
  {
    forall j | 0 <= j < r ensures p[g - r + j] == p[j] {
      assert row[|row| - g..][g - r + j] == row[|row| - r..][j];
      assert p[..g][g - r + j] == p[..r][j];
    }
  }

  /** Until it fires, the matcher of a restart-safe sequence holds the longest match. */
  lemma {:induction false} ProgressIsLongest(p: seq<int>, row: seq<int>, q: int)
    requires p != [] && RestartSafe(p) && MatchesEnd(p, row, q)
    requires forall n :: 0 <= n < |row| ==> Progress(p, row[..n]) < |p|
    ensures q <= Progress(p, row)
    decreases |row|
  {
    if row != [] && q > 0 {
      var n := |row| - 1;
      var before, x := row[..n], row[n];
      assert row == before + [x];
      MatchesEndStep(p, before, x, q);
      forall m | 0 <= m < n ensures Progress(p, before[..m]) < |p| {
        assert before[..m] == row[..m];
      }
      ProgressIsLongest(p, before, q - 1);
      ProgressIsMatch(p, before);
      var g := Progress(p, before);
      if p[g] != x && q >= 2 {
        MatchInMatch(p, before, q - 1, g);
        RestartedTooSoon(p, q - 1, g);
      }
    }
  }

  /** A shorter match inside the match of length `g` goes on like it. */
  lemma RestartedTooSoon(p: seq<int>, r: nat, g: nat)
    requires RestartSafe(p) && 1 <= r < g < |p| && p[g - r..g] == p[..r]
    ensures p[r] == p[g]
  {
    var i := g - r;
    assert p[i] == p[g - r..g][0] == p[..r][0];
    assert p[i..][r] == p[..|p| - i][r];
  }

  lemma OccurrenceMatchesEnd(p: seq<int>, row: seq<int>, i: nat)
    requires OccursAt(p, row, i)
    ensures MatchesEnd(p, row[..i + |p|], |p|)
  {
    assert row[..i + |p|][i..] == row[i..i + |p|];
  }

  lemma FiredOccurs(p: seq<int>, row: seq<int>, n: nat)
    requires p != [] && n <= |row| && Progress(p, row[..n]) == |p|
    ensures OccursAt(p, row, n - |p|)
  {
    ProgressIsMatch(p, row[..n]);
    assert row[..n][n - |p|..] == row[n - |p|..n];
  }

  lemma SafeIsExact(p: seq<int>, row: seq<int>)
    requires p != [] && RestartSafe(p)
    ensures Fired(p, row) <==> OccursIn(p, row)
  {
    if Fired(p, row) {
      var n :| 0 <= n <= |row| && Progress(p, row[..n]) == |p|;
      FiredOccurs(p, row, n);
    }
    if OccursIn(p, row) && !Fired(p, row) {
      var i :| OccursAt(p, row, i);
      var t := row[..i + |p|];
      OccurrenceMatchesEnd(p, row, i);
      forall m | 0 <= m <= |t| ensures Progress(p, t[..m]) < |p| {
        assert t[..m] == row[..m];
      }
      assert t[..|t|] == t;
      ProgressIsLongest(p, t, |p|);
    }
  }

  // ---- a sequence that is not restart-safe is missed in some row ---------------------------

  lemma {:induction false} ProgressAlong(p: seq<int>, n: nat)
    requires p != [] && n <= |p|
    ensures Progress(p, p[..n]) == n
  {
    if n > 0 {
      ProgressAlong(p, n - 1);
      assert p[..n][..n - 1] == p[..n - 1];
    }
  }

  lemma {:induction false} ProgressGrowsByOne(p: seq<int>, row: seq<int>, n: nat, m: nat)
    requires p != [] && n <= m <= |row|
    ensures Progress(p, row[..m]) <= Progress(p, row[..n]) + (m - n)
    decreases m
  {
    if n < m {
      ProgressGrowsByOne(p, row, n, m - 1);
      assert row[..m][..m - 1] == row[..m - 1];
    }
  }

  /** Where the second start of `p` inside `p` stops agreeing with `p`. */
  lemma {:induction false} FirstDifference(p: seq<int>, i: nat, m: nat) returns (d: nat)
    requires 1 <= i < |p| && i + m <= |p| && p[i..i + m] == p[..m] && p[i..] != p[..|p| - i]
    ensures m <= d && i + d < |p| && p[i..i + d] == p[..d] && p[i + d] != p[d]
    decreases |p| - m
  {
    assert p[i..] == p[i..i + m] + p[i + m..];
    if p[i + m] != p[m] {
      return m;
    } else {
      assert p[i..i + m + 1] == p[i..i + m] + [p[i + m]];
      assert p[..m + 1] == p[..m] + [p[m]];
      d := FirstDifference(p, i, m + 1);
    }
  }

  /** The row `p[..i] + p` contains `p`, and the matcher does not see it. */
  lemma UnsafeMisses(p: seq<int>, i: nat)
    requires 1 <= i < |p| && p[i] == p[0] && p[i..] != p[..|p| - i]
    ensures OccursAt(p, p[..i] + p, i) && !Fired(p, p[..i] + p)
  {
    hide Progress, Advance;
    var row := p[..i] + p;
    var k := LosesMatch(p, i);
    UnsafeRow(p, i, 0);
    forall n | 0 <= n <= |row| ensures Progress(p, row[..n]) < |p| {
      if n <= k {
        assert row[..n] == row[..k][..n] == p[..n];
        ProgressAlong(p, n);
      } else {
        ProgressGrowsByOne(p, row, k + 1, n);
      }
    }
  }

  /** The row begins like `p` up to the token at which the matcher has to start again. */
  lemma {:induction false} LosesMatch(p: seq<int>, i: nat) returns (k: nat)
    requires 1 <= i < |p| && p[i] == p[0] && p[i..] != p[..|p| - i]
    ensures var row := p[..i] + p; i < k < |p| && row[..k] == p[..k] && Progress(p, row[..k + 1]) <= 1
  {
    var row := p[..i] + p;
    assert p[i..i + 1] == [p[i]] && p[..1] == [p[0]];
    var d := FirstDifference(p, i, 1);
    k := i + d;
    UnsafeRow(p, i, d);
    ProgressAlong(p, k);
    assert row[..k + 1][..k] == row[..k];
  }

  lemma UnsafeRow(p: seq<int>, i: nat, d: nat)
    requires i + d < |p| && p[i..i + d] == p[..d]
    ensures (p[..i] + p)[..i + d] == p[..i + d] && (p[..i] + p)[i + d] == p[d]
    ensures OccursAt(p, p[..i] + p, i)
  {
    assert p[..i + d] == p[..i] + p[i..i + d];
    assert (p[..i] + p)[i..i + |p|] == p;
  }

  /** The matcher is exact for a sequence exactly when the sequence is restart-safe. */
  lemma ExactIffRestartSafe(p: seq<int>)
    requires p != []
    ensures Exact(p) <==> RestartSafe(p)
  {
    if RestartSafe(p) {
      forall row ensures Fired(p, row) <==> OccursIn(p, row) { SafeIsExact(p, row); }
    } else {
      var i :| 1 <= i < |p| && p[i] == p[0] && p[i..] != p[..|p| - i];
      UnsafeMisses(p, i);
      assert OccursIn(p, p[..i] + p);
    }
  }

  // ---- one row against all sequences ---------------------------------------------------------

  datatype RowState = RowState(found: bool, maxProgress: nat, progress: seq<nat>, matchedLength: nat)

  predicate Sequences(seqs: seq<seq<int>>) {
    forall k :: 0 <= k < |seqs| ==> seqs[k] != []
  }

  function Fresh(seqs: seq<seq<int>>): RowState {
    RowState(false, 0, seq(|seqs|, _ => 0), 0)
  }

  /** The token `x` against the `k`-th sequence. */
  function StepOne(p: seq<int>, st: RowState, x: int, k: nat): (r: RowState)
    requires p != [] && k < |st.progress|
    ensures |r.progress| == |st.progress|
  {
    var m := Advance(p, st.progress[k], x);
    RowState(st.found || m == |p|,
             if st.maxProgress < m then m else st.maxProgress,
             st.progress[k := m],
             if m == |p| then |p| else st.matchedLength)
  }

  /** The token `x` against the first `k` sequences, in order. */
  function StepUpTo(seqs: seq<seq<int>>, st: RowState, x: int, k: nat): (r: RowState)
    requires Sequences(seqs) && |st.progress| == |seqs| && k <= |seqs|
    ensures |r.progress| == |seqs|
  {
    if k == 0 then st.(maxProgress := 0)
    else StepOne(seqs[k - 1], StepUpTo(seqs, st, x, k - 1), x, k - 1)
  }

  /** A row that has stopped only counts the tokens that still come. */
  function StepRow(seqs: seq<seq<int>>, st: RowState, x: int): (r: RowState)
    requires Sequences(seqs) && |st.progress| == |seqs|
    ensures |r.progress| == |seqs|
  {
    if st.found then st.(matchedLength := st.matchedLength + 1) else StepUpTo(seqs, st, x, |seqs|)
  }

  /** A row fed with all of its tokens. */
  function RowAfter(seqs: seq<seq<int>>, row: seq<int>): (r: RowState)
    requires Sequences(seqs)
    ensures |r.progress| == |seqs|
  {
    if row == [] then Fresh(seqs) else StepRow(seqs, RowAfter(seqs, row[..|row| - 1]), row[|row| - 1])
  }

  /** Of the first `k` sequences, `j` is the last one that is complete. */
  predicate LastDone(seqs: seq<seq<int>>, st: RowState, k: nat, j: nat)
    requires k <= |seqs| == |st.progress| && j < k
  {
    st.progress[j] == |seqs[j]| && forall m :: j < m < k ==> st.progress[m] != |seqs[m]|
  }

  /** What one token does to a row that has not stopped, read off at once. */
  lemma {:induction false} StepUpToIs(seqs: seq<seq<int>>, st: RowState, x: int, k: nat)
    requires Sequences(seqs) && |st.progress| == |seqs| && k <= |seqs| && !st.found
    ensures var r := StepUpTo(seqs, st, x, k);
            && (forall j | 0 <= j < |seqs| :: r.progress[j] == if j < k then Advance(seqs[j], st.progress[j], x)
                else st.progress[j])
            && (forall j | 0 <= j < k :: r.progress[j] <= r.maxProgress)
            && (r.maxProgress == 0 || exists j :: 0 <= j < k && r.progress[j] == r.maxProgress)
            && (r.found <==> exists j :: 0 <= j < k && r.progress[j] == |seqs[j]|)
            && (r.found ==> exists j :: 0 <= j < k && LastDone(seqs, r, k, j) && r.matchedLength == |seqs[j]|)
            && (!r.found ==> r.matchedLength == st.matchedLength)
  {
    hide Advance;
    if k > 0 {
      StepUpToIs(seqs, st, x, k - 1);
      var prev, r := StepUpTo(seqs, st, x, k - 1), StepUpTo(seqs, st, x, k);
      assert r.progress[k - 1] == Advance(seqs[k - 1], st.progress[k - 1], x);
      forall j | 0 <= j < |seqs| && j != k - 1 ensures r.progress[j] == prev.progress[j] {}
      if r.progress[k - 1] == |seqs[k - 1]| {
        assert LastDone(seqs, r, k, k - 1);
      } else if prev.found {
        var j :| 0 <= j < k - 1 && LastDone(seqs, prev, k - 1, j) && prev.matchedLength == |seqs[j]|;
        assert LastDone(seqs, r, k, j);
      }
    }
  }

  /** Every partial match a row holds is real; a row that has stopped has seen the sequence it
      stopped for, and the matched length still points at its start. */
  ghost predicate RowSound(seqs: seq<seq<int>>, row: seq<int>, st: RowState) {
    && |st.progress| == |seqs|
    && (!st.found ==>
          forall k :: 0 <= k < |seqs| ==> MatchesEnd(seqs[k], row, st.progress[k]) && st.progress[k] <= st.maxProgress)
    && (!st.found ==> st.matchedLength == 0)
    && (st.found ==> st.matchedLength <= |row|
                     && exists k :: 0 <= k < |seqs| && OccursAt(seqs[k], row, |row| - st.matchedLength))
  }

  lemma OccursAtExtends(p: seq<int>, row: seq<int>, x: int, i: int)
    requires OccursAt(p, row, i)
    ensures OccursAt(p, row + [x], i)
  {
    assert (row + [x])[i..i + |p|] == row[i..i + |p|];
  }

  lemma StepRowSound(seqs: seq<seq<int>>, row: seq<int>, st: RowState, x: int)
    requires Sequences(seqs) && RowSound(seqs, row, st)
    ensures RowSound(seqs, row + [x], StepRow(seqs, st, x))
  {
    hide Advance, MatchesEnd, OccursAt;
    var t, r := row + [x], StepRow(seqs, st, x);
    if st.found {
      var k :| 0 <= k < |seqs| && OccursAt(seqs[k], row, |row| - st.matchedLength);
      OccursAtExtends(seqs[k], row, x, |row| - st.matchedLength);
    } else {
      StepUpToIs(seqs, st, x, |seqs|);
      forall k | 0 <= k < |seqs| ensures MatchesEnd(seqs[k], t, r.progress[k]) {
        AdvanceKeepsMatch(seqs[k], row, st.progress[k], x);
      }
      if r.found {
        var k :| 0 <= k < |seqs| && LastDone(seqs, r, |seqs|, k) && r.matchedLength == |seqs[k]|;
        WholeMatchOccurs(seqs[k], t);
      }
    }
  }

  lemma WholeMatchOccurs(p: seq<int>, row: seq<int>)
    requires MatchesEnd(p, row, |p|)
    ensures |p| <= |row| && OccursAt(p, row, |row| - |p|)
  {
    assert p[..|p|] == p;
    assert row[|row| - |p|..] == row[|row| - |p|..|row| - |p| + |p|];
  }

  lemma {:induction false} RowAfterSound(seqs: seq<seq<int>>, row: seq<int>)
    requires Sequences(seqs)
    ensures RowSound(seqs, row, RowAfter(seqs, row))
  {
    if row != [] {
      var n := |row| - 1;
      RowAfterSound(seqs, row[..n]);
      StepRowSound(seqs, row[..n], RowAfter(seqs, row[..n]), row[n]);
      assert row == row[..n] + [row[n]];
    }
  }

  /** Once a row has stopped, it stays stopped at the same start. */
  lemma {:induction false} StopIsFixed(seqs: seq<seq<int>>, row: seq<int>, more: seq<int>)
    requires Sequences(seqs) && RowAfter(seqs, row).found
    ensures RowAfter(seqs, row + more).found
    ensures |row + more| - RowAfter(seqs, row + more).matchedLength == |row| - RowAfter(seqs, row).matchedLength
    decreases |more|
  {
    if more == [] {
      assert row + more == row;
    } else {
      var n := |more| - 1;
      StopIsFixed(seqs, row, more[..n]);
      assert (row + more)[..|row| + n] == row + more[..n];
    }
  }

  /** Until a row stops, each sequence is followed as if it were alone; the row stops at the
      first token at which some matcher fires. */
  lemma {:induction false} RowFollowsEach(seqs: seq<seq<int>>, row: seq<int>)
    requires Sequences(seqs)
    ensures var st := RowAfter(seqs, row);
            && (!st.found ==> forall k :: 0 <= k < |seqs| ==> st.progress[k] == Progress(seqs[k], row))
            && (!st.found ==> st.maxProgress == 0 || exists k :: 0 <= k < |seqs| && st.maxProgress == st.progress[k])
            && (st.found <==> exists k :: 0 <= k < |seqs| && Fired(seqs[k], row))
  {
    if row == [] {
      forall k | 0 <= k < |seqs| ensures !Fired(seqs[k], row) {
        assert row[..0] == row;
      }
    } else {
      var n := |row| - 1;
      var before, x := row[..n], row[n];
      RowFollowsEach(seqs, before);
      forall k | 0 <= k < |seqs|
        ensures Fired(seqs[k], row) <==> Fired(seqs[k], before) || Progress(seqs[k], row) == |seqs[k]|
      {
        FiredStep(seqs[k], row);
      }
      if !RowAfter(seqs, before).found {
        StepUpToIs(seqs, RowAfter(seqs, before), x, |seqs|);
      }
    }
  }

  /** The token that stops a row leaves the length of the last listed sequence that it completes. */
  lemma {:induction false} StopLength(seqs: seq<seq<int>>, row: seq<int>, x: int)
    requires Sequences(seqs) && !RowAfter(seqs, row).found && RowAfter(seqs, row + [x]).found
    ensures exists k :: 0 <= k < |seqs| && RowAfter(seqs, row + [x]).matchedLength == |seqs[k]|
              && Progress(seqs[k], row + [x]) == |seqs[k]|
              && forall m :: k < m < |seqs| ==> Progress(seqs[m], row + [x]) != |seqs[m]|
  {
    hide Advance;
    var st, t := RowAfter(seqs, row), row + [x];
    assert t[..|row|] == row;
    RowFollowsEach(seqs, row);
    StepUpToIs(seqs, st, x, |seqs|);
    var r := RowAfter(seqs, t);
    forall k | 0 <= k < |seqs| ensures r.progress[k] == Progress(seqs[k], t) {}
    var k :| 0 <= k < |seqs| && LastDone(seqs, r, |seqs|, k) && r.matchedLength == |seqs[k]|;
  }

  lemma {:induction false} FiredStep(p: seq<int>, row: seq<int>)
    requires p != [] && row != []
    ensures Fired(p, row) <==> Fired(p, row[..|row| - 1]) || Progress(p, row) == |p|
  {
    var before := row[..|row| - 1];
    assert row[..|row|] == row;
    forall n | 0 <= n < |row| ensures row[..n] == before[..n] {}
    if Fired(p, before) {
      var n :| 0 <= n <= |before| && Progress(p, before[..n]) == |p|;
      assert Progress(p, row[..n]) == |p|;
    }
    if Fired(p, row) {
      var n :| 0 <= n <= |row| && Progress(p, row[..n]) == |p|;
      if n < |row| { assert Progress(p, before[..n]) == |p|; }
    }
  }

  /** With restart-safe sequences, a row has stopped exactly when one of them has occurred: so
      the first occurrence to be completed is flagged on its last token. */
  lemma FoundIffOccurred(seqs: seq<seq<int>>, row: seq<int>)
    requires Sequences(seqs) && forall k :: 0 <= k < |seqs| ==> RestartSafe(seqs[k])
    ensures RowAfter(seqs, row).found <==> exists k :: 0 <= k < |seqs| && OccursIn(seqs[k], row)
  {
    RowFollowsEach(seqs, row);
    forall k | 0 <= k < |seqs| ensures Fired(seqs[k], row) <==> OccursIn(seqs[k], row) {
      SafeIsExact(seqs[k], row);
    }
  }

  /** For a single stop sequence the detector is exact on all rows exactly when the sequence is
      restart-safe. */
  lemma SingleExactIffRestartSafe(p: seq<int>)
    requires p != []
    ensures (forall row :: RowAfter([p], row).found <==> OccursIn(p, row)) <==> RestartSafe(p)
  {
    forall row ensures RowAfter([p], row).found <==> Fired(p, row) {
      RowFollowsEach([p], row);
      assert [p][0] == p;
    }
    ExactIffRestartSafe(p);
  }

  // ---- the detector --------------------------------------------------------------------------

  datatype Status = Ok | InvalidArgument | FailedPrecondition

  class Detector {
    var stopSequences: seq<seq<int>>
    var found: seq<bool>
    var maxProgress: seq<nat>
    var progress: seq<seq<nat>>
    var matchedLength: seq<nat>
    /** The tokens each row has been given since the last reset. */
    ghost var rows: seq<seq<int>>

    ghost predicate Shaped()
      reads this
    {
      && Sequences(stopSequences)
      && |maxProgress| == |progress| == |matchedLength| == |rows| == |found|
      && (forall i :: 0 <= i < |found| ==> |progress[i]| == |stopSequences|)
    }

    ghost function Row(i: nat): RowState
      requires Shaped() && i < |found|
      reads this
    {
      RowState(found[i], maxProgress[i], progress[i], matchedLength[i])
    }

    /** Whatever was added and whenever, what the detector reports is real. */
    ghost predicate Valid()
      reads this
    {
      Shaped() && forall i :: 0 <= i < |found| ==> RowSound(stopSequences, rows[i], Row(i))
    }

    /** No sequence was added after the rows had begun: each row is its tokens run through. */
    ghost predicate Tracking()
      reads this
    {
      Shaped() && forall i :: 0 <= i < |found| ==> Row(i) == RowAfter(stopSequences, rows[i])
    }

    constructor (batchSize: nat)
      requires batchSize > 0
      ensures Valid() && Tracking() && stopSequences == [] && |found| == batchSize
      ensures rows == seq(batchSize, _ => [])
    {
      stopSequences := [];
      found := seq(batchSize, _ => false);
      maxProgress := seq(batchSize, _ => 0);
      progress := seq(batchSize, _ => []);
      matchedLength := seq(batchSize, _ => 0);
      rows := seq(batchSize, _ => []);
    }

    /** An empty sequence is refused, a known one ignored, a new one watched for from now on. */
    method AddStopTokenSequence(stopSequence: seq<int>) returns (status: Status)
      requires Valid()
      modifies this`stopSequences, this`progress
      ensures Valid()
      ensures status == if stopSequence == [] then InvalidArgument else Ok
      ensures stopSequences == old(stopSequences) + if stopSequence == []
              || stopSequence in old(stopSequences) then [] else [stopSequence]
      ensures |progress| == old(|progress|)
      ensures forall i :: 0 <= i < |progress| ==>
                progress[i] == old(progress)[i] + if stopSequence == []
                    || stopSequence in old(stopSequences) then [] else [0]
      ensures old(Tracking()) && (forall i :: 0 <= i < |rows| ==> rows[i] == []) ==> Tracking()
    {
      if stopSequence == [] {
        return InvalidArgument;
      }
      if stopSequence in stopSequences {
        return Ok;
      }
      ghost var known := stopSequences;
      stopSequences := stopSequences + [stopSequence];
      var i := 0;
      while i < |progress|
        invariant 0 <= i <= |progress| == |old(progress)| && stopSequences == known + [stopSequence]
        invariant forall j :: 0 <= j < i ==> progress[j] == old(progress)[j] + [0]
        invariant forall j :: i <= j < |progress| ==> progress[j] == old(progress)[j]
      {
        progress := progress[i := progress[i] + [0]];
        i := i + 1;
      }
      assert forall k :: 0 <= k < |stopSequences| ==> stopSequences[k] == if k < |known| then known[k]
          else stopSequence;
      assert Shaped();
      forall j | 0 <= j < |found| ensures RowSound(stopSequences, rows[j], Row(j)) {
        MoreSequencesSound(known, stopSequence, rows[j], old(Row(j)));
      }
      return Ok;
    }

    method ResetBatch(batchSize: nat)
      requires Valid()
      modifies this`found, this`maxProgress, this`progress, this`matchedLength, this`rows
      ensures Valid() && Tracking()
      ensures |found| == (if batchSize == 0 then old(|found|) else batchSize)
      ensures rows == seq(|found|, _ => [])
    {
      var size := if batchSize == 0 then |found| else batchSize;
      found := seq(size, _ => false);
      maxProgress := seq(size, _ => 0);
      var none := seq(|stopSequences|, _ => 0);
      progress := seq(size, _ => none);
      matchedLength := seq(size, _ => 0);
      rows := seq(size, _ => []);
    }

    /** One token for every row. */
    method ProcessTokens(latest: seq<int>) returns (status: Status)
      requires Valid()
      modifies this`found, this`maxProgress, this`progress, this`matchedLength, this`rows
      ensures status == if |latest| != old(|found|) || stopSequences == [] then InvalidArgument else Ok
      ensures status != Ok ==> unchanged(this)
      ensures status == Ok ==> Valid() && |found| == old(|found|) == |latest|
      ensures status == Ok ==> forall i :: 0 <= i < |found| ==>
                Row(i) == StepRow(stopSequences, old(Row(i)), latest[i]) && rows[i] == old(rows)[i] + [latest[i]]
      ensures status == Ok && old(Tracking()) ==> Tracking()
    {
      if |latest| != |found| || stopSequences == [] {
        return InvalidArgument;
      }
      var i := 0;
      while i < |latest|
        invariant 0 <= i <= |latest| == |found| == old(|found|)
        invariant Shaped()
        invariant forall j :: 0 <= j < i ==>
                    Row(j) == StepRow(stopSequences, old(Row(j)), latest[j]) && rows[j] == old(rows)[j] + [latest[j]]
        invariant forall j :: i <= j < |found| ==> Row(j) == old(Row(j)) && rows[j] == old(rows)[j]
      {
        ProcessToken(i, latest[i]);
        i := i + 1;
      }
      forall j | 0 <= j < |found| ensures RowSound(stopSequences, rows[j], Row(j)) {
        StepRowSound(stopSequences, old(rows)[j], old(Row(j)), latest[j]);
      }
      if old(Tracking()) {
        forall j | 0 <= j < |found| ensures Row(j) == RowAfter(stopSequences, rows[j]) {
          assert rows[j][..|rows[j]| - 1] == old(rows)[j];
        }
      }
      return Ok;
    }

    /** The inner loop: one row against every sequence. */
    method ProcessToken(i: nat, token: int)
      requires Shaped() && i < |found|
      modifies this`found, this`maxProgress, this`progress, this`matchedLength, this`rows
      ensures Shaped() && |found| == old(|found|)
      ensures Row(i) == StepRow(stopSequences, old(Row(i)), token) && rows[i] == old(rows)[i] + [token]
      ensures forall j :: 0 <= j < |found| && j != i ==> Row(j) == old(Row(j)) && rows[j] == old(rows)[j]
    {
      rows := rows[i := rows[i] + [token]];
      if found[i] {
        matchedLength := matchedLength[i := matchedLength[i] + 1];
        return;
      }
      maxProgress := maxProgress[i := 0];
      var k := 0;
      while k < |stopSequences|
        invariant 0 <= k <= |stopSequences|
        invariant Shaped() && |found| == old(|found|)
        invariant Row(i) == StepUpTo(stopSequences, old(Row(i)), token, k)
        invariant rows == old(rows)[i := old(rows)[i] + [token]]
        invariant forall j :: 0 <= j < |found| && j != i ==> Row(j) == old(Row(j))
      {
        MatchSequence(i, k, token);
        k := k + 1;
      }
    }

    method MatchSequence(i: nat, k: nat, token: int)
      requires Shaped() && i < |found| && k < |stopSequences|
      modifies this`found, this`maxProgress, this`progress, this`matchedLength
      ensures Shaped() && |found| == old(|found|)
      ensures Row(i) == StepOne(stopSequences[k], old(Row(i)), token, k)
      ensures forall j :: 0 <= j < |found| && j != i ==> Row(j) == old(Row(j))
    {
      var p := stopSequences[k];
      var m: nat := progress[i][k];
      if m < |p| && p[m] == token {
        m := m + 1;
      } else if p[0] == token {
        m := 1;
      } else {
        m := 0;
      }
      var matches: seq<nat> := progress[i][..k] + [m] + progress[i][k + 1..];
      progress := progress[i := matches];
      if m > 0 && m == |p| {
        found := found[i := true];
        matchedLength := matchedLength[i := |p|];
      }
      maxProgress := maxProgress[i := if maxProgress[i] < m then m else maxProgress[i]];
    }

    /** Whether every row has stopped; an empty batch is an error. */
    method AllDone() returns (status: Status, done: bool)
      requires Shaped()
      ensures status == if |found| == 0 then FailedPrecondition else Ok
      ensures status == Ok ==> (done <==> forall i :: 0 <= i < |found| ==> Row(i).found)
    {
      if |found| == 0 {
        return FailedPrecondition, false;
      }
      done := true;
      for i := 0 to |found|
        invariant done <==> forall j :: 0 <= j < i ==> found[j]
      {
        done := done && found[i];
      }
      assert forall j :: 0 <= j < |found| ==> Row(j).found == found[j];
      return Ok, done;
    }
  }

  /** A sequence added later starts with no progress, which is sound whatever the row holds. */
  lemma MoreSequencesSound(seqs: seq<seq<int>>, p: seq<int>, row: seq<int>, st: RowState)
    requires RowSound(seqs, row, st)
    ensures RowSound(seqs + [p], row, st.(progress := st.progress + [0]))
  {
    var more := seqs + [p];
    assert MatchesEnd(p, row, 0);
    if st.found {
      var k :| 0 <= k < |seqs| && OccursAt(seqs[k], row, |row| - st.matchedLength);
      assert more[k] == seqs[k];
    }
  }
}
