/** What a task finds in its session's context, the scorings included: they write the tokens they score to
    it, and no later task waits for them. */
module TaskContexts {
  import opened TaskChains

  /** The prefills, decodes and scorings in the context of `s` after the tasks `order`, run in that order;
      a clone takes over what is in its parent's. */
  function Context(tasks: seq<Task>, order: seq<nat>, s: nat): seq<nat>
    requires forall k :: 0 <= k < |order| ==> order[k] < |tasks|
  {
    if order == [] then []
    else
      var n := |order| - 1;
      var t := order[n];
      if tasks[t].kind.Clone? then
        Context(tasks, order[..n], if tasks[t].kind.child == s then tasks[t].session else s)
      else Context(tasks, order[..n], s) + (if tasks[t].session == s then [t] else [])
  }

  /** The context of `s` if the first `n` tasks ran in the order they were submitted: what was submitted in
      its line, up to its clone by the sessions it comes from. */
  function Submitted(tasks: seq<Task>, n: nat, s: nat): seq<nat>
    requires n <= |tasks|
  {
    Context(tasks, UpTo(n), s)
  }

  /** Under every schedule the task finds in its session's context just what was submitted before it. */
  ghost predicate FindsSubmitted(tasks: seq<Task>, t: nat)
    requires t < |tasks|
  {
    forall order, k :: Schedule(tasks, order) && 0 <= k < |order| && order[k] == t ==>
      Context(tasks, order[..k], tasks[t].session) == Submitted(tasks, t, tasks[t].session)
  }

  /** Nothing scored is in what was submitted before the task. */
  predicate NothingScored(tasks: seq<Task>, t: nat)
    requires t < |tasks|
  {
    forall x :: x in Submitted(tasks, t, tasks[t].session) ==> x < |tasks| && tasks[x].kind != Score
  }

  /** `t` writes to the context of `s`. */
  predicate Writes(t: Task, s: nat) {
    t.session == s && !t.kind.Clone?
  }

  /** No prefill, decode or scoring of the task's session is submitted after it. */
  predicate NothingWrittenAfter(tasks: seq<Task>, t: nat)
    requires t < |tasks|
  {
    forall j :: t < j < |tasks| ==> !Writes(tasks[j], tasks[t].session)
  }

  // ---- what can be in a context ------------------------------------------------------------------

  lemma {:induction false} InOrder(tasks: seq<Task>, order: seq<nat>, s: nat)
    requires forall k :: 0 <= k < |order| ==> order[k] < |tasks|
    ensures forall x :: x in Context(tasks, order, s) ==> x in order
  {
    if order != [] {
      var n := |order| - 1;
      InOrder(tasks, order[..n], s);
      if tasks[order[n]].kind.Clone? { InOrder(tasks, order[..n], tasks[order[n]].session); }
    }
  }

  lemma OneMoreSubmitted(tasks: seq<Task>, n: nat, s: nat)
    requires n < |tasks|
    ensures UpTo(n + 1)[..n] == UpTo(n)
    ensures tasks[n].kind.Clone? ==>
              Submitted(tasks, n + 1, s) == Submitted(tasks, n, if tasks[n].kind.child == s then tasks[n].session
                  else s)
    ensures !tasks[n].kind.Clone? ==>
              Submitted(tasks, n + 1, s) == Submitted(tasks, n, s) + (if tasks[n].session == s then [n] else [])
  {
    assert UpTo(n + 1)[..n] == UpTo(n);
  }

  /** What was submitted stays, while the session is not made anew. */
  lemma {:induction false} StaysSubmitted(tasks: seq<Task>, a: nat, b: nat, s: nat)
    requires a <= b <= |tasks|
    requires forall i :: a <= i < b && tasks[i].kind.Clone? ==> tasks[i].kind.child != s
    ensures Submitted(tasks, a, s) <= Submitted(tasks, b, s)
  {
    hide Context;
    if a < b {
      StaysSubmitted(tasks, a, b - 1, s);
      OneMoreSubmitted(tasks, b - 1, s);
    }
  }

  /** A session is made by one clone at most, and only before it has any task. */
  lemma {:induction false} NotMadeAgain(tasks: seq<Task>, y: nat, s: nat, i: nat)
    requires AllLinked(tasks) && ChildrenNew(tasks) && y < i < |tasks| && tasks[i].kind.Clone?
    requires Writes(tasks[y], s) || Touches(tasks[y], s)
    ensures tasks[i].kind.child != s
  {
    hide AllLinked, LastTouch;
    if Touches(tasks[y], s) && tasks[i].kind.child == s {
      LinkedAt(tasks, i);
      ChildIsNew(tasks, i, y);
    }
  }

  /** All that the order has of the context's session is submitted before `n`. */
  predicate Before(tasks: seq<Task>, order: seq<nat>, s: nat, n: nat)
    requires forall k :: 0 <= k < |order| ==> order[k] < |tasks|
  {
    forall y :: y in order && (Writes(tasks[y], s) || (tasks[y].kind.Clone? && tasks[y].kind.child == s)) ==> y < n
  }

  /** Then all that is in the context was submitted in the session's line before `n`. */
  lemma {:induction false} FoundIsSubmitted(tasks: seq<Task>, order: seq<nat>, s: nat, n: nat, x: nat)
    requires AllLinked(tasks) && ChildrenNew(tasks) && Schedule(tasks, order) && n <= |tasks|
    requires Before(tasks, order, s, n) && x in Context(tasks, order, s)
    ensures x in Submitted(tasks, n, s)
    decreases |order|
  {
    hide AllLinked, ChildrenNew, Submitted, Touches;
    var m := |order| - 1;
    var y, before := order[m], order[..m];
    assert y in order && forall z :: z in before ==> z in order;
    PrefixSchedule(tasks, order);
    if Writes(tasks[y], s) && x == y {
      forall i | y < i < n && tasks[i].kind.Clone? ensures tasks[i].kind.child != s { NotMadeAgain(tasks, y, s, i); }
      OneMoreSubmitted(tasks, y, s);
      StaysSubmitted(tasks, y + 1, n, s);
      assert x in Submitted(tasks, y + 1, s);
      InLonger(Submitted(tasks, y + 1, s), Submitted(tasks, n, s), x);
    } else if tasks[y].kind.Clone? && tasks[y].kind.child == s {
      var own := tasks[y].session;
      CloneTouches(tasks[y]);
      BeforeClone(tasks, order, own);
      FoundIsSubmitted(tasks, before, own, y, x);
      OneMoreSubmitted(tasks, y, s);
      forall i | y < i < n && tasks[i].kind.Clone? ensures tasks[i].kind.child != s { NotMadeAgain(tasks, y, s, i); }
      StaysSubmitted(tasks, y + 1, n, s);
      InLonger(Submitted(tasks, y + 1, s), Submitted(tasks, n, s), x);
    } else {
      FoundIsSubmitted(tasks, before, s, n, x);
    }
  }

  lemma CloneTouches(t: Task)
    requires t.kind.Clone?
    ensures Touches(t, t.session) && Touches(t, t.kind.child)
  {
  }

  lemma InLonger<T>(a: seq<T>, b: seq<T>, x: T)
    requires a <= b && x in a
    ensures x in b
  {
    assert b[..|a|] == a;
  }

  /** Before a task in the chain of `s`, only what was submitted before it of that session has run. */
  lemma {:induction false} BeforeClone(tasks: seq<Task>, order: seq<nat>, s: nat)
    requires AllLinked(tasks) && Schedule(tasks, order) && order != [] && Touches(tasks[order[|order| - 1]], s)
    ensures Before(tasks, order[..|order| - 1], s, order[|order| - 1])
  {
    hide AllLinked, Touches;
    var m := |order| - 1;
    var y, before := order[m], order[..m];
    forall z | z in before && (Writes(tasks[z], s) || (tasks[z].kind.Clone? && tasks[z].kind.child == s))
        ensures z < y {
      var k :| 0 <= k < m && before[k] == z;
      RunEarlier(tasks, order, s, k);
    }
  }

  lemma {:induction false} RunEarlier(tasks: seq<Task>, order: seq<nat>, s: nat, k: nat)
    requires AllLinked(tasks) && Schedule(tasks, order) && k < |order| - 1 && Touches(tasks[order[|order| - 1]], s)
    requires Writes(tasks[order[k]], s) || (tasks[order[k]].kind.Clone? && tasks[order[k]].kind.child == s)
    ensures order[k] < order[|order| - 1]
  {
    hide AllLinked, LastTouch;
    var m := |order| - 1;
    var y, z := order[m], order[k];
    Different(tasks, order, k);
    if z > y {
      if tasks[z].kind == Score {
        LinkedAt(tasks, z);
        assert tasks[..z][y] == tasks[y];
        var p := LastTouch(tasks[..z], s).value;
        assert y <= p && p in tasks[z].deps && p in order[..k] && tasks[..z][p] == tasks[p];
        var i :| 0 <= i < k && order[i] == p;
        Different(tasks, order, i);
        RunsBefore(tasks, order, s, m, i);
      } else {
        RunsBefore(tasks, order, s, m, k);
      }
      assert false;
    }
  }

  lemma {:induction false} Different(tasks: seq<Task>, order: seq<nat>, k: nat)
    requires Schedule(tasks, order) && k < |order| - 1
    ensures order[k] != order[|order| - 1]
  {
    NotAgain(tasks, order, k, |order| - 1);
  }

  // ---- a context without scorings ------------------------------------------------------------------

  /** If nothing scored is in the context, it is the line of prefills and decodes. */
  lemma {:induction false} UnscoredIsLine(tasks: seq<Task>, order: seq<nat>, s: nat)
    requires forall k :: 0 <= k < |order| ==> order[k] < |tasks|
    requires forall x :: x in Context(tasks, order, s) ==> x < |tasks| && tasks[x].kind != Score
    ensures Context(tasks, order, s) == Line(tasks, order, s)
  {
    if order != [] {
      var n := |order| - 1;
      var t := order[n];
      if tasks[t].kind.Clone? && tasks[t].kind.child == s {
        UnscoredIsLine(tasks, order[..n], tasks[t].session);
      } else {
        var tail := if Writes(tasks[t], s) then [t] else [];
        var before := Context(tasks, order[..n], s);
        assert before + [] == before && Context(tasks, order, s) == before + tail;
        assert forall x :: x in before || x in tail ==> x in before + tail;
        UnscoredIsLine(tasks, order[..n], s);
      }
    }
  }

  /** The first `n` tasks without the scorings. */
  function Skipping(tasks: seq<Task>, n: nat): (r: seq<nat>)
    requires n <= |tasks|
    ensures forall x :: x in r <==> 0 <= x < n && tasks[x].kind != Score
  {
    if n == 0 then [] else Skipping(tasks, n - 1) + (if tasks[n - 1].kind == Score then [] else [n - 1])
  }

  lemma {:induction false} AddToSchedule(tasks: seq<Task>, order: seq<nat>, t: nat)
    requires Schedule(tasks, order) && t < |tasks| && t !in order && forall d :: d in tasks[t].deps ==> d in order
    ensures Schedule(tasks, order + [t])
  {
    var all := order + [t];
    assert forall k :: 0 <= k <= |order| ==> all[..k] == order[..k];
    assert order[..|order|] == order;
  }

  /** Nothing waits for a scoring: the others can be run without them. */
  lemma {:induction false} SkippingSchedule(tasks: seq<Task>, n: nat)
    requires AllLinked(tasks) && n <= |tasks|
    ensures Schedule(tasks, Skipping(tasks, n))
  {
    hide Schedule, AllLinked;
    if n == 0 {
      NothingRun(tasks);
    } else {
      SkippingSchedule(tasks, n - 1);
      if tasks[n - 1].kind == Score {
        assert Skipping(tasks, n - 1) + [] == Skipping(tasks, n - 1);
      } else {
        WaitsForUnscored(tasks, n - 1);
        AddToSchedule(tasks, Skipping(tasks, n - 1), n - 1);
      }
    }
  }

  lemma {:induction false} NothingRun(tasks: seq<Task>)
    ensures Schedule(tasks, [])
  {
  }

  lemma {:induction false} WaitsForUnscored(tasks: seq<Task>, t: nat)
    requires AllLinked(tasks) && t < |tasks|
    ensures forall d :: d in tasks[t].deps ==> d in Skipping(tasks, t)
  {
    hide Skipping;
    LinkedAt(tasks, t);
    forall d | d in tasks[t].deps ensures d in Skipping(tasks, t) { assert tasks[..t][d] == tasks[d]; }
  }

  // ---- exactly when the schedule does not matter --------------------------------------------------------

  /** What was scored before is not found if the scorings are run later. */
  lemma {:induction false} ScoredMayBeMissing(tasks: seq<Task>, t: nat)
    requires AllLinked(tasks) && t < |tasks| && !NothingScored(tasks, t)
    ensures !FindsSubmitted(tasks, t)
  {
    hide AllLinked, Context, Schedule;
    var s, before := tasks[t].session, Skipping(tasks, t);
    SkippingSchedule(tasks, t);
    WaitsForUnscored(tasks, t);
    AddToSchedule(tasks, before, t);
    var order := before + [t];
    assert order[..|before|] == before && order[|before|] == t;
    assert forall k :: 0 <= k < |before| ==> before[k] in before;
    InOrder(tasks, before, s);
    assert forall k :: 0 <= k < t ==> UpTo(t)[k] < |tasks|;
    InOrder(tasks, UpTo(t), s);
    var x :| x in Submitted(tasks, t, s) && !(x < |tasks| && tasks[x].kind != Score);
    assert x !in Context(tasks, before, s);
  }

  /** What a scoring finds may have been submitted after it. */
  lemma {:induction false} LaterMayBeFound(tasks: seq<Task>, t: nat, j: nat)
    requires AllLinked(tasks) && t < j < |tasks| && tasks[t].kind == Score && Writes(tasks[j], tasks[t].session)
    ensures !FindsSubmitted(tasks, t)
  {
    hide AllLinked, Schedule;
    var s, order := tasks[t].session, Late(t, j);
    LateSchedule(tasks, t, j);
    var before := order[..j];
    assert before[j - 1] == j && order[j] == t;
    assert forall k :: 0 <= k < j ==> before[k] < |tasks|;
    assert j in Context(tasks, before, s) by {
      assert Context(tasks, before, s) == Context(tasks, before[..j - 1], s) + [j];
    }
    assert j !in UpTo(t);
    InOrder(tasks, UpTo(t), s);
  }

  /** With nothing scored before it, and no prefill or decode of its session to be found that was submitted
      later, the task finds just what was submitted before it. */
  lemma {:induction false} FindsLine(tasks: seq<Task>, order: seq<nat>, k: nat)
    requires AllLinked(tasks) && ChildrenNew(tasks) && Schedule(tasks, order) && k < |order|
    requires NothingScored(tasks, order[k]) && Before(tasks, order[..k], tasks[order[k]].session, order[k])
    requires var t := order[k]; Line(tasks, order[..k], tasks[t].session) == LineUpTo(tasks, t, tasks[t].session)
    ensures var t := order[k]; Context(tasks, order[..k], tasks[t].session) == Submitted(tasks, t, tasks[t].session)
  {
    hide AllLinked, ChildrenNew, Context, Line, Before;
    var t, s := order[k], tasks[order[k]].session;
    SomeSchedule(tasks, order, k);
    forall x | x in Context(tasks, order[..k], s) ensures x < |tasks| && tasks[x].kind != Score {
      FoundIsSubmitted(tasks, order[..k], s, t, x);
    }
    UnscoredIsLine(tasks, order[..k], s);
    UnscoredIsLine(tasks, UpTo(t), s);
  }

  /** A prefill, a decode or a clone finds the same under every schedule exactly if nothing scored is in
      what was submitted before it in its session's line, ancestors up to the clone included. */
  lemma {:induction false} TaskFindsIff(tasks: seq<Task>, t: nat)
    requires AllLinked(tasks) && ChildrenNew(tasks) && t < |tasks| && tasks[t].kind != Score
    ensures FindsSubmitted(tasks, t) <==> NothingScored(tasks, t)
  {
    hide AllLinked, ChildrenNew, Context, Submitted, Before, NothingScored;
    var s := tasks[t].session;
    if NothingScored(tasks, t) {
      forall order, k | Schedule(tasks, order) && 0 <= k < |order| && order[k] == t
        ensures Context(tasks, order[..k], s) == Submitted(tasks, t, s)
      {
        ScheduleFree(tasks, order, k);
        SomeSchedule(tasks, order, k + 1);
        assert order[..k + 1][..k] == order[..k];
        BeforeClone(tasks, order[..k + 1], s);
        FindsLine(tasks, order, k);
      }
    } else {
      ScoredMayBeMissing(tasks, t);
    }
  }

  /** A scoring does exactly if, besides that, no prefill, decode or scoring of its session is submitted
      after it. */
  lemma {:induction false} ScoringFindsIff(tasks: seq<Task>, t: nat)
    requires AllLinked(tasks) && ChildrenNew(tasks) && t < |tasks| && tasks[t].kind == Score
    ensures FindsSubmitted(tasks, t) <==> NothingScored(tasks, t) && NothingWrittenAfter(tasks, t)
  {
    hide AllLinked, Context, Submitted, NothingScored;
    var s := tasks[t].session;
    if !NothingScored(tasks, t) {
      ScoredMayBeMissing(tasks, t);
    } else if !NothingWrittenAfter(tasks, t) {
      var j :| t < j < |tasks| && Writes(tasks[j], s);
      LaterMayBeFound(tasks, t, j);
    } else {
      forall order, k | Schedule(tasks, order) && 0 <= k < |order| && order[k] == t
        ensures Context(tasks, order[..k], s) == Submitted(tasks, t, s)
      {
        ScoresNoMore(tasks, order, k);
        BeforeScoring(tasks, order, k);
        FindsLine(tasks, order, k);
      }
    }
  }

  lemma {:induction false} BeforeScoring(tasks: seq<Task>, order: seq<nat>, k: nat)
    requires ChildrenNew(tasks) && Schedule(tasks, order) && k < |order| && tasks[order[k]].kind == Score
    requires NothingWrittenAfter(tasks, order[k])
    ensures Before(tasks, order[..k], tasks[order[k]].session, order[k])
  {
  }

  /** Both, over every run of any number of sessions. */
  lemma {:induction false} RunFindsIff(ops: seq<Op>, t: nat)
    requires t < |Run(ops).tasks|
    ensures var tasks := Run(ops).tasks;
            FindsSubmitted(tasks, t) <==>
              NothingScored(tasks, t) && (tasks[t].kind == Score ==> NothingWrittenAfter(tasks, t))
  {
    hide Run, FindsSubmitted, NothingScored, NothingWrittenAfter, AllLinked, ChildrenNew;
    var tasks := Run(ops).tasks;
    RunConsistent(ops);
    RunKnown(ops);
    if tasks[t].kind == Score { ScoringFindsIff(tasks, t); } else { TaskFindsIff(tasks, t); }
  }

  /** For instance on a session prefilled, scored and prefilled again: the scoring may find the second
      prefill in the context, and the second prefill may find the scoring there or not. */
  lemma {:induction false} ScoringMayRunLate()
    ensures var tasks := Run([New, RunPrefill(0), RunScoring(0), RunPrefill(0)]).tasks;
            && |tasks| == 3 && tasks[1].kind == Score && Schedule(tasks, [0, 1, 2]) && Schedule(tasks, [0, 2, 1])
            && Context(tasks, [0], 0) == [0] && Context(tasks, [0, 2], 0) == [0, 2]
                && Context(tasks, [0, 1], 0) == [0, 1]
  {
    hide Run, Context, Schedule;
    LateRun();
    LateSchedules();
    LateContexts();
  }

  lemma {:induction false} LateSchedules()
    ensures Schedule(LATE, [0, 1, 2]) && Schedule(LATE, [0, 2, 1])
  {
    hide Schedule;
    NothingRun(LATE);
    AddToSchedule(LATE, [], 0);
    assert [] + [0] == [0] && [0] + [1] == [0, 1] && [0, 1] + [2] == [0, 1, 2] && [0] + [2] == [0, 2]
        && [0, 2] + [1] == [0, 2, 1];
    AddToSchedule(LATE, [0], 1);
    AddToSchedule(LATE, [0, 1], 2);
    AddToSchedule(LATE, [0], 2);
    AddToSchedule(LATE, [0, 2], 1);
  }

  lemma {:induction false} LateContexts()
    ensures Context(LATE, [0], 0) == [0] && Context(LATE, [0, 2], 0) == [0, 2] && Context(LATE, [0, 1], 0) == [0, 1]
  {
    var one, two, other: seq<nat> := [0], [0, 2], [0, 1];
    assert one[..0] == [] && two[..1] == one && other[..1] == one;
    assert Context(LATE, one, 0) == Context(LATE, [], 0) + [0] == [0];
  }
}
