/** Sessions that submit tasks to a shared execution manager (`session_advanced.cc`), and the order in
    which the manager may run them: what the prefills and decodes leave in a session's context.  For
    what the scorings leave there too, see `TaskContexts`. */
module TaskChains {
  import opened Results
  import opened Strings

  datatype Kind = Prefill | Decode | Score | Clone(child: nat)

  /** A task's number is its place among the tasks submitted. */
  datatype Task = Task(session: nat, kind: Kind, deps: set<nat>)

  datatype Phase = Fresh | Prefilled | Decoded

  /** What a session keeps: its phase and the tasks the next one has to wait for. */
  datatype Local = Local(phase: Phase, lastTasks: set<nat>)

  datatype World = World(tasks: seq<Task>, sessions: seq<Local>)

  /** `templated`: the prompt template has a last part, which is prefilled first. */
  datatype Op =
    | New
    | RunPrefill(session: nat)
    | RunDecode(session: nat, templated: bool)
    | RunScoring(session: nat)
    | RunClone(session: nat)

  /** A task that waits for the session's last tasks; all but scoring take their place. */
  function Submit(w: World, s: nat, kind: Kind): World
    requires s < |w.sessions|
  {
    var id, me := |w.tasks|, w.sessions[s];
    w.(tasks := w.tasks + [Task(s, kind, me.lastTasks)],
       sessions := if kind == Score then w.sessions else w.sessions[s := me.(lastTasks := {id})])
  }

  function SetPhase(w: World, s: nat, phase: Phase): World
    requires s < |w.sessions|
  {
    w.(sessions := w.sessions[s := w.sessions[s].(phase := phase)])
  }

  function Apply(w: World, op: Op): (World, Option<Code>) {
    if op.New? then (w.(sessions := w.sessions + [Local(Fresh, {})]), None)
    else if op.session >= |w.sessions| then (w, Some(NotFound))
    else
      var s := op.session;
      match op
      case RunPrefill(_) => (SetPhase(Submit(w, s, Prefill), s, Prefilled), None)
      case RunDecode(_, templated) =>
        if w.sessions[s].phase != Prefilled then (w, Some(Internal))
        else
          var prepared := if templated then Submit(w, s, Prefill) else w;
          (Submit(SetPhase(prepared, s, Decoded), s, Decode), None)
      case RunScoring(_) => (Submit(w, s, Score), None)
      case RunClone(_) =>
        var cloned := Submit(w, s, Clone(|w.sessions|));
        (cloned.(sessions := cloned.sessions + [cloned.sessions[s]]), None)
  }

  function Run(ops: seq<Op>): World {
    if ops == [] then World([], []) else Apply(Run(ops[..|ops| - 1]), ops[|ops| - 1]).0
  }

  // ---- the chains of a run ---------------------------------------------------------------------

  /** `t` is a link in the chain of `s`: the next task of `s` waits for it.  A scoring is not one, though it
      writes to the session's context as well. */
  predicate Touches(t: Task, s: nat) {
    match t.kind
    case Score => false
    case Clone(child) => t.session == s || child == s
    case _ => t.session == s
  }

  function LastTouch(tasks: seq<Task>, s: nat): (r: Option<nat>)
    ensures r.Some? ==> r.value < |tasks| && Touches(tasks[r.value], s)
    ensures forall i :: 0 <= i < |tasks| && Touches(tasks[i], s) ==> r.Some? && i <= r.value
  {
    if tasks == [] then None
    else
      var n := |tasks| - 1;
      if Touches(tasks[n], s) then Some(n) else LastTouch(tasks[..n], s)
  }

  function AsDeps(last: Option<nat>): set<nat> {
    match last case None => {} case Some(t) => {t}
  }

  /** A task waits for the last task before it that touched its session; a clone's child is new. */
  predicate Linked(tasks: seq<Task>, t: nat)
    requires t < |tasks|
  {
    && tasks[t].deps == AsDeps(LastTouch(tasks[..t], tasks[t].session))
    && (tasks[t].kind.Clone? ==>
          tasks[t].kind.child != tasks[t].session && LastTouch(tasks[..t], tasks[t].kind.child).None?)
  }

  predicate AllLinked(tasks: seq<Task>) {
    forall t :: 0 <= t < |tasks| ==> Linked(tasks, t)
  }

  /** Every session waits for the last task that touched it, and tasks belong to known sessions. */
  ghost predicate Consistent(w: World) {
    && AllLinked(w.tasks)
    && (forall s :: 0 <= s < |w.sessions| ==> w.sessions[s].lastTasks == AsDeps(LastTouch(w.tasks, s)))
    && (forall s: nat :: s >= |w.sessions| ==> LastTouch(w.tasks, s) == None)
  }

  lemma LinkedBefore(tasks: seq<Task>, more: seq<Task>, t: nat)
    requires t < |tasks| && tasks <= more
    ensures Linked(tasks, t) <==> Linked(more, t)
  {
    assert tasks[..t] == more[..t] && tasks[t] == more[t];
  }

  lemma AppendLinked(tasks: seq<Task>, t: Task)
    requires AllLinked(tasks)
    requires t.deps == AsDeps(LastTouch(tasks, t.session))
    requires t.kind.Clone? ==> t.kind.child != t.session && LastTouch(tasks, t.kind.child).None?
    ensures AllLinked(tasks + [t])
  {
    hide LastTouch, AsDeps, Linked;
    var all := tasks + [t];
    forall i | 0 <= i < |all| ensures Linked(all, i) {
      if i < |tasks| {
        LinkedBefore(tasks, all, i);
      } else {
        LastLinked(tasks, t);
      }
    }
  }

  lemma LastLinked(tasks: seq<Task>, t: Task)
    requires t.deps == AsDeps(LastTouch(tasks, t.session))
    requires t.kind.Clone? ==> t.kind.child != t.session && LastTouch(tasks, t.kind.child).None?
    ensures Linked(tasks + [t], |tasks|)
  {
    assert (tasks + [t])[..|tasks|] == tasks;
  }

  lemma LastTouchAppend(tasks: seq<Task>, t: Task, s: nat)
    ensures LastTouch(tasks + [t], s) == if Touches(t, s) then Some(|tasks|) else LastTouch(tasks, s)
  {
    assert (tasks + [t])[..|tasks|] == tasks;
  }

  lemma SubmitConsistent(w: World, s: nat, kind: Kind)
    requires Consistent(w) && s < |w.sessions| && !kind.Clone?
    ensures Consistent(Submit(w, s, kind))
  {
    hide LastTouch, AllLinked;
    var t := Task(s, kind, w.sessions[s].lastTasks);
    AppendLinked(w.tasks, t);
    forall q: nat
      ensures LastTouch(w.tasks + [t], q) == if Touches(t, q) then Some(|w.tasks|) else LastTouch(w.tasks, q)
    {
      LastTouchAppend(w.tasks, t, q);
    }
  }

  lemma CloneConsistent(w: World, s: nat)
    requires Consistent(w) && s < |w.sessions|
    ensures Consistent(Apply(w, RunClone(s)).0)
  {
    hide LastTouch, AllLinked;
    var t := Task(s, Clone(|w.sessions|), w.sessions[s].lastTasks);
    AppendLinked(w.tasks, t);
    forall q: nat
      ensures LastTouch(w.tasks + [t], q) == if Touches(t, q) then Some(|w.tasks|) else LastTouch(w.tasks, q)
    {
      LastTouchAppend(w.tasks, t, q);
    }
  }

  lemma ApplyConsistent(w: World, op: Op)
    requires Consistent(w)
    ensures Consistent(Apply(w, op).0)
  {
    hide LastTouch, AllLinked;
    if !op.New? && op.session < |w.sessions| {
      match op
      case RunPrefill(s) => SubmitConsistent(w, s, Prefill);
      case RunDecode(s, templated) =>
        if w.sessions[s].phase == Prefilled {
          if templated { SubmitConsistent(w, s, Prefill); }
          var prepared := if templated then Submit(w, s, Prefill) else w;
          SubmitConsistent(SetPhase(prepared, s, Decoded), s, Decode);
        }
      case RunScoring(s) => SubmitConsistent(w, s, Score);
      case RunClone(s) => CloneConsistent(w, s);
    }
  }

  /** In every run, each task waits for just the last task that touched its session: dependencies
      only go back. */
  lemma {:induction false} RunConsistent(ops: seq<Op>)
    ensures Consistent(Run(ops))
    ensures forall t, d :: 0 <= t < |Run(ops).tasks| && d in Run(ops).tasks[t].deps ==> d < t
  {
    hide Apply, Consistent;
    if ops == [] {
      EmptyConsistent();
    } else {
      RunConsistent(ops[..|ops| - 1]);
      ApplyConsistent(Run(ops[..|ops| - 1]), ops[|ops| - 1]);
    }
    DependenciesGoBack(Run(ops));
  }

  lemma EmptyConsistent()
    ensures Consistent(World([], []))
  {
  }

  lemma DependenciesGoBack(w: World)
    requires Consistent(w)
    ensures forall t, d :: 0 <= t < |w.tasks| && d in w.tasks[t].deps ==> d < t
  {
    hide LastTouch;
    forall t, d | 0 <= t < |w.tasks| && d in w.tasks[t].deps ensures d < t {
      assert Linked(w.tasks, t);
    }
  }

  // ---- schedules -----------------------------------------------------------------------------------

  /** An order in which the manager may have run some of the tasks: each after those it waits for. */
  predicate Schedule(tasks: seq<Task>, order: seq<nat>) {
    && (forall k :: 0 <= k < |order| ==> order[k] < |tasks| && order[k] !in order[..k])
    && (forall k, d :: 0 <= k < |order| && d in tasks[order[k]].deps ==> d in order[..k])
  }

  /** The prefills and decodes in the context of `s` after the tasks `order`, run in that order; the
      scorings that are there as well are left out. */
  function Line(tasks: seq<Task>, order: seq<nat>, s: nat): seq<nat>
    requires forall k :: 0 <= k < |order| ==> order[k] < |tasks|
  {
    if order == [] then []
    else
      var n := |order| - 1;
      var t := order[n];
      match tasks[t].kind
      case Score => Line(tasks, order[..n], s)
      case Clone(child) => Line(tasks, order[..n], if child == s then tasks[t].session else s)
      case _ => Line(tasks, order[..n], s) + (if tasks[t].session == s then [t] else [])
  }

  function UpTo(n: nat): (r: seq<nat>)
    ensures |r| == n && forall k :: 0 <= k < n ==> r[k] == k
  {
    if n == 0 then [] else UpTo(n - 1) + [n - 1]
  }

  /** The same if the first `n` tasks ran in the order they were submitted. */
  function LineUpTo(tasks: seq<Task>, n: nat, s: nat): seq<nat>
    requires n <= |tasks|
  {
    Line(tasks, UpTo(n), s)
  }

  lemma PrefixSchedule(tasks: seq<Task>, order: seq<nat>)
    requires order != [] && Schedule(tasks, order)
    ensures Schedule(tasks, order[..|order| - 1])
  {
    var before := order[..|order| - 1];
    assert forall k :: 0 <= k < |before| ==> before[..k] == order[..k];
  }

  /** Tasks that touch one session run in the order they were submitted. */
  lemma {:induction false} ChainInOrder(tasks: seq<Task>, order: seq<nat>, s: nat, i: nat, j: nat)
    requires AllLinked(tasks) && Schedule(tasks, order)
    requires i < j < |tasks| && Touches(tasks[i], s) && Touches(tasks[j], s) && j in order
    ensures exists k, m :: 0 <= k < m < |order| && order[k] == i && order[m] == j
    decreases j
  {
    hide LastTouch, AllLinked;
    assert Linked(tasks, j) by { LinkedAt(tasks, j); }
    var m :| 0 <= m < |order| && order[m] == j;
    Before(tasks, s, i, j);
    var p := LastTouch(tasks[..j], s).value;
    assert p in tasks[j].deps && p in order[..m];
    var k :| 0 <= k < m && order[k] == p;
    if p != i {
      ChainInOrder(tasks, order, s, i, p);
      var a, b :| 0 <= a < b < |order| && order[a] == i && order[b] == p;
      Once(tasks, order, b, k);
    }
  }

  lemma RunsBefore(tasks: seq<Task>, order: seq<nat>, s: nat, a: nat, b: nat)
    requires AllLinked(tasks) && Schedule(tasks, order) && a < |order| && b < |order|
    requires order[a] < order[b] && Touches(tasks[order[a]], s) && Touches(tasks[order[b]], s)
    ensures a < b
  {
    hide AllLinked, Touches;
    ChainInOrder(tasks, order, s, order[a], order[b]);
    var k, m :| 0 <= k < m < |order| && order[k] == order[a] && order[m] == order[b];
    Once(tasks, order, k, a);
    Once(tasks, order, m, b);
  }

  lemma LinkedAt(tasks: seq<Task>, t: nat)
    requires AllLinked(tasks) && t < |tasks|
    ensures Linked(tasks, t)
  {
  }

  lemma NotAgain(tasks: seq<Task>, order: seq<nat>, a: nat, b: nat)
    requires Schedule(tasks, order) && a < b < |order|
    ensures order[a] != order[b]
  {
    assert order[..b][a] == order[a];
  }

  lemma Once(tasks: seq<Task>, order: seq<nat>, a: nat, b: nat)
    requires Schedule(tasks, order) && a < |order| && b < |order| && order[a] == order[b]
    ensures a == b
  {
    if a < b { NotAgain(tasks, order, a, b); } else if b < a { NotAgain(tasks, order, b, a); }
  }

  /** A later task that touches the session is its own, and there is one before it. */
  lemma Before(tasks: seq<Task>, s: nat, i: nat, j: nat)
    requires i < j < |tasks| && Linked(tasks, j) && Touches(tasks[i], s) && Touches(tasks[j], s)
    ensures tasks[j].session == s
    ensures var last := LastTouch(tasks[..j], s);
            last.Some? && i <= last.value < j && Touches(tasks[last.value], s) && last.value in tasks[j].deps
  {
    assert tasks[..j][i] == tasks[i];
  }

  // ---- what a task finds ---------------------------------------------------------------------------

  /** One more than the last task run that touched the session, or zero. */
  function Top(tasks: seq<Task>, order: seq<nat>, s: nat): nat
    requires forall k :: 0 <= k < |order| ==> order[k] < |tasks|
  {
    if order == [] then 0
    else
      var n := |order| - 1;
      if Touches(tasks[order[n]], s) then order[n] + 1 else Top(tasks, order[..n], s)
  }

  lemma {:induction false} TopIsLast(tasks: seq<Task>, order: seq<nat>, s: nat, k: nat) returns (m: nat)
    requires forall i :: 0 <= i < |order| ==> order[i] < |tasks|
    requires k < |order| && Touches(tasks[order[k]], s)
    ensures k <= m < |order| && Top(tasks, order, s) == order[m] + 1 && Touches(tasks[order[m]], s)
  {
    var n := |order| - 1;
    if Touches(tasks[order[n]], s) { m := n; } else { m := TopIsLast(tasks, order[..n], s, k); }
  }

  lemma {:induction false} TopTouches(tasks: seq<Task>, order: seq<nat>, s: nat) returns (m: nat)
    requires forall i :: 0 <= i < |order| ==> order[i] < |tasks|
    requires Top(tasks, order, s) > 0
    ensures m < |order| && Top(tasks, order, s) == order[m] + 1 && Touches(tasks[order[m]], s)
  {
    var n := |order| - 1;
    if Touches(tasks[order[n]], s) { m := n; } else { m := TopTouches(tasks, order[..n], s); }
  }

  /** Tasks that do not touch the session leave these alone. */
  lemma {:induction false} Quiet(tasks: seq<Task>, a: nat, b: nat, s: nat)
    requires a <= b <= |tasks|
    requires forall i :: a <= i < b ==> !Touches(tasks[i], s)
    ensures LineUpTo(tasks, b, s) == LineUpTo(tasks, a, s)
  {
    if a < b {
      assert UpTo(b)[..b - 1] == UpTo(b - 1);
      Quiet(tasks, a, b - 1, s);
    }
  }

  /** A task that was run last is later than all that touched its session, and has all earlier
      such tasks run before it. */
  lemma LastOfOrder(tasks: seq<Task>, order: seq<nat>, s: nat, i: nat)
    requires AllLinked(tasks) && Schedule(tasks, order) && order != []
    requires var t := order[|order| - 1];
             Touches(tasks[t], s) && i < |tasks| && Touches(tasks[i], s)
    ensures var n := |order| - 1; i in order[..n] <==> i < order[n]
  {
    hide AllLinked, Touches;
    var n := |order| - 1;
    var t := order[n];
    if i < t {
      ChainInOrder(tasks, order, s, i, t);
      var k, m :| 0 <= k < m < |order| && order[k] == i && order[m] == t;
      assert order[..n][k] == i;
    } else if i > t && i in order[..n] {
      var m :| 0 <= m < n && order[..n][m] == i;
      RunsBefore(tasks, order, s, n, m);
    }
  }

  /** Nothing touched the session between what was run last and what comes next. */
  lemma NothingBetween(tasks: seq<Task>, order: seq<nat>, s: nat)
    requires AllLinked(tasks) && Schedule(tasks, order) && order != []
    requires Touches(tasks[order[|order| - 1]], s)
    ensures var n := |order| - 1;
            var top := Top(tasks, order[..n], s);
            top <= order[n] && forall i :: top <= i < order[n] ==> !Touches(tasks[i], s)
  {
    hide AllLinked, Touches;
    var n := |order| - 1;
    var t, before := order[n], order[..n];
    var top := Top(tasks, before, s);
    if top > 0 {
      var m := TopTouches(tasks, before, s);
      assert before[m] in before;
      LastOfOrder(tasks, order, s, before[m]);
    }
    forall i | top <= i < t ensures !Touches(tasks[i], s) {
      if Touches(tasks[i], s) {
        LastOfOrder(tasks, order, s, i);
        var k :| 0 <= k < n && before[k] == i;
        var m := TopIsLast(tasks, before, s, k);
        RunsBefore(tasks, order, s, m, k);
      }
    }
  }

  /** After any schedule, a session's prefills and decodes are those of the tasks as submitted, up to
      the last of its tasks that was run. */
  lemma {:induction false} LineIs(tasks: seq<Task>, order: seq<nat>, s: nat)
    requires AllLinked(tasks) && Schedule(tasks, order)
    ensures Top(tasks, order, s) <= |tasks|
    ensures Line(tasks, order, s) == LineUpTo(tasks, Top(tasks, order, s), s)
  {
    hide AllLinked;
    if order != [] {
      var n := |order| - 1;
      var t := order[n];
      PrefixSchedule(tasks, order);
      if !Touches(tasks[t], s) {
        LineIs(tasks, order[..n], s);
      } else {
        var own := tasks[t].session;
        LineIs(tasks, order[..n], own);
        NothingBetween(tasks, order, own);
        Quiet(tasks, Top(tasks, order[..n], own), t, own);
        assert UpTo(t + 1)[..t] == UpTo(t);
      }
    }
  }

  /** Whatever the schedule: of prefills and decodes, a prefill, a decode or a clone finds in its
      session's context just those submitted before it. */
  lemma ScheduleFree(tasks: seq<Task>, order: seq<nat>, k: nat)
    requires AllLinked(tasks) && Schedule(tasks, order)
    requires k < |order| && tasks[order[k]].kind != Score
    ensures var t := order[k];
            Line(tasks, order[..k], tasks[t].session) == LineUpTo(tasks, t, tasks[t].session)
  {
    hide AllLinked, Line, LineUpTo;
    var t, upTo := order[k], order[..k + 1];
    var s := tasks[t].session;
    SomeSchedule(tasks, order, k + 1);
    assert upTo[..k] == order[..k];
    PrefixSchedule(tasks, upTo);
    LineIs(tasks, order[..k], s);
    NothingBetween(tasks, upTo, s);
    Quiet(tasks, Top(tasks, order[..k], s), t, s);
  }

  lemma SomeSchedule(tasks: seq<Task>, order: seq<nat>, k: nat)
    requires Schedule(tasks, order) && k <= |order|
    ensures Schedule(tasks, order[..k])
  {
    assert forall i :: 0 <= i < k ==> order[..k][..i] == order[..i];
  }

  /** A clone is a snapshot: run after all the prefill, decode and clone tasks of the parent submitted
      before it, before all of those submitted after it, and before every such task of the child. */
  lemma CloneIsSnapshot(tasks: seq<Task>, order: seq<nat>, c: nat, j: nat)
    requires AllLinked(tasks) && Schedule(tasks, order)
    requires c < |tasks| && tasks[c].kind.Clone? && j < |tasks| && j != c
    requires Touches(tasks[j], tasks[c].session) || Touches(tasks[j], tasks[c].kind.child)
    ensures Touches(tasks[j], tasks[c].kind.child) ==> j > c
    ensures j > c && j in order ==> exists k, m :: 0 <= k < m < |order| && order[k] == c && order[m] == j
    ensures j < c && c in order ==> exists k, m :: 0 <= k < m < |order| && order[k] == j && order[m] == c
  {
    hide LastTouch, AllLinked;
    LinkedAt(tasks, c);
    var child := tasks[c].kind.child;
    if j < c { ChildIsNew(tasks, c, j); }
    if j > c && j in order {
      ChainInOrder(tasks, order, if Touches(tasks[j], child) then child else tasks[c].session, c, j);
    }
    if j < c && c in order { ChainInOrder(tasks, order, tasks[c].session, j, c); }
  }

  /** Scorings are not held up by later ones; but those of the child, and those of the parent submitted
      after the clone, run after it. */
  lemma {:induction false} ScoringsAfterClone(tasks: seq<Task>, order: seq<nat>, c: nat, j: nat)
    requires AllLinked(tasks) && Schedule(tasks, order)
    requires c < j < |tasks| && tasks[c].kind.Clone? && tasks[j].kind == Score
    requires tasks[j].session == tasks[c].session || tasks[j].session == tasks[c].kind.child
    ensures j in order ==> exists k, m :: 0 <= k < m < |order| && order[k] == c && order[m] == j
  {
    hide LastTouch, AllLinked;
    if j in order {
      var s := tasks[j].session;
      var m :| 0 <= m < |order| && order[m] == j;
      LinkedAt(tasks, j);
      assert tasks[..j][c] == tasks[c] && Touches(tasks[c], s);
      var p := LastTouch(tasks[..j], s).value;
      assert c <= p && p in tasks[j].deps && p in order[..m] && Touches(tasks[p], s);
      var k :| 0 <= k < m && order[k] == p;
      if p != c {
        ChainInOrder(tasks, order, s, c, p);
        var a, b :| 0 <= a < b < |order| && order[a] == c && order[b] == p;
        Once(tasks, order, b, k);
      }
    }
  }

  lemma ChildIsNew(tasks: seq<Task>, c: nat, j: nat)
    requires j < c < |tasks| && Linked(tasks, c) && tasks[c].kind.Clone?
    ensures !Touches(tasks[j], tasks[c].kind.child)
  {
    assert tasks[..c][j] == tasks[j];
  }

  // ---- scoring -------------------------------------------------------------------------------------

  /** The line only grows while the session is not made anew. */
  lemma {:induction false} Grows(tasks: seq<Task>, a: nat, b: nat, s: nat)
    requires a <= b <= |tasks|
    requires forall i :: a <= i < b && tasks[i].kind.Clone? ==> tasks[i].kind.child != s
    ensures LineUpTo(tasks, a, s) <= LineUpTo(tasks, b, s)
  {
    if a < b {
      assert UpTo(b)[..b - 1] == UpTo(b - 1);
      Grows(tasks, a, b - 1, s);
    }
  }

  /** Of prefills and decodes, a scoring finds at least those submitted before it. */
  lemma ScoringSees(tasks: seq<Task>, order: seq<nat>, k: nat)
    requires AllLinked(tasks) && Schedule(tasks, order)
    requires k < |order| && tasks[order[k]].kind == Score
    ensures var t := order[k];
            LineUpTo(tasks, t, tasks[t].session) <= Line(tasks, order[..k], tasks[t].session)
  {
    hide AllLinked, Line, LineUpTo, LastTouch;
    var t, s := order[k], tasks[order[k]].session;
    LinkedAt(tasks, t);
    SomeSchedule(tasks, order, k);
    LineIs(tasks, order[..k], s);
    var last := LastTouch(tasks[..t], s);
    if last.None? {
      assert forall i :: 0 <= i < t ==> tasks[..t][i] == tasks[i];
      Quiet(tasks, 0, t, s);
      NothingSubmitted(tasks, s);
    } else {
      var p := last.value;
      assert p in tasks[t].deps && p in order[..k];
      var m :| 0 <= m < k && order[..k][m] == p;
      var q := TopIsLast(tasks, order[..k], s, m);
      var top := Top(tasks, order[..k], s);
      assert p < top by {
        if order[..k][q] < p { RunsBefore(tasks, order[..k], s, q, m); }
      }
      forall i | p + 1 <= i < top && tasks[i].kind.Clone? ensures tasks[i].kind.child != s {
        LinkedAt(tasks, i);
        ChildIsNew(tasks, i, p);
      }
      Grows(tasks, p + 1, top, s);
      assert forall i :: p < i < t ==> tasks[..t][i] == tasks[i];
      Quiet(tasks, p + 1, t, s);
    }
  }

  lemma NothingSubmitted(tasks: seq<Task>, s: nat)
    ensures LineUpTo(tasks, 0, s) == []
  {
  }

  // ---- exactly when a scoring finds no more prefills and decodes -----------------------------------

  /** A prefill or a decode of `s`. */
  predicate Adds(t: Task, s: nat) {
    t.session == s && (t.kind.Prefill? || t.kind.Decode?)
  }

  /** Only prefills and decodes of the session, and the clone that makes it, change its line. */
  lemma {:induction false} Unchanged(tasks: seq<Task>, a: nat, b: nat, s: nat)
    requires a <= b <= |tasks|
    requires forall i :: a <= i < b ==> !Adds(tasks[i], s) && !(tasks[i].kind.Clone? && tasks[i].kind.child == s)
    ensures LineUpTo(tasks, b, s) == LineUpTo(tasks, a, s)
  {
    if a < b {
      assert UpTo(b)[..b - 1] == UpTo(b - 1);
      Unchanged(tasks, a, b - 1, s);
    }
  }

  /** No later clone makes the session of an earlier task. */
  predicate ChildrenNew(tasks: seq<Task>) {
    forall i, j :: 0 <= i < j < |tasks| && tasks[j].kind.Clone? ==> tasks[j].kind.child != tasks[i].session
  }

  /** Under every schedule the scoring `t` finds just the prefills and decodes submitted before it. */
  ghost predicate ScoresSnapshot(tasks: seq<Task>, t: nat)
    requires t < |tasks|
  {
    forall order, k :: Schedule(tasks, order) && 0 <= k < |order| && order[k] == t ==>
      Line(tasks, order[..k], tasks[t].session) == LineUpTo(tasks, t, tasks[t].session)
  }

  /** No prefill or decode of the scoring's session is submitted after it. */
  predicate NothingAddedAfter(tasks: seq<Task>, t: nat)
    requires t < |tasks|
  {
    forall j :: t < j < |tasks| ==> !Adds(tasks[j], tasks[t].session)
  }

  lemma {:induction false} ScoresNoMore(tasks: seq<Task>, order: seq<nat>, k: nat)
    requires AllLinked(tasks) && ChildrenNew(tasks) && Schedule(tasks, order)
    requires k < |order| && tasks[order[k]].kind == Score && NothingAddedAfter(tasks, order[k])
    ensures var t := order[k];
            Line(tasks, order[..k], tasks[t].session) == LineUpTo(tasks, t, tasks[t].session)
  {
    hide AllLinked, Line, LineUpTo, LastTouch;
    var t, s := order[k], tasks[order[k]].session;
    SomeSchedule(tasks, order, k);
    LineIs(tasks, order[..k], s);
    var top := Top(tasks, order[..k], s);
    if t <= top {
      Unchanged(tasks, t, top, s);
    } else {
      RanBefore(tasks, order, k);
      Quiet(tasks, top, t, s);
    }
  }

  /** All tasks that touched the scoring's session before it was submitted have run before it. */
  lemma {:induction false} RanBefore(tasks: seq<Task>, order: seq<nat>, k: nat)
    requires AllLinked(tasks) && Schedule(tasks, order) && k < |order|
    ensures var t := order[k];
            forall i :: Top(tasks, order[..k], tasks[t].session) <= i < t ==> !Touches(tasks[i], tasks[t].session)
  {
    hide AllLinked, LastTouch;
    var t, s := order[k], tasks[order[k]].session;
    LinkedAt(tasks, t);
    SomeSchedule(tasks, order, k);
    var last := LastTouch(tasks[..t], s);
    forall i | 0 <= i < t && Touches(tasks[i], s) ensures i < Top(tasks, order[..k], s) {
      assert tasks[..t][i] == tasks[i];
      var p := last.value;
      assert p in tasks[t].deps && p in order[..k] && tasks[..t][p] == tasks[p];
      var m :| 0 <= m < k && order[..k][m] == p;
      var q := TopIsLast(tasks, order[..k], s, m);
      if order[..k][q] < p { RunsBefore(tasks, order[..k], s, q, m); }
    }
  }

  /** The tasks up to `j` in the order they were submitted, but `t` last. */
  function Late(t: nat, j: nat): (r: seq<nat>)
    requires t < j
    ensures |r| == j + 1 && r[j] == t && r[j - 1] == j
    ensures forall k :: 0 <= k < j ==> r[k] == if k < t then k else k + 1
  {
    seq(j, k => if k < t then k else k + 1) + [t]
  }

  /** That is a schedule, since nothing waits for a scoring. */
  lemma {:induction false} LateSchedule(tasks: seq<Task>, t: nat, j: nat)
    requires AllLinked(tasks) && t < j < |tasks| && tasks[t].kind == Score
    ensures Schedule(tasks, Late(t, j))
  {
    hide AllLinked;
    var order := Late(t, j);
    forall k | 0 <= k < |order| ensures order[k] < |tasks| && order[k] !in order[..k] {}
    forall k, d | 0 <= k < |order| && d in tasks[order[k]].deps ensures d in order[..k] {
      LinkedAt(tasks, order[k]);
      assert d < order[k] && tasks[..order[k]][d] == tasks[d] && d != t;
      assert order[..k][if d < t then d else d - 1] == d;
    }
  }

  /** There the scoring finds all prefills and decodes submitted up to `j`. */
  lemma {:induction false} LateFinds(tasks: seq<Task>, t: nat, j: nat)
    requires AllLinked(tasks) && ChildrenNew(tasks) && t < j < |tasks| && tasks[t].kind == Score
    requires Adds(tasks[j], tasks[t].session)
    ensures Schedule(tasks, Late(t, j))
    ensures var s := tasks[t].session;
            && Line(tasks, Late(t, j)[..j], s) == LineUpTo(tasks, j, s) + [j]
            && LineUpTo(tasks, t, s) <= LineUpTo(tasks, j, s)
  {
    hide AllLinked, LineUpTo;
    var s, order := tasks[t].session, Late(t, j);
    LateSchedule(tasks, t, j);
    SomeSchedule(tasks, order, j);
    var before := order[..j];
    assert before[j - 1] == j && Touches(tasks[j], s);
    LineIs(tasks, before, s);
    assert Top(tasks, before, s) == j + 1;
    OneMore(tasks, j, s);
    Grows(tasks, t, j, s);
  }

  lemma OneMore(tasks: seq<Task>, j: nat, s: nat)
    requires j < |tasks| && Adds(tasks[j], s)
    ensures LineUpTo(tasks, j + 1, s) == LineUpTo(tasks, j, s) + [j]
  {
    assert UpTo(j + 1)[..j] == UpTo(j);
  }

  /** Of prefills and decodes, a scoring finds just those submitted before it, whatever the schedule,
      exactly if no prefill or decode of its session is submitted after it. */
  lemma {:induction false} SnapshotIff(tasks: seq<Task>, t: nat)
    requires AllLinked(tasks) && ChildrenNew(tasks) && t < |tasks| && tasks[t].kind == Score
    ensures ScoresSnapshot(tasks, t) <==> NothingAddedAfter(tasks, t)
  {
    hide AllLinked, Line, LineUpTo, ChildrenNew;
    var s := tasks[t].session;
    if NothingAddedAfter(tasks, t) {
      forall order, k | Schedule(tasks, order) && 0 <= k < |order| && order[k] == t
        ensures Line(tasks, order[..k], s) == LineUpTo(tasks, t, s)
      {
        ScoresNoMore(tasks, order, k);
      }
    } else {
      var j :| t < j < |tasks| && Adds(tasks[j], s);
      LateFinds(tasks, t, j);
    }
  }

  /** Sessions of tasks are known, and so are the clones' children. */
  ghost predicate Known(w: World) {
    && ChildrenNew(w.tasks)
    && forall t :: 0 <= t < |w.tasks| ==> w.tasks[t].session < |w.sessions|
  }

  lemma SubmitKnown(w: World, s: nat, kind: Kind)
    requires Known(w) && s < |w.sessions| && (kind.Clone? ==> kind.child >= |w.sessions|)
    ensures Known(Submit(w, s, kind))
  {
  }

  lemma {:induction false} RunKnown(ops: seq<Op>)
    ensures Known(Run(ops))
  {
    hide Known;
    if ops == [] {
      assert Known(World([], [])) by { NothingKnown(); }
    } else {
      var w, op := Run(ops[..|ops| - 1]), ops[|ops| - 1];
      RunKnown(ops[..|ops| - 1]);
      ApplyKnown(w, op);
    }
  }

  lemma NothingKnown()
    ensures Known(World([], []))
  {
  }

  lemma ApplyKnown(w: World, op: Op)
    requires Known(w)
    ensures Known(Apply(w, op).0)
  {
    hide ChildrenNew;
    if !op.New? && op.session < |w.sessions| {
      match op
      case RunPrefill(s) => SubmitKnown(w, s, Prefill);
      case RunDecode(s, templated) =>
        if w.sessions[s].phase == Prefilled {
          if templated { SubmitKnown(w, s, Prefill); }
          var prepared := if templated then Submit(w, s, Prefill) else w;
          SubmitKnown(SetPhase(prepared, s, Decoded), s, Decode);
        }
      case RunScoring(s) => SubmitKnown(w, s, Score);
      case RunClone(s) => SubmitKnown(w, s, Clone(|w.sessions|));
    }
  }

  /** The same over every run of any number of sessions. */
  lemma ScoringSnapshotIff(ops: seq<Op>, t: nat)
    requires t < |Run(ops).tasks| && Run(ops).tasks[t].kind == Score
    ensures ScoresSnapshot(Run(ops).tasks, t) <==> NothingAddedAfter(Run(ops).tasks, t)
  {
    hide ScoresSnapshot, NothingAddedAfter;
    RunConsistent(ops);
    RunKnown(ops);
    SnapshotIff(Run(ops).tasks, t);
  }

  const LATE: seq<Task> := [Task(0, Prefill, {}), Task(0, Score, {0}), Task(0, Prefill, {0})]

  lemma LateRun()
    ensures Run([New, RunPrefill(0), RunScoring(0), RunPrefill(0)]).tasks == LATE
  {
    RunNext([], New);
    assert [] + [New] == [New];
    assert Run([New]) == World([], [Local(Fresh, {})]);
    RunNext([New], RunPrefill(0));
    assert [New] + [RunPrefill(0)] == [New, RunPrefill(0)];
    assert Run([New, RunPrefill(0)]) == World([Task(0, Prefill, {})], [Local(Prefilled, {0})]);
    RunNext([New, RunPrefill(0)], RunScoring(0));
    assert [New, RunPrefill(0)] + [RunScoring(0)] == [New, RunPrefill(0), RunScoring(0)];
    RunNext([New, RunPrefill(0), RunScoring(0)], RunPrefill(0));
    assert [New, RunPrefill(0), RunScoring(0)] + [RunPrefill(0)] == [New, RunPrefill(0), RunScoring(0), RunPrefill(0)];
  }

  lemma RunNext(ops: seq<Op>, op: Op)
    ensures Run(ops + [op]) == Apply(Run(ops), op).0
  {
    assert (ops + [op])[..|ops|] == ops;
  }
}
