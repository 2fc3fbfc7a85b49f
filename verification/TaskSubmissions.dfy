/** What a call on a session submits, and when a decode is refused. */
module TaskSubmissions {
  import opened Results
  import opened Strings
  import opened TaskChains

  /** The prefills and decodes submitted in the session's line, ancestors up to the clone included. */
  function Whole(tasks: seq<Task>, s: nat): seq<nat> {
    LineUpTo(tasks, |tasks|, s)
  }

  /** The last of them is a prefill. */
  predicate EndsFilled(tasks: seq<Task>, s: nat) {
    var line := Whole(tasks, s);
    line != [] && line[|line| - 1] < |tasks| && tasks[line[|line| - 1]].kind == Prefill
  }

  lemma {:induction false} LineExtends(tasks: seq<Task>, more: seq<Task>, order: seq<nat>, s: nat)
    requires tasks <= more && forall k :: 0 <= k < |order| ==> order[k] < |tasks|
    ensures Line(more, order, s) == Line(tasks, order, s)
  {
    if order != [] {
      var n := |order| - 1;
      assert more[order[n]] == tasks[order[n]];
      LineExtends(tasks, more, order[..n], s);
      if tasks[order[n]].kind.Clone? { LineExtends(tasks, more, order[..n], tasks[order[n]].session); }
    }
  }

  /** One more task in the line, unless it is another session's, a scoring or a clone; what a clone makes
      begins with its parent's line. */
  lemma {:induction false} WholeMore(tasks: seq<Task>, t: Task, s: nat)
    ensures Whole(tasks + [t], s) ==
            if t.kind.Clone? && t.kind.child == s then Whole(tasks, t.session)
            else if t.session == s && (t.kind == Prefill || t.kind == Decode) then Whole(tasks, s) + [|tasks|]
            else Whole(tasks, s)
  {
    var all, n := tasks + [t], |tasks|;
    assert UpTo(n + 1)[..n] == UpTo(n) && UpTo(n + 1)[n] == n;
    LineExtends(tasks, all, UpTo(n), s);
    LineExtends(tasks, all, UpTo(n), t.session);
  }

  lemma {:induction false} FilledMore(tasks: seq<Task>, t: Task, s: nat)
    requires forall k :: k in Whole(tasks, s) || k in Whole(tasks, t.session) ==> k < |tasks|
    ensures EndsFilled(tasks + [t], s) <==>
            if t.kind.Clone? && t.kind.child == s then EndsFilled(tasks, t.session)
            else if t.session == s && (t.kind == Prefill || t.kind == Decode) then t.kind == Prefill
            else EndsFilled(tasks, s)
  {
    hide Whole;
    WholeMore(tasks, t, s);
    LastStays(tasks, t, Whole(tasks, s));
    LastStays(tasks, t, Whole(tasks, t.session));
  }

  lemma LastStays(tasks: seq<Task>, t: Task, line: seq<nat>)
    requires forall k :: k in line ==> k < |tasks|
    ensures line != [] ==> line[|line| - 1] < |tasks| && (tasks + [t])[line[|line| - 1]] == tasks[line[|line| - 1]]
    ensures (line + [|tasks|])[|line + [|tasks|]| - 1] == |tasks|
  {
    if line != [] { assert line[|line| - 1] in line; }
  }

  lemma {:induction false} LineBelow(tasks: seq<Task>, order: seq<nat>, s: nat)
    requires forall k :: 0 <= k < |order| ==> order[k] < |tasks|
    ensures forall x :: x in Line(tasks, order, s) ==> x < |tasks|
  {
    if order != [] {
      var n := |order| - 1;
      LineBelow(tasks, order[..n], s);
      if tasks[order[n]].kind.Clone? { LineBelow(tasks, order[..n], tasks[order[n]].session); }
    }
  }

  lemma WholeBelow(tasks: seq<Task>, s: nat)
    ensures forall x :: x in Whole(tasks, s) ==> x < |tasks|
  {
    LineBelow(tasks, UpTo(|tasks|), s);
  }

  /** Every session's phase is that of its line, and one that is not there yet has none. */
  ghost predicate Phased(w: World) {
    && (forall s :: 0 <= s < |w.sessions| ==> (w.sessions[s].phase == Prefilled <==> EndsFilled(w.tasks, s)))
    && (forall s: nat :: s >= |w.sessions| ==> !EndsFilled(w.tasks, s))
  }

  /** After one more task, whose session has the phase that goes with it. */
  lemma {:induction false} SubmitPhased(w: World, s: nat, kind: Kind, v: World)
    requires Phased(w) && s < |w.sessions| && (kind.Clone? ==> kind.child >= |w.sessions|)
    requires v.tasks == w.tasks + [Task(s, kind, w.sessions[s].lastTasks)] && |v.sessions| == |w.sessions|
    requires forall q :: 0 <= q < |v.sessions| && q != s ==> v.sessions[q].phase == w.sessions[q].phase
    requires (v.sessions[s].phase == Prefilled) <==>
             if kind == Prefill then true else if kind == Decode then false else w.sessions[s].phase == Prefilled
    ensures forall q :: 0 <= q < |v.sessions| ==> (v.sessions[q].phase == Prefilled <==> EndsFilled(v.tasks, q))
    ensures forall q: nat :: q >= |v.sessions| ==>
              (EndsFilled(v.tasks, q) <==> kind.Clone? && kind.child == q && EndsFilled(w.tasks, s))
  {
    hide EndsFilled, Whole;
    var t := Task(s, kind, w.sessions[s].lastTasks);
    forall q: nat
      ensures EndsFilled(v.tasks, q) <==>
              if kind.Clone? && kind.child == q then EndsFilled(w.tasks, s)
              else if s == q && (kind == Prefill || kind == Decode) then kind == Prefill
              else EndsFilled(w.tasks, q)
    {
      WholeBelow(w.tasks, q);
      WholeBelow(w.tasks, s);
      FilledMore(w.tasks, t, q);
    }
  }

  lemma {:induction false} ApplyPhased(w: World, op: Op)
    requires Phased(w)
    ensures Phased(Apply(w, op).0)
  {
    hide EndsFilled;
    if !op.New? && op.session < |w.sessions| {
      var s, v := op.session, Apply(w, op).0;
      match op
      case RunPrefill(_) => SubmitPhased(w, s, Prefill, v);
      case RunDecode(_, templated) =>
        if w.sessions[s].phase == Prefilled {
          var prepared := if templated then Submit(w, s, Prefill) else w;
          if templated { SubmitPhased(w, s, Prefill, prepared); }
          SubmitPhased(prepared, s, Decode, v);
        }
      case RunScoring(_) => SubmitPhased(w, s, Score, v);
      case RunClone(_) =>
        SubmitPhased(w, s, Clone(|w.sessions|), Submit(w, s, Clone(|w.sessions|)));
    }
  }

  lemma {:induction false} RunPhased(ops: seq<Op>)
    ensures Phased(Run(ops))
  {
    hide Phased, Apply;
    if ops == [] {
      assert Phased(World([], [])) by { NothingPhased(); }
    } else {
      RunPhased(ops[..|ops| - 1]);
      ApplyPhased(Run(ops[..|ops| - 1]), ops[|ops| - 1]);
    }
  }

  lemma NothingPhased()
    ensures Phased(World([], []))
  {
  }

  /** What a call submits, in order; `child` is the number of a new session. */
  function Submits(op: Op, child: nat): seq<Kind> {
    match op
    case New => []
    case RunPrefill(_) => [Prefill]
    case RunDecode(_, templated) => if templated then [Prefill, Decode] else [Decode]
    case RunScoring(_) => [Score]
    case RunClone(_) => [Clone(child)]
  }

  /** In every run of any number of sessions: a call on an unknown session is refused, and a decode unless what was
      last submitted in the session's line is a prefill; a refused call changes nothing, and an accepted one submits
      just its tasks for its session, and makes a session if it is a new one or a clone. */
  lemma {:induction false} CallSubmits(ops: seq<Op>, op: Op)
    ensures var w := Run(ops);
            var (v, error) := Apply(w, op);
            && error == (if op.New? then None
                 else if op.session >= |w.sessions| then Some(NotFound)
                 else if op.RunDecode? && !EndsFilled(w.tasks, op.session) then Some(Internal) else None)
            && (error.Some? ==> v == w)
            && (error.None? ==>
                  var kinds := Submits(op, |w.sessions|);
                  && w.tasks <= v.tasks && |v.tasks| == |w.tasks| + |kinds|
                  && (forall i :: 0 <= i < |kinds| ==>
                        v.tasks[|w.tasks| + i].kind == kinds[i]
                        && (!op.New? ==> v.tasks[|w.tasks| + i].session == op.session))
                  && |v.sessions| == |w.sessions| + (if op.New? || op.RunClone? then 1 else 0))
  {
    hide EndsFilled;
    RunPhased(ops);
  }
}
