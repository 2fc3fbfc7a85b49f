/** Loading a checkpoint's memory, or replaying the log without the evidence that corrections have
    revoked; and what either guarantees. */
module CheckpointLoader {
  import opened ActiveEvidenceView
  import opened CheckpointGate
  import opened CorrectionIndex
  import opened CorrectionLog
  import opened CorrectionPayload
  import opened Directives
  import opened EvidenceLaws
  import opened EventLog
  import opened Hashes
  import opened Results
  import opened Strings

  // ---- the projector's guard -----------------------------------------------------------------

  function FoundIn(lowered: string, facts: seq<string>, hits: seq<string>): seq<string> {
    if facts == [] then hits
    else
      var before, fact := FoundIn(lowered, facts[..|facts| - 1], hits), facts[|facts| - 1];
      if fact == "" || Find(lowered, LowerAscii(fact), 0).None? || fact in before then before else before + [fact]
  }

  /** `FindInvalidatedFacts`. */
  function Found(text: string, directives: seq<Directive>): seq<string> {
    if directives == [] then []
    else
      FoundIn(LowerAscii(text), directives[|directives| - 1].invalidatedFacts,
          Found(text, directives[..|directives| - 1]))
  }

  method FindInvalidatedFacts(text: string, directives: seq<Directive>) returns (hits: seq<string>)
    ensures hits == Found(text, directives)
  {
    hide LowerAscii;
    hits := [];
    var lowered := LowerAscii(text);
    var k := 0;
    while k < |directives|
      invariant 0 <= k <= |directives| && hits == Found(text, directives[..k])
    {
      assert directives[..k + 1][..k] == directives[..k];
      var facts := directives[k].invalidatedFacts;
      var j := 0;
      ghost var before := hits;
      while j < |facts|
        invariant 0 <= j <= |facts| && hits == FoundIn(lowered, facts[..j], before)
      {
        assert facts[..j + 1][..j] == facts[..j];
        if facts[j] != "" {
          if Find(lowered, LowerAscii(facts[j]), 0).Some? && facts[j] !in hits {
            hits := hits + [facts[j]];
          }
        }
        j := j + 1;
      }
      assert facts[..j] == facts;
      k := k + 1;
    }
    assert directives[..k] == directives;
  }

  /** Some invalidated fact occurs in the text, in whatever case. */
  predicate Tainted(text: string, directives: seq<Directive>) {
    exists k :: 0 <= k < |directives| && AnyOccurs(directives[k].invalidatedFacts, LowerAscii(text))
  }

  lemma {:induction false} FoundInIff(lowered: string, facts: seq<string>, hits: seq<string>)
    ensures FoundIn(lowered, facts, hits) != [] <==> hits != [] || AnyOccurs(facts, lowered)
  {
    hide LowerAscii, AnyOccurs;
    if facts == [] {
      NoneOccurs(lowered);
    } else {
      var n := |facts| - 1;
      FoundInIff(lowered, facts[..n], hits);
      AnyOccursLast(facts, lowered);
      FindIff(lowered, LowerAscii(facts[n]));
    }
  }

  lemma {:induction false} FoundIff(text: string, directives: seq<Directive>)
    ensures Found(text, directives) != [] <==> Tainted(text, directives)
  {
    hide LowerAscii, AnyOccurs;
    if directives != [] {
      var n := |directives| - 1;
      FoundIff(text, directives[..n]);
      FoundInIff(LowerAscii(text), directives[n].invalidatedFacts, Found(text, directives[..n]));
      assert forall k :: 0 <= k < n ==> directives[..n][k] == directives[k];
      if Tainted(text, directives) {
        var k :| 0 <= k < |directives| && AnyOccurs(directives[k].invalidatedFacts, LowerAscii(text));
        if k < n { assert AnyOccurs(directives[..n][k].invalidatedFacts, LowerAscii(text)); }
      }
    }
  }

  /** What is listed: each invalidated fact that occurs, once. */
  lemma {:induction false} FoundAre(text: string, directives: seq<Directive>, fact: string)
    ensures fact in Found(text, directives) <==>
            && fact != "" && OccursIn(LowerAscii(text), LowerAscii(fact))
            && exists k :: 0 <= k < |directives| && fact in directives[k].invalidatedFacts
    ensures forall i, j :: 0 <= i < j < |Found(text, directives)| ==>
              Found(text, directives)[i] != Found(text, directives)[j]
  {
    hide LowerAscii, OccursIn, FoundIn;
    if directives != [] {
      var n := |directives| - 1;
      FoundAre(text, directives[..n], fact);
      FoundInAre(LowerAscii(text), directives[n].invalidatedFacts, Found(text, directives[..n]), fact);
      assert forall k :: 0 <= k < n ==> directives[..n][k] == directives[k];
    }
  }

  lemma {:induction false} FoundInAre(lowered: string, facts: seq<string>, hits: seq<string>, fact: string)
    requires forall i, j :: 0 <= i < j < |hits| ==> hits[i] != hits[j]
    ensures fact in FoundIn(lowered, facts, hits) <==>
            fact in hits || (fact in facts && fact != "" && OccursIn(lowered, LowerAscii(fact)))
    ensures forall i, j :: 0 <= i < j < |FoundIn(lowered, facts, hits)| ==>
              FoundIn(lowered, facts, hits)[i] != FoundIn(lowered, facts, hits)[j]
  {
    hide LowerAscii, OccursIn;
    if facts != [] {
      var n := |facts| - 1;
      FoundInAre(lowered, facts[..n], hits, fact);
      FoundInAre(lowered, facts[..n], hits, facts[n]);
      FindIff(lowered, LowerAscii(facts[n]));
      assert facts == facts[..n] + [facts[n]];
    }
  }

  /** The model that projects a view, and the one that repairs a projection. */
  datatype Projector = Projector(generate: (View, seq<Directive>) -> Result<string, Code>,
                                 repair: (string, seq<Directive>) -> Result<string, Code>, attempts: nat)

  function Repaired(projector: Projector, projection: string, directives: seq<Directive>, attempts: nat)
      : Result<string, Code>
    decreases attempts
  {
    if attempts == 0 || Found(projection, directives) == [] then Ok(projection)
    else
      var next :- projector.repair(projection, directives);
      Repaired(projector, next, directives, attempts - 1)
  }

  /** `ProjectActiveEvidenceView`. */
  function Project(projector: Projector, view: View, directives: seq<Directive>): Result<string, Code> {
    if view.rangeEnd <= view.rangeStart then Err(InvalidArgument)
    else
      var first :- projector.generate(view, directives);
      var projection :- Repaired(projector, first, directives, projector.attempts);
      if Found(projection, directives) != [] then Err(FailedPrecondition) else Ok(projection)
  }

  /** Drafts of a projection of the view: the first is generated, each next one is the repair of the one
      before, in which an invalidated fact occurred; no more repairs than are allowed. */
  ghost predicate Drafts(projector: Projector, view: View, directives: seq<Directive>, drafts: seq<string>) {
    && 1 <= |drafts| <= projector.attempts + 1
    && projector.generate(view, directives) == Ok(drafts[0])
    && forall k :: 0 <= k < |drafts| - 1 ==> Tainted(drafts[k], directives) && Follows(projector, directives, drafts, k)
  }

  predicate Follows(projector: Projector, directives: seq<Directive>, drafts: seq<string>, k: nat)
    requires k + 1 < |drafts|
  {
    projector.repair(drafts[k], directives) == Ok(drafts[k + 1])
  }

  ghost predicate LastDraft(projector: Projector, view: View, directives: seq<Directive>, drafts: seq<string>,
      last: string)
  {
    Drafts(projector, view, directives, drafts) && drafts[|drafts| - 1] == last
  }

  /** What the repairs of a draft end with: a later draft, the last of which is clean or was one too many; or
      the error of a repair. */
  lemma {:induction false} RepairedDrafts(projector: Projector, view: View, directives: seq<Directive>,
      drafts: seq<string>) returns (all: seq<string>)
    requires Drafts(projector, view, directives, drafts)
    ensures var r := Repaired(projector, drafts[|drafts| - 1], directives, projector.attempts + 1 - |drafts|);
            && drafts <= all && Drafts(projector, view, directives, all)
            && var last := all[|all| - 1];
               if !Tainted(last, directives) || |all| == projector.attempts + 1 then r == Ok(last)
               else r.Err? && projector.repair(last, directives) == r
    decreases projector.attempts + 1 - |drafts|
  {
    hide Tainted, Found;
    var draft := drafts[|drafts| - 1];
    FoundIff(draft, directives);
    all := drafts;
    if |drafts| < projector.attempts + 1 && Tainted(draft, directives) {
      var next := projector.repair(draft, directives);
      if next.Ok? {
        var more := drafts + [next.value];
        forall k | 0 <= k < |more| - 1
          ensures Tainted(more[k], directives) && Follows(projector, directives, more, k)
        {
          if k < |drafts| - 1 { assert Follows(projector, directives, drafts, k); }
        }
        all := RepairedDrafts(projector, view, directives, more);
      }
    }
  }

  /** The drafts up to the last are given by the one before each: one list of them begins the other. */
  lemma {:induction false} SameDraft(projector: Projector, view: View, directives: seq<Directive>, a: seq<string>,
      b: seq<string>, k: nat)
    requires Drafts(projector, view, directives, a) && Drafts(projector, view, directives, b)
    requires k < |a| && k < |b|
    ensures a[k] == b[k]
  {
    hide Tainted;
    if k > 0 {
      SameDraft(projector, view, directives, a, b, k - 1);
      assert Follows(projector, directives, a, k - 1) && Follows(projector, directives, b, k - 1);
    }
  }

  /** No draft follows a clean one, nor one that could not be repaired, nor the last allowed. */
  lemma {:induction false} DraftsEnd(projector: Projector, view: View, directives: seq<Directive>, a: seq<string>,
      b: seq<string>)
    requires Drafts(projector, view, directives, a) && Drafts(projector, view, directives, b)
    requires var last := a[|a| - 1];
             !Tainted(last, directives) || |a| == projector.attempts + 1 || projector.repair(last, directives).Err?
    ensures |b| <= |a|
  {
    hide Tainted, Drafts;
    DraftsLength(projector, view, directives, a);
    DraftsLength(projector, view, directives, b);
    if |b| > |a| {
      SameDraft(projector, view, directives, a, b, |a| - 1);
      DraftFollowed(projector, view, directives, b, |a| - 1);
      assert false;
    }
  }

  /** A projection is exactly the first draft without an invalidated fact, if there is one; otherwise the error
      is that of an empty range, of the model, of the repair, or that the last allowed draft is still tainted. */
  lemma {:induction false} ProjectIff(projector: Projector, view: View, directives: seq<Directive>, memory: string,
      code: Code)
    ensures var projected := Project(projector, view, directives);
            && (projected == Ok(memory) <==>
                  && view.rangeStart < view.rangeEnd && !Tainted(memory, directives)
                  && exists drafts :: LastDraft(projector, view, directives, drafts, memory))
            && (projected == Err(code) <==>
                  if view.rangeStart >= view.rangeEnd then code == InvalidArgument
                  else
                    || projector.generate(view, directives) == Err(code)
                    || exists drafts, last :: LastDraft(projector, view, directives, drafts, last)
                         && Tainted(last, directives)
                         && if |drafts| == projector.attempts + 1 then code == FailedPrecondition
                            else projector.repair(last, directives) == Err(code))
  {
    hide Tainted, Found, Repaired, Drafts;
    var first := projector.generate(view, directives);
    if view.rangeStart < view.rangeEnd && first.Ok? {
      FirstDraft(projector, view, directives);
      var all := RepairedDrafts(projector, view, directives, [first.value]);
      DraftsLength(projector, view, directives, all);
      var last := all[|all| - 1];
      assert LastDraft(projector, view, directives, all, last);
      FoundIff(last, directives);
      forall drafts, other | LastDraft(projector, view, directives, drafts, other)
        ensures |drafts| <= |all|
        ensures |drafts| == |all| ==> other == last
        ensures |drafts| < |all| ==> Tainted(other, directives) && projector.repair(other, directives).Ok?
      {
        DraftsEnd(projector, view, directives, all, drafts);
        DraftsLength(projector, view, directives, drafts);
        SameDraft(projector, view, directives, all, drafts, |drafts| - 1);
        if |drafts| < |all| { DraftFollowed(projector, view, directives, all, |drafts| - 1); }
      }
    } else {
      NoDrafts(projector, view, directives);
    }
  }

  lemma FirstDraft(projector: Projector, view: View, directives: seq<Directive>)
    requires projector.generate(view, directives).Ok?
    ensures Drafts(projector, view, directives, [projector.generate(view, directives).value])
  {
  }

  lemma NoDrafts(projector: Projector, view: View, directives: seq<Directive>)
    requires projector.generate(view, directives).Err? || view.rangeStart >= view.rangeEnd
    ensures projector.generate(view, directives).Err? ==> forall d :: !Drafts(projector, view, directives, d)
  {
  }

  lemma DraftsLength(projector: Projector, view: View, directives: seq<Directive>, drafts: seq<string>)
    requires Drafts(projector, view, directives, drafts)
    ensures 1 <= |drafts| <= projector.attempts + 1
  {
  }

  lemma DraftFollowed(projector: Projector, view: View, directives: seq<Directive>, drafts: seq<string>, k: nat)
    requires Drafts(projector, view, directives, drafts) && k + 1 < |drafts|
    ensures Tainted(drafts[k], directives) && projector.repair(drafts[k], directives).Ok?
  {
    hide Tainted;
    assert Follows(projector, directives, drafts, k);
  }

  // ---- the loader ----------------------------------------------------------------------------------

  datatype System = System(line: Event -> string, load: (string, string, Hash256) -> Result<string, Code>,
                           auditing: Auditing, projector: Projector)

  datatype Replay = Loaded(memory: string) | Replayed(memory: string, directives: seq<Directive>, view: View)

  /** `LoadOrReplayAuditedProjectionCheckpointForDecision`. */
  function LoadOrReplay(sys: System, events: Result<seq<Event>, Code>, r: Request, replayStart: U64, replayEnd: U64,
                        corrections: seq<Payload>): Result<Replay, Code>
  {
    var gate :- MayUse(r, sys.auditing, corrections);
    if gate.mayUse then
      var memory :- sys.load(r.tenantId, r.sessionId, r.checkpoint);
      Ok(Loaded(memory))
    else
      var barrier := BarrierFor(r.checkpoint, corrections);
      if !barrier.mustReproject || barrier.blocking == [] then Err(FailedPrecondition)
      else
        var directives :- Compile(barrier.blocking);
        var all :- events;
        var end := if replayEnd == 0 then |all| else replayEnd;
        if end > |all| then Err(InvalidArgument)
        else
          var view :- BuildView(sys.line, all, 0, replayStart, end, directives);
          var memory :- Project(sys.projector, view, directives);
          Ok(Replayed(memory, directives, view))
  }

  // ---- what a correction's facts reach -------------------------------------------------------

  lemma {:induction false} StripInside(text: string) returns (i: nat)
    ensures i + |Strip(text)| <= |text| && text[i..i + |Strip(text)|] == Strip(text)
    decreases |text|
  {
    i := 0;
    if text == "" {
    } else if IsSpace(text[0]) {
      i := StripInside(text[1..]);
      i := i + 1;
    } else if IsSpace(text[|text| - 1]) {
      i := StripInside(text[..|text| - 1]);
    }
  }

  lemma LowerSlice(text: string, i: nat, j: nat)
    requires i <= j <= |text|
    ensures LowerAscii(text[i..j]) == LowerAscii(text)[i..j]
  {
    hide LowerAscii, LowerChar;
    var a, b := LowerAscii(text[i..j]), LowerAscii(text)[i..j];
    forall k | 0 <= k < j - i ensures a[k] == b[k] { assert a[k] == LowerChar(text[i + k]) == b[k]; }
    assert a == b;
  }

  lemma PartOfPart(text: string, at: nat, n: nat, i: nat, m: nat)
    requires at + n <= |text| && i + m <= n
    ensures text[at..at + n][i..i + m] == text[at + i..at + i + m]
  {
    var a, b := text[at..at + n][i..i + m], text[at + i..at + i + m];
    forall k | 0 <= k < m ensures a[k] == b[k] {
      assert a[k] == text[at..at + n][i + k] == text[at + (i + k)];
    }
    assert a == b;
  }

  /** A text that has a fact in it, in whatever case, has the normalised fact in it. */
  lemma {:induction false} FactFound(lowered: string, facts: seq<string>, k: nat)
    requires k < |facts| && !Blank(facts[k]) && OccursIn(lowered, LowerAscii(facts[k]))
    ensures AnyOccurs(Normalized(facts), lowered)
  {
    hide Normalized, LowerAscii, Keys, Strip, Blank;
    var fact := facts[k];
    StripEmptyIffBlank(fact);
    NormalizedKeeps(facts, k);
    var j :| 0 <= j < |Keys(Normalized(facts))| && Keys(Normalized(facts))[j] == LowerAscii(Strip(fact));
    var i := StripInside(fact);
    LowerSlice(fact, i, i + |Strip(fact)|);
    var at :| 0 <= at <= |lowered| && OccursAt(lowered, LowerAscii(fact), at);
    PartOfPart(lowered, at, |fact|, i, |Strip(fact)|);
    assert OccursAt(lowered, LowerAscii(Strip(fact)), at + i);
    NormalizedIsNormalized(facts);
    assert Normalized(facts)[j] != "" && LowerAscii(Normalized(facts)[j]) == LowerAscii(Strip(fact));
  }

  /** The correction invalidates a fact of the event. */
  predicate Invalidates(p: Payload, e: Event, index: nat) {
    && e.kind != Correction
    && (p.scope.PriorEvents? ==> index < if p.rangeEnd > 0 then p.rangeEnd - 1 else p.rangeStart)
    && exists k :: 0 <= k < |p.invalidatedFacts| && HasFact(e, p.invalidatedFacts[k])
  }

  predicate HasFact(e: Event, fact: string) {
    !Blank(fact) && OccursIn(LowerAscii(e.payload), LowerAscii(fact))
  }

  lemma InvalidatesRevokes(p: Payload, e: Event, index: nat)
    requires Invalidates(p, e, index)
    ensures Revokes(DirectiveOf(p), e, index)
  {
    hide Normalized, LowerAscii, Blank, OccursIn, AnyOccurs;
    var k :| 0 <= k < |p.invalidatedFacts| && HasFact(e, p.invalidatedFacts[k]);
    FactFound(LowerAscii(e.payload), p.invalidatedFacts, k);
  }

  // ---- the theorems ----------------------------------------------------------------------------------

  function AsSet(corrections: seq<Payload>): set<Payload> { set p | p in corrections }

  /** The latest certificate vouches for the request and is signed as asked. */
  ghost predicate Certified(auditing: Auditing, r: Request) {
    var found := auditing.latest(r.tenantId, r.sessionId, r.checkpoint);
    found.Ok? && Vouches(found.value, r) && Signed(found.value, r, auditing.verifier)
  }

  /** The memory is the checkpoint's, its latest certificate vouches for the request and no correction blocks
      it; or it is the last draft, with repairs, of what the model made of the very view of the range asked for
      in which every event with an invalidated fact in reach is masked, and no invalidated fact occurs in it. */
  ghost predicate Safe(sys: System, events: seq<Event>, r: Request, replayStart: U64, replayEnd: U64,
                       corrections: set<Payload>, replay: Replay)
  {
    match replay
    case Loaded(memory) =>
      && sys.load(r.tenantId, r.sessionId, r.checkpoint) == Ok(memory)
      && Certified(sys.auditing, r)
      && forall p :: p in corrections ==> !Blocks(p, r.checkpoint)
    case Replayed(memory, directives, view) =>
      && view.rangeStart == replayStart && view.rangeEnd == (if replayEnd == 0 then |events| else replayEnd)
      && view.rangeEnd <= |events|
      && (exists drafts :: LastDraft(sys.projector, view, directives, drafts, memory))
      && (exists p :: p in corrections && Blocks(p, r.checkpoint))
      && (forall p :: p in corrections && Blocks(p, r.checkpoint) ==> DirectiveOf(p) in directives)
      && (forall p, i :: p in corrections && Blocks(p, r.checkpoint) && view.rangeStart <= i < view.rangeEnd ==>
            Invalidates(p, events[i], i) ==> i in Indices(view.records))
      && !Tainted(memory, directives)
  }

  /** What the loader returns, and when: the checkpoint's memory exactly if the gate opens and it loads; a replay
      exactly if the gate refuses, a correction blocks the checkpoint, and directives, events, range, view and
      projection are there; an error exactly if one of these fails, and then its own. */
  lemma {:induction false} LoaderReturns(sys: System, events: Result<seq<Event>, Code>, r: Request, replayStart: U64,
      replayEnd: U64, corrections: seq<Payload>, memory: string, directives: seq<Directive>, view: View, code: Code)
    ensures var result, gate := LoadOrReplay(sys, events, r, replayStart, replayEnd, corrections),
                MayUse(r, sys.auditing, corrections);
            var opens, refuses := gate.Ok? && gate.value.mayUse, gate.Ok? && !gate.value.mayUse;
            var compiled := Compile(BlockingOf(corrections, r.checkpoint));
            var end := if replayEnd == 0 && events.Ok? then |events.value| else replayEnd;
            var viewed :=
              if compiled.Err? then Err(compiled.error) else if events.Err? then Err(events.error)
              else if end > |events.value| then Err(InvalidArgument)
              else BuildView(sys.line, events.value, 0, replayStart, end, compiled.value);
            && (result == Ok(Loaded(memory)) <==>
                  opens && sys.load(r.tenantId, r.sessionId, r.checkpoint) == Ok(memory))
            && (result == Ok(Replayed(memory, directives, view)) <==>
                  && refuses && IsBlocked(r.checkpoint, corrections)
                  && compiled == Ok(directives) && viewed == Ok(view)
                  && Project(sys.projector, view, directives) == Ok(memory))
            && (result == Err(code) <==>
                  || gate == Err(code)
                  || (opens && sys.load(r.tenantId, r.sessionId, r.checkpoint) == Err(code))
                  || (refuses && !IsBlocked(r.checkpoint, corrections) && code == FailedPrecondition)
                  || (refuses && IsBlocked(r.checkpoint, corrections) &&
                        (viewed == Err(code) ||
                         (viewed.Ok? && Project(sys.projector, viewed.value, compiled.value) == Err(code)))))
  {
    hide Compile, BuildView, Project, MayUse, BlockingOf, IsBlocked;
    BlockedIff(r.checkpoint, corrections);
  }

  lemma {:induction false} LoaderSafety(sys: System, events: seq<Event>, r: Request, replayStart: U64, replayEnd: U64,
      corrections: seq<Payload>)
    requires LoadOrReplay(sys, Ok(events), r, replayStart, replayEnd, corrections).Ok?
    ensures Safe(sys, events, r, replayStart, replayEnd, AsSet(corrections),
                 LoadOrReplay(sys, Ok(events), r, replayStart, replayEnd, corrections).value)
  {
    hide Blocks, BlockingOf, Compile, BuildView, Project, Invalidates, DirectiveOf, Tainted, MayUse, LastDraft, Vouches,
        Signed, IsBlocked, Proper;
    var replay := LoadOrReplay(sys, Ok(events), r, replayStart, replayEnd, corrections).value;
    BlockedIff(r.checkpoint, corrections);
    GateOpensIff(r, sys.auditing, corrections);
    if replay.Replayed? {
      var blocking := BarrierFor(r.checkpoint, corrections).blocking;
      CompileIff(blocking);
      ProjectIff(sys.projector, replay.view, replay.directives, replay.memory, InvalidArgument);
      forall p | p in corrections && Blocks(p, r.checkpoint) ensures DirectiveOf(p) in replay.directives {
        BlockingCompiled(blocking, p, r.checkpoint);
      }
      var end := if replayEnd == 0 then |events| else replayEnd;
      ViewMasks(sys.line, events, replayStart, end, replay.directives);
      forall p, i: nat | p in corrections && Blocks(p, r.checkpoint)
          && replay.view.rangeStart <= i < replay.view.rangeEnd
        ensures Invalidates(p, events[i], i) ==> i in Indices(replay.view.records)
      {
        if Invalidates(p, events[i], i) {
          InvalidatesRevokes(p, events[i], i);
          DirectiveRevokes(replay.directives, DirectiveOf(p), events, i);
        }
      }
    }
  }

  lemma BlockingCompiled(blocking: seq<Payload>, p: Payload, h: Hash256)
    requires p in blocking && Blocks(p, h) && Compile(blocking).Ok?
    ensures DirectiveOf(p) in Compile(blocking).value
  {
    hide Compile, DirectiveOf, SaysNothing;
    CompileIff(blocking);
    var k :| 0 <= k < |blocking| && blocking[k] == p;
    assert blocking[k].severity == Blocking;
  }

  lemma DirectiveRevokes(directives: seq<Directive>, d: Directive, events: seq<Event>, i: nat)
    requires d in directives && i < |events| && Revokes(d, events[i], i)
    ensures RevokedAt(directives, events, 0, i)
  {
    hide Revokes;
    var k :| 0 <= k < |directives| && directives[k] == d;
    assert Revokes(directives[k], events[i], i);
  }

  lemma {:induction false} ViewMasks(line: Event -> string, events: seq<Event>, start: nat, end: nat,
      directives: seq<Directive>)
    requires BuildView(line, events, 0, start, end, directives).Ok?
    ensures var view := BuildView(line, events, 0, start, end, directives).value;
            && view.rangeStart == start && view.rangeEnd == end && end <= |events|
            && forall i :: i in Indices(view.records) <==> start <= i < end && RevokedAt(directives, events, 0, i)
  {
    hide RevokedAt, Prepare, Records, Join, RevokedLines, ActiveLines, Indices;
    var view := BuildView(line, events, 0, start, end, directives).value;
    RecordsAre(line, events, 0, start, end, directives);
    assert view.records == Records(line, events, 0, start, end, Prepare(directives));
  }

  /** End to end: when the log's corrections were appended to the end and go under different names,
      and the loader takes them from the sidecar, what it returns is safe with respect to every
      blocking correction of the log. */
  lemma {:induction false} LoadedFromLogIsSafe(sys: System, env: Env, onDisk: bool, attempts: seq<Attempt>, r: Request,
                            replayStart: U64, replayEnd: U64, corrections: seq<Payload>)
    requires Faithful(env) && CorrectionsAppended(attempts) && NamesApart(env, attempts)
    requires forall k :: 0 <= k < |attempts| ==> Completed(env, onDisk, attempts[k])
    ensures var s := Run(env, onDisk, attempts);
            var replay := LoadOrReplay(sys, Ok(s.events), r, replayStart, replayEnd, corrections);
            LoadForCheckpoint(env, s, r.checkpoint) == Ok(AsSet(corrections)) && replay.Ok? ==>
              && Build(env, s.events).Ok?
              && Safe(sys, s.events, r, replayStart, replayEnd, AsSet(Build(env, s.events).value), replay.value)
  {
    hide Blocks, LoadOrReplay, LoadForCheckpoint, Invalidates, DirectiveOf, Tainted, Run, NamesApart, Completed, Build,
        Faithful,
         Safe;
    var s := Run(env, onDisk, attempts);
    var replay := LoadOrReplay(sys, Ok(s.events), r, replayStart, replayEnd, corrections);
    if LoadForCheckpoint(env, s, r.checkpoint) == Ok(AsSet(corrections)) && replay.Ok? {
      CompletedAgree(env, onDisk, attempts, r.checkpoint);
      LogHolds(env, onDisk, attempts);
      LoaderSafety(sys, s.events, r, replayStart, replayEnd, corrections);
      var given, logged := AsSet(corrections), AsSet(Build(env, s.events).value);
      assert forall p :: p in given && Blocks(p, r.checkpoint) <==> p in ViaIndex(env, s, r.checkpoint).value;
      assert forall p :: p in logged && Blocks(p, r.checkpoint) <==> p in ViaLog(env, s, r.checkpoint).value;
      SafeByBlocking(sys, s.events, r, replayStart, replayEnd, given, logged, replay.value);
    }
  }

  lemma SafeByBlocking(sys: System, events: seq<Event>, r: Request, replayStart: U64, replayEnd: U64,
      given: set<Payload>, logged: set<Payload>, replay: Replay)
    requires Safe(sys, events, r, replayStart, replayEnd, given, replay)
    requires forall p :: (p in given && Blocks(p, r.checkpoint)) <==> (p in logged && Blocks(p, r.checkpoint))
    ensures Safe(sys, events, r, replayStart, replayEnd, logged, replay)
  {
    hide Blocks, Invalidates, DirectiveOf, Tainted, LastDraft, Certified;
  }
}
