/** What an append leaves in the log and in the sidecar, however far it gets, and what the index reads from
    them, word for word. */
module AppendLaws {
  import opened CorrectionIndex
  import opened CorrectionPayload
  import opened EventLog
  import opened Hashes
  import opened PayloadReading
  import opened Results
  import opened Selections
  import opened Strings

  // ---- what an append does -----------------------------------------------------------------------

  /** The append got more than `n` steps into the turn of the checkpoint: one for its directory, two for the
      file in it. */
  ghost predicate Reaches(p: Payload, done: nat, h: Hash256, n: nat) {
    exists i :: 0 <= i < |Mentioned(p)| && TurnOf(p, i, h) && done > 2 * i + n
  }

  predicate TurnOf(p: Payload, i: nat, h: Hash256) {
    i < |Mentioned(p)| && Mentioned(p)[i] == h
  }

  function Text(s: Store, h: Hash256, name: string): Option<string> {
    if h in s.sidecar && name in s.sidecar[h] then Some(s.sidecar[h][name]) else None
  }

  /** An incomplete correction does nothing.  A complete one is logged by the first step; on a disk, then, for each
      checkpoint it mentions, the directory is made and the file written: named after the hash of the
      correction's id, with the correction and a newline in it.  Nothing else changes. */
  lemma {:induction false} AppendDoes(env: Env, onDisk: bool, attempts: seq<Attempt>, p: Payload, done: nat)
    ensures var s, t := Run(env, onDisk, attempts), Run(env, onDisk, attempts + [Correct(p, done)]);
            && t.events == s.events + (if Complete(p) && done > 0
                 then [Event(Correction, env.tenantId, env.sessionId, env.dump(ToJson(p)), p.createdMicros, "", 0, "")]
                 else [])
            && (forall h, name :: Text(t, h, name) ==
                  if onDisk && Complete(p) && name == env.fileHash(p.correctionId) + ".json" && Reaches(p, done, h, 2)
                  then Some(env.dump(ToJson(p)) + "\n") else Text(s, h, name))
            && (forall h :: h in t.sidecar <==>
                  h in s.sidecar || (onDisk && Complete(p) && Reaches(p, done, h, 1)))
            && t.onDisk == s.onDisk
  {
    hide Run, Complete, Mentioned, Reaches, Text, AppendSteps, DoAll, Body, FileName, CorrectionEvent;
    assert (attempts + [Correct(p, done)])[..|attempts|] == attempts;
    var s := Run(env, onDisk, attempts);
    var steps := StepsDone(env, onDisk, Correct(p, done));
    RunNext(env, onDisk, attempts, Correct(p, done));
    CompleteIff(p);
    EventsAfter(env, onDisk, s, p, done);
    OneNameOneText(env, onDisk, Correct(p, done));
    forall h, name
      ensures Text(DoAll(s, steps), h, name) ==
              if onDisk && Complete(p) && name == env.fileHash(p.correctionId) + ".json" && Reaches(p, done, h, 2)
              then Some(env.dump(ToJson(p)) + "\n") else Text(s, h, name)
    {
      DoAllFiles(s, steps, FileName(env, p), Body(env, p), h, name);
      WrittenIff(env, onDisk, p, done, h, name);
      TextIsFile(s, h, name);
      TextIsFile(DoAll(s, steps), h, name);
      NamesAre(env, p);
    }
    forall h ensures h in DoAll(s, steps).sidecar <==>
                     h in s.sidecar || (onDisk && Complete(p) && Reaches(p, done, h, 1)) {
      DoAllDirectories(s, steps, h);
      MadeIff(env, onDisk, p, done, h);
    }
    DoAllOnDisk(s, steps);
  }

  lemma RunNext(env: Env, onDisk: bool, attempts: seq<Attempt>, a: Attempt)
    ensures Run(env, onDisk, attempts + [a]) == DoAll(Run(env, onDisk, attempts), StepsDone(env, onDisk, a))
  {
    hide DoAll, StepsDone;
    assert (attempts + [a])[..|attempts|] == attempts;
  }

  /** The append of another event is the event and nothing else. */
  lemma OtherDoes(env: Env, onDisk: bool, attempts: seq<Attempt>, e: Event)
    ensures var s := Run(env, onDisk, attempts);
            Run(env, onDisk, attempts + [Other(e)]) == s.(events := s.events + [e])
  {
    hide Run;
    RunNext(env, onDisk, attempts, Other(e));
    var s := Run(env, onDisk, attempts);
    assert [AppendEvent(e)][..0] == [];
    assert DoAll(s, [AppendEvent(e)]) == Do(DoAll(s, []), AppendEvent(e));
  }

  lemma NamesAre(env: Env, p: Payload)
    ensures FileName(env, p) == env.fileHash(p.correctionId) + ".json" && Body(env, p) == env.dump(ToJson(p)) + "\n"
    ensures CorrectionEvent(env, p) ==
            Event(Correction, env.tenantId, env.sessionId, env.dump(ToJson(p)), p.createdMicros, "", 0, "")
  {
    hide ToJson;
  }

  lemma TextIsFile(s: Store, h: Hash256, name: string)
    ensures Text(s, h, name) == File(s, h, name)
  {
  }

  lemma {:induction false} EventsAfter(env: Env, onDisk: bool, s: Store, p: Payload, done: nat)
    ensures DoAll(s, StepsDone(env, onDisk, Correct(p, done))).events ==
            s.events + (if Valid(p) && done > 0
              then [Event(Correction, env.tenantId, env.sessionId, env.dump(ToJson(p)), p.createdMicros, "", 0, "")]
              else [])
  {
    hide Valid, Mentioned, Body, FileName, CorrectionEvent, DoAll, ToJson;
    var steps := StepsDone(env, onDisk, Correct(p, done));
    if Valid(p) { AppendStepsAre(env, onDisk, p); }
    DoAllEvents(s, steps);
    NamesAre(env, p);
    assert s.events + [] == s.events;
  }

  lemma {:induction false} WrittenIff(env: Env, onDisk: bool, p: Payload, done: nat, h: Hash256, name: string)
    ensures WriteFile(h, name, Body(env, p)) in StepsDone(env, onDisk, Correct(p, done)) <==>
            onDisk && Valid(p) && name == FileName(env, p) && Reaches(p, done, h, 2)
  {
    hide Valid, Mentioned, Body, FileName, CorrectionEvent, AppendSteps;
    var all, steps := AppendSteps(env, onDisk, p), StepsDone(env, onDisk, Correct(p, done));
    if Valid(p) {
      AppendStepsAre(env, onDisk, p);
      if WriteFile(h, name, Body(env, p)) in steps {
        var i :| 0 <= i < |steps| && steps[i] == WriteFile(h, name, Body(env, p));
        assert all[i] == steps[i];
        assert TurnOf(p, (i - 1) / 2, h);
      }
      if onDisk && name == FileName(env, p) && Reaches(p, done, h, 2) {
        var i :| 0 <= i < |Mentioned(p)| && TurnOf(p, i, h) && done > 2 * i + 2;
        AppendStepsFor(env, p, i);
        assert steps[2 * i + 2] == all[2 * i + 2];
      }
    } else {
      assert all == [] by { NoSteps(env, onDisk, p); }
    }
  }

  lemma NoSteps(env: Env, onDisk: bool, p: Payload)
    requires !Valid(p)
    ensures AppendSteps(env, onDisk, p) == []
  {
  }

  lemma {:induction false} DoAllDirectories(s: Store, steps: seq<Step>, h: Hash256)
    ensures h in DoAll(s, steps).sidecar <==> h in s.sidecar || exists i :: 0 <= i < |steps| && Makes(steps[i], h)
  {
    if steps != [] {
      var n := |steps| - 1;
      DoAllDirectories(s, steps[..n], h);
      assert Makes(steps[n], h) ==> exists i :: 0 <= i < |steps| && Makes(steps[i], h);
      assert forall i :: 0 <= i < n ==> steps[..n][i] == steps[i];
    }
  }

  predicate Makes(step: Step, h: Hash256) {
    (step.MakeDirectory? || step.WriteFile?) && step.hash == h
  }

  lemma {:induction false} MadeIff(env: Env, onDisk: bool, p: Payload, done: nat, h: Hash256)
    ensures (exists i :: 0 <= i < |StepsDone(env, onDisk, Correct(p, done))|
               && Makes(StepsDone(env, onDisk, Correct(p, done))[i], h))
            <==> onDisk && Valid(p) && Reaches(p, done, h, 1)
  {
    hide Valid, Mentioned, Body, FileName, CorrectionEvent, AppendSteps;
    var all, steps := AppendSteps(env, onDisk, p), StepsDone(env, onDisk, Correct(p, done));
    if Valid(p) {
      AppendStepsAre(env, onDisk, p);
      if i :| 0 <= i < |steps| && Makes(steps[i], h) {
        assert all[i] == steps[i];
        assert TurnOf(p, (i - 1) / 2, h);
      }
      if onDisk && Reaches(p, done, h, 1) {
        var i :| 0 <= i < |Mentioned(p)| && TurnOf(p, i, h) && done > 2 * i + 1;
        AppendStepsFor(env, p, i);
        assert steps[2 * i + 1] == all[2 * i + 1];
        assert Makes(steps[2 * i + 1], h);
      }
    } else {
      assert all == [] by { NoSteps(env, onDisk, p); }
    }
  }

  /** The checkpoints have their turns in the order in which the correction first mentions them, the target
      first. */
  lemma {:induction false} TurnsAre(p: Payload) returns (at: seq<nat>)
    ensures var all := [p.target] + p.invalidates;
            && Places(at, |all|) && |Mentioned(p)| == |at|
            && (forall i :: 0 <= i < |at| ==> Mentioned(p)[i] == all[at[i]])
            && (forall k :: k in at <==> 0 <= k < |all| && NewAt(all, k))
  {
    hide NewAt, Distinct;
    at := DistinctPlaces([p.target] + p.invalidates);
  }

  lemma {:induction false} DistinctPlaces<T>(items: seq<T>) returns (at: seq<nat>)
    ensures Places(at, |items|) && |Distinct(items)| == |at|
    ensures forall i :: 0 <= i < |at| ==> Distinct(items)[i] == items[at[i]]
    ensures forall k :: k in at <==> 0 <= k < |items| && NewAt(items, k)
  {
    hide NewAt;
    if items == [] {
      at := [];
    } else {
      var n := |items| - 1;
      at := DistinctPlaces(items[..n]);
      NextPlace(at, n);
      forall k | 0 <= k < n ensures NewAt(items[..n], k) <==> NewAt(items, k) { SameNew(items, k); }
      DistinctLast(items);
      if NewAt(items, n) { at := at + [n]; }
    }
  }

  /** It does not come earlier in the list. */
  predicate NewAt<T(==)>(items: seq<T>, k: nat)
    requires k < |items|
  {
    items[k] !in items[..k]
  }

  lemma SameNew<T>(items: seq<T>, k: nat)
    requires items != [] && k < |items| - 1
    ensures NewAt(items[..|items| - 1], k) <==> NewAt(items, k)
  {
    assert items[..|items| - 1][..k] == items[..k];
  }

  lemma {:induction false} DistinctLast<T>(items: seq<T>)
    requires items != []
    ensures var n := |items| - 1;
            Distinct(items) == Distinct(items[..n]) + (if NewAt(items, n) then [items[n]] else [])
  {
    var n := |items| - 1;
    DistinctSame(items[..n], items[n]);
  }

  // ---- what the index reads ----------------------------------------------------------------------

  /** The text reads as the correction. */
  predicate Reads(env: Env, text: string, p: Payload) {
    env.parse(text).Ok? && FromJson(env.parse(text).value) == Ok(p)
  }

  lemma ReadsIff(env: Env, text: string, p: Payload)
    ensures FromText(env, text) == Ok(p) <==> Reads(env, text, p)
  {
    hide FromJson;
  }

  /** The index built from events has the corrections of the log in order, if all of them can be read; else its
      error is that of the first that cannot. */
  lemma {:induction false} BuildIs(env: Env, events: seq<Event>) returns (at: seq<nat>, k: nat)
    ensures Build(env, events).Ok? ==>
              && Places(at, |events|) && |Build(env, events).value| == |at|
              && (forall i :: 0 <= i < |at| ==> Reads(env, events[at[i]].payload, Build(env, events).value[i]))
              && (forall j :: j in at <==> 0 <= j < |events| && events[j].kind == Correction)
    ensures Build(env, events).Err? ==>
              && k < |events| && events[k].kind == Correction && FromText(env, events[k].payload).Err?
              && Build(env, events) == Err(FromText(env, events[k].payload).error)
              && Build(env, events[..k]).Ok?
  {
    hide FromText, Reads;
    at, k := [], 0;
    if events != [] {
      var n := |events| - 1;
      at, k := BuildIs(env, events[..n]);
      if Build(env, events[..n]).Err? {
        assert events[..n][..k] == events[..k];
      } else {
        NextPlace(at, n);
        assert forall j :: 0 <= j < n ==> events[..n][j] == events[j];
        if events[n].kind == Correction {
          at, k := at + [n], n;
          if FromText(env, events[n].payload).Ok? {
            ReadsIff(env, events[n].payload, FromText(env, events[n].payload).value);
          }
        }
      }
    }
  }

  /** A correction logged, or in a file of the checkpoint's directory that mentions the checkpoint. */
  ghost predicate Found(env: Env, s: Store, h: Hash256, p: Payload) {
    if !s.onDisk || s.sidecar == map[] then
      exists k :: 0 <= k < |s.events| && s.events[k].kind == Correction && Reads(env, s.events[k].payload, p)
    else
      && (p.target == h || h in p.invalidates)
      && exists name :: h in s.sidecar && name in s.sidecar[h] && s.sidecar[h][name] != ""
           && Reads(env, s.sidecar[h][name], p)
  }

  /** All of those texts, but for empty files, can be read. */
  ghost predicate AllRead(env: Env, s: Store, h: Hash256) {
    if !s.onDisk || s.sidecar == map[] then
      forall k :: 0 <= k < |s.events| && s.events[k].kind == Correction ==> FromText(env, s.events[k].payload).Ok?
    else
      h in s.sidecar ==>
        forall name :: name in s.sidecar[h] && s.sidecar[h][name] != "" ==> FromText(env, s.sidecar[h][name]).Ok?
  }

  /** The corrections loaded for a checkpoint: of its directory those that mention it, or all of the log while
      there is no sidecar; an error exactly if one of the texts cannot be read. */
  lemma {:induction false} LoadIs(env: Env, s: Store, h: Hash256, p: Payload)
    ensures var loaded := LoadForCheckpoint(env, s, h);
            && (loaded.Ok? <==> AllRead(env, s, h))
            && (loaded.Ok? ==> (p in loaded.value <==> Found(env, s, h, p)))
  {
    hide FromText, Reads, Build;
    if !s.onDisk || s.sidecar == map[] {
      var at, k := BuildIs(env, s.events);
      BuildOk(env, s.events);
      if Build(env, s.events).Ok? { BuiltIff(env, s.events, at, p); }
    } else {
      var files := Directory(s, h);
      forall name: string | name in files ensures FromText(env, files[name]) == Ok(p) <==> Reads(env, files[name], p) {
        ReadsIff(env, files[name], p);
      }
    }
  }

  lemma {:induction false} BuildOk(env: Env, events: seq<Event>)
    ensures Build(env, events).Ok? <==>
            forall k :: 0 <= k < |events| && events[k].kind == Correction ==> FromText(env, events[k].payload).Ok?
  {
    hide FromText;
    if events != [] {
      var n := |events| - 1;
      BuildOk(env, events[..n]);
      assert forall k :: 0 <= k < n ==> events[..n][k] == events[k];
    }
  }

  lemma {:induction false} BuiltIff(env: Env, events: seq<Event>, at: seq<nat>, p: Payload)
    requires Build(env, events).Ok? && Places(at, |events|) && |Build(env, events).value| == |at|
    requires forall i :: 0 <= i < |at| ==> Reads(env, events[at[i]].payload, Build(env, events).value[i])
    requires forall j :: j in at <==> 0 <= j < |events| && events[j].kind == Correction
    ensures p in Build(env, events).value <==>
            exists k :: 0 <= k < |events| && events[k].kind == Correction && Reads(env, events[k].payload, p)
  {
    hide Build;
    var all := Build(env, events).value;
    if p in all {
      var i :| 0 <= i < |all| && all[i] == p;
      assert at[i] in at;
    }
    if k :| 0 <= k < |events| && events[k].kind == Correction && Reads(env, events[k].payload, p) {
      assert k in at;
      var i :| 0 <= i < |at| && at[i] == k;
      assert all[i] == p;
    }
  }
}
