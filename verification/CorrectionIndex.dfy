/** The append-only log of corrections, its sidecar of files, one directory a checkpoint, and the
    index read from either.  An append is a list of atomic steps, of which a failing or crashing
    append does only the first few. */
module CorrectionIndex {
  import opened CorrectionPayload
  import opened EventLog
  import opened Hashes
  import opened Results
  import opened Strings

  /** `dump` and `parse` are the JSON library's; `fileHash` is the hexadecimal hash of an id. */
  datatype Env = Env(dump: Json -> string, parse: string -> Result<Json, Code>, fileHash: string -> string,
                     tenantId: string, sessionId: string)

  /** Text that was dumped is parsed to what it was dumped from, a final newline or not. */
  ghost predicate Faithful(env: Env) {
    forall j {:trigger env.dump(j)} :: env.parse(env.dump(j)) == Ok(j) && env.parse(env.dump(j) + "\n") == Ok(j)
  }

  function Text(env: Env, p: Payload): string { env.dump(ToJson(p)) }

  function FromText(env: Env, text: string): Result<Payload, Code> {
    var j :- env.parse(text);
    FromJson(j)
  }

  function FileName(env: Env, p: Payload): string { env.fileHash(p.correctionId) + ".json" }

  function Body(env: Env, p: Payload): string { Text(env, p) + "\n" }

  function CorrectionEvent(env: Env, p: Payload): Event {
    Event(Correction, env.tenantId, env.sessionId, Text(env, p), p.createdMicros, "", 0, "")
  }

  // ---- the log and its sidecar ---------------------------------------------------------------

  /** A log kept on disk has a path, and beside it the sidecar's root, which exists once it has a
      directory in it. */
  datatype Store = Store(onDisk: bool, events: seq<Event>, sidecar: map<Hash256, map<string, string>>)

  datatype Step =
    | AppendEvent(event: Event)
    | MakeDirectory(hash: Hash256)
    | WriteFile(hash: Hash256, name: string, body: string)

  function Directory(s: Store, h: Hash256): map<string, string> {
    if h in s.sidecar then s.sidecar[h] else map[]
  }

  function File(s: Store, h: Hash256, name: string): Option<string> {
    if name in Directory(s, h) then Some(Directory(s, h)[name]) else None
  }

  function Do(s: Store, step: Step): Store {
    match step
    case AppendEvent(e) => s.(events := s.events + [e])
    case MakeDirectory(h) => s.(sidecar := s.sidecar[h := Directory(s, h)])
    case WriteFile(h, name, body) => s.(sidecar := s.sidecar[h := Directory(s, h)[name := body]])
  }

  function DoAll(s: Store, steps: seq<Step>): Store {
    if steps == [] then s else Do(DoAll(s, steps[..|steps| - 1]), steps[|steps| - 1])
  }

  function SidecarSteps(hashes: seq<Hash256>, name: string, body: string): (r: seq<Step>)
    ensures |r| == 2 * |hashes|
  {
    if hashes == [] then []
    else
      var n := |hashes| - 1;
      SidecarSteps(hashes[..n], name, body) + [MakeDirectory(hashes[n]), WriteFile(hashes[n], name, body)]
  }

  /** What a whole `AppendCorrectionEvent` does. */
  function AppendSteps(env: Env, onDisk: bool, p: Payload): seq<Step> {
    if !Valid(p) then []
    else [AppendEvent(CorrectionEvent(env, p))] +
         (if onDisk then SidecarSteps(Mentioned(p), FileName(env, p), Body(env, p)) else [])
  }

  /** An append of another event, or of a correction of which `done` steps come about. */
  datatype Attempt = Other(event: Event) | Correct(payload: Payload, done: nat)

  function StepsDone(env: Env, onDisk: bool, a: Attempt): seq<Step> {
    match a
    case Other(e) => [AppendEvent(e)]
    case Correct(p, done) =>
      var steps := AppendSteps(env, onDisk, p);
      if done < |steps| then steps[..done] else steps
  }

  function Run(env: Env, onDisk: bool, attempts: seq<Attempt>): Store {
    if attempts == [] then Store(onDisk, [], map[])
    else
      var n := |attempts| - 1;
      DoAll(Run(env, onDisk, attempts[..n]), StepsDone(env, onDisk, attempts[n]))
  }

  /** Corrections are only appended as such. */
  predicate CorrectionsAppended(attempts: seq<Attempt>) {
    forall k :: 0 <= k < |attempts| && attempts[k].Other? ==> attempts[k].event.kind != Correction
  }

  // ---- the index -------------------------------------------------------------------------------

  /** `CorrectionIndex::Build` from events. */
  function Build(env: Env, events: seq<Event>): Result<seq<Payload>, Code> {
    if events == [] then Ok([])
    else
      var n := |events| - 1;
      var before :- Build(env, events[..n]);
      if events[n].kind != Correction then Ok(before)
      else
        var p :- FromText(env, events[n].payload);
        Ok(before + [p])
  }

  predicate Decodes(env: Env, files: map<string, string>) {
    forall name :: name in files && files[name] != "" ==> FromText(env, files[name]).Ok?
  }

  /** The corrections in a checkpoint's directory that mention it. */
  function Loaded(env: Env, files: map<string, string>, h: Hash256): set<Payload>
    requires Decodes(env, files)
  {
    set name | name in files && files[name] != "" && Mentions(FromText(env, files[name]).value, h) ::
      FromText(env, files[name]).value
  }

  /** `CorrectionIndex::LoadForCheckpoint`: from the sidecar, or from the log while there is none. */
  function LoadForCheckpoint(env: Env, s: Store, h: Hash256): Result<set<Payload>, Code> {
    if !s.onDisk || s.sidecar == map[] then
      var all :- Build(env, s.events);
      Ok(set p | p in all)
    else if Decodes(env, Directory(s, h)) then Ok(Loaded(env, Directory(s, h), h))
    else Err(InvalidArgument)
  }

  predicate Blocks(p: Payload, h: Hash256) {
    p.severity == Blocking && Mentions(p, h)
  }

  /** The blocking corrections the index gives, and those in the log. */
  function ViaIndex(env: Env, s: Store, h: Hash256): Result<set<Payload>, Code> {
    var all :- LoadForCheckpoint(env, s, h);
    Ok(set p | p in all && Blocks(p, h))
  }

  function ViaLog(env: Env, s: Store, h: Hash256): Result<set<Payload>, Code> {
    var all :- Build(env, s.events);
    Ok(set p | p in all && Blocks(p, h))
  }

  // ---- what a run has logged and written -----------------------------------------------------

  function Logged(attempts: seq<Attempt>): seq<Payload> {
    if attempts == [] then []
    else
      var n := |attempts| - 1;
      Logged(attempts[..n]) + Adds(attempts[n])
  }

  predicate Writes(env: Env, onDisk: bool, a: Attempt, h: Hash256, name: string) {
    a.Correct? && WriteFile(h, name, Body(env, a.payload)) in StepsDone(env, onDisk, a)
  }

  /** The correction of the last attempt that got to write the file. */
  function LastWritten(env: Env, onDisk: bool, attempts: seq<Attempt>, h: Hash256, name: string): Option<Payload> {
    if attempts == [] then None
    else
      var n := |attempts| - 1;
      if Writes(env, onDisk, attempts[n], h, name) then Some(attempts[n].payload)
      else LastWritten(env, onDisk, attempts[..n], h, name)
  }

  // ---- what steps do ----------------------------------------------------------------------------

  lemma {:induction false} SidecarStepsAre(hashes: seq<Hash256>, name: string, body: string)
    ensures var steps := SidecarSteps(hashes, name, body);
            forall i :: 0 <= i < |steps| ==>
              && i / 2 < |hashes|
              && steps[i] == (if i % 2 == 0 then MakeDirectory(hashes[i / 2]) else WriteFile(hashes[i / 2], name, body))
  {
    if hashes != [] {
      var n := |hashes| - 1;
      SidecarStepsAre(hashes[..n], name, body);
    }
  }

  lemma EventThenFiles(e: Step, hashes: seq<Hash256>, name: string, body: string, i: nat)
    requires 0 < i < |[e] + SidecarSteps(hashes, name, body)|
    ensures (i - 1) / 2 < |hashes|
    ensures ([e] + SidecarSteps(hashes, name, body))[i] ==
            if i % 2 == 1 then MakeDirectory(hashes[(i - 1) / 2]) else WriteFile(hashes[(i - 1) / 2], name, body)
  {
    hide SidecarSteps;
    SidecarStepsAre(hashes, name, body);
    assert ([e] + SidecarSteps(hashes, name, body))[i] == SidecarSteps(hashes, name, body)[i - 1];
  }

  /** The steps of an append: the event first, then the files, all alike. */
  lemma AppendStepsAre(env: Env, onDisk: bool, p: Payload)
    requires Valid(p)
    ensures var steps := AppendSteps(env, onDisk, p);
            && |steps| == 1 + (if onDisk then 2 * |Mentioned(p)| else 0)
            && steps[0] == AppendEvent(CorrectionEvent(env, p))
            && (forall i :: 0 < i < |steps| ==>
                  steps[i] == if i % 2 == 1 then MakeDirectory(Mentioned(p)[(i - 1) / 2])
                              else WriteFile(Mentioned(p)[(i - 1) / 2], FileName(env, p), Body(env, p)))
  {
    hide Valid, Text, Mentioned, FileName, Body, CorrectionEvent;
    var e, hashes, name, body := AppendEvent(CorrectionEvent(env, p)), Mentioned(p), FileName(env, p), Body(env, p);
    if onDisk {
      var steps := AppendSteps(env, onDisk, p);
      assert steps == [e] + SidecarSteps(hashes, name, body);
      forall i | 0 < i < |steps|
        ensures steps[i] == if i % 2 == 1 then MakeDirectory(hashes[(i - 1) / 2])
                else WriteFile(hashes[(i - 1) / 2], name, body)
      {
        EventThenFiles(e, hashes, name, body, i);
      }
    }
  }

  /** The steps for the `k`-th checkpoint mentioned. */
  lemma AppendStepsFor(env: Env, p: Payload, k: nat)
    requires Valid(p) && k < |Mentioned(p)|
    ensures var steps := AppendSteps(env, true, p);
            && 2 * k + 2 < |steps|
            && steps[2 * k + 1] == MakeDirectory(Mentioned(p)[k])
            && steps[2 * k + 2] == WriteFile(Mentioned(p)[k], FileName(env, p), Body(env, p))
  {
    hide Valid, Mentioned, FileName, Body, AppendSteps;
    AppendStepsAre(env, true, p);
  }

  lemma AppendStepsMany(env: Env, p: Payload)
    requires Valid(p)
    ensures |AppendSteps(env, true, p)| == 1 + 2 * |Mentioned(p)|
  {
    hide Valid, Mentioned, AppendSteps;
    AppendStepsAre(env, true, p);
  }

  /** Steps that write one file name and text write just the files they name. */
  lemma {:induction false} DoAllFiles(s: Store, steps: seq<Step>, name: string, body: string, h: Hash256, other: string)
    requires forall i :: 0 <= i < |steps| && steps[i].WriteFile? ==> steps[i].name == name && steps[i].body == body
    ensures File(DoAll(s, steps), h, other) ==
            if WriteFile(h, other, body) in steps then Some(body) else File(s, h, other)
    ensures DoAll(s, steps).onDisk == s.onDisk
  {
    hide Do, File;
    if steps != [] {
      var n := |steps| - 1;
      DoAllFiles(s, steps[..n], name, body, h, other);
      DoFile(DoAll(s, steps[..n]), steps[n], h, other);
      assert steps == steps[..n] + [steps[n]];
    }
  }

  lemma DoFile(s: Store, step: Step, h: Hash256, name: string)
    ensures Do(s, step).onDisk == s.onDisk
    ensures File(Do(s, step), h, name) ==
            if step.WriteFile? && step.hash == h && step.name == name then Some(step.body) else File(s, h, name)
  {
  }

  lemma {:induction false} DoAllEvents(s: Store, steps: seq<Step>)
    requires steps != [] ==> steps[0].AppendEvent? && forall i :: 0 < i < |steps| ==> !steps[i].AppendEvent?
    ensures DoAll(s, steps).events == if steps == [] then s.events else s.events + [steps[0].event]
  {
    if |steps| > 1 { DoAllEvents(s, steps[..|steps| - 1]); }
    else if |steps| == 1 { assert steps[..0] == []; }
  }

  lemma {:induction false} TextRead(env: Env, p: Payload)
    requires Faithful(env) && Valid(p)
    ensures FromText(env, Text(env, p)) == Ok(p) && FromText(env, Body(env, p)) == Ok(p)
  {
    hide FromJson, ToJson, Valid;
    JsonRoundTrip(p);
  }

  // ---- invariants over runs ----------------------------------------------------------------------

  lemma BuildAppended(env: Env, events: seq<Event>, e: Event)
    requires Build(env, events).Ok? && (e.kind == Correction ==> FromText(env, e.payload).Ok?)
    ensures Build(env, events + [e]) ==
            Ok(Build(env, events).value + (if e.kind == Correction then [FromText(env, e.payload).value] else []))
  {
    hide FromText;
    assert (events + [e])[..|events|] == events;
    assert Build(env, events).value + [] == Build(env, events).value;
  }

  /** The corrections an attempt adds to the log. */
  function Adds(a: Attempt): seq<Payload> {
    if a.Correct? && Valid(a.payload) && a.done > 0 then [a.payload] else []
  }

  lemma StepsFirst(env: Env, onDisk: bool, a: Attempt)
    ensures var steps := StepsDone(env, onDisk, a);
            && (steps != [] ==> forall i :: 0 < i < |steps| ==> !steps[i].AppendEvent?)
            && (a.Correct? ==> Adds(a) == if steps == [] then [] else [a.payload])
            && (a.Correct? && steps != [] ==>
                  Valid(a.payload) && steps[0] == AppendEvent(CorrectionEvent(env, a.payload)))
  {
    hide Text, Valid, Mentioned, Body, FileName;
    if a.Correct? && Valid(a.payload) { AppendStepsAre(env, onDisk, a.payload); }
  }

  lemma {:induction false} AttemptLogs(env: Env, onDisk: bool, s: Store, a: Attempt)
    requires Faithful(env) && (a.Other? ==> a.event.kind != Correction)
    requires Build(env, s.events).Ok?
    ensures Build(env, DoAll(s, StepsDone(env, onDisk, a)).events) == Ok(Build(env, s.events).value + Adds(a))
  {
    hide FromText, Text, Valid, Mentioned, Body, FileName, Faithful, Build, AppendSteps;
    var steps := StepsDone(env, onDisk, a);
    StepsFirst(env, onDisk, a);
    DoAllEvents(s, steps);
    if steps != [] {
      if a.Correct? { TextRead(env, a.payload); }
      BuildAppended(env, s.events, steps[0].event);
    } else {
      assert Build(env, s.events).value + [] == Build(env, s.events).value;
    }
  }

  /** The log holds the corrections of the attempts that got as far as the log. */
  lemma {:induction false} LogHolds(env: Env, onDisk: bool, attempts: seq<Attempt>)
    requires Faithful(env) && CorrectionsAppended(attempts)
    ensures Build(env, Run(env, onDisk, attempts).events) == Ok(Logged(attempts))
    ensures Run(env, onDisk, attempts).onDisk == onDisk
    ensures forall p :: p in Logged(attempts) ==> Valid(p)
  {
    hide FromText, Text, Valid, Mentioned, Body, FileName, Faithful, StepsDone, DoAll;
    if attempts != [] {
      var n := |attempts| - 1;
      LogHolds(env, onDisk, attempts[..n]);
      var before := Run(env, onDisk, attempts[..n]);
      AttemptLogs(env, onDisk, before, attempts[n]);
      DoAllOnDisk(before, StepsDone(env, onDisk, attempts[n]));
    }
  }

  lemma {:induction false} DoAllOnDisk(s: Store, steps: seq<Step>)
    ensures DoAll(s, steps).onDisk == s.onDisk
  {
    if steps != [] { DoAllOnDisk(s, steps[..|steps| - 1]); }
  }

  /** Each file holds the correction that last got to write it. */
  lemma {:induction false} FilesHold(env: Env, onDisk: bool, attempts: seq<Attempt>, h: Hash256, name: string)
    ensures var last := LastWritten(env, onDisk, attempts, h, name);
            File(Run(env, onDisk, attempts), h, name) == if last.Some? then Some(Body(env, last.value)) else None
  {
    hide Text, Valid, Mentioned, Body, FileName, DoAll, File, AppendSteps;
    if attempts == [] {
      NoFiles(env, onDisk, h, name);
    } else {
      var n := |attempts| - 1;
      FilesHold(env, onDisk, attempts[..n], h, name);
      var before := Run(env, onDisk, attempts[..n]);
      var steps := StepsDone(env, onDisk, attempts[n]);
      match attempts[n]
      case Other(e) =>
        DoAllFiles(before, steps, name, "", h, name);
      case Correct(p, _) =>
        OneNameOneText(env, onDisk, attempts[n]);
        DoAllFiles(before, steps, FileName(env, p), Body(env, p), h, name);
    }
  }

  lemma NoFiles(env: Env, onDisk: bool, h: Hash256, name: string)
    ensures File(Run(env, onDisk, []), h, name) == None
  {
  }

  /** All files that an append writes have the same name and text. */
  lemma {:induction false} OneNameOneText(env: Env, onDisk: bool, a: Attempt)
    requires a.Correct?
    ensures var steps := StepsDone(env, onDisk, a);
            forall i :: 0 <= i < |steps| && steps[i].WriteFile? ==>
              steps[i].name == FileName(env, a.payload) && steps[i].body == Body(env, a.payload)
  {
    hide Valid, Mentioned, Body, FileName, CorrectionEvent;
    if Valid(a.payload) { AppendStepsAre(env, onDisk, a.payload); }
  }

  /** A file that was written is a logged correction's, under its name and one of its checkpoints. */
  lemma {:induction false} WrittenIsLogged(env: Env, onDisk: bool, attempts: seq<Attempt>, h: Hash256, name: string)
    requires LastWritten(env, onDisk, attempts, h, name).Some?
    ensures var p := LastWritten(env, onDisk, attempts, h, name).value;
            p in Logged(attempts) && Valid(p) && Mentions(p, h) && name == FileName(env, p) && onDisk
  {
    var n := |attempts| - 1;
    if Writes(env, onDisk, attempts[n], h, name) {
      WritesOwn(env, onDisk, attempts[n], h, name);
    } else {
      WrittenIsLogged(env, onDisk, attempts[..n], h, name);
    }
  }

  lemma {:induction false} WritesOwn(env: Env, onDisk: bool, a: Attempt, h: Hash256, name: string)
    requires Writes(env, onDisk, a, h, name)
    ensures Valid(a.payload) && a.done > 0 && Mentions(a.payload, h) && name == FileName(env, a.payload) && onDisk
  {
    hide Text, Valid, Mentioned, Mentions, Body, FileName;
    var p := a.payload;
    var steps := AppendSteps(env, onDisk, p);
    if Valid(p) {
      AppendStepsAre(env, onDisk, p);
      var i :| 0 <= i < |StepsDone(env, onDisk, a)| && StepsDone(env, onDisk, a)[i] == WriteFile(h, name, Body(env, p));
      assert steps[i] == WriteFile(h, name, Body(env, p));
      MentionsIffMentioned(p, h);
      assert Mentioned(p)[(i - 1) / 2] == h;
    }
  }

  // ---- the theorems --------------------------------------------------------------------------------

  /** At every moment, also in the middle of an append: whatever is in the sidecar is a correction
      of the log, filed under its own name and under a checkpoint it mentions. */
  lemma {:induction false} SidecarWithinLog(env: Env, onDisk: bool, attempts: seq<Attempt>, h: Hash256, name: string)
    requires Faithful(env) && CorrectionsAppended(attempts)
    ensures var s := Run(env, onDisk, attempts);
            var file, logged := File(s, h, name), Build(env, s.events);
            file.Some? ==>
              && logged.Ok?
              && exists p :: p in logged.value && FromText(env, file.value) == Ok(p) && Mentions(p, h)
                  && name == FileName(env, p)
  {
    hide Valid, Mentions, FileName, Run, Text, Body, FromText, Faithful, File;
    FilesHold(env, onDisk, attempts, h, name);
    if LastWritten(env, onDisk, attempts, h, name).Some? {
      WrittenIsLogged(env, onDisk, attempts, h, name);
      LogHolds(env, onDisk, attempts);
      TextRead(env, LastWritten(env, onDisk, attempts, h, name).value);
    }
  }

  /** A checkpoint's directory decodes, to the corrections last written in it. */
  lemma {:induction false} DirectoryLoads(env: Env, onDisk: bool, attempts: seq<Attempt>, h: Hash256)
    requires Faithful(env) && CorrectionsAppended(attempts)
    ensures var files := Directory(Run(env, onDisk, attempts), h);
            && Decodes(env, files)
            && forall p :: p in Loaded(env, files, h) <==>
                 LastWritten(env, onDisk, attempts, h, FileName(env, p)) == Some(p)
  {
    hide Valid, Mentions, FileName, Run, FromText, Faithful, LastWritten, Text;
    var s := Run(env, onDisk, attempts);
    var files := Directory(s, h);
    forall name | name in files
      ensures files[name] != "" && FromText(env, files[name]).Ok? && Mentions(FromText(env, files[name]).value, h)
              && LastWritten(env, onDisk, attempts, h, name) == Some(FromText(env, files[name]).value)
              && name == FileName(env, FromText(env, files[name]).value)
    {
      assert File(s, h, name) == Some(files[name]);
      FilesHold(env, onDisk, attempts, h, name);
      var p := LastWritten(env, onDisk, attempts, h, name).value;
      WrittenIsLogged(env, onDisk, attempts, h, name);
      TextRead(env, p);
    }
    forall p | LastWritten(env, onDisk, attempts, h, FileName(env, p)) == Some(p)
      ensures p in Loaded(env, files, h)
    {
      FilesHold(env, onDisk, attempts, h, FileName(env, p));
      assert FileName(env, p) in files;
    }
  }

  /** The index never gives a blocking correction that the log does not have; and it gives all of
      them exactly when it is read from the log, or when each of them is what was last written under
      its name in the checkpoint's directory. */
  lemma {:induction false} IndexAgrees(env: Env, onDisk: bool, attempts: seq<Attempt>, h: Hash256)
    requires Faithful(env) && CorrectionsAppended(attempts)
    ensures var s := Run(env, onDisk, attempts);
            var index, log := ViaIndex(env, s, h), ViaLog(env, s, h);
            && index.Ok? && log.Ok? && index.value <= log.value
            && (index == log <==>
                (onDisk && s.sidecar != map[] ==>
                  forall p :: p in log.value ==> LastWritten(env, onDisk, attempts, h, FileName(env, p)) == Some(p)))
  {
    hide Valid, Mentions, FileName, Run, FromText, Faithful, LastWritten, Loaded, Decodes, Build, Directory;
    var s := Run(env, onDisk, attempts);
    LogHolds(env, onDisk, attempts);
    var index, log := ViaIndex(env, s, h), ViaLog(env, s, h);
    if onDisk && s.sidecar != map[] {
      DirectoryLoads(env, onDisk, attempts, h);
      var files := Directory(s, h);
      forall p | p in index.value ensures p in log.value {
        assert p in Loaded(env, files, h);
        WrittenIsLogged(env, onDisk, attempts, h, FileName(env, p));
      }
      forall p | p in log.value
        ensures p in index.value <==> LastWritten(env, onDisk, attempts, h, FileName(env, p)) == Some(p)
      {
        assert p in Loaded(env, files, h) <==> LastWritten(env, onDisk, attempts, h, FileName(env, p)) == Some(p);
      }
      if forall p :: p in log.value ==> LastWritten(env, onDisk, attempts, h, FileName(env, p)) == Some(p) {
        assert index.value == log.value;
      }
    } else {
      assert index.value == log.value;
    }
  }

  // ---- completed appends ---------------------------------------------------------------------------

  predicate Completed(env: Env, onDisk: bool, a: Attempt) {
    a.Correct? ==> a.done >= |AppendSteps(env, onDisk, a.payload)|
  }

  /** Different corrections go under different names: their ids differ and do not collide. */
  predicate NamesApart(env: Env, attempts: seq<Attempt>) {
    forall i, j :: 0 <= i < j < |attempts| && attempts[i].Correct? && attempts[j].Correct? ==>
      FileName(env, attempts[i].payload) == FileName(env, attempts[j].payload) ==>
          attempts[i].payload == attempts[j].payload
  }

  lemma CompletedWrites(env: Env, a: Attempt, h: Hash256)
    requires a.Correct? && Completed(env, true, a) && Valid(a.payload) && Mentions(a.payload, h)
    ensures Writes(env, true, a, h, FileName(env, a.payload))
  {
    hide Text, Valid, Mentioned, Mentions, Body, FileName;
    var p := a.payload;
    AppendStepsAre(env, true, p);
    MentionsIffMentioned(p, h);
    var i :| 0 <= i < |Mentioned(p)| && Mentioned(p)[i] == h;
    var steps := AppendSteps(env, true, p);
    assert steps[2 * i + 2] == WriteFile(h, FileName(env, p), Body(env, p));
  }

  lemma {:induction false} CompletedLast(env: Env, attempts: seq<Attempt>, k: nat, h: Hash256)
    requires NamesApart(env, attempts) && k < |attempts|
    requires attempts[k].Correct? && Completed(env, true, attempts[k])
    requires Valid(attempts[k].payload) && Mentions(attempts[k].payload, h)
    ensures LastWritten(env, true, attempts, h, FileName(env, attempts[k].payload)) == Some(attempts[k].payload)
  {
    hide Writes, Valid, Mentions, FileName, Completed;
    var n, name := |attempts| - 1, FileName(env, attempts[k].payload);
    if k == n { CompletedWrites(env, attempts[n], h); }
    if Writes(env, true, attempts[n], h, name) {
      WritesOwn(env, true, attempts[n], h, name);
      WritesCorrect(env, true, attempts[n], h, name);
    } else {
      CompletedLast(env, attempts[..n], k, h);
    }
  }

  lemma WritesCorrect(env: Env, onDisk: bool, a: Attempt, h: Hash256, name: string)
    requires Writes(env, onDisk, a, h, name)
    ensures a.Correct?
  {
  }

  lemma {:induction false} LoggedAt(attempts: seq<Attempt>, p: Payload) returns (k: nat)
    requires p in Logged(attempts)
    ensures k < |attempts| && attempts[k].Correct? && attempts[k].payload == p && Valid(p)
  {
    hide Valid;
    var n := |attempts| - 1;
    if p in Logged(attempts[..n]) { k := LoggedAt(attempts[..n], p); } else { k := n; }
  }

  /** After completed appends of corrections under different names, the index gives the blocking
      corrections of the log, for every checkpoint. */
  lemma {:induction false} CompletedAgree(env: Env, onDisk: bool, attempts: seq<Attempt>, h: Hash256)
    requires Faithful(env) && CorrectionsAppended(attempts) && NamesApart(env, attempts)
    requires forall k :: 0 <= k < |attempts| ==> Completed(env, onDisk, attempts[k])
    ensures ViaIndex(env, Run(env, onDisk, attempts), h) == ViaLog(env, Run(env, onDisk, attempts), h)
  {
    hide Valid, Mentions, FileName, Run, FromText, Faithful, LastWritten, LoadForCheckpoint, Completed, Build,
        NamesApart;
    var s := Run(env, onDisk, attempts);
    IndexAgrees(env, onDisk, attempts, h);
    LogHolds(env, onDisk, attempts);
    if onDisk {
      forall p | p in ViaLog(env, s, h).value
        ensures LastWritten(env, onDisk, attempts, h, FileName(env, p)) == Some(p)
      {
        var k := LoggedAt(attempts, p);
        CompletedLast(env, attempts, k, h);
      }
    }
  }

  /** Where names do not differ: a completed append of another correction under the same name, also
      mentioning the checkpoint, hides the earlier one, blocking or not, from the index. */
  lemma {:induction false} SameNameHides(env: Env, attempts: seq<Attempt>, p: Payload, q: Payload, h: Hash256)
    requires Faithful(env) && CorrectionsAppended(attempts)
    requires p in Logged(attempts) && Blocks(p, h)
    requires Valid(q) && Mentions(q, h) && q != p && FileName(env, q) == FileName(env, p)
    ensures var s := Run(env, true, attempts + [Correct(q, |AppendSteps(env, true, q)|)]);
            && ViaLog(env, s, h).Ok? && p in ViaLog(env, s, h).value
            && ViaIndex(env, s, h).Ok? && p !in ViaIndex(env, s, h).value
  {
    hide Valid, Mentions, FileName, Run, FromText, Faithful, LoadForCheckpoint, Build, Writes, AppendSteps;
    var a := Correct(q, |AppendSteps(env, true, q)|);
    var all := attempts + [a];
    assert all[..|attempts|] == attempts;
    var s := Run(env, true, all);
    CompletedWrites(env, a, h);
    IndexAgrees(env, true, all, h);
    LogHolds(env, true, all);
    SidecarStarted(env, attempts, a, h, FileName(env, q));
    DirectoryLoads(env, true, all, h);
    assert LastWritten(env, true, all, h, FileName(env, p)) == Some(q);
    NotLoaded(env, s, h, p);
  }

  lemma SidecarStarted(env: Env, attempts: seq<Attempt>, a: Attempt, h: Hash256, name: string)
    requires Writes(env, true, a, h, name)
    ensures Run(env, true, attempts + [a]).sidecar != map[]
  {
    hide Run, Writes;
    assert (attempts + [a])[..|attempts|] == attempts;
    FilesHold(env, true, attempts + [a], h, name);
  }

  lemma NotLoaded(env: Env, s: Store, h: Hash256, p: Payload)
    requires s.onDisk && s.sidecar != map[]
    requires Decodes(env, Directory(s, h)) && p !in Loaded(env, Directory(s, h), h)
    ensures ViaIndex(env, s, h).Ok? && p !in ViaIndex(env, s, h).value
  {
    hide Directory, Decodes, Loaded;
  }
}
