/** The log object and the index loaders of `correction_protocol.cc`, step by step. */
module CorrectionLog {
  import opened CorrectionIndex
  import opened CorrectionPayload
  import opened EventLog
  import opened Hashes
  import opened Results
  import opened Selections
  import opened Strings

  class EventSourcedLog {
    const env: Env
    const onDisk: bool
    var events: seq<Event>
    var sidecar: map<Hash256, map<string, string>>

    ghost function View(): Store
      reads this
    {
      Store(onDisk, events, sidecar)
    }

    constructor (environment: Env, disk: bool)
      ensures env == environment && onDisk == disk
      ensures View() == Run(environment, disk, [])
    {
      env, onDisk, events, sidecar := environment, disk, [], map[];
    }

    /** Appends the event, then writes the sidecar's files; `allowed` is how many of the steps the
        disk lets through before one fails, after which nothing more is done. */
    method AppendCorrectionEvent(payload: Payload, allowed: nat) returns (error: Option<Code>)
      modifies this
      ensures View() == DoAll(old(View()), StepsDone(env, onDisk, Correct(payload, allowed)))
      ensures error == if !Valid(payload) then Some(InvalidArgument)
                       else if allowed < |AppendSteps(env, onDisk, payload)| then Some(Internal) else None
    {
      hide Valid, Mentioned, Body, FileName, CorrectionEvent, SidecarSteps;
      if !Valid(payload) {
        return Some(InvalidArgument);
      }
      ghost var start, steps := View(), AppendSteps(env, onDisk, payload);
      AppendStepsAre(env, onDisk, payload);
      if allowed == 0 {
        return Some(Internal);
      }
      events := events + [CorrectionEvent(env, payload)];
      assert View() == DoAll(start, steps[..1]) by { assert steps[..1][..0] == []; }
      if !onDisk {
        assert steps[..1] == steps;
        return None;
      }
      error := PersistCorrectionIndexSidecar(payload, allowed, start);
    }

    method PersistCorrectionIndexSidecar(payload: Payload, allowed: nat, ghost start: Store)
        returns (error: Option<Code>)
      requires onDisk && allowed >= 1 && Valid(payload)
      requires View() == DoAll(start, AppendSteps(env, true, payload)[..1])
      modifies this`sidecar
      ensures View() == DoAll(start, StepsDone(env, true, Correct(payload, allowed)))
      ensures error == if allowed < |AppendSteps(env, true, payload)| then Some(Internal) else None
    {
      hide Valid, Mentioned, FileName, SidecarSteps, CorrectionEvent, AppendSteps, Do, DoAll, Faithful;
      ghost var steps := AppendSteps(env, true, payload);
      AppendStepsMany(env, payload);
      var body := env.dump(ToJson(payload)) + "\n";
      var fileName := FileName(env, payload);
      var hashes := MentionedCheckpoints(payload);
      var k := 0;
      while k < |hashes|
        invariant 0 <= k <= |hashes| && 2 * k + 1 <= allowed
        invariant View() == DoAll(start, steps[..2 * k + 1])
      {
        if allowed == 2 * k + 1 {
          return Some(Internal);
        }
        AppendStepsFor(env, payload, k);
        MakeDir(hashes[k]);
        DoNext(start, steps, 2 * k + 1);
        if allowed == 2 * k + 2 {
          return Some(Internal);
        }
        Write(hashes[k], fileName, body);
        DoNext(start, steps, 2 * k + 2);
        k := k + 1;
      }
      assert steps[..2 * k + 1] == steps;
      return None;
    }

    method MakeDir(h: Hash256)
      modifies this`sidecar
      ensures View() == Do(old(View()), MakeDirectory(h))
    {
      if h !in sidecar {
        sidecar := sidecar[h := map[]];
      } else {
        assert sidecar[h := sidecar[h]] == sidecar;
      }
    }

    method Write(h: Hash256, name: string, body: string)
      modifies this`sidecar
      ensures View() == Do(old(View()), WriteFile(h, name, body))
    {
      var directory := if h in sidecar then sidecar[h] else map[];
      sidecar := sidecar[h := directory[name := body]];
    }

    /** The corrections of the log's events, in order. */
    method BuildFromEvents() returns (r: Result<seq<Payload>, Code>)
      ensures r == Build(env, events)
    {
      var corrections := [];
      var k := 0;
      while k < |events|
        invariant 0 <= k <= |events| && Build(env, events[..k]) == Ok(corrections)
      {
        assert events[..k + 1][..k] == events[..k];
        if events[k].kind == Correction {
          var payload := FromText(env, events[k].payload);
          if payload.Err? {
            BuildFails(env, events, k);
            return Err(payload.error);
          }
          corrections := corrections + [payload.value];
        }
        k := k + 1;
      }
      assert events[..k] == events;
      return Ok(corrections);
    }

    /** The files come in any order here. */
    method LoadForCheckpoint(h: Hash256) returns (r: Result<seq<Payload>, Code>)
      ensures r.Ok? <==> CorrectionIndex.LoadForCheckpoint(env, View(), h).Ok?
      ensures r.Ok? ==> (set p | p in r.value) == CorrectionIndex.LoadForCheckpoint(env, View(), h).value
      ensures !onDisk || sidecar == map[] ==> r == Build(env, events)
    {
      if !onDisk || sidecar == map[] {
        r := BuildFromEvents();
        return;
      }
      if h !in sidecar {
        return Ok([]);
      }
      var files := sidecar[h];
      var corrections := [];
      var left := files.Keys;
      while left != {}
        invariant left <= files.Keys
        invariant forall name :: name in files.Keys - left && files[name] != "" ==> FromText(env, files[name]).Ok?
        invariant forall p :: p in corrections <==>
          exists name :: name in files.Keys - left && files[name] != "" && FromText(env, files[name]) == Ok(p)
              && Mentions(p, h)
        decreases |left|
      {
        var name :| name in left;
        var bytes := files[name];
        if bytes != "" {
          var payload := FromText(env, bytes);
          if payload.Err? {
            return Err(payload.error);
          }
          var mentions := MentionsCheckpoint(payload.value, h);
          if mentions {
            corrections := corrections + [payload.value];
          }
        }
        left := left - {name};
      }
      return Ok(corrections);
    }
  }

  lemma DoNext(s: Store, steps: seq<Step>, k: nat)
    requires k < |steps|
    ensures DoAll(s, steps[..k + 1]) == Do(DoAll(s, steps[..k]), steps[k])
  {
    hide Do;
    assert steps[..k + 1][..k] == steps[..k];
  }

  lemma {:induction false} BuildFails(env: Env, events: seq<Event>, k: nat)
    requires k < |events| && Build(env, events[..k]).Ok?
    requires events[k].kind == Correction && FromText(env, events[k].payload).Err?
    ensures Build(env, events) == Err(FromText(env, events[k].payload).error)
  {
    var n := |events| - 1;
    if k < n {
      assert events[..n][..k] == events[..k];
      BuildFails(env, events[..n], k);
    }
  }

  /** The blocking corrections for a checkpoint, in their order. */
  function BlockingOf(corrections: seq<Payload>, h: Hash256): (r: seq<Payload>)
    ensures forall p :: p in r <==> p in corrections && Blocks(p, h)
  {
    if corrections == [] then []
    else
      var n := |corrections| - 1;
      BlockingOf(corrections[..n], h) + (if Blocks(corrections[n], h) then [corrections[n]] else [])
  }

  lemma {:induction false} BlockingMore(corrections: seq<Payload>, h: Hash256)
    requires corrections != []
    ensures var n := |corrections| - 1;
            BlockingOf(corrections, h) ==
            if Blocks(corrections[n], h) then BlockingOf(corrections[..n], h) + [corrections[n]]
            else BlockingOf(corrections[..n], h)
  {
    hide Blocks;
  }

  /** They are the blocking corrections whose target the checkpoint is, or which invalidate it, in their order
      and as often as they are given. */
  lemma {:induction false} BlockingAre(corrections: seq<Payload>, h: Hash256) returns (at: seq<nat>)
    ensures Picks(corrections, at, BlockingOf(corrections, h))
    ensures forall k :: k in at <==> 0 <= k < |corrections| && BlocksAt(corrections, k, h)
  {
    hide Blocks, Picks, BlockingOf, BlocksAt;
    if corrections == [] {
      at := [];
      PickNone<Payload>();
      assert BlockingOf([], h) == [] by { NoneBlocks(h); }
    } else {
      var n := |corrections| - 1;
      at := BlockingAre(corrections[..n], h);
      PickMore(corrections, at, BlockingOf(corrections[..n], h));
      BlockingMore(corrections, h);
      forall k | 0 <= k <= n ensures BlocksAt(corrections, k, h) <==> Blocks(corrections[k], h) {
        BlocksIs(corrections, k, h);
      }
      forall k | 0 <= k < n ensures BlocksAt(corrections[..n], k, h) <==> Blocks(corrections[k], h) {
        BlocksIs(corrections[..n], k, h);
      }
      if Blocks(corrections[n], h) { at := at + [n]; }
    }
  }

  predicate BlocksAt(corrections: seq<Payload>, k: nat, h: Hash256)
    requires k < |corrections|
  {
    corrections[k].severity == Blocking && (corrections[k].target == h || h in corrections[k].invalidates)
  }

  lemma BlocksIs(corrections: seq<Payload>, k: nat, h: Hash256)
    requires k < |corrections|
    ensures BlocksAt(corrections, k, h) <==> Blocks(corrections[k], h)
  {
  }

  lemma NoneBlocks(h: Hash256)
    ensures BlockingOf([], h) == []
  {
  }

  method BlockingCorrectionsFor(corrections: seq<Payload>, h: Hash256) returns (out: seq<Payload>)
    ensures out == BlockingOf(corrections, h)
  {
    out := [];
    var k := 0;
    while k < |corrections|
      invariant 0 <= k <= |corrections| && out == BlockingOf(corrections[..k], h)
    {
      assert corrections[..k + 1][..k] == corrections[..k];
      if corrections[k].severity == Blocking {
        var mentions := MentionsCheckpoint(corrections[k], h);
        if mentions {
          out := out + [corrections[k]];
        }
      }
      k := k + 1;
    }
    assert corrections[..k] == corrections;
  }
}
