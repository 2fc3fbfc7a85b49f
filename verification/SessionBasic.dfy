/** A session over one executor: what the executor's cache holds, and labelled checkpoints of how
    far it had been filled. */
module SessionBasic {

  datatype Status = Ok | NotFound | InvalidArgument | Internal

  datatype Phase = Fresh | Prefilled | Decoded

  /** `kv` is the text in the cache, so the executor's step is its length; `saved` is, for the
      reader only, what the cache held when each checkpoint was taken. */
  datatype State = State(kv: string, checkpoints: map<string, nat>, phase: Phase)

  datatype Op = Prefill(text: string) | Decode(text: string) | Save(name: string) | Rewind(name: string)

  function Survivors(checkpoints: map<string, nat>, step: nat): map<string, nat> {
    map l | l in checkpoints && checkpoints[l] <= step :: checkpoints[l]
  }

  function Apply(s: State, op: Op): (State, Status) {
    match op
    case Prefill(text) => (s.(kv := s.kv + text, phase := Prefilled), Ok)
    case Decode(text) =>
      if s.phase != Prefilled then (s, Internal) else (s.(kv := s.kv + text, phase := Decoded), Ok)
    case Save(name) => (s.(checkpoints := s.checkpoints[name := |s.kv|]), Ok)
    case Rewind(name) =>
      if name !in s.checkpoints then (s, NotFound)
      else if s.checkpoints[name] > |s.kv| then (s, InvalidArgument)
      else
        var step := s.checkpoints[name];
        (s.(kv := s.kv[..step], checkpoints := Survivors(s.checkpoints, step)), Ok)
  }

  function Init(): State { State("", map[], Fresh) }

  function Run(ops: seq<Op>): State {
    if ops == [] then Init() else Apply(Run(ops[..|ops| - 1]), ops[|ops| - 1]).0
  }

  /** What the cache held at the latest successful save under each name that a rewind has not
      passed since. */
  ghost function SavedTexts(ops: seq<Op>): map<string, string> {
    if ops == [] then map[]
    else
      var n := |ops| - 1;
      var saved := SavedTexts(ops[..n]);
      match ops[n]
      case Save(name) => saved[name := Run(ops[..n]).kv]
      case Rewind(name) =>
        if name in saved then map l | l in saved && |saved[l]| <= |saved[name]| :: saved[l] else saved
      case _ => saved
  }

  /** Each checkpoint is the length of the text saved under it, and that text is still there. */
  ghost predicate Faithful(s: State, saved: map<string, string>) {
    && s.checkpoints.Keys == saved.Keys
    && forall l :: l in saved ==> s.checkpoints[l] == |saved[l]| && saved[l] <= s.kv
  }

  lemma {:induction false} CheckpointsFaithful(ops: seq<Op>)
    ensures Faithful(Run(ops), SavedTexts(ops))
  {
    if ops != [] {
      var n := |ops| - 1;
      CheckpointsFaithful(ops[..n]);
      var before, saved := Run(ops[..n]), SavedTexts(ops[..n]);
      match ops[n]
      case Prefill(_) =>
      case Decode(_) =>
      case Save(_) =>
      case Rewind(name) =>
        if name in saved {
          assert before.kv[..|saved[name]|] == saved[name];
        }
    }
  }

  /** Over every run, no checkpoint lies beyond the executor's step, so the error for a future
      step is never returned; a rewind brings back exactly the text saved, and exactly the
      checkpoints at or before it survive. */
  lemma CheckpointDiscipline(ops: seq<Op>, name: string)
    ensures var s := Run(ops);
            var (t, status) := Apply(s, Rewind(name));
            && (forall l :: l in s.checkpoints ==> s.checkpoints[l] <= |s.kv|)
            && (status == if name in SavedTexts(ops) then Ok else NotFound)
            && (status != Ok ==> t == s)
            && (status == Ok ==> t.kv == SavedTexts(ops)[name] && t.phase == s.phase)
            && (status == Ok ==> forall l :: l in t.checkpoints <==>
                l in SavedTexts(ops) && |SavedTexts(ops)[l]| <= |t.kv|)
  {
    CheckpointsFaithful(ops);
    if name in SavedTexts(ops) {
      assert Run(ops).kv[..|SavedTexts(ops)[name]|] == SavedTexts(ops)[name];
    }
  }

  /** Something was prefilled since the last decode. */
  ghost predicate FilledSince(ops: seq<Op>) {
    exists k :: 0 <= k < |ops| && ops[k].Prefill? && forall j :: k < j < |ops| ==> !(ops[j].Decode?)
  }

  /** A session decodes exactly if it was prefilled since it last did, checkpoints and rewinds aside; what is
      prefilled or decoded goes to the end of the cache, and a refused decode changes nothing. */
  lemma {:induction false} DecodesIff(ops: seq<Op>, text: string)
    ensures var s := Run(ops);
            var (prefilled, ok) := Apply(s, Prefill(text));
            var (decoded, status) := Apply(s, Decode(text));
            && (status == Ok <==> FilledSince(ops)) && (status != Ok ==> status == Internal && decoded == s)
            && (status == Ok ==> decoded.kv == s.kv + text && decoded.checkpoints == s.checkpoints)
            && ok == Ok && prefilled.kv == s.kv + text && prefilled.checkpoints == s.checkpoints
  {
    PhaseIs(ops);
  }

  lemma {:induction false} PhaseIs(ops: seq<Op>)
    ensures Run(ops).phase == Prefilled <==> FilledSince(ops)
  {
    hide Survivors;
    if ops != [] {
      var n := |ops| - 1;
      PhaseIs(ops[..n]);
      if ops[n].Prefill? {
        assert FilledSince(ops);
      } else if ops[n].Decode? {
        assert !FilledSince(ops);
      } else {
        SameFilled(ops);
      }
    }
  }

  lemma SameFilled(ops: seq<Op>)
    requires ops != [] && !ops[|ops| - 1].Prefill? && !ops[|ops| - 1].Decode?
    ensures FilledSince(ops) <==> FilledSince(ops[..|ops| - 1])
  {
    var before := ops[..|ops| - 1];
    if FilledSince(ops) {
      var k :| 0 <= k < |ops| && ops[k].Prefill? && forall j :: k < j < |ops| ==> !(ops[j].Decode?);
      assert before[k].Prefill?;
    }
    if FilledSince(before) {
      var k :| 0 <= k < |before| && before[k].Prefill? && forall j :: k < j < |before| ==> !(before[j].Decode?);
      assert ops[k].Prefill? && forall j :: k < j < |before| ==> ops[j] == before[j];
    }
  }

  // ---- the session object ------------------------------------------------------------------

  class Session {
    var kv: string
    var checkpointMap: map<string, nat>
    var phase: Phase

    function View(): State
      reads this
    {
      State(kv, checkpointMap, phase)
    }

    constructor ()
      ensures View() == Init()
    {
      kv, checkpointMap, phase := "", map[], Fresh;
    }

    method SaveCheckpoint(name: string) returns (status: Status)
      modifies this
      ensures (View(), status) == Apply(old(View()), Save(name))
    {
      var currentStep := |kv|;
      checkpointMap := checkpointMap[name := currentStep];
      return Ok;
    }

    method RewindToCheckpoint(name: string) returns (status: Status)
      modifies this
      ensures (View(), status) == Apply(old(View()), Rewind(name))
    {
      if name in checkpointMap {
        var currentStep := |kv|;
        var target := checkpointMap[name];
        if target > currentStep {
          return InvalidArgument;
        }
        kv := kv[..target];
        checkpointMap := map l | l in checkpointMap && !(checkpointMap[l] > target) :: checkpointMap[l];
        assert checkpointMap == Survivors(old(checkpointMap), target);
        return Ok;
      }
      return NotFound;
    }

    method PrefillInternal(text: string) returns (status: Status)
      modifies this
      ensures (View(), status) == Apply(old(View()), Prefill(text))
    {
      kv := kv + text;
      phase := Prefilled;
      return Ok;
    }

    method DecodeInternal(text: string) returns (status: Status)
      modifies this
      ensures (View(), status) == Apply(old(View()), Decode(text))
    {
      if phase != Prefilled {
        return Internal;
      }
      phase := Decoded;
      kv := kv + text;
      return Ok;
    }
  }
}
