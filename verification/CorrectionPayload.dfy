/** Correction payloads and their JSON form (`correction_protocol.cc`).  Text and hashes aside, the
    JSON is read and written field by field, with the defaults of the reader. */
module CorrectionPayload {
  import opened Hashes
  import opened Results
  import opened Strings

  type U64 = n: int | 0 <= n < 0x1_0000_0000_0000_0000
  type I64 = n: int | -0x8000_0000_0000_0000 <= n < 0x8000_0000_0000_0000

  datatype Severity = Info | Warning | Blocking

  datatype Scope = PriorEvents | CheckpointRange | Global

  datatype Payload = Payload(
    correctionId: string,
    target: Hash256,
    rangeStart: U64,
    rangeEnd: U64,
    certificateId: Hash256,
    reasonCode: string,
    severity: Severity,
    driftFields: seq<string>,
    invalidates: seq<Hash256>,
    correctionText: string,
    invalidatedFacts: seq<string>,
    replacementFacts: seq<string>,
    scope: Scope,
    replacementProjection: string,
    mustInterrupt: bool,
    createdMicros: I64)

  /** `ValidateCorrectionPayload`. */
  predicate Valid(p: Payload) {
    && p.correctionId != ""
    && p.target != ZEROS
    && p.rangeStart <= p.rangeEnd
    && p.certificateId != ZEROS
    && p.reasonCode != ""
    && p.createdMicros > 0
  }

  // ---- the JSON form ---------------------------------------------------------------------------

  /** The fields of the object; one that is not known is never read. */
  datatype Field =
      CorrectionId | TargetCheckpoint | RangeStart | RangeEnd | AuditCertificateId | ReasonCode | SeverityField
    | DriftFields | InvalidatesCheckpoints | CorrectionText | InvalidatedFacts | ReplacementFacts | ScopeField
    | ReplacementProjection | MustInterrupt | CreatedUnixMicros | Unknown(name: string)

  datatype Json = Null | Str(s: string) | Num(n: int) | Bool(b: bool) | Arr(items: seq<Json>) | Obj(fields: map<Field,
      Json>)

  function SeverityToString(s: Severity): string {
    match s case Info => "info" case Warning => "warning" case Blocking => "blocking"
  }

  function SeverityFromString(s: string): Result<Severity, Code> {
    if s == "info" then Ok(Info)
    else if s == "warning" then Ok(Warning)
    else if s == "blocking" then Ok(Blocking)
    else Err(InvalidArgument)
  }

  function ScopeToString(s: Scope): string {
    match s case PriorEvents => "prior_events" case CheckpointRange => "checkpoint_range" case Global => "global"
  }

  function ScopeFromString(s: string): Result<Scope, Code> {
    if s == "prior_events" then Ok(PriorEvents)
    else if s == "checkpoint_range" then Ok(CheckpointRange)
    else if s == "global" then Ok(Global)
    else Err(InvalidArgument)
  }

  function StrItems(items: seq<string>): seq<Json> {
    if items == [] then [] else [Str(items[0])] + StrItems(items[1..])
  }

  function Strs(items: seq<string>): Json { Arr(StrItems(items)) }

  function Hexes(hashes: seq<Hash256>): seq<string> {
    if hashes == [] then [] else [ToHex(hashes[0])] + Hexes(hashes[1..])
  }

  /** `CorrectionPayloadToJson`, before it is dumped as text. */
  function ToJson(p: Payload): Json {
    Obj(map[
      CorrectionId := Str(p.correctionId),
      TargetCheckpoint := Str(ToHex(p.target)),
      RangeStart := Num(p.rangeStart),
      RangeEnd := Num(p.rangeEnd),
      AuditCertificateId := Str(ToHex(p.certificateId)),
      ReasonCode := Str(p.reasonCode),
      SeverityField := Str(SeverityToString(p.severity)),
      DriftFields := Strs(p.driftFields),
      InvalidatesCheckpoints := Strs(Hexes(p.invalidates)),
      CorrectionText := Str(p.correctionText),
      InvalidatedFacts := Strs(p.invalidatedFacts),
      ReplacementFacts := Strs(p.replacementFacts),
      ScopeField := Str(ScopeToString(p.scope)),
      ReplacementProjection := Str(p.replacementProjection),
      MustInterrupt := Bool(p.mustInterrupt),
      CreatedUnixMicros := Num(p.createdMicros)])
  }

  // ---- the reader --------------------------------------------------------------------------------

  /** A field with a default; a value of the wrong type is an error. */
  function StringOr(o: map<Field, Json>, key: Field, default: string): Result<string, Code> {
    if key !in o then Ok(default) else if o[key].Str? then Ok(o[key].s) else Err(InvalidArgument)
  }

  function BoolOr(o: map<Field, Json>, key: Field, default: bool): Result<bool, Code> {
    if key !in o then Ok(default) else if o[key].Bool? then Ok(o[key].b) else Err(InvalidArgument)
  }

  function U64Or(o: map<Field, Json>, key: Field, default: U64): Result<U64, Code> {
    if key !in o then Ok(default)
    else if o[key].Num? then Ok(o[key].n % 0x1_0000_0000_0000_0000) else Err(InvalidArgument)
  }

  function I64Or(o: map<Field, Json>, key: Field, default: I64): Result<I64, Code> {
    if key !in o then Ok(default)
    else if o[key].Num? then
      Ok((o[key].n + 0x8000_0000_0000_0000) % 0x1_0000_0000_0000_0000 - 0x8000_0000_0000_0000)
    else Err(InvalidArgument)
  }

  function HashField(o: map<Field, Json>, key: Field): Result<Hash256, Code> {
    if key !in o || !o[key].Str? then Err(InvalidArgument)
    else
      var h := FromHex(o[key].s);
      if h.Some? then Ok(h.value) else Err(InvalidArgument)
  }

  function StringList(items: seq<Json>): Result<seq<string>, Code> {
    if items == [] then Ok([])
    else if !items[0].Str? then Err(InvalidArgument)
    else
      var rest :- StringList(items[1..]);
      Ok([items[0].s] + rest)
  }

  /** A list field: one that is missing or is no array counts as empty. */
  function StringsField(o: map<Field, Json>, key: Field): Result<seq<string>, Code> {
    if key in o && o[key].Arr? then StringList(o[key].items) else Ok([])
  }

  function HashList(texts: seq<string>): Result<seq<Hash256>, Code> {
    if texts == [] then Ok([])
    else
      var h := FromHex(texts[0]);
      if h.None? then Err(InvalidArgument)
      else
        var rest :- HashList(texts[1..]);
        Ok([h.value] + rest)
  }

  /** `CorrectionPayloadFromJson`, after the text is parsed. */
  function FromJson(j: Json): Result<Payload, Code> {
    if !j.Obj? then Err(InvalidArgument)
    else
      var o := j.fields;
      var correctionId :- StringOr(o, CorrectionId, "");
      var target :- HashField(o, TargetCheckpoint);
      var rangeStart :- U64Or(o, RangeStart, 0);
      var rangeEnd :- U64Or(o, RangeEnd, 0);
      var certificateId :- HashField(o, AuditCertificateId);
      var reasonCode :- StringOr(o, ReasonCode, "");
      var severityText :- StringOr(o, SeverityField, "blocking");
      var severity :- SeverityFromString(severityText);
      var driftFields :- StringsField(o, DriftFields);
      var hexes :- StringsField(o, InvalidatesCheckpoints);
      var invalidates :- HashList(hexes);
      var correctionText :- StringOr(o, CorrectionText, "");
      var invalidatedFacts :- StringsField(o, InvalidatedFacts);
      var replacementFacts :- StringsField(o, ReplacementFacts);
      var scopeText :- StringOr(o, ScopeField, "checkpoint_range");
      var scope :- ScopeFromString(scopeText);
      var replacementProjection :- StringOr(o, ReplacementProjection, "");
      var mustInterrupt :- BoolOr(o, MustInterrupt, true);
      var createdMicros :- I64Or(o, CreatedUnixMicros, 0);
      var p := Payload(correctionId, target, rangeStart, rangeEnd, certificateId, reasonCode, severity, driftFields,
                       invalidates, correctionText, invalidatedFacts, replacementFacts, scope, replacementProjection,
                       mustInterrupt, createdMicros);
      if Valid(p) then Ok(p) else Err(InvalidArgument)
  }

  lemma {:induction false} StringsOfStrs(items: seq<string>)
    ensures StringList(StrItems(items)) == Ok(items)
  {
    if items != [] {
      StringsOfStrs(items[1..]);
      assert StrItems(items)[1..] == StrItems(items[1..]);
      assert [items[0]] + items[1..] == items;
    }
  }

  lemma {:induction false} HashesOfHexes(hashes: seq<Hash256>)
    ensures HashList(Hexes(hashes)) == Ok(hashes)
  {
    if hashes != [] {
      HashesOfHexes(hashes[1..]);
      assert Hexes(hashes)[1..] == Hexes(hashes[1..]);
      HexRoundTrip(hashes[0]);
      assert [hashes[0]] + hashes[1..] == hashes;
    }
  }

  lemma ScalarsRead(p: Payload)
    ensures var o := ToJson(p).fields;
            && StringOr(o, CorrectionId, "") == Ok(p.correctionId)
            && U64Or(o, RangeStart, 0) == Ok(p.rangeStart)
            && U64Or(o, RangeEnd, 0) == Ok(p.rangeEnd)
            && StringOr(o, ReasonCode, "") == Ok(p.reasonCode)
            && StringOr(o, SeverityField, "blocking") == Ok(SeverityToString(p.severity))
            && StringOr(o, CorrectionText, "") == Ok(p.correctionText)
            && StringOr(o, ScopeField, "checkpoint_range") == Ok(ScopeToString(p.scope))
            && StringOr(o, ReplacementProjection, "") == Ok(p.replacementProjection)
            && BoolOr(o, MustInterrupt, true) == Ok(p.mustInterrupt)
            && I64Or(o, CreatedUnixMicros, 0) == Ok(p.createdMicros)
  {
    hide ToHex, Strs, Hexes, SeverityToString, ScopeToString;
  }

  lemma HashesAndListsRead(p: Payload)
    ensures var o := ToJson(p).fields;
            && HashField(o, TargetCheckpoint) == Ok(p.target)
            && HashField(o, AuditCertificateId) == Ok(p.certificateId)
            && StringsField(o, DriftFields) == Ok(p.driftFields)
            && StringsField(o, InvalidatesCheckpoints) == Ok(Hexes(p.invalidates))
            && HashList(Hexes(p.invalidates)) == Ok(p.invalidates)
            && StringsField(o, InvalidatedFacts) == Ok(p.invalidatedFacts)
            && StringsField(o, ReplacementFacts) == Ok(p.replacementFacts)
  {
    hide ToHex, FromHex, StrItems, StringList, Hexes, HashList, SeverityToString, ScopeToString;
    HexRoundTrip(p.target);
    HexRoundTrip(p.certificateId);
    StringsOfStrs(p.driftFields);
    StringsOfStrs(Hexes(p.invalidates));
    HashesOfHexes(p.invalidates);
    StringsOfStrs(p.invalidatedFacts);
    StringsOfStrs(p.replacementFacts);
  }

  lemma NamesRead(severity: Severity, scope: Scope)
    ensures SeverityFromString(SeverityToString(severity)) == Ok(severity)
    ensures ScopeFromString(ScopeToString(scope)) == Ok(scope)
  {
    assert "info"[0] != "warning"[0] && "info"[0] != "blocking"[0] && "warning"[0] != "blocking"[0];
    assert "prior_events"[0] != "checkpoint_range"[0] && "prior_events"[0] != "global"[0]
        && "checkpoint_range"[0] != "global"[0];
  }

  /** What is written is read back unchanged, exactly when it is valid; an invalid payload is
      refused. */
  lemma {:induction false} JsonRoundTrip(p: Payload)
    ensures FromJson(ToJson(p)) == if Valid(p) then Ok(p) else Err(InvalidArgument)
  {
    hide StringOr, U64Or, I64Or, BoolOr, HashField, StringsField, HashList, Hexes, Valid,
         SeverityFromString, SeverityToString, ScopeFromString, ScopeToString;
    ScalarsRead(p);
    HashesAndListsRead(p);
    NamesRead(p.severity, p.scope);
  }

  // ---- what a correction mentions ------------------------------------------------------------------

  predicate Mentions(p: Payload, h: Hash256) {
    p.target == h || h in p.invalidates
  }

  method MentionsCheckpoint(p: Payload, h: Hash256) returns (r: bool)
    ensures r <==> Mentions(p, h)
  {
    if p.target == h { return true; }
    var k := 0;
    while k < |p.invalidates|
      invariant 0 <= k <= |p.invalidates| && h !in p.invalidates[..k]
    {
      if p.invalidates[k] == h { return true; }
      k := k + 1;
    }
    return false;
  }

  /** The list without the later occurrences of anything. */
  function Distinct<T(==)>(items: seq<T>): seq<T> {
    if items == [] then []
    else
      var before, last := Distinct(items[..|items| - 1]), items[|items| - 1];
      if last in before then before else before + [last]
  }

  function Mentioned(p: Payload): seq<Hash256> { Distinct([p.target] + p.invalidates) }

  method MentionedCheckpoints(p: Payload) returns (hashes: seq<Hash256>)
    ensures hashes == Mentioned(p)
  {
    hashes := [p.target];
    var k := 0;
    ghost var all := [p.target] + p.invalidates;
    assert all[..1] == [p.target] && all[..1][..0] == [];
    while k < |p.invalidates|
      invariant 0 <= k <= |p.invalidates|
      invariant hashes == Distinct(all[..k + 1])
    {
      assert all[..k + 2][..k + 1] == all[..k + 1];
      if p.invalidates[k] !in hashes {
        hashes := hashes + [p.invalidates[k]];
      }
      k := k + 1;
    }
    assert all[..|p.invalidates| + 1] == all;
  }

  lemma {:induction false} DistinctSame<T>(items: seq<T>, x: T)
    ensures x in Distinct(items) <==> x in items
  {
    if items != [] {
      DistinctSame(items[..|items| - 1], x);
      assert items == items[..|items| - 1] + [items[|items| - 1]];
    }
  }

  lemma {:induction false} DistinctOnce<T>(items: seq<T>)
    ensures forall i, j :: 0 <= i < j < |Distinct(items)| ==> Distinct(items)[i] != Distinct(items)[j]
  {
    if items != [] { DistinctOnce(items[..|items| - 1]); }
  }

  /** A correction's list of checkpoints holds just those it mentions, each once. */
  lemma MentionsIffMentioned(p: Payload, h: Hash256)
    ensures h in Mentioned(p) <==> Mentions(p, h)
    ensures forall i, j :: 0 <= i < j < |Mentioned(p)| ==> Mentioned(p)[i] != Mentioned(p)[j]
  {
    DistinctSame([p.target] + p.invalidates, h);
    DistinctOnce([p.target] + p.invalidates);
  }
}
