/** What the reader of corrections accepts and makes of it, field by field: for every JSON value, not only
    those that were written. */
module PayloadReading {
  import opened Bytes
  import opened CorrectionPayload
  import opened Directives
  import opened Hashes
  import opened Results
  import opened Strings

  // ---- hashes ------------------------------------------------------------------------------------

  lemma DigitsAre(n: nat)
    requires n < 16
    ensures HEX_DIGITS[n] as int == if n < 10 then 48 + n else 87 + n
  {
    assert HEX_DIGITS == ['0', '1', '2', '3', '4', '5', '6', '7', '8', '9', 'a', 'b', 'c', 'd', 'e', 'f'];
  }

  lemma DigitCode(c: char)
    ensures var x, d := c as int, FromHexDigit(c);
            d == if 48 <= x <= 57 then x - 48 else if 97 <= x <= 102 then x - 87
                 else if 65 <= x <= 70 then x - 55 else -1
  {
  }

  lemma LowerCode(c: char)
    ensures LowerChar(c) as int == if 65 <= c as int <= 90 then c as int + 32 else c as int
  {
    LowerIs(c);
  }

  lemma DigitIff(c: char, n: nat)
    requires n < 16
    ensures FromHexDigit(c) == n <==> LowerChar(c) == HEX_DIGITS[n]
  {
    hide FromHexDigit, LowerChar;
    DigitsAre(n);
    DigitCode(c);
    LowerCode(c);
  }

  lemma DigitRange(c: char)
    ensures FromHexDigit(c) < 16
  {
    hide FromHexDigit;
    DigitCode(c);
  }

  lemma {:induction false} PairsIff(s: string, bytes: seq<Byte>)
    requires |s| % 2 == 0
    ensures FromHexPairs(s) == Some(bytes) <==> LowerAscii(s) == ToHexFrom(bytes)
  {
    hide FromHexDigit, LowerChar, ToHexFrom, LowerAscii;
    if s == "" {
      if bytes != [] { assert |ToHexFrom(bytes)| == 2 * |bytes|; }
      assert ToHexFrom([]) == "" by { assert |ToHexFrom([])| == 0; }
    } else if bytes == [] {
      assert |ToHexFrom([])| == 0;
    } else {
      PairsIff(s[2..], bytes[1..]);
      assert LowerAscii(s)[2..] == LowerAscii(s[2..]);
      DigitIff(s[0], bytes[0] / 16);
      DigitIff(s[1], bytes[0] % 16);
      DigitRange(s[0]);
      DigitRange(s[1]);
      FirstPair(bytes);
      var a, b := LowerAscii(s), ToHexFrom(bytes);
      assert a == [a[0], a[1]] + a[2..] && b == [b[0], b[1]] + b[2..];
      FirstRead(s, bytes);
    }
  }

  lemma FirstPair(bytes: seq<Byte>)
    requires bytes != []
    ensures var b := ToHexFrom(bytes);
            |b| >= 2 && b[0] == HEX_DIGITS[bytes[0] / 16] && b[1] == HEX_DIGITS[bytes[0] % 16]
            && b[2..] == ToHexFrom(bytes[1..])
  {
  }

  lemma FirstRead(s: string, bytes: seq<Byte>)
    requires |s| % 2 == 0 && s != "" && bytes != [] && FromHexDigit(s[0]) < 16 && FromHexDigit(s[1]) < 16
    ensures FromHexPairs(s) == Some(bytes) <==>
            && FromHexDigit(s[0]) == bytes[0] / 16 && FromHexDigit(s[1]) == bytes[0] % 16
            && FromHexPairs(s[2..]) == Some(bytes[1..])
  {
    hide FromHexDigit, FromHexPairs;
    var hi, lo, rest := FromHexDigit(s[0]), FromHexDigit(s[1]), FromHexPairs(s[2..]);
    PairsUnfold(s);
    if hi >= 0 && lo >= 0 && rest.Some? {
      ConsIs(hi * 16 + lo, rest.value, bytes);
      Nibbles(hi, lo, bytes[0]);
    }
  }

  lemma PairsUnfold(s: string)
    requires |s| % 2 == 0 && s != "" && FromHexDigit(s[0]) < 16 && FromHexDigit(s[1]) < 16
    ensures var hi, lo, rest := FromHexDigit(s[0]), FromHexDigit(s[1]), FromHexPairs(s[2..]);
            FromHexPairs(s) == if hi < 0 || lo < 0 || rest.None? then None else Some([hi * 16 + lo] + rest.value)
  {
    hide FromHexDigit;
  }

  lemma ConsIs(x: Byte, rest: seq<Byte>, bytes: seq<Byte>)
    requires bytes != []
    ensures [x] + rest == bytes <==> x == bytes[0] && rest == bytes[1..]
  {
    assert bytes == [bytes[0]] + bytes[1..];
    assert ([x] + rest)[1..] == rest;
  }

  lemma Nibbles(hi: nat, lo: nat, b: Byte)
    requires hi < 16 && lo < 16
    ensures hi * 16 + lo == b <==> hi == b / 16 && lo == b % 16
  {
  }

  /** A text is read as a hash exactly if it is the hash's hexadecimal form but for the case of its letters. */
  lemma {:induction false} HashReadIff(s: string, h: Hash256)
    ensures FromHex(s) == Some(h) <==> LowerAscii(s) == ToHex(h)
  {
    hide FromHexPairs, ToHexFrom, LowerAscii;
    if |s| == 64 { PairsIff(s, h); }
  }

  // ---- fields ------------------------------------------------------------------------------------

  predicate TextField(o: map<Field, Json>, key: Field, default: string, value: string) {
    if key in o then o[key] == Str(value) else value == default
  }

  predicate FlagField(o: map<Field, Json>, key: Field, default: bool, value: bool) {
    if key in o then o[key] == Bool(value) else value == default
  }

  /** Numbers wrap around at 64 bits. */
  predicate NumberField(o: map<Field, Json>, key: Field, default: int, value: int) {
    if key in o then o[key].Num? && (o[key].n - value) % 0x1_0000_0000_0000_0000 == 0 else value == default
  }

  predicate IsHash(j: Json, h: Hash256) {
    j.Str? && LowerAscii(j.s) == ToHex(h)
  }

  predicate TextsField(o: map<Field, Json>, key: Field, value: seq<string>) {
    if key in o && o[key].Arr? then
      |o[key].items| == |value| && forall i :: 0 <= i < |value| ==> o[key].items[i] == Str(value[i])
    else value == []
  }

  predicate HashesField(o: map<Field, Json>, key: Field, value: seq<Hash256>) {
    if key in o && o[key].Arr? then
      |o[key].items| == |value| && forall i :: 0 <= i < |value| ==> IsHash(o[key].items[i], value[i])
    else value == []
  }

  /** The object spells the correction: absent fields stand for their defaults, a list that is no array for the
      empty one; ids, reason, hashes that are not all zero, a range in order and a time after zero are asked for. */
  ghost predicate Spells(o: map<Field, Json>, p: Payload) {
    && TextField(o, CorrectionId, "", p.correctionId)
    && TargetCheckpoint in o && IsHash(o[TargetCheckpoint], p.target)
    && NumberField(o, RangeStart, 0, p.rangeStart) && NumberField(o, RangeEnd, 0, p.rangeEnd)
    && AuditCertificateId in o && IsHash(o[AuditCertificateId], p.certificateId)
    && TextField(o, ReasonCode, "", p.reasonCode)
    && SpellsNames(o, p)
    && TextsField(o, DriftFields, p.driftFields)
    && HashesField(o, InvalidatesCheckpoints, p.invalidates)
    && TextField(o, CorrectionText, "", p.correctionText)
    && TextsField(o, InvalidatedFacts, p.invalidatedFacts)
    && TextsField(o, ReplacementFacts, p.replacementFacts)
    && TextField(o, ReplacementProjection, "", p.replacementProjection)
    && FlagField(o, MustInterrupt, true, p.mustInterrupt)
    && NumberField(o, CreatedUnixMicros, 0, p.createdMicros)
    && Complete(p)
  }

  predicate SpellsNames(o: map<Field, Json>, p: Payload) {
    && (p.severity == Info ==> TextField(o, SeverityField, "blocking", "info"))
    && (p.severity == Warning ==> TextField(o, SeverityField, "blocking", "warning"))
    && (p.severity == Blocking ==> TextField(o, SeverityField, "blocking", "blocking"))
    && (p.scope == PriorEvents ==> TextField(o, ScopeField, "checkpoint_range", "prior_events"))
    && (p.scope == CheckpointRange ==> TextField(o, ScopeField, "checkpoint_range", "checkpoint_range"))
    && (p.scope == Global ==> TextField(o, ScopeField, "checkpoint_range", "global"))
  }

  ghost predicate Complete(p: Payload) {
    && p.correctionId != "" && p.reasonCode != "" && p.rangeStart <= p.rangeEnd && p.createdMicros > 0
    && (exists i :: 0 <= i < 32 && p.target[i] != 0) && (exists i :: 0 <= i < 32 && p.certificateId[i] != 0)
  }

  lemma ZerosAre(h: Hash256)
    ensures h == ZEROS <==> forall i :: 0 <= i < 32 ==> h[i] == 0
  {
    assert forall i :: 0 <= i < 32 ==> ZEROS[i] == 0;
  }

  lemma CompleteIff(p: Payload)
    ensures Valid(p) <==> Complete(p)
  {
    ZerosAre(p.target);
    ZerosAre(p.certificateId);
  }

  lemma TextIff(o: map<Field, Json>, key: Field, default: string, value: string)
    ensures StringOr(o, key, default) == Ok(value) <==> TextField(o, key, default, value)
  {
  }

  lemma FlagIff(o: map<Field, Json>, key: Field, default: bool, value: bool)
    ensures BoolOr(o, key, default) == Ok(value) <==> FlagField(o, key, default, value)
  {
  }

  lemma Congruent(n: int, value: int)
    requires 0 <= value < 0x1_0000_0000_0000_0000
    ensures n % 0x1_0000_0000_0000_0000 == value <==> (n - value) % 0x1_0000_0000_0000_0000 == 0
  {
  }

  lemma U64Iff(o: map<Field, Json>, key: Field, default: U64, value: U64)
    ensures U64Or(o, key, default) == Ok(value) <==> NumberField(o, key, default, value)
  {
    if key in o && o[key].Num? { Congruent(o[key].n, value); }
  }

  lemma I64Iff(o: map<Field, Json>, key: Field, default: I64, value: I64)
    ensures I64Or(o, key, default) == Ok(value) <==> NumberField(o, key, default, value)
  {
    if key in o && o[key].Num? { Congruent(o[key].n + 0x8000_0000_0000_0000, value + 0x8000_0000_0000_0000); }
  }

  lemma HashIff(o: map<Field, Json>, key: Field, h: Hash256)
    ensures HashField(o, key) == Ok(h) <==> key in o && IsHash(o[key], h)
  {
    hide FromHex, ToHex, LowerAscii;
    if key in o && o[key].Str? { HashReadIff(o[key].s, h); }
  }

  lemma {:induction false} StringListIff(items: seq<Json>, value: seq<string>)
    ensures StringList(items) == Ok(value) <==>
            |items| == |value| && forall i :: 0 <= i < |value| ==> items[i] == Str(value[i])
  {
    if items != [] && value != [] {
      StringListIff(items[1..], value[1..]);
      assert value == [value[0]] + value[1..];
      assert forall i :: 0 < i < |value| ==> value[i] == value[1..][i - 1];
      assert forall i :: 0 < i < |items| ==> items[i] == items[1..][i - 1];
      var rest := StringList(items[1..]);
      if StringList(items) == Ok(value) { assert ([items[0].s] + rest.value)[1..] == rest.value; }
    }
  }

  lemma TextsIff(o: map<Field, Json>, key: Field, value: seq<string>)
    ensures StringsField(o, key) == Ok(value) <==> TextsField(o, key, value)
  {
    hide StringList;
    if key in o && o[key].Arr? { StringListIff(o[key].items, value); }
  }

  lemma {:induction false} HashListIff(texts: seq<string>, value: seq<Hash256>)
    ensures HashList(texts) == Ok(value) <==>
            |texts| == |value| && forall i :: 0 <= i < |value| ==> LowerAscii(texts[i]) == ToHex(value[i])
  {
    hide FromHex, ToHex, LowerAscii;
    if texts != [] && value != [] {
      HashListIff(texts[1..], value[1..]);
      HashReadIff(texts[0], value[0]);
      assert value == [value[0]] + value[1..];
      assert forall i :: 0 < i < |value| ==> value[i] == value[1..][i - 1];
      assert forall i :: 0 < i < |texts| ==> texts[i] == texts[1..][i - 1];
      var rest := HashList(texts[1..]);
      if HashList(texts) == Ok(value) { assert ([FromHex(texts[0]).value] + rest.value)[1..] == rest.value; }
    }
  }

  lemma {:induction false} HashesIff(o: map<Field, Json>, key: Field, value: seq<Hash256>)
    ensures (exists texts :: StringsField(o, key) == Ok(texts) && HashList(texts) == Ok(value)) <==>
            HashesField(o, key, value)
  {
    hide HashList, StringList, ToHex, LowerAscii, StringsField;
    var read := StringsField(o, key);
    if read.Ok? {
      TextsIff(o, key, read.value);
      HashListIff(read.value, value);
    }
    if HashesField(o, key, value) {
      var texts := if key in o && o[key].Arr? then TextsOf(o[key].items) else [];
      TextsIff(o, key, texts);
      HashListIff(texts, value);
    }
  }

  function TextsOf(items: seq<Json>): (r: seq<string>)
    ensures |r| == |items| && forall i :: 0 <= i < |r| && items[i].Str? ==> items[i] == Str(r[i])
  {
    seq(|items|, i requires 0 <= i < |items| => if items[i].Str? then items[i].s else "")
  }

  lemma SeverityIff(text: string, severity: Severity)
    ensures SeverityFromString(text) == Ok(severity) <==>
            && (severity == Info ==> text == "info") && (severity == Warning ==> text == "warning")
            && (severity == Blocking ==> text == "blocking")
  {
    assert "info"[0] != "warning"[0] && "info"[0] != "blocking"[0] && "warning"[0] != "blocking"[0];
  }

  lemma ScopeIff(text: string, scope: Scope)
    ensures ScopeFromString(text) == Ok(scope) <==>
            && (scope == PriorEvents ==> text == "prior_events")
            && (scope == CheckpointRange ==> text == "checkpoint_range")
            && (scope == Global ==> text == "global")
  {
    assert "prior_events"[0] != "checkpoint_range"[0] && "prior_events"[0] != "global"[0]
        && "checkpoint_range"[0] != "global"[0];
  }

  lemma {:induction false} NamesIff(o: map<Field, Json>, p: Payload)
    ensures (&& (exists s :: StringOr(o, SeverityField, "blocking") == Ok(s) && SeverityFromString(s) == Ok(p.severity))
             && (exists s :: StringOr(o, ScopeField, "checkpoint_range") == Ok(s) && ScopeFromString(s) == Ok(p.scope)))
            <==> SpellsNames(o, p)
  {
    hide StringOr, SeverityFromString, ScopeFromString, TextField;
    forall s ensures StringOr(o, SeverityField, "blocking") == Ok(s) <==> TextField(o, SeverityField, "blocking", s) {
      TextIff(o, SeverityField, "blocking", s);
    }
    forall s
      ensures StringOr(o, ScopeField, "checkpoint_range") == Ok(s) <==> TextField(o, ScopeField, "checkpoint_range", s)
    {
      TextIff(o, ScopeField, "checkpoint_range", s);
    }
    forall s ensures SeverityFromString(s) == Ok(p.severity) <==>
      (p.severity == Info ==> s == "info") && (p.severity == Warning ==> s == "warning")
      && (p.severity == Blocking ==> s == "blocking")
    {
      SeverityIff(s, p.severity);
    }
    forall s ensures ScopeFromString(s) == Ok(p.scope) <==>
      (p.scope == PriorEvents ==> s == "prior_events") && (p.scope == CheckpointRange ==> s == "checkpoint_range")
      && (p.scope == Global ==> s == "global")
    {
      ScopeIff(s, p.scope);
    }
  }

  /** The reader accepts exactly the objects that spell a correction, and gives that correction; everything else
      is an invalid argument. */
  lemma {:induction false} ReadIff(j: Json, p: Payload)
    ensures FromJson(j) == Ok(p) <==> j.Obj? && Spells(j.fields, p)
    ensures FromJson(j).Err? ==> FromJson(j).error == InvalidArgument
  {
    hide StringOr, U64Or, I64Or, BoolOr, HashField, StringsField, HashList, Valid, Complete, SpellsNames, TextField,
         NumberField, FlagField, IsHash, TextsField, HashesField, SeverityFromString, ScopeFromString;
    if j.Obj? {
      var o := j.fields;
      ScalarsIff(o, p);
      ListsIff(o, p);
      NamesIff(o, p);
      CompleteIff(p);
      ReadsWhole(j, p);
    }
    ErrorsAre(j);
  }

  lemma ScalarsIff(o: map<Field, Json>, p: Payload)
    ensures StringOr(o, CorrectionId, "") == Ok(p.correctionId) <==> TextField(o, CorrectionId, "", p.correctionId)
    ensures U64Or(o, RangeStart, 0) == Ok(p.rangeStart) <==> NumberField(o, RangeStart, 0, p.rangeStart)
    ensures U64Or(o, RangeEnd, 0) == Ok(p.rangeEnd) <==> NumberField(o, RangeEnd, 0, p.rangeEnd)
    ensures StringOr(o, ReasonCode, "") == Ok(p.reasonCode) <==> TextField(o, ReasonCode, "", p.reasonCode)
    ensures StringOr(o, CorrectionText, "") == Ok(p.correctionText) <==>
            TextField(o, CorrectionText, "", p.correctionText)
    ensures StringOr(o, ReplacementProjection, "") == Ok(p.replacementProjection) <==>
            TextField(o, ReplacementProjection, "", p.replacementProjection)
    ensures BoolOr(o, MustInterrupt, true) == Ok(p.mustInterrupt) <==>
            FlagField(o, MustInterrupt, true, p.mustInterrupt)
    ensures I64Or(o, CreatedUnixMicros, 0) == Ok(p.createdMicros) <==>
            NumberField(o, CreatedUnixMicros, 0, p.createdMicros)
  {
    hide StringOr, U64Or, I64Or, BoolOr, TextField, NumberField, FlagField;
    TextIff(o, CorrectionId, "", p.correctionId);
    U64Iff(o, RangeStart, 0, p.rangeStart);
    U64Iff(o, RangeEnd, 0, p.rangeEnd);
    TextIff(o, ReasonCode, "", p.reasonCode);
    TextIff(o, CorrectionText, "", p.correctionText);
    TextIff(o, ReplacementProjection, "", p.replacementProjection);
    FlagIff(o, MustInterrupt, true, p.mustInterrupt);
    I64Iff(o, CreatedUnixMicros, 0, p.createdMicros);
  }

  lemma ListsIff(o: map<Field, Json>, p: Payload)
    ensures HashField(o, TargetCheckpoint) == Ok(p.target) <==>
            TargetCheckpoint in o && IsHash(o[TargetCheckpoint], p.target)
    ensures HashField(o, AuditCertificateId) == Ok(p.certificateId) <==>
            AuditCertificateId in o && IsHash(o[AuditCertificateId], p.certificateId)
    ensures StringsField(o, DriftFields) == Ok(p.driftFields) <==> TextsField(o, DriftFields, p.driftFields)
    ensures (exists texts ::
               StringsField(o, InvalidatesCheckpoints) == Ok(texts) && HashList(texts) == Ok(p.invalidates))
            <==> HashesField(o, InvalidatesCheckpoints, p.invalidates)
    ensures StringsField(o, InvalidatedFacts) == Ok(p.invalidatedFacts) <==>
            TextsField(o, InvalidatedFacts, p.invalidatedFacts)
    ensures StringsField(o, ReplacementFacts) == Ok(p.replacementFacts) <==>
            TextsField(o, ReplacementFacts, p.replacementFacts)
  {
    hide HashField, IsHash, StringsField, HashList, TextsField, HashesField;
    HashIff(o, TargetCheckpoint, p.target);
    HashIff(o, AuditCertificateId, p.certificateId);
    TextsIff(o, DriftFields, p.driftFields);
    HashesIff(o, InvalidatesCheckpoints, p.invalidates);
    TextsIff(o, InvalidatedFacts, p.invalidatedFacts);
    TextsIff(o, ReplacementFacts, p.replacementFacts);
  }

  /** All the fields, read one after the other. */
  lemma {:induction false} ReadsWhole(j: Json, p: Payload)
    requires j.Obj?
    ensures var o := j.fields;
            FromJson(j) == Ok(p) <==>
            && StringOr(o, CorrectionId, "") == Ok(p.correctionId)
            && HashField(o, TargetCheckpoint) == Ok(p.target)
            && U64Or(o, RangeStart, 0) == Ok(p.rangeStart) && U64Or(o, RangeEnd, 0) == Ok(p.rangeEnd)
            && HashField(o, AuditCertificateId) == Ok(p.certificateId)
            && StringOr(o, ReasonCode, "") == Ok(p.reasonCode)
            && (exists s :: StringOr(o, SeverityField, "blocking") == Ok(s) && SeverityFromString(s) == Ok(p.severity))
            && StringsField(o, DriftFields) == Ok(p.driftFields)
            && (exists texts :: StringsField(o, InvalidatesCheckpoints) == Ok(texts)
                  && HashList(texts) == Ok(p.invalidates))
            && StringOr(o, CorrectionText, "") == Ok(p.correctionText)
            && StringsField(o, InvalidatedFacts) == Ok(p.invalidatedFacts)
            && StringsField(o, ReplacementFacts) == Ok(p.replacementFacts)
            && (exists s :: StringOr(o, ScopeField, "checkpoint_range") == Ok(s) && ScopeFromString(s) == Ok(p.scope))
            && StringOr(o, ReplacementProjection, "") == Ok(p.replacementProjection)
            && BoolOr(o, MustInterrupt, true) == Ok(p.mustInterrupt)
            && I64Or(o, CreatedUnixMicros, 0) == Ok(p.createdMicros)
            && Valid(p)
  {
    hide StringOr, U64Or, I64Or, BoolOr, HashField, StringsField, HashList, Valid, SeverityFromString, ScopeFromString;
  }

  lemma {:induction false} ErrorsAre(j: Json)
    ensures FromJson(j).Err? ==> FromJson(j).error == InvalidArgument
  {
    hide StringOr, U64Or, I64Or, BoolOr, HashField, StringsField, HashList, Valid, SeverityFromString, ScopeFromString;
    if j.Obj? {
      var o := j.fields;
      TextError(o, CorrectionId, "");
      HashError(o, TargetCheckpoint);
      U64Error(o, RangeStart, 0);
      U64Error(o, RangeEnd, 0);
      HashError(o, AuditCertificateId);
      TextError(o, ReasonCode, "");
      TextError(o, SeverityField, "blocking");
      ListErrors(o, DriftFields);
      ListErrors(o, InvalidatesCheckpoints);
      TextError(o, CorrectionText, "");
      ListErrors(o, InvalidatedFacts);
      ListErrors(o, ReplacementFacts);
      TextError(o, ScopeField, "checkpoint_range");
      TextError(o, ReplacementProjection, "");
      FlagError(o, MustInterrupt, true);
      I64Error(o, CreatedUnixMicros, 0);
      forall s: string ensures SeverityFromString(s).Err? ==> SeverityFromString(s).error == InvalidArgument {
        NameErrors(s);
      }
      forall s: string ensures ScopeFromString(s).Err? ==> ScopeFromString(s).error == InvalidArgument {
        NameErrors(s);
      }
      forall texts ensures HashList(texts).Err? ==> HashList(texts).error == InvalidArgument { HashErrors(texts); }
    }
  }

  lemma TextError(o: map<Field, Json>, key: Field, default: string)
    ensures StringOr(o, key, default).Err? ==> StringOr(o, key, default).error == InvalidArgument
  {
  }

  lemma FlagError(o: map<Field, Json>, key: Field, default: bool)
    ensures BoolOr(o, key, default).Err? ==> BoolOr(o, key, default).error == InvalidArgument
  {
  }

  lemma U64Error(o: map<Field, Json>, key: Field, default: U64)
    ensures U64Or(o, key, default).Err? ==> U64Or(o, key, default).error == InvalidArgument
  {
  }

  lemma I64Error(o: map<Field, Json>, key: Field, default: I64)
    ensures I64Or(o, key, default).Err? ==> I64Or(o, key, default).error == InvalidArgument
  {
  }

  lemma HashError(o: map<Field, Json>, key: Field)
    ensures HashField(o, key).Err? ==> HashField(o, key).error == InvalidArgument
  {
    hide FromHex;
  }

  lemma NameErrors(s: string)
    ensures SeverityFromString(s).Err? ==> SeverityFromString(s).error == InvalidArgument
    ensures ScopeFromString(s).Err? ==> ScopeFromString(s).error == InvalidArgument
  {
  }

  lemma {:induction false} ListErrors(o: map<Field, Json>, key: Field)
    ensures StringsField(o, key).Err? ==> StringsField(o, key).error == InvalidArgument
  {
    hide StringList;
    if key in o && o[key].Arr? { StringErrors(o[key].items); }
  }

  lemma {:induction false} StringErrors(items: seq<Json>)
    ensures StringList(items).Err? ==> StringList(items).error == InvalidArgument
  {
    if items != [] { StringErrors(items[1..]); }
  }

  lemma {:induction false} HashErrors(texts: seq<string>)
    ensures HashList(texts).Err? ==> HashList(texts).error == InvalidArgument
  {
    hide FromHex;
    if texts != [] { HashErrors(texts[1..]); }
  }
}
