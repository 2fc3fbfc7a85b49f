/** The correction-applied view over a range of the event log. */
module ActiveEvidenceView {
  import opened CorrectionPayload
  import opened Directives
  import opened EventLog
  import opened Results
  import opened Strings

  datatype Fact = Fact(original: string, lowered: string)

  datatype Prepared = Prepared(correctionId: string, correctionIndex: nat, scope: Scope, facts: seq<Fact>)

  datatype Revocation = Revocation(correctionIds: seq<string>, facts: seq<string>)

  datatype Record = Record(index: nat, correctionIds: seq<string>, facts: seq<string>, original: string)

  datatype View = View(rangeStart: nat, rangeEnd: nat, activeLog: string, revokedLog: string, records: seq<Record>)

  // ---- text ------------------------------------------------------------------------------------

  function Decimal(n: nat): (s: string)
    ensures s != "" && '\n' !in s
  {
    var digit := ['0' + (n % 10) as char];
    if n < 10 then digit else Decimal(n / 10) + digit
  }

  function Join(separator: string, parts: seq<string>): string {
    if parts == [] then ""
    else if |parts| == 1 then parts[0]
    else Join(separator, parts[..|parts| - 1]) + separator + parts[|parts| - 1]
  }

  function Lines(log: string): (r: seq<string>)
    ensures r != []
  {
    if log == "" then [""]
    else
      var before, c := Lines(log[..|log| - 1]), log[|log| - 1];
      if c == '\n' then before + [""] else before[..|before| - 1] + [before[|before| - 1] + [c]]
  }

  // ---- matching ----------------------------------------------------------------------------------

  function PreparedFacts(facts: seq<string>): seq<Fact> {
    if facts == [] then []
    else
      var before, fact := PreparedFacts(facts[..|facts| - 1]), facts[|facts| - 1];
      if fact == "" then before else before + [Fact(fact, LowerAscii(fact))]
  }

  function Prepare(directives: seq<Directive>): seq<Prepared> {
    if directives == [] then []
    else
      var before, d := Prepare(directives[..|directives| - 1]), directives[|directives| - 1];
      var facts := PreparedFacts(d.invalidatedFacts);
      if facts == [] then before
      else before + [Prepared(if d.correctionId == "" then "unknown" else d.correctionId,
                              d.correctionIndex, d.scope, facts)]
  }

  predicate AppliesAt(scope: Scope, correctionIndex: nat, eventIndex: nat) {
    scope == PriorEvents ==> eventIndex < correctionIndex
  }

  /** The facts that occur in a lower-case text. */
  function Hits(lowered: string, facts: seq<Fact>): seq<string> {
    if facts == [] then []
    else
      var before, fact := Hits(lowered, facts[..|facts| - 1]), facts[|facts| - 1];
      if Find(lowered, fact.lowered, 0).None? then before else before + [fact.original]
  }

  function MatchAll(lowered: string, index: nat, directives: seq<Prepared>): Revocation {
    if directives == [] then Revocation([], [])
    else
      var before, d := MatchAll(lowered, index, directives[..|directives| - 1]), directives[|directives| - 1];
      var hits := if AppliesAt(d.scope, d.correctionIndex, index) then Hits(lowered, d.facts) else [];
      if hits == [] then before
      else Revocation(before.correctionIds + [d.correctionId], before.facts + hits)
  }

  function MatchEvent(e: Event, index: nat, directives: seq<Prepared>): Revocation {
    if e.kind == Correction then Revocation([], []) else MatchAll(LowerAscii(e.payload), index, directives)
  }

  // ---- rendering ---------------------------------------------------------------------------------

  /** What stands for a masked event. */
  function Marker(e: Event, r: Revocation): Event {
    e.(kind := InternalNote,
       payload := "REVOKED_BY_CORRECTION: this event contained " + Decimal(|r.facts|) +
                  " invalidated fact(s) and is not active evidence for the projection. Apply correction_id(s): " +
                  (if r.correctionIds == [] then "unknown" else Join(",", r.correctionIds)) +
                  ". Do not reconstruct the original revoked wording from this marker.")
  }

  function Numbered(index: nat, text: string): string { "[" + Decimal(index + 1) + "] " + text }

  /** The active line of an event; `line` writes an event as a line of JSON. */
  function ActiveLine(line: Event -> string, e: Event, index: nat, directives: seq<Prepared>): string {
    var r := MatchEvent(e, index, directives);
    Numbered(index, line(if r.facts == [] then e else Marker(e, r)))
  }

  function RecordsOf(line: Event -> string, e: Event, index: nat, directives: seq<Prepared>): seq<Record> {
    var r := MatchEvent(e, index, directives);
    if r.facts == [] then [] else [Record(index, r.correctionIds, r.facts, line(e))]
  }

  function RevokedLine(r: Record): string {
    Numbered(r.index, "revoked_by=" + Join(",", r.correctionIds) + " invalidated_facts=" + Join(" | ", r.facts) +
                      " original=" + r.original)
  }

  function RevokedLines(records: seq<Record>): seq<string> {
    if records == [] then [] else RevokedLines(records[..|records| - 1]) + [RevokedLine(records[|records| - 1])]
  }

  /** The events `events[0..]` stand at `base` and after. */
  predicate InRange(events: seq<Event>, base: nat, start: nat, end: nat) {
    base <= start <= end <= base + |events|
  }

  function ActiveLines(line: Event -> string, events: seq<Event>, base: nat, start: nat, end: nat,
                       directives: seq<Prepared>): (r: seq<string>)
    requires InRange(events, base, start, end)
    ensures |r| == end - start
  {
    if start == end then []
    else ActiveLines(line, events, base, start, end - 1, directives) +
         [ActiveLine(line, events[end - 1 - base], end - 1, directives)]
  }

  function Records(line: Event -> string, events: seq<Event>, base: nat, start: nat, end: nat,
                   directives: seq<Prepared>): seq<Record>
    requires InRange(events, base, start, end)
  {
    if start == end then []
    else Records(line, events, base, start, end - 1, directives) +
         RecordsOf(line, events[end - 1 - base], end - 1, directives)
  }

  /** `BuildActiveEvidenceViewFromEventsInternal`. */
  function BuildView(line: Event -> string, events: seq<Event>, base: nat, start: nat, end: nat,
                     directives: seq<Directive>): Result<View, Code>
  {
    if !InRange(events, base, start, end) then Err(InvalidArgument)
    else
      var prepared := Prepare(directives);
      var records := Records(line, events, base, start, end, prepared);
      Ok(View(start, end, Join("\n", ActiveLines(line, events, base, start, end, prepared)),
              Join("\n", RevokedLines(records)), records))
  }

  // ---- the loops -----------------------------------------------------------------------------------

  method PrepareCorrectionDirectives(directives: seq<Directive>) returns (prepared: seq<Prepared>)
    ensures prepared == Prepare(directives)
  {
    hide LowerAscii, PreparedFacts;
    prepared := [];
    var k := 0;
    while k < |directives|
      invariant 0 <= k <= |directives| && prepared == Prepare(directives[..k])
    {
      assert directives[..k + 1][..k] == directives[..k];
      var d := directives[k];
      var facts := PrepareFacts(d.invalidatedFacts);
      if facts != [] {
        prepared := prepared +
          [Prepared(if d.correctionId == "" then "unknown" else d.correctionId, d.correctionIndex, d.scope, facts)];
      }
      k := k + 1;
    }
    assert directives[..k] == directives;
  }

  method PrepareFacts(facts: seq<string>) returns (prepared: seq<Fact>)
    ensures prepared == PreparedFacts(facts)
  {
    hide LowerAscii;
    prepared := [];
    var j := 0;
    while j < |facts|
      invariant 0 <= j <= |facts| && prepared == PreparedFacts(facts[..j])
    {
      assert facts[..j + 1][..j] == facts[..j];
      if facts[j] != "" {
        prepared := prepared + [Fact(facts[j], LowerAscii(facts[j]))];
      }
      j := j + 1;
    }
    assert facts[..j] == facts;
  }

  method MatchRevocationForEvent(e: Event, index: nat, directives: seq<Prepared>) returns (r: Revocation)
    ensures r == MatchEvent(e, index, directives)
  {
    hide LowerAscii;
    r := Revocation([], []);
    if e.kind == Correction { return; }
    var lowered := LowerAscii(e.payload);
    var k := 0;
    while k < |directives|
      invariant 0 <= k <= |directives| && r == MatchAll(lowered, index, directives[..k])
    {
      assert directives[..k + 1][..k] == directives[..k];
      var d := directives[k];
      if AppliesAt(d.scope, d.correctionIndex, index) {
        var hits := MatchFacts(lowered, d.facts);
        if hits != [] {
          r := Revocation(r.correctionIds + [d.correctionId], r.facts + hits);
        }
      }
      k := k + 1;
    }
    assert directives[..k] == directives;
  }

  method MatchFacts(lowered: string, facts: seq<Fact>) returns (hits: seq<string>)
    ensures hits == Hits(lowered, facts)
  {
    hits := [];
    var j := 0;
    while j < |facts|
      invariant 0 <= j <= |facts| && hits == Hits(lowered, facts[..j])
    {
      assert facts[..j + 1][..j] == facts[..j];
      if Find(lowered, facts[j].lowered, 0).Some? {
        hits := hits + [facts[j].original];
      }
      j := j + 1;
    }
    assert facts[..j] == facts;
  }

  method BuildActiveEvidenceView(line: Event -> string, events: seq<Event>, base: nat, start: nat, end: nat,
                                 directives: seq<Directive>) returns (r: Result<View, Code>)
    ensures r == BuildView(line, events, base, start, end, directives)
  {
    hide MatchEvent, Marker, Numbered, RevokedLine, RevokedLines, Prepare, ActiveLines, Records, Join;
    if end < start { return Err(InvalidArgument); }
    if start < base || end > base + |events| { return Err(InvalidArgument); }
    var prepared := PrepareCorrectionDirectives(directives);
    var activeLog, revokedLog, records := "", "", [];
    Nothing(line, events, base, start, prepared);
    var i := start;
    while i < end
      invariant start <= i <= end
      invariant activeLog == Join("\n", ActiveLines(line, events, base, start, i, prepared))
      invariant records == Records(line, events, base, start, i, prepared)
      invariant revokedLog == Join("\n", RevokedLines(records))
    {
      var e := events[i - base];
      ActiveJoinEmptyIff(line, events, base, start, i, prepared);
      Next(line, events, base, start, i, prepared);
      if activeLog != "" { activeLog := activeLog + "\n"; }
      var revocation := MatchRevocationForEvent(e, i, prepared);
      if revocation.facts == [] {
        activeLog := activeLog + Numbered(i, line(e));
        assert records + [] == records;
      } else {
        activeLog := activeLog + Numbered(i, line(Marker(e, revocation)));
        var record := Record(i, revocation.correctionIds, revocation.facts, line(e));
        revokedLog := AppendRevoked(record, records, revokedLog);
        records := records + [record];
      }
      i := i + 1;
    }
    return Ok(View(start, end, activeLog, revokedLog, records));
  }

  lemma Nothing(line: Event -> string, events: seq<Event>, base: nat, start: nat, directives: seq<Prepared>)
    requires InRange(events, base, start, start)
    ensures Join("\n", ActiveLines(line, events, base, start, start, directives)) == ""
    ensures Records(line, events, base, start, start, directives) == []
    ensures Join("\n", RevokedLines([])) == ""
  {
  }

  lemma Next(line: Event -> string, events: seq<Event>, base: nat, start: nat, i: nat, directives: seq<Prepared>)
    requires InRange(events, base, start, i) && i < base + |events|
    ensures Join("\n", ActiveLines(line, events, base, start, i + 1, directives)) ==
            (if start == i then "" else Join("\n", ActiveLines(line, events, base, start, i, directives)) + "\n") +
            ActiveLine(line, events[i - base], i, directives)
    ensures Records(line, events, base, start, i + 1, directives) ==
            Records(line, events, base, start, i, directives) + RecordsOf(line, events[i - base], i, directives)
  {
    hide ActiveLine, RecordsOf;
    JoinAppend(ActiveLines(line, events, base, start, i, directives),
        ActiveLine(line, events[i - base], i, directives));
  }

  method AppendRevoked(record: Record, ghost records: seq<Record>, log: string) returns (r: string)
    requires log == Join("\n", RevokedLines(records))
    ensures r == Join("\n", RevokedLines(records + [record]))
  {
    hide RevokedLine;
    assert (records + [record])[..|records|] == records;
    JoinAppend(RevokedLines(records), RevokedLine(record));
    RevokedJoinEmptyIff(records);
    r := if log != "" then log + "\n" else log;
    r := r + RevokedLine(record);
  }

  lemma JoinAppend(parts: seq<string>, last: string)
    ensures Join("\n", parts + [last]) == (if parts == [] then "" else Join("\n", parts) + "\n") + last
  {
    assert (parts + [last])[..|parts|] == parts;
    if parts == [] { assert "" + last == last; }
  }

  lemma NumberedNonEmpty(index: nat, text: string)
    ensures Numbered(index, text) != ""
  {
  }

  lemma ActiveJoinEmptyIff(line: Event -> string, events: seq<Event>, base: nat, start: nat, end: nat,
      directives: seq<Prepared>)
    requires InRange(events, base, start, end)
    ensures Join("\n", ActiveLines(line, events, base, start, end, directives)) == "" <==> start == end
  {
    hide Numbered, MatchEvent, Marker;
    if start < end {
      var e := events[end - 1 - base];
      JoinAppend(ActiveLines(line, events, base, start, end - 1, directives), ActiveLine(line, e, end - 1, directives));
      var r := MatchEvent(e, end - 1, directives);
      NumberedNonEmpty(end - 1, line(if r.facts == [] then e else Marker(e, r)));
    }
  }

  lemma RevokedJoinEmptyIff(records: seq<Record>)
    ensures Join("\n", RevokedLines(records)) == "" <==> records == []
  {
    hide RevokedLine;
    if records != [] {
      var n := |records| - 1;
      JoinAppend(RevokedLines(records[..n]), RevokedLine(records[n]));
      RevokedLineNonEmpty(records[n]);
    }
  }

  lemma RevokedLineNonEmpty(r: Record)
    ensures RevokedLine(r) != ""
  {
    hide Numbered;
    NumberedNonEmpty(r.index, "revoked_by=" + Join(",", r.correctionIds) +
                              " invalidated_facts=" + Join(" | ", r.facts) +
                              " original=" + r.original);
  }
}
