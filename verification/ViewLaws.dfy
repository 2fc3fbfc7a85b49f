/** What is written in an active view, word for word: its lines, its records and the log of what was
    masked, in terms of the events and directives alone. */
module ViewLaws {
  import opened ActiveEvidenceView
  import opened CorrectionPayload
  import opened Directives
  import opened EventLog
  import opened EvidenceLaws
  import opened Results
  import opened Selections
  import opened Strings

  // ---- numbers and joined texts ----------------------------------------------------------------

  /** The number that decimal digits spell. */
  function Spelled(s: string): int {
    if s == "" then 0 else 10 * Spelled(s[..|s| - 1]) + (s[|s| - 1] as int - '0' as int)
  }

  /** A number is written in decimal digits, without leading zeros. */
  lemma {:induction false} DecimalIs(n: nat)
    ensures Spelled(Decimal(n)) == n
    ensures forall i :: 0 <= i < |Decimal(n)| ==> '0' <= Decimal(n)[i] <= '9'
    ensures Decimal(n)[0] == '0' ==> n == 0 && |Decimal(n)| == 1
  {
    var s := Decimal(n);
    var digit := '0' + (n % 10) as char;
    assert digit as int == '0' as int + n % 10;
    if n < 10 {
      assert s == [digit] && s[..0] == "";
      assert Spelled(s) == 10 * Spelled("") + n;
    } else {
      DecimalIs(n / 10);
      assert s == Decimal(n / 10) + [digit] && s[..|s| - 1] == Decimal(n / 10);
    }
  }

  /** Joining puts the separator between the parts, and nothing else. */
  lemma {:induction false} JoinIs(separator: string, a: seq<string>, b: seq<string>, part: string)
    ensures Join(separator, []) == "" && Join(separator, [part]) == part
    ensures a != [] && b != [] ==> Join(separator, a + b) == Join(separator, a) + separator + Join(separator, b)
  {
    hide Join;
    JoinFew(separator, part);
    if a != [] && b != [] {
      var n := |b| - 1;
      assert a + b == (a + b[..n]) + [b[n]] && b == b[..n] + [b[n]];
      JoinMore(separator, a + b[..n], b[n]);
      JoinMore(separator, b[..n], b[n]);
      if n == 0 {
        assert a + b[..n] == a;
      } else {
        JoinIs(separator, a, b[..n], part);
        var x, y := Join(separator, a), Join(separator, b[..n]);
        assert (x + separator + y) + separator + b[n] == x + separator + (y + separator + b[n]);
      }
    }
  }

  lemma JoinFew(separator: string, part: string)
    ensures Join(separator, []) == "" && Join(separator, [part]) == part
  {
  }

  lemma JoinMore(separator: string, parts: seq<string>, last: string)
    ensures Join(separator, parts + [last]) ==
            if parts == [] then last else Join(separator, parts) + separator + last
  {
    assert (parts + [last])[..|parts|] == parts;
  }

  // ---- what is matched -------------------------------------------------------------------------

  /** `list` are the facts that are not empty and occur in the text, in their order. */
  ghost predicate Occurring(lowered: string, facts: seq<string>, list: seq<string>, at: seq<nat>) {
    && Places(at, |facts|) && |list| == |at|
    && (forall i :: 0 <= i < |at| ==> list[i] == facts[at[i]])
    && (forall k :: k in at <==> 0 <= k < |facts| && facts[k] != "" && OccursIn(lowered, LowerAscii(facts[k])))
  }

  lemma {:induction false} HitsAre(lowered: string, facts: seq<string>) returns (at: seq<nat>)
    ensures Occurring(lowered, facts, Hits(lowered, PreparedFacts(facts)), at)
  {
    hide LowerAscii, OccursIn, Occurring;
    if facts == [] {
      at := [];
      assert Occurring(lowered, [], [], []) by { NothingOccurring(lowered); }
    } else {
      var n := |facts| - 1;
      at := HitsAre(lowered, facts[..n]);
      FindIff(lowered, LowerAscii(facts[n]));
      var hits := Hits(lowered, PreparedFacts(facts[..n]));
      OccurringMore(lowered, facts, hits, at);
      if facts[n] != "" && OccursIn(lowered, LowerAscii(facts[n])) { at := at + [n]; }
    }
  }

  lemma NothingOccurring(lowered: string)
    ensures Occurring(lowered, [], [], [])
  {
  }

  lemma {:induction false} OccurringMore(lowered: string, facts: seq<string>, list: seq<string>, at: seq<nat>)
    requires facts != [] && Occurring(lowered, facts[..|facts| - 1], list, at)
    ensures var n := |facts| - 1;
            if facts[n] != "" && OccursIn(lowered, LowerAscii(facts[n]))
            then Occurring(lowered, facts, list + [facts[n]], at + [n]) else Occurring(lowered, facts, list, at)
  {
    hide LowerAscii, OccursIn;
    var n := |facts| - 1;
    NextPlace(at, n);
    assert forall k :: 0 <= k < n ==> facts[..n][k] == facts[k];
  }

  function Together(lists: seq<seq<string>>): seq<string> {
    if lists == [] then [] else Together(lists[..|lists| - 1]) + lists[|lists| - 1]
  }

  /** The revocation names the directives that revoke the event, in their order, and all their facts that
      occur in it. */
  ghost predicate Matches(e: Event, index: nat, directives: seq<Directive>, r: Revocation, at: seq<nat>,
      lists: seq<seq<string>>)
  {
    && Places(at, |directives|) && |at| == |lists| == |r.correctionIds| && r.facts == Together(lists)
    && (forall k :: k in at <==> 0 <= k < |directives| && Revokes(directives[k], e, index))
    && (forall i :: 0 <= i < |at| ==> MatchOf(e, directives[at[i]], r.correctionIds[i], lists[i]))
  }

  ghost predicate MatchOf(e: Event, d: Directive, id: string, list: seq<string>) {
    && id == (if d.correctionId == "" then "unknown" else d.correctionId)
    && exists places :: Occurring(LowerAscii(e.payload), d.invalidatedFacts, list, places)
  }

  lemma {:induction false} MatchIs(e: Event, index: nat, directives: seq<Directive>)
      returns (at: seq<nat>, lists: seq<seq<string>>)
    ensures Matches(e, index, directives, MatchEvent(e, index, Prepare(directives)), at, lists)
  {
    hide LowerAscii, Revokes, Hits, PreparedFacts, MatchOf, Matches, MatchEvent, Prepare;
    at, lists := [], [];
    if e.kind == Correction {
      forall k | 0 <= k < |directives| ensures !Revokes(directives[k], e, index) {
        CorrectionStays(directives[k], e, index);
      }
      NothingMatches(e, index, directives);
    } else if directives == [] {
      NothingMatches(e, index, directives);
    } else {
      var n := |directives| - 1;
      var d := directives[n];
      at, lists := MatchIs(e, index, directives[..n]);
      var list := Hits(LowerAscii(e.payload), PreparedFacts(d.invalidatedFacts));
      RevokesIff(d, e, index);
      MatchMore(e, index, directives);
      MatchesMore(e, index, directives, MatchEvent(e, index, Prepare(directives[..n])), at, lists, list);
      if Revokes(d, e, index) { at, lists := at + [n], lists + [list]; }
    }
  }

  lemma NothingMatches(e: Event, index: nat, directives: seq<Directive>)
    requires e.kind == Correction || directives == []
    requires forall k :: 0 <= k < |directives| ==> !Revokes(directives[k], e, index)
    ensures Matches(e, index, directives, MatchEvent(e, index, Prepare(directives)), [], [])
  {
    hide Revokes;
  }

  lemma {:induction false} MatchesMore(e: Event, index: nat, directives: seq<Directive>, r: Revocation, at: seq<nat>,
      lists: seq<seq<string>>, list: seq<string>)
    requires directives != [] && Matches(e, index, directives[..|directives| - 1], r, at, lists)
    ensures var n := |directives| - 1;
            var id := if directives[n].correctionId == "" then "unknown" else directives[n].correctionId;
            && (!Revokes(directives[n], e, index) ==> Matches(e, index, directives, r, at, lists))
            && (Revokes(directives[n], e, index) && MatchOf(e, directives[n], id, list) ==>
                  Matches(e, index, directives, Revocation(r.correctionIds + [id], r.facts + list), at + [n],
                      lists + [list]))
  {
    hide Revokes, MatchOf;
    var n := |directives| - 1;
    NextPlace(at, n);
    assert forall k :: 0 <= k < n ==> directives[..n][k] == directives[k];
    assert (lists + [list])[..|lists|] == lists;
  }

  lemma CorrectionStays(d: Directive, e: Event, index: nat)
    requires e.kind == Correction
    ensures !Revokes(d, e, index)
  {
  }

  lemma {:induction false} RevokesIff(d: Directive, e: Event, index: nat)
    requires e.kind != Correction
    ensures var list := Hits(LowerAscii(e.payload), PreparedFacts(d.invalidatedFacts));
            && (Revokes(d, e, index) <==> AppliesAt(d.scope, d.correctionIndex, index) && list != [])
            && MatchOf(e, d, if d.correctionId == "" then "unknown" else d.correctionId, list)
  {
    hide LowerAscii, AnyOccurs, Hits, PreparedFacts, Occurring;
    HitsIff(LowerAscii(e.payload), d.invalidatedFacts);
    var places := HitsAre(LowerAscii(e.payload), d.invalidatedFacts);
  }

  lemma {:induction false} MatchMore(e: Event, index: nat, directives: seq<Directive>)
    requires directives != [] && e.kind != Correction
    ensures var n := |directives| - 1;
            var d, before := directives[n], MatchEvent(e, index, Prepare(directives[..n]));
            var list := Hits(LowerAscii(e.payload), PreparedFacts(d.invalidatedFacts));
            MatchEvent(e, index, Prepare(directives)) ==
            if AppliesAt(d.scope, d.correctionIndex, index) && list != []
            then Revocation(before.correctionIds + [if d.correctionId == "" then "unknown" else d.correctionId],
                            before.facts + list)
            else before
  {
    hide LowerAscii, Hits, PreparedFacts, AppliesAt;
    NoHits(LowerAscii(e.payload));
  }

  // ---- what is written -------------------------------------------------------------------------

  /** What stands in the place of a masked event: how many facts were found in it and by which corrections,
      and nothing of its own text. */
  function Notice(e: Event, r: Record): Event {
    Event(InternalNote, e.tenantId, e.sessionId,
          "REVOKED_BY_CORRECTION: this event contained " + Decimal(|r.facts|) +
          " invalidated fact(s) and is not active evidence for the projection. Apply correction_id(s): " +
          Join(",", r.correctionIds) + ". Do not reconstruct the original revoked wording from this marker.",
          e.timestampUs, e.modelId, e.stepIndex, e.toolCallId)
  }

  /** The active line of the event at `i`: the event as it is if there is no record of it, else the notice. */
  ghost predicate Written(line: Event -> string, e: Event, i: nat, records: seq<Record>, text: string) {
    && ((forall k :: 0 <= k < |records| ==> records[k].index != i) ==>
          text == "[" + Decimal(i + 1) + "] " + line(e))
    && (forall k :: 0 <= k < |records| && records[k].index == i ==>
          text == "[" + Decimal(i + 1) + "] " + line(Notice(e, records[k])))
  }

  /** The lines are those of the events from `start` on. */
  ghost predicate WrittenAt(line: Event -> string, events: seq<Event>, base: nat, start: nat, records: seq<Record>,
      lines: seq<string>, i: nat)
  {
    && base <= i < base + |events| && start <= i < start + |lines|
    && Written(line, events[i - base], i, records, lines[i - start])
  }

  /** The record of a masked event, and its line in the log of what was masked. */
  ghost predicate Recorded(line: Event -> string, e: Event, i: nat, directives: seq<Directive>, r: Record, text: string)
  {
    && r.index == i && r.original == line(e)
    && (exists at, lists :: Matches(e, i, directives, Revocation(r.correctionIds, r.facts), at, lists))
    && text == "[" + Decimal(i + 1) + "] revoked_by=" + Join(",", r.correctionIds) + " invalidated_facts=" +
               Join(" | ", r.facts) + " original=" + line(e)
  }

  /** A view is an error exactly for a range that is inverted or not among the events. */
  lemma ViewFailsIff(line: Event -> string, events: seq<Event>, base: nat, start: nat, end: nat,
      directives: seq<Directive>)
    ensures var view := BuildView(line, events, base, start, end, directives);
            && (view.Err? <==> end < start || start < base || end > base + |events|)
            && (view.Err? ==> view.error == InvalidArgument)
            && (view.Ok? ==> view.value.rangeStart == start && view.value.rangeEnd == end)
  {
    hide Prepare, ActiveLines, Records, Join, RevokedLines;
  }

  /** The active log has one line an event, in order, with the notice for the masked ones; the records are of
      the masked events, in order, each with the corrections and facts that matched; and the other log has
      one line a record. */
  lemma {:induction false} ViewIs(line: Event -> string, events: seq<Event>, base: nat, start: nat, end: nat,
      directives: seq<Directive>)
      returns (lines: seq<string>, masked: seq<string>)
    requires InRange(events, base, start, end)
    ensures var view := BuildView(line, events, base, start, end, directives).value;
            && |lines| == end - start && |masked| == |view.records|
            && view.activeLog == Join("\n", lines) && view.revokedLog == Join("\n", masked)
            && (forall i :: start <= i < end ==> WrittenAt(line, events, base, start, view.records, lines, i))
            && (forall k :: 0 <= k < |masked| ==>
                  && start <= view.records[k].index < end
                  && Recorded(line, events[view.records[k].index - base], view.records[k].index, directives,
                         view.records[k], masked[k]))
            && (forall i :: i in Indices(view.records) <==> start <= i < end && RevokedAt(directives, events, base, i))
            && (forall k, m :: 0 <= k < m < |masked| ==> view.records[k].index < view.records[m].index)
  {
    hide Join, RevokedLines, ActiveLines, Records, Prepare, RevokedAt, Indices, Written, Recorded;
    var prepared := Prepare(directives);
    lines := ActiveLines(line, events, base, start, end, prepared);
    var records := Records(line, events, base, start, end, prepared);
    masked := RevokedLines(records);
    RevokedLinesLength(records);
    RecordsAre(line, events, base, start, end, directives);
    forall i | start <= i < end ensures WrittenAt(line, events, base, start, records, lines, i) {
      LineAt(line, events, base, start, end, prepared, i);
      LineWritten(line, events, base, start, end, directives, i);
    }
    forall k | 0 <= k < |masked|
      ensures start <= records[k].index < end
      ensures Recorded(line, events[records[k].index - base], records[k].index, directives, records[k], masked[k])
    {
      RecordRecorded(line, events, base, start, end, directives, k);
    }
  }

  /** A record is that of its event. */
  lemma {:induction false} RecordOf(line: Event -> string, events: seq<Event>, base: nat, start: nat, end: nat,
      directives: seq<Prepared>, k: nat)
    requires InRange(events, base, start, end) && k < |Records(line, events, base, start, end, directives)|
    ensures var r := Records(line, events, base, start, end, directives)[k];
            start <= r.index < end && RecordsOf(line, events[r.index - base], r.index, directives) == [r]
  {
    hide MatchEvent;
    if k < |Records(line, events, base, start, end - 1, directives)| {
      RecordOf(line, events, base, start, end - 1, directives, k);
    }
  }

  lemma {:induction false} RecordIn(line: Event -> string, events: seq<Event>, base: nat, start: nat, end: nat,
      directives: seq<Prepared>, i: nat) returns (k: nat)
    requires InRange(events, base, start, end) && start <= i < end
    requires RecordsOf(line, events[i - base], i, directives) != []
    ensures k < |Records(line, events, base, start, end, directives)|
    ensures RecordsOf(line, events[i - base], i, directives) == [Records(line, events, base, start, end, directives)[k]]
  {
    hide MatchEvent;
    if i < end - 1 {
      k := RecordIn(line, events, base, start, end - 1, directives, i);
    } else {
      k := |Records(line, events, base, start, end - 1, directives)|;
    }
  }

  lemma {:induction false} LineWritten(line: Event -> string, events: seq<Event>, base: nat, start: nat, end: nat,
      directives: seq<Directive>, i: nat)
    requires InRange(events, base, start, end) && start <= i < end
    ensures Written(line, events[i - base], i, Records(line, events, base, start, end, Prepare(directives)),
                    ActiveLine(line, events[i - base], i, Prepare(directives)))
  {
    hide Records, Prepare, MatchEvent, Marker, Notice, Numbered;
    var prepared := Prepare(directives);
    var records := Records(line, events, base, start, end, prepared);
    var e := events[i - base];
    LineIs(line, e, i, directives);
    if RecordsOf(line, e, i, prepared) != [] {
      var k := RecordIn(line, events, base, start, end, prepared, i);
      assert records[k].index == i;
    }
    forall k | 0 <= k < |records| && records[k].index == i ensures RecordsOf(line, e, i, prepared) == [records[k]] {
      RecordOf(line, events, base, start, end, prepared, k);
    }
  }

  /** One event's line, by its record. */
  lemma {:induction false} LineIs(line: Event -> string, e: Event, i: nat, directives: seq<Directive>)
    ensures var records := RecordsOf(line, e, i, Prepare(directives));
            ActiveLine(line, e, i, Prepare(directives)) ==
            "[" + Decimal(i + 1) + "] " + line(if records == [] then e else Notice(e, records[0]))
  {
    hide Decimal, Join, MatchEvent, Prepare;
    var r := MatchEvent(e, i, Prepare(directives));
    if r.facts != [] {
      FactsHaveIds(e, i, directives);
      assert Marker(e, r) == Notice(e, Record(i, r.correctionIds, r.facts, line(e)));
    }
  }

  lemma {:induction false} FactsHaveIds(e: Event, i: nat, directives: seq<Directive>)
    requires MatchEvent(e, i, Prepare(directives)).facts != []
    ensures MatchEvent(e, i, Prepare(directives)).correctionIds != []
  {
    hide MatchEvent, Prepare, Revokes, MatchOf;
    var at, lists := MatchIs(e, i, directives);
    assert Together([]) == [];
  }

  lemma {:induction false} RecordRecorded(line: Event -> string, events: seq<Event>, base: nat, start: nat, end: nat,
      directives: seq<Directive>, k: nat)
    requires InRange(events, base, start, end)
    requires k < |Records(line, events, base, start, end, Prepare(directives))|
    ensures var records := Records(line, events, base, start, end, Prepare(directives));
            var r := records[k];
            && start <= r.index < end && k < |RevokedLines(records)|
            && Recorded(line, events[r.index - base], r.index, directives, r, RevokedLines(records)[k])
  {
    hide Records, Prepare, MatchEvent, Matches, Join, RevokedLine;
    var records := Records(line, events, base, start, end, Prepare(directives));
    RecordOf(line, events, base, start, end, Prepare(directives), k);
    var r := records[k];
    var at, lists := MatchIs(events[r.index - base], r.index, directives);
    RevokedLinesLength(records);
    RevokedLineAt(records, k);
    RevokedLineIs(r);
  }

  lemma {:induction false} RevokedLineAt(records: seq<Record>, k: nat)
    requires k < |records|
    ensures |RevokedLines(records)| == |records| && RevokedLines(records)[k] == RevokedLine(records[k])
  {
    hide RevokedLine;
    RevokedLinesLength(records);
    var n := |records| - 1;
    RevokedLinesLength(records[..n]);
    if k < n { RevokedLineAt(records[..n], k); }
  }

  lemma RevokedLineIs(r: Record)
    ensures RevokedLine(r) ==
            "[" + Decimal(r.index + 1) + "] revoked_by=" + Join(",", r.correctionIds) + " invalidated_facts=" +
            Join(" | ", r.facts) + " original=" + r.original
  {
    hide Decimal, Join;
  }
}
