/** What the active view keeps: exactly the events a directive revokes are masked, and nothing is
    lost by it. */
module EvidenceLaws {
  import opened ActiveEvidenceView
  import opened Directives
  import opened EventLog
  import opened Results
  import opened Strings

  // ---- which events are masked ------------------------------------------------------------------

  predicate OccursIn(t: string, pat: string) {
    exists i :: 0 <= i <= |t| && OccursAt(t, pat, i)
  }

  /** A fact of the directive, not empty, occurs in the event, in whatever case. */
  predicate AnyOccurs(facts: seq<string>, lowered: string) {
    exists j :: 0 <= j < |facts| && facts[j] != "" && OccursIn(lowered, LowerAscii(facts[j]))
  }

  predicate Revokes(d: Directive, e: Event, index: nat) {
    e.kind != Correction && (d.scope.PriorEvents? ==> index < d.correctionIndex)
        && AnyOccurs(d.invalidatedFacts, LowerAscii(e.payload))
  }

  predicate Revoked(directives: seq<Directive>, e: Event, index: nat) {
    exists k :: 0 <= k < |directives| && Revokes(directives[k], e, index)
  }

  lemma {:induction false} HitsIff(lowered: string, facts: seq<string>)
    ensures Hits(lowered, PreparedFacts(facts)) != [] <==> AnyOccurs(facts, lowered)
  {
    hide LowerAscii, OccursAt, AnyOccurs;
    if facts == [] {
      NoneOccurs(lowered);
    } else {
      var n := |facts| - 1;
      HitsIff(lowered, facts[..n]);
      AnyOccursLast(facts, lowered);
      FindIff(lowered, LowerAscii(facts[n]));
    }
  }

  lemma NoneOccurs(lowered: string)
    ensures !AnyOccurs([], lowered)
  {
  }

  lemma AnyOccursLast(facts: seq<string>, lowered: string)
    requires facts != []
    ensures AnyOccurs(facts, lowered) <==>
            AnyOccurs(facts[..|facts| - 1], lowered) ||
            (facts[|facts| - 1] != "" && OccursIn(lowered, LowerAscii(facts[|facts| - 1])))
  {
    hide LowerAscii, OccursIn;
    var n := |facts| - 1;
    if AnyOccurs(facts, lowered) {
      var j :| 0 <= j < |facts| && facts[j] != "" && OccursIn(lowered, LowerAscii(facts[j]));
      if j < n { assert facts[..n][j] == facts[j]; }
    }
    if AnyOccurs(facts[..n], lowered) {
      var j :| 0 <= j < n && facts[..n][j] != "" && OccursIn(lowered, LowerAscii(facts[..n][j]));
      assert facts[..n][j] == facts[j];
    }
  }

  lemma FindIff(t: string, pat: string)
    ensures Find(t, pat, 0).Some? <==> OccursIn(t, pat)
  {
    hide OccursAt;
    if Find(t, pat, 0).Some? { FindFits(t, pat, 0); }
  }

  lemma {:induction false} MatchIff(e: Event, index: nat, directives: seq<Directive>)
    requires e.kind != Correction
    ensures MatchAll(LowerAscii(e.payload), index, Prepare(directives)).facts != [] <==> Revoked(directives, e, index)
  {
    hide LowerAscii, AnyOccurs, Revoked, Hits, PreparedFacts, AppliesAt, Revokes;
    if directives == [] {
      NoneRevoke(e, index);
    } else {
      var n := |directives| - 1;
      var d := directives[n];
      MatchIff(e, index, directives[..n]);
      RevokedLast(directives, e, index);
      RevokesIs(d, e, index);
      HitsIff(LowerAscii(e.payload), d.invalidatedFacts);
      NoHits(LowerAscii(e.payload));
    }
  }

  lemma RevokesIs(d: Directive, e: Event, index: nat)
    ensures Revokes(d, e, index) <==>
            && e.kind != Correction && AppliesAt(d.scope, d.correctionIndex, index)
            && AnyOccurs(d.invalidatedFacts, LowerAscii(e.payload))
  {
    hide AnyOccurs, LowerAscii;
  }

  lemma NoneRevoke(e: Event, index: nat)
    ensures !Revoked([], e, index)
  {
  }

  lemma NoHits(lowered: string)
    ensures Hits(lowered, []) == []
  {
  }

  lemma RevokedLast(directives: seq<Directive>, e: Event, index: nat)
    requires directives != []
    ensures Revoked(directives, e, index) <==>
            Revoked(directives[..|directives| - 1], e, index) || Revokes(directives[|directives| - 1], e, index)
  {
    hide Revokes;
    var n := |directives| - 1;
    if Revoked(directives, e, index) {
      var k :| 0 <= k < |directives| && Revokes(directives[k], e, index);
      if k < n { assert directives[..n][k] == directives[k]; }
    }
    if Revoked(directives[..n], e, index) {
      var k :| 0 <= k < n && Revokes(directives[..n][k], e, index);
      assert directives[..n][k] == directives[k];
    }
  }

  /** An event is masked exactly when it is no correction itself and an applicable directive has a
      fact that occurs in it, in whatever case. */
  lemma MaskedIff(e: Event, index: nat, directives: seq<Directive>)
    ensures MatchEvent(e, index, Prepare(directives)).facts != [] <==> Revoked(directives, e, index)
  {
    hide LowerAscii, AnyOccurs;
    if e.kind != Correction { MatchIff(e, index, directives); }
  }

  /** One line an event, in order. */
  lemma {:induction false} LineAt(line: Event -> string, events: seq<Event>, base: nat, start: nat, end: nat,
                                  directives: seq<Prepared>, i: nat)
    requires InRange(events, base, start, end) && start <= i < end
    ensures ActiveLines(line, events, base, start, end, directives)[i - start] ==
            ActiveLine(line, events[i - base], i, directives)
  {
    hide ActiveLine;
    if i < end - 1 { LineAt(line, events, base, start, end - 1, directives, i); }
  }

  /** The indices of the records, in order. */
  function Indices(records: seq<Record>): (r: seq<nat>)
    ensures |r| == |records| && forall k :: 0 <= k < |records| ==> r[k] == records[k].index
  {
    if records == [] then [] else Indices(records[..|records| - 1]) + [records[|records| - 1].index]
  }

  predicate RevokedAt(directives: seq<Directive>, events: seq<Event>, base: nat, i: nat) {
    base <= i < base + |events| && Revoked(directives, events[i - base], i)
  }

  /** The indices of the masked events. */
  function MaskedIndices(events: seq<Event>, base: nat, start: nat, end: nat, directives: seq<Directive>): seq<nat>
    requires InRange(events, base, start, end)
  {
    if start == end then []
    else MaskedIndices(events, base, start, end - 1, directives) +
         (if RevokedAt(directives, events, base, end - 1) then [end - 1] else [])
  }

  lemma {:induction false} MaskedIndicesAre(events: seq<Event>, base: nat, start: nat, end: nat,
      directives: seq<Directive>)
    requires InRange(events, base, start, end)
    ensures var masked := MaskedIndices(events, base, start, end, directives);
            && (forall k, m :: 0 <= k < m < |masked| ==> masked[k] < masked[m])
            && (forall i :: i in masked <==> start <= i < end && RevokedAt(directives, events, base, i))
  {
    hide RevokedAt;
    if start < end {
      MaskedIndicesAre(events, base, start, end - 1, directives);
      var before := MaskedIndices(events, base, start, end - 1, directives);
      forall k | 0 <= k < |before| ensures before[k] < end - 1 { assert before[k] in before; }
    }
  }

  lemma {:induction false} IndicesConcat(a: seq<Record>, b: seq<Record>)
    ensures Indices(a + b) == Indices(a) + Indices(b)
  {
  }

  lemma {:induction false} RecordIndices(line: Event -> string, events: seq<Event>, base: nat, start: nat, end: nat,
      directives: seq<Directive>)
    requires InRange(events, base, start, end)
    ensures Indices(Records(line, events, base, start, end, Prepare(directives))) ==
            MaskedIndices(events, base, start, end, directives)
  {
    hide MatchEvent, Revoked, Prepare, Indices;
    if start < end {
      RecordIndices(line, events, base, start, end - 1, directives);
      var e := events[end - 1 - base];
      MaskedIff(e, end - 1, directives);
      IndicesConcat(Records(line, events, base, start, end - 1, Prepare(directives)),
          RecordsOf(line, e, end - 1, Prepare(directives)));
    }
  }

  lemma {:induction false} RecordOriginal(line: Event -> string, events: seq<Event>, base: nat, start: nat, end: nat,
                                          directives: seq<Prepared>, k: nat)
    requires InRange(events, base, start, end) && k < |Records(line, events, base, start, end, directives)|
    ensures var record := Records(line, events, base, start, end, directives)[k];
            start <= record.index < end && record.original == line(events[record.index - base])
  {
    hide MatchEvent;
    if k < |Records(line, events, base, start, end - 1, directives)| {
      RecordOriginal(line, events, base, start, end - 1, directives, k);
    }
  }

  /** The records are those of the masked events, in order, each with the event as it was. */
  lemma RecordsAre(line: Event -> string, events: seq<Event>, base: nat, start: nat, end: nat,
      directives: seq<Directive>)
    requires InRange(events, base, start, end)
    ensures var records := Records(line, events, base, start, end, Prepare(directives));
            && (forall k :: 0 <= k < |records| ==>
                  start <= records[k].index < end && records[k].original == line(events[records[k].index - base]))
            && (forall k, m :: 0 <= k < m < |records| ==> records[k].index < records[m].index)
            && (forall i :: i in Indices(records) <==> start <= i < end && RevokedAt(directives, events, base, i))
  {
    hide RevokedAt, Prepare, Records;
    var records := Records(line, events, base, start, end, Prepare(directives));
    RecordIndices(line, events, base, start, end, directives);
    MaskedIndicesAre(events, base, start, end, directives);
    forall k | 0 <= k < |records|
      ensures start <= records[k].index < end && records[k].original == line(events[records[k].index - base])
    {
      RecordOriginal(line, events, base, start, end, Prepare(directives), k);
    }
    forall k, m | 0 <= k < m < |records| ensures records[k].index < records[m].index {
      assert Indices(records)[k] < Indices(records)[m];
    }
  }

  // ---- nothing is lost ---------------------------------------------------------------------------

  /** The lines with those of the records put back as they were. */
  function Restored(lines: seq<string>, start: nat, records: seq<Record>): (r: seq<string>)
    ensures |r| == |lines|
  {
    if records == [] then lines
    else
      var n := |records| - 1;
      var before, i := Restored(lines, start, records[..n]), records[n].index;
      if start <= i < start + |lines| then before[i - start := Numbered(i, records[n].original)] else before
  }

  lemma {:induction false} RestoredAppend(lines: seq<string>, last: string, start: nat, records: seq<Record>)
    requires forall k :: 0 <= k < |records| ==> records[k].index < start + |lines|
    ensures Restored(lines + [last], start, records) == Restored(lines, start, records) + [last]
  {
    if records != [] {
      var n := |records| - 1;
      RestoredAppend(lines, last, start, records[..n]);
    }
  }

  lemma NoDirectives(e: Event, index: nat)
    ensures MatchEvent(e, index, []) == Revocation([], [])
  {
  }

  lemma {:induction false} RestoredLines(line: Event -> string, events: seq<Event>, base: nat, start: nat, end: nat,
      directives: seq<Prepared>)
    requires InRange(events, base, start, end)
    ensures Restored(ActiveLines(line, events, base, start, end, directives), start,
            Records(line, events, base, start, end, directives))
            == ActiveLines(line, events, base, start, end, [])
  {
    hide Restored, RecordsOf, ActiveLine;
    if start == end {
      assert Restored([], start, []) == [];
    } else {
      var e, lines := events[end - 1 - base], ActiveLines(line, events, base, start, end - 1, directives);
      var records := Records(line, events, base, start, end - 1, directives);
      RestoredLines(line, events, base, start, end - 1, directives);
      forall k | 0 <= k < |records| ensures records[k].index < end - 1 {
        RecordOriginal(line, events, base, start, end - 1, directives, k);
      }
      RestoredAppend(lines, ActiveLine(line, e, end - 1, directives), start, records);
      RestoredLast(line, e, start, end - 1, directives, lines, records);
    }
  }

  /** The last line restored, the others being so already. */
  lemma RestoredLast(line: Event -> string, e: Event, start: nat, index: nat, directives: seq<Prepared>,
                     lines: seq<string>, records: seq<Record>)
    requires index == start + |lines|
    requires var all := lines + [ActiveLine(line, e, index, directives)];
             Restored(all, start, records) == Restored(lines, start, records) + [all[|lines|]]
    ensures var all := lines + [ActiveLine(line, e, index, directives)];
            Restored(all, start, records + RecordsOf(line, e, index, directives)) ==
            Restored(lines, start, records) + [ActiveLine(line, e, index, [])]
  {
    hide MatchEvent, Marker, Numbered;
    var last := RecordsOf(line, e, index, directives);
    NoDirectives(e, index);
    if last != [] {
      assert (records + last)[..|records|] == records;
    } else {
      assert records + last == records;
    }
  }

  // ---- the log's text ------------------------------------------------------------------------------

  lemma LinesPush(a: string, c: char)
    requires c != '\n'
    ensures Lines(a + [c]) == Lines(a)[..|Lines(a)| - 1] + [Lines(a)[|Lines(a)| - 1] + [c]]
  {
    assert (a + [c])[..|a|] == a;
  }

  lemma {:induction false} LinesAppend(a: string, b: string)
    requires '\n' !in b
    ensures Lines(a + b) == Lines(a)[..|Lines(a)| - 1] + [Lines(a)[|Lines(a)| - 1] + b]
  {
    hide Lines;
    var last := Lines(a)[|Lines(a)| - 1];
    if b == "" {
      assert a + b == a && last + b == last;
    } else {
      var m := |b| - 1;
      assert b == b[..m] + [b[m]];
      LinesAppend(a, b[..m]);
      LinesPush(a + b[..m], b[m]);
      assert a + b == (a + b[..m]) + [b[m]] && last + b == (last + b[..m]) + [b[m]];
    }
  }

  lemma LinesBreak(a: string)
    ensures Lines(a + "\n") == Lines(a) + [""]
  {
    assert (a + "\n")[..|a|] == a;
  }

  /** Lines without newlines in them can be told apart in the log. */
  lemma {:induction false} LinesOfJoin(parts: seq<string>)
    requires parts != [] && forall k :: 0 <= k < |parts| ==> '\n' !in parts[k]
    ensures Lines(Join("\n", parts)) == parts
  {
    hide Lines, Join;
    var n := |parts| - 1;
    var before, last := parts[..n], parts[n];
    assert parts == before + [last];
    JoinAppend(before, last);
    if n == 0 {
      OneLine(last);
      assert "" + last == last;
    } else {
      LinesOfJoin(before);
      var head := Join("\n", before) + "\n";
      LinesBreak(Join("\n", before));
      LinesAppend(head, last);
      assert "" + last == last;
    }
  }

  lemma OneLine(text: string)
    requires '\n' !in text
    ensures Lines(text) == [text]
  {
    LinesAppend("", text);
    assert "" + text == text;
  }

  ghost predicate OneLineEach(line: Event -> string) {
    forall e {:trigger line(e)} :: '\n' !in line(e)
  }

  lemma ActiveLineIsLine(line: Event -> string, e: Event, index: nat, directives: seq<Prepared>)
    requires OneLineEach(line)
    ensures '\n' !in ActiveLine(line, e, index, directives)
  {
    hide MatchEvent, Marker;
  }

  /** Putting the records' originals back into the active log gives the log without corrections
      applied. */
  lemma SubstitutionRestores(line: Event -> string, events: seq<Event>, base: nat, start: nat, end: nat,
      directives: seq<Directive>)
    requires OneLineEach(line) && InRange(events, base, start, end)
    ensures var view := BuildView(line, events, base, start, end, directives).value;
            Join("\n", Restored(Lines(view.activeLog), start, view.records)) ==
            BuildView(line, events, base, start, end, []).value.activeLog
  {
    hide Join, Lines, Restored, ActiveLine, RevokedLine, RevokedLines, Records;
    var prepared := Prepare(directives);
    var lines := ActiveLines(line, events, base, start, end, prepared);
    RestoredLines(line, events, base, start, end, prepared);
    if start == end {
      EmptyLog(start);
      Nothing(line, events, base, start, prepared);
      Nothing(line, events, base, start, []);
    } else {
      forall k | 0 <= k < |lines| ensures '\n' !in lines[k] {
        LineAt(line, events, base, start, end, prepared, start + k);
        ActiveLineIsLine(line, events[start + k - base], start + k, prepared);
      }
      LinesOfJoin(lines);
    }
  }

  lemma EmptyLog(start: nat)
    ensures Join("\n", Restored(Lines(""), start, [])) == ""
  {
  }

  // ---- ranges --------------------------------------------------------------------------------------

  function GlueLogs(a: string, b: string): string {
    if a == "" then b else if b == "" then a else a + "\n" + b
  }

  function Glued(a: View, b: View): View {
    View(a.rangeStart, b.rangeEnd, GlueLogs(a.activeLog, b.activeLog), GlueLogs(a.revokedLog, b.revokedLog),
        a.records + b.records)
  }

  lemma {:induction false} ActiveConcat(line: Event -> string, events: seq<Event>, base: nat, start: nat, mid: nat,
      end: nat, directives: seq<Prepared>)
    requires InRange(events, base, start, mid) && InRange(events, base, mid, end)
    ensures ActiveLines(line, events, base, start, end, directives) ==
            ActiveLines(line, events, base, start, mid, directives)
                + ActiveLines(line, events, base, mid, end, directives)
    ensures Records(line, events, base, start, end, directives) ==
            Records(line, events, base, start, mid, directives) + Records(line, events, base, mid, end, directives)
  {
    hide ActiveLine, RecordsOf;
    if mid < end {
      ActiveConcat(line, events, base, start, mid, end - 1, directives);
      Assoc(Records(line, events, base, start, mid, directives), Records(line, events, base, mid, end - 1, directives),
            RecordsOf(line, events[end - 1 - base], end - 1, directives));
    }
  }

  lemma {:induction false} JoinConcat(a: seq<string>, b: seq<string>)
    requires a != [] && b != []
    ensures Join("\n", a + b) == Join("\n", a) + "\n" + Join("\n", b)
  {
    hide Join;
    var n := |b| - 1;
    assert a + b == (a + b[..n]) + [b[n]];
    assert b == b[..n] + [b[n]];
    JoinAppend(a + b[..n], b[n]);
    JoinAppend(b[..n], b[n]);
    if n == 0 {
      assert a + b[..n] == a;
      assert "" + b[n] == b[n];
    } else {
      JoinConcat(a, b[..n]);
      JoinText(Join("\n", a), Join("\n", b[..n]), b[n]);
    }
  }

  lemma JoinText(x: string, y: string, z: string)
    ensures (x + "\n" + y) + "\n" + z == x + "\n" + (y + "\n" + z)
  {
  }

  lemma {:induction false} RevokedConcat(a: seq<Record>, b: seq<Record>)
    ensures RevokedLines(a + b) == RevokedLines(a) + RevokedLines(b)
  {
    hide RevokedLine;
    if b == [] {
      assert a + b == a;
    } else {
      RevokedConcat(a, b[..|b| - 1]);
      assert (a + b)[..|a + b| - 1] == a + b[..|b| - 1];
    }
  }

  lemma {:induction false} GluedJoin(a: seq<string>, b: seq<string>)
    requires Join("\n", a) == "" <==> a == []
    requires Join("\n", b) == "" <==> b == []
    ensures Join("\n", a + b) == GlueLogs(Join("\n", a), Join("\n", b))
  {
    hide Join;
    if a == [] { assert a + b == b; }
    else if b == [] { assert a + b == a; }
    else { JoinConcat(a, b); }
  }

  lemma {:induction false} RevokedLinesLength(records: seq<Record>)
    ensures |RevokedLines(records)| == |records|
  {
    hide RevokedLine;
    if records != [] { RevokedLinesLength(records[..|records| - 1]); }
  }

  /** The view of a range is the views of its parts joined. */
  lemma ViewsJoin(line: Event -> string, events: seq<Event>, base: nat, start: nat, mid: nat, end: nat,
      directives: seq<Directive>)
    requires InRange(events, base, start, mid) && InRange(events, base, mid, end)
    ensures BuildView(line, events, base, start, end, directives) ==
            Ok(Glued(BuildView(line, events, base, start, mid, directives).value,
                     BuildView(line, events, base, mid, end, directives).value))
  {
    hide Join, ActiveLines, Records, RevokedLines, Prepare, GlueLogs;
    var prepared := Prepare(directives);
    ActiveConcat(line, events, base, start, mid, end, prepared);
    ActiveJoinEmptyIff(line, events, base, start, mid, prepared);
    ActiveJoinEmptyIff(line, events, base, mid, end, prepared);
    GluedJoin(ActiveLines(line, events, base, start, mid, prepared),
        ActiveLines(line, events, base, mid, end, prepared));
    var a, b := Records(line, events, base, start, mid, prepared), Records(line, events, base, mid, end, prepared);
    RevokedConcat(a, b);
    RevokedJoinEmptyIff(a);
    RevokedJoinEmptyIff(b);
    RevokedLinesLength(a);
    RevokedLinesLength(b);
    GluedJoin(RevokedLines(a), RevokedLines(b));
  }

  /** The two lists have the same event at `i`. */
  predicate SameAt(events: seq<Event>, base: nat, others: seq<Event>, base': nat, i: nat) {
    base <= i < base + |events| && base' <= i < base' + |others| && events[i - base] == others[i - base']
  }

  /** Only the events of the range matter, not where the list they are taken from begins. */
  lemma BaseFree(line: Event -> string, events: seq<Event>, base: nat, others: seq<Event>, base': nat,
                 start: nat, end: nat, directives: seq<Directive>)
    requires InRange(events, base, start, end) && InRange(others, base', start, end)
    requires forall i :: start <= i < end ==> SameAt(events, base, others, base', i)
    ensures BuildView(line, events, base, start, end, directives) ==
            BuildView(line, others, base', start, end, directives)
  {
    hide Join, RevokedLines, Prepare, ActiveLine, RecordsOf;
    LinesBaseFree(line, events, base, others, base', start, end, Prepare(directives));
  }

  lemma SameEvent(events: seq<Event>, base: nat, others: seq<Event>, base': nat, i: nat)
    requires SameAt(events, base, others, base', i)
    ensures base <= i < base + |events| && base' <= i < base' + |others| && events[i - base] == others[i - base']
  {
  }

  lemma {:induction false} LinesBaseFree(line: Event -> string, events: seq<Event>, base: nat, others: seq<Event>,
      base': nat,
                                         start: nat, end: nat, directives: seq<Prepared>)
    requires InRange(events, base, start, end) && InRange(others, base', start, end)
    requires forall i :: start <= i < end ==> SameAt(events, base, others, base', i)
    ensures ActiveLines(line, events, base, start, end, directives) ==
            ActiveLines(line, others, base', start, end, directives)
    ensures Records(line, events, base, start, end, directives) == Records(line, others, base', start, end, directives)
  {
    hide ActiveLine, RecordsOf, SameAt;
    if start < end {
      LinesBaseFree(line, events, base, others, base', start, end - 1, directives);
      assert events[end - 1 - base] == others[end - 1 - base'] by { SameEvent(events, base, others, base', end - 1); }
    }
  }

  /** More directives never unmask an event. */
  lemma MoreDirectivesMaskMore(line: Event -> string, events: seq<Event>, base: nat, start: nat, end: nat,
                               fewer: seq<Directive>, more: seq<Directive>, index: nat)
    requires InRange(events, base, start, end)
    requires forall k :: 0 <= k < |fewer| ==> fewer[k] in more
    requires index in Indices(BuildView(line, events, base, start, end, fewer).value.records)
    ensures index in Indices(BuildView(line, events, base, start, end, more).value.records)
  {
    hide Join, RevokedLines, Prepare, Records, RevokedAt;
    RecordsAre(line, events, base, start, end, fewer);
    RecordsAre(line, events, base, start, end, more);
    MoreRevoke(fewer, more, events, base, index);
  }

  lemma MoreRevoke(fewer: seq<Directive>, more: seq<Directive>, events: seq<Event>, base: nat, index: nat)
    requires forall k :: 0 <= k < |fewer| ==> fewer[k] in more
    requires RevokedAt(fewer, events, base, index)
    ensures RevokedAt(more, events, base, index)
  {
    hide Revokes;
    var e := events[index - base];
    var k :| 0 <= k < |fewer| && Revokes(fewer[k], e, index);
    assert fewer[k] in more;
    var m :| 0 <= m < |more| && more[m] == fewer[k];
    assert Revokes(more[m], e, index);
  }
}
