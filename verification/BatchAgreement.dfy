/** For one custom channel and no code fence, what was streamed is what the extraction from the
    complete text finds: the channel content always, the ordinary text exactly when the
    extraction rewrites the text or has nothing to rewrite. */
module BatchAgreement {
  import opened Strings
  import opened ChannelScanner
  import opened ChunkIndependence
  import opened ChannelUtil

  /** The characters of a stream that went out under one label. */
  function TextTo(to: string, trace: seq<Item>): string {
    if trace == [] then ""
    else (if trace[0].Out? && trace[0].to == to then [trace[0].ch] else "") + TextTo(to, trace[1..])
  }

  lemma {:induction false} TextToJoin(to: string, t: seq<Item>, u: seq<Item>)
    ensures TextTo(to, t + u) == TextTo(to, t) + TextTo(to, u)
  {
    if t == [] {
      assert t + u == u;
    } else {
      TextToJoin(to, t[1..], u);
      assert (t + u)[0] == t[0] && (t + u)[1..] == t[1..] + u;
      Assoc(if t[0].Out? && t[0].to == to then [t[0].ch] else "", TextTo(to, t[1..]), TextTo(to, u));
    }
  }

  lemma {:induction false} TextToChars(to: string, name: string, s: string)
    ensures TextTo(to, Chars(name, s)) == if to == name then s else ""
  {
    if s != "" {
      TextToChars(to, name, s[1..]);
      assert Chars(name, s)[1..] == Chars(name, s[1..]);
    }
  }

  lemma TextToDelimiter(to: string, item: Item)
    requires !item.Out?
    ensures TextTo(to, [item]) == ""
  {
  }

  function InsideStart(c: Channel, t: string): seq<Item>
    requires c.start != ""
  {
    ParseInside([c], c.name, c.end, 0, t)
  }

  lemma SingleStart(c: Channel, t: string)
    ensures NextStart([c], t, 0) == match Find(t, c.start, 0) case None => None case Some(q) => Some(Hit(q, 0))
  {
    assert [c][..0] == [];
  }

  /** Label by label, the parse of a text is its split. */
  lemma {:induction false} ParseIsSplit(c: Channel, t: string)
    requires c.name != "" && c.start != ""
    ensures TextTo("", Parse([c], Outside, t)) == Split(c, t).0
    ensures TextTo(c.name, Parse([c], Outside, t)) == Split(c, t).1
    decreases |t|, 1
  {
    SingleStart(c, t);
    if t == "" {
    } else if Find(t, c.start, 0).None? {
      TextToChars("", "", t);
      TextToChars(c.name, "", t);
    } else {
      var q := Find(t, c.start, 0).value;
      var u := t[q + |c.start|..];
      assert t[q..][|c.start|..] == u;
      InsideIsSplit(c, u);
      ForgetStart("", c, t[..q], InsideStart(c, u));
      ForgetStart(c.name, c, t[..q], InsideStart(c, u));
    }
  }

  lemma {:induction false} ForgetStart(to: string, c: Channel, before: string, rest: seq<Item>)
    requires c.name != ""
    ensures TextTo(to, (Chars("", before) + [Opened(c.name, c.start)]) + rest) ==
            (if to == "" then before else "") + TextTo(to, rest)
  {
    hide TextTo;
    TextToJoin(to, Chars("", before) + [Opened(c.name, c.start)], rest);
    TextToJoin(to, Chars("", before), [Opened(c.name, c.start)]);
    TextToChars(to, "", before);
    TextToDelimiter(to, Opened(c.name, c.start));
  }

  lemma {:induction false} ForgetEnd(to: string, c: Channel, inside: string, rest: seq<Item>)
    ensures TextTo(to, (Chars(c.name, inside) + [Closed(c.name, c.end)]) + rest) ==
            (if to == c.name then inside else "") + TextTo(to, rest)
  {
    hide TextTo;
    TextToJoin(to, Chars(c.name, inside) + [Closed(c.name, c.end)], rest);
    TextToJoin(to, Chars(c.name, inside), [Closed(c.name, c.end)]);
    TextToChars(to, c.name, inside);
    TextToDelimiter(to, Closed(c.name, c.end));
  }

  lemma {:induction false} InsideIsSplit(c: Channel, u: string)
    requires c.name != "" && c.start != ""
    ensures var (inside, remaining) := ConsumeInside(c, u);
            && TextTo("", InsideStart(c, u)) == Split(c, remaining).0
            && TextTo(c.name, InsideStart(c, u)) == inside + Split(c, remaining).1
    decreases |u|, 2
  {
    hide TextTo, Parse;
    if Find(u, c.end, 0).None? {
      TextToChars("", c.name, u);
      TextToChars(c.name, c.name, u);
    } else {
      var e := Find(u, c.end, 0).value;
      var rest := u[e + |c.end|..];
      ParseIsSplit(c, rest);
      ForgetEnd("", c, u[..e], Parse([c], Outside, rest));
      ForgetEnd(c.name, c, u[..e], Parse([c], Outside, rest));
    }
  }

  /** The same from a channel the prompt left open. */
  lemma ParseFromIsSplit(c: Channel, open: bool, t: string)
    requires c.name != "" && c.start != ""
    ensures TextTo("", Parse([c], ModeFor(c, open), t)) == SplitFrom(c, open, t).0
    ensures TextTo(c.name, Parse([c], ModeFor(c, open), t)) == SplitFrom(c, open, t).1
  {
    hide Parse, ParseInside, Split, TextTo, NextStart, ConsumeInside;
    if open && t != "" {
      InsideIsSplit(c, t);
      ParseOpen(c, t);
    } else {
      ParseIsSplit(c, t);
      ParseEmpty(c);
    }
  }

  lemma ParseOpen(c: Channel, t: string)
    requires c.start != "" && t != ""
    ensures Parse([c], Inside(c.name, c.end, 0), t) == InsideStart(c, t)
  {
    hide ParseInside;
  }

  lemma ParseEmpty(c: Channel)
    requires c.start != ""
    ensures ConsumeInside(c, "") == ("", "") && Split(c, "") == ("", "")
    ensures Parse([c], Inside(c.name, c.end, 0), "") == []
    ensures TextTo("", []) == "" && TextTo(c.name, []) == ""
  {
  }

  function ModeFor(c: Channel, open: bool): Mode {
    if open then Inside(c.name, c.end, 0) else Outside
  }

  /** A single channel with a start is always stable. */
  lemma SingleIsStable(c: Channel)
    ensures Stable([c])
  {
  }

  // ---- when the text was rewritten -----------------------------------------------------

  /** No delimiter of `c` would be consumed from `t`. */
  predicate Untouched(c: Channel, open: bool, t: string) {
    (open ==> t == "" || c.end == "") && Find(t, c.start, 0).None?
  }

  lemma {:induction false} SplitDropsDelimiters(c: Channel, t: string)
    requires c.start != ""
    ensures |Split(c, t).0| + |Split(c, t).1| <= |t|
    ensures Find(t, c.start, 0).Some? ==> |Split(c, t).0| + |Split(c, t).1| < |t|
    decreases |t|
  {
    var m := Consume(c, t);
    if m.Some? {
      SplitDropsDelimiters(c, m.value.remaining);
      var u := t[Find(t, c.start, 0).value + |c.start|..];
      assert |m.value.inside| + |m.value.remaining| <= |u|;
    }
  }

  lemma KeptIsWholeIffUntouched(c: Channel, open: bool, t: string)
    requires c.start != "" && SplitFrom(c, open, t).1 == ""
    ensures SplitFrom(c, open, t).0 == t <==> Untouched(c, open, t)
  {
    if open {
      var (first, remaining) := ConsumeInside(c, t);
      SplitDropsDelimiters(c, remaining);
      if t != "" {
        var e := Find(t, c.end, 0);
        assert e == Some(0);
        assert remaining == t[|c.end|..];
      }
    } else {
      SplitDropsDelimiters(c, t);
    }
  }

  /** Streaming agrees with batch, for every way the response was cut. */
  lemma {:induction false} StreamingAgreesWithExtraction(c: Channel, open: bool, chunks: seq<string>)
    requires c.name != "" && c.start != ""
    ensures var t, out := Concat(chunks), AtDone([c], ModeFor(c, open), chunks);
            var x := ExtractAll([c], if open then Some(c.name) else None, Extraction(t, map[]));
            && x.fields == (if TextTo(c.name, out) == "" then map[] else map[c.name := TextTo(c.name, out)])
            && (TextTo("", out) == x.content <==> TextTo(c.name, out) != "" || Untouched(c, open, t))
  {
    var t, mode := Concat(chunks), ModeFor(c, open);
    SingleIsStable(c);
    FeedAllIsRun([c], mode, chunks);
    RunFlushIsParse([c], mode, t);
    ParseFromIsSplit(c, open, t);
    var name := if open then Some(c.name) else None;
    assert [c][..0] == [];
    assert ExtractAll([c], name, Extraction(t, map[])) == ExtractOne(c, name, Extraction(t, map[])) by {
      assert ExtractAll([c][..0], name, Extraction(t, map[])) == Extraction(t, map[]);
    }
    var (kept, inside) := SplitFrom(c, open, t);
    assert "" + inside == inside;
    if inside == "" { KeptIsWholeIffUntouched(c, open, t); }
  }
}
