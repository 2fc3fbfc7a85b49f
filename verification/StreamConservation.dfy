/** Nothing of a response is lost or invented, and only a possible delimiter is kept back.
    These hold for every channel list and every cut, stable or not. */
module StreamConservation {
  import opened Strings
  import opened ChannelScanner

  /** The text an item stands for: what was sent, or the delimiter of a custom channel that was
      dropped.  The delimiters of a fence are sent with the fence. */
  function TextOf(item: Item): string {
    match item
    case Out(_, ch) => [ch]
    case Block(text) => text
    case Opened(name, start) => if name != "" then start else ""
    case Closed(name, end) => if name != "" then end else ""
  }

  function Rebuild(trace: seq<Item>): string {
    if trace == [] then "" else TextOf(trace[0]) + Rebuild(trace[1..])
  }

  lemma {:induction false} RebuildJoin(t: seq<Item>, u: seq<Item>)
    ensures Rebuild(t + u) == Rebuild(t) + Rebuild(u)
  {
    if t == [] {
      assert t + u == u;
    } else {
      RebuildJoin(t[1..], u);
      assert (t + u)[0] == t[0] && (t + u)[1..] == t[1..] + u;
      Assoc(TextOf(t[0]), Rebuild(t[1..]), Rebuild(u));
    }
  }

  lemma {:induction false} RebuildChars(name: string, s: string)
    ensures Rebuild(Chars(name, s)) == s
  {
    if s != "" {
      RebuildChars(name, s[1..]);
      assert Chars(name, s)[1..] == Chars(name, s[1..]);
    }
  }

  lemma RebuildOne(item: Item)
    ensures Rebuild([item]) == TextOf(item)
  {
    assert Rebuild([item][1..]) == "";
  }

  function TurnText(turn: Turn): string {
    match turn
    case Break(last) => Rebuild(last.trace) + last.rest
    case Next(trace, rest) => Rebuild(trace) + rest
  }

  lemma AfterText(head: seq<Item>, turn: Turn)
    ensures TurnText(After(head, turn)) == Rebuild(head) + TurnText(turn)
  {
    var trace, rest := if turn.Break? then turn.last.trace else turn.trace, if turn.Break? then turn.last.rest
        else turn.rest;
    RebuildJoin(head, trace);
    Assoc(Rebuild(head), Rebuild(trace), rest);
  }

  lemma ClosedText(name: string, end: string, s: string)
    ensures Rebuild((if name != "" then Chars(name, s) else Blocks(s + end)) + [Closed(name, end)]) == s + end
  {
    var body := if name != "" then Chars(name, s) else Blocks(s + end);
    RebuildJoin(body, [Closed(name, end)]);
    RebuildChars(name, s);
    RebuildOne(Closed(name, end));
    RebuildOne(Block(s + end));
  }

  lemma InsideText(name: string, end: string, skip: nat, t: string)
    ensures TurnText(TurnInside(name, end, skip, t)) == t
  {
    hide IsOverlap, Chars, OccursAt;
    if Find(t, end, skip).None? {
      RebuildChars(name, t[..|t| - Overlap(t, end)]);
    } else {
      var e := Find(t, end, skip).value;
      AroundHit(t, end, e);
      ClosedText(name, end, t[..e]);
    }
  }

  lemma OutsideText(chs: seq<Channel>, t: string)
    requires Startable(chs)
    ensures TurnText(TurnOutside(chs, t)) == t
  {
    if NextStart(chs, t, 0).None? {
      RebuildChars("", t[..|t| - MaxOverlap(chs, t)]);
    } else {
      NextStartOccurs(chs, t, 0);
      var hit := NextStart(chs, t, 0).value;
      HitText(chs[hit.index], t[..hit.pos], t[hit.pos..]);
      assert t == t[..hit.pos] + t[hit.pos..];
    }
  }

  lemma HitText(c: Channel, before: string, u: string)
    requires c.start <= u
    ensures TurnText(After(Chars("", before) + [Opened(c.name, c.start)], TurnAtStart(c, u))) == before + u
  {
    AtStartText(c, u);
    StartedText(c, before, TurnAtStart(c, u));
  }

  lemma StartedText(c: Channel, before: string, turn: Turn)
    ensures TurnText(After(Chars("", before) + [Opened(c.name, c.start)], turn)) ==
            before + (TextOf(Opened(c.name, c.start)) + TurnText(turn))
  {
    var begun := Opened(c.name, c.start);
    AfterText(Chars("", before) + [begun], turn);
    RebuildJoin(Chars("", before), [begun]);
    RebuildChars("", before);
    RebuildOne(begun);
    Assoc(before, TextOf(begun), TurnText(turn));
  }

  lemma AtStartText(c: Channel, u: string)
    requires c.start <= u
    ensures TextOf(Opened(c.name, c.start)) + TurnText(TurnAtStart(c, u)) == u
  {
    if c.name != "" {
      InsideText(c.name, c.end, 0, u[|c.start|..]);
      assert u == c.start + u[|c.start|..];
    } else {
      InsideText("", c.end, |c.start|, u);
    }
  }

  /** What was sent, with the dropped delimiters in place, is the text consumed. */
  lemma {:induction false} RunConserves(chs: seq<Channel>, mode: Mode, t: string)
    requires Startable(chs)
    ensures Rebuild(Run(chs, mode, t).trace) + Run(chs, mode, t).rest == t
    decreases |t|, if mode.Inside? then 1 else 0
  {
    if t != "" {
      if mode.Inside? { InsideText(mode.name, mode.end, mode.skip, t); } else { OutsideText(chs, t); }
      var turn := TurnIn(chs, mode, t);
      if turn.Next? {
        RunConserves(chs, Outside, turn.rest);
        var o := Run(chs, Outside, turn.rest);
        RebuildJoin(turn.trace, o.trace);
        Assoc(Rebuild(turn.trace), Rebuild(o.trace), o.rest);
      }
    }
  }

  /** After every chunk: sent pieces and dropped delimiters rebuild the text up to the cursor. */
  lemma {:induction false} FeedAllConserves(chs: seq<Channel>, mode: Mode, chunks: seq<string>, o: Outcome)
    requires Startable(chs) && o == FeedAll(chs, mode, chunks)
    ensures Rebuild(o.trace) + o.rest == Concat(chunks)
  {
    if chunks != [] {
      var n := |chunks| - 1;
      var before := FeedAll(chs, mode, chunks[..n]);
      FeedAllConserves(chs, mode, chunks[..n], before);
      RunConserves(chs, before.mode, before.rest + chunks[n]);
      var r := Run(chs, before.mode, before.rest + chunks[n]);
      RebuildJoin(before.trace, r.trace);
      Assoc(Rebuild(before.trace), Rebuild(r.trace), r.rest);
      Assoc(Rebuild(before.trace), before.rest, chunks[n]);
    }
  }

  ghost predicate ProperPrefix(s: string, t: string) {
    s < t
  }

  /** Outside, only a beginning of some start delimiter is kept; in a custom channel only a
      beginning of its end delimiter; in a fence, a text in which the fence does not end. */
  ghost predicate KeepsOnlyDelimiter(chs: seq<Channel>, o: Outcome) {
    o.rest == "" ||
    match o.mode
    case Outside => exists i :: 0 <= i < |chs| && ProperPrefix(o.rest, chs[i].start)
    case Inside(name, end, skip) =>
      if name != "" then ProperPrefix(o.rest, end) else Find(o.rest, end, skip).None?
  }

  lemma WholeOverlapOccurs(t: string, pat: string)
    requires IsOverlap(t, pat, |pat|)
    ensures OccursAt(t, pat, |t| - |pat|)
  {
    assert t[|t| - |pat|..|t|] == t[|t| - |pat|..] == pat[..|pat|] == pat;
  }

  lemma InsideKeeps(chs: seq<Channel>, name: string, end: string, skip: nat, t: string)
    requires TurnInside(name, end, skip, t).Break? && (name != "" ==> skip == 0)
    ensures KeepsOnlyDelimiter(chs, TurnInside(name, end, skip, t).last)
  {
    if name != "" && Overlap(t, end) == |end| { WholeOverlapOccurs(t, end); }
  }

  lemma {:induction false} OutsideKeeps(chs: seq<Channel>, t: string)
    requires Startable(chs) && NextStart(chs, t, 0).None?
    ensures KeepsOnlyDelimiter(chs, TurnOutside(chs, t).last)
  {
    hide OccursAt, Chars, NextStart, MaxOverlap;
    NextStartIsFirst(chs, t, 0);
    var k := MaxOverlap(chs, t);
    if k > 0 {
      var i :| 0 <= i < |chs| && IsOverlap(t, chs[i].start, k);
      var c := chs[i];
      if k == |c.start| { WholeOverlapOccurs(t, c.start); }
      assert ProperPrefix(t[|t| - k..], c.start);
    }
  }

  lemma {:induction false} RunKeeps(chs: seq<Channel>, mode: Mode, t: string)
    requires Startable(chs) && ModeOk(mode)
    ensures ModeOk(Run(chs, mode, t).mode) && KeepsOnlyDelimiter(chs, Run(chs, mode, t))
    decreases |t|, if mode.Inside? then 1 else 0
  {
    if t != "" {
      var turn := TurnIn(chs, mode, t);
      if turn.Next? {
        RunKeeps(chs, Outside, turn.rest);
      } else if mode.Inside? {
        InsideKeeps(chs, mode.name, mode.end, mode.skip, t);
      } else if NextStart(chs, t, 0).None? {
        OutsideKeeps(chs, t);
      } else {
        NextStartIsFirst(chs, t, 0);
        var hit := NextStart(chs, t, 0).value;
        var c, u := chs[hit.index], t[hit.pos..];
        if c.name != "" {
          InsideKeeps(chs, c.name, c.end, 0, u[|c.start|..]);
        } else {
          InsideKeeps(chs, "", c.end, |c.start|, u);
        }
      }
    }
  }

  /** Bounded hold-back after every chunk. */
  lemma {:induction false} FeedAllKeeps(chs: seq<Channel>, mode: Mode, chunks: seq<string>)
    requires Startable(chs) && ModeOk(mode)
    ensures ModeOk(FeedAll(chs, mode, chunks).mode) && KeepsOnlyDelimiter(chs, FeedAll(chs, mode, chunks))
  {
    if chunks != [] {
      var n := |chunks| - 1;
      FeedAllKeeps(chs, mode, chunks[..n]);
      var o := FeedAll(chs, mode, chunks[..n]);
      RunKeeps(chs, o.mode, o.rest + chunks[n]);
    }
  }
}
