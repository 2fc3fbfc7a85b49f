/** What the user sees of the scanner's stream, the delimiters it drops left out, and a condition on the
    channel list under which it does not depend on how the response was cut into chunks.  The
    condition is exact, see `DeliveredExactly`. */
module DeliveredStream {
  import opened Strings
  import opened ChannelScanner
  import opened ChunkIndependence
  import StreamConservation

  /** A trace without the delimiters passed over: what the user sees of it. */
  function Visible(trace: seq<Item>): seq<Item> {
    if trace == [] then []
    else (if trace[0].Opened? || trace[0].Closed? then [] else [trace[0]]) + Visible(trace[1..])
  }

  lemma {:induction false} VisibleJoin(t: seq<Item>, u: seq<Item>)
    ensures Visible(t + u) == Visible(t) + Visible(u)
  {
    if t == [] {
      assert t + u == u;
    } else {
      VisibleJoin(t[1..], u);
      assert (t + u)[0] == t[0] && (t + u)[1..] == t[1..] + u;
      Assoc(if t[0].Opened? || t[0].Closed? then [] else [t[0]], Visible(t[1..]), Visible(u));
    }
  }

  lemma {:induction false} VisibleChars(name: string, s: string)
    ensures Visible(Chars(name, s)) == Chars(name, s)
  {
    if s != "" {
      VisibleChars(name, s[1..]);
      assert Chars(name, s)[1..] == Chars(name, s[1..]);
      assert Chars(name, s) == [Chars(name, s)[0]] + Chars(name, s)[1..];
    }
  }

  lemma VisibleWithDelimiter(body: seq<Item>, item: Item)
    requires item.Opened? || item.Closed?
    ensures Visible(body + [item]) == Visible(body)
  {
    VisibleJoin(body, [item]);
    assert Visible([item][1..]) == [];
    assert Visible(body) + [] == Visible(body);
  }

  lemma VisibleBlocks(s: string)
    ensures Visible(Blocks(s)) == Blocks(s)
  {
    if s != "" {
      assert Visible([Block(s)][1..]) == [];
      assert [Block(s)] + [] == [Block(s)];
    }
  }

  lemma VisibleHead(text: string, c: Channel)
    ensures Visible(Chars("", text) + [Opened(c.name, c.start)]) == Chars("", text)
  {
    VisibleWithDelimiter(Chars("", text), Opened(c.name, c.start));
    VisibleChars("", text);
  }

  /** What the user sees of the whole response, parsed at once. */
  function VisibleParse(chs: seq<Channel>, mode: Mode, t: string): seq<Item>
    requires Startable(chs)
  {
    Visible(Parse(chs, mode, t))
  }

  function VisibleInside(chs: seq<Channel>, c: Channel, t: string): seq<Item>
    requires Startable(chs)
  {
    Visible(ParseInside(chs, c.name, c.end, 0, t))
  }

  /** However a response is cut, what has been delivered once the generation is done is what
      parsing the whole response delivers. */
  ghost predicate DeliversParse(chs: seq<Channel>)
    requires Startable(chs)
  {
    forall mode, chunks :: ModeOk(mode) ==>
      Visible(AtDone(chs, mode, chunks)) == VisibleParse(chs, mode, Concat(chunks))
  }

  /** As the list of channels is built: only the first can be the fence. */
  predicate FenceFirst(chs: seq<Channel>) {
    forall i :: 0 < i < |chs| ==> chs[i].name != ""
  }

  // ---- the condition: a finite question about the delimiters alone ---------------------------

  /** What the user has seen and where the scanner stands. */
  function Seen(o: Outcome): Outcome {
    o.(trace := Visible(o.trace))
  }

  /** The scanner has just entered channel `c` and reads `t`. */
  function Entered(chs: seq<Channel>, c: Channel, t: string): Outcome
    requires Startable(chs)
  {
    Finish(chs, TurnInside(c.name, c.end, 0, t))
  }

  /** Cut after `n` characters, the start of channel `i` may be taken for another start that it
      begins with; reading on to its end from there shows nothing, and leads to just where entering
      the channel `i` leads.  It cannot be so if a fence is involved. */
  ghost predicate CutUnseen(chs: seq<Channel>, i: nat, n: nat)
    requires Startable(chs) && i < |chs| && n < |chs[i].start|
  {
    match NextStart(chs, chs[i].start[..n], 0)
    case None => true
    case Some(hit) =>
      var c, s := chs[hit.index], chs[i].start;
      && hit.pos == 0 && c.name != "" && chs[i].name != "" && |c.start| <= |s|
      && Seen(Entered(chs, c, s[|c.start|..])) == Seen(Entered(chs, chs[i], ""))
  }

  /** No start that can win shows where it was cut. */
  ghost predicate VisiblyStable(chs: seq<Channel>)
    requires Startable(chs)
  {
    forall i, n | 0 <= i < |chs| && 0 <= n < |chs[i].start| :: Shadowed(chs, i) || CutUnseen(chs, i, n)
  }

  // ---- it is enough ---------------------------------------------------------------------------

  /** All that will have been seen from the scanner's state `o` on, if `b` still comes. */
  function Shows(chs: seq<Channel>, o: Outcome, b: string): seq<Item>
    requires Startable(chs)
  {
    Visible(o.trace) + VisibleParse(chs, o.mode, o.rest + b)
  }

  lemma ShowsPrepend(chs: seq<Channel>, t: seq<Item>, o: Outcome, b: string)
    requires Startable(chs)
    ensures Shows(chs, Prepend(t, o), b) == Visible(t) + Shows(chs, o, b)
  {
    VisibleJoin(t, o.trace);
    Assoc(Visible(t), Visible(o.trace), VisibleParse(chs, o.mode, o.rest + b));
  }

  lemma ParseOfTurn(chs: seq<Channel>, name: string, end: string, skip: nat, t: string)
    requires Startable(chs) && TurnInside(name, end, skip, t).Next?
    ensures var turn := TurnInside(name, end, skip, t);
            ParseInside(chs, name, end, skip, t) == turn.trace + Parse(chs, Outside, turn.rest)
  {
  }

  /** Inside a channel, and then from its end on. */
  lemma {:induction false} InsideShows(chs: seq<Channel>, name: string, end: string, skip: nat, a: string, b: string)
    requires Startable(chs) && VisiblyStable(chs) && (name != "" ==> skip == 0)
    ensures Shows(chs, Finish(chs, TurnInside(name, end, skip, a)), b) ==
            Visible(ParseInside(chs, name, end, skip, a + b))
    decreases |a| + |b| - skip, 2
  {
    hide Run, Parse, ParseInside, Visible, Shows, VisiblyStable, TurnInside;
    var turn := TurnInside(name, end, skip, a);
    if turn.Next? {
      ClosedInside(name, end, skip, a, b);
      ParseOfTurn(chs, name, end, skip, a + b);
      RunShows(chs, Outside, turn.rest, b);
      ShowsPrepend(chs, turn.trace, Run(chs, Outside, turn.rest), b);
      VisibleJoin(turn.trace, Parse(chs, Outside, turn.rest + b));
    } else {
      BrokenShows(chs, name, end, skip, a, b);
    }
  }

  /** A turn that broke, and more text: nothing of it need be stable. */
  lemma BrokenShows(chs: seq<Channel>, name: string, end: string, skip: nat, a: string, b: string)
    requires Startable(chs) && (name != "" ==> skip == 0) && TurnInside(name, end, skip, a).Break?
    ensures Shows(chs, TurnInside(name, end, skip, a).last, b) == Visible(ParseInside(chs, name, end, skip, a + b))
  {
    hide Run, Parse, ParseInside, Visible, TurnInside;
    var o := TurnInside(name, end, skip, a).last;
    BrokenInside(name, end, skip, a, b);
    InsideFlush(chs, name, end, skip, a + b);
    InsideFlush(chs, name, end, skip, o.rest + b);
    var more := Finish(chs, TurnInside(name, end, skip, o.rest + b));
    FinishAfter(chs, o.trace, TurnInside(name, end, skip, o.rest + b));
    assert (o.trace + more.trace) + Flush(more) == o.trace + (more.trace + Flush(more));
    VisibleJoin(o.trace, ParseInside(chs, name, end, skip, o.rest + b));
    WaitingParse(chs, name, end, skip, a, o.rest + b);
  }

  lemma WaitingParse(chs: seq<Channel>, name: string, end: string, skip: nat, a: string, t: string)
    requires Startable(chs) && TurnInside(name, end, skip, a).Break?
    ensures Parse(chs, Inside(name, end, skip), t) == ParseInside(chs, name, end, skip, t)
  {
    if t == "" {
      assert !OccursAt(a, end, skip);
    }
  }

  /** What has been seen after `a`, and what is seen once `b` has come too, is what is seen of
      both: whichever start the scanner took at the end of `a`. */
  lemma {:induction false} RunShows(chs: seq<Channel>, mode: Mode, a: string, b: string)
    requires Startable(chs) && VisiblyStable(chs) && ModeOk(mode)
    ensures Shows(chs, Run(chs, mode, a), b) == VisibleParse(chs, mode, a + b)
    decreases |a| + |b|, if mode.Inside? then 4 else 1
  {
    hide Run, Parse, ParseInside, Visible, VisiblyStable, NextStart, Shows;
    if a == "" {
      NothingRead(chs, mode, b);
    } else {
      RunIsFinish(chs, mode, a);
      if mode.Inside? {
        InsideShows(chs, mode.name, mode.end, mode.skip, a, b);
        ParseIsInside(chs, mode, a + b);
      } else if NextStart(chs, a, 0).None? {
        NoStartShows(chs, a, b);
      } else {
        StartShows(chs, a, b);
      }
    }
  }

  lemma NothingRead(chs: seq<Channel>, mode: Mode, b: string)
    requires Startable(chs)
    ensures Shows(chs, Run(chs, mode, ""), b) == VisibleParse(chs, mode, "" + b)
  {
    assert Visible([]) + VisibleParse(chs, mode, "" + b) == VisibleParse(chs, mode, "" + b);
  }

  lemma ParseIsInside(chs: seq<Channel>, mode: Mode, t: string)
    requires Startable(chs) && mode.Inside? && t != ""
    ensures Parse(chs, mode, t) == ParseInside(chs, mode.name, mode.end, mode.skip, t)
  {
  }

  lemma {:induction false} NoStartShows(chs: seq<Channel>, a: string, b: string)
    requires Startable(chs) && a != "" && NextStart(chs, a, 0).None?
    ensures Shows(chs, Run(chs, Outside, a), b) == VisibleParse(chs, Outside, a + b)
  {
    hide Parse, Visible, NextStart, Run, MaxOverlap, TurnOutside, Flush;
    RunIsFinish(chs, Outside, a);
    var o := Run(chs, Outside, a);
    BrokenIs(chs, a);
    RunFlushIsParse(chs, Outside, a + b);
    if o.rest + b == "" {
      assert a + b == a && b == "";
      EmptyRun(chs, o);
      assert o.trace + [] == o.trace;
      assert Visible(o.trace) + Visible([]) == Visible(o.trace) by { VisibleJoin(o.trace, []); }
    } else {
      BrokenOutside(chs, a, b);
      var more := Run(chs, Outside, o.rest + b);
      RunFlushIsParse(chs, Outside, o.rest + b);
      RunIsFinish(chs, Outside, a + b);
      RunIsFinish(chs, Outside, o.rest + b);
      FinishAfter(chs, o.trace, TurnOutside(chs, o.rest + b));
      FlushPrepend(o.trace, more);
      VisibleJoin(o.trace, Parse(chs, Outside, o.rest + b));
    }
  }

  lemma BrokenIs(chs: seq<Channel>, a: string)
    requires Startable(chs) && NextStart(chs, a, 0).None?
    ensures TurnOutside(chs, a).Break? && TurnOutside(chs, a).last.mode == Outside
    ensures Finish(chs, TurnOutside(chs, a)) == TurnOutside(chs, a).last
  {
  }

  lemma FlushPrepend(t: seq<Item>, o: Outcome)
    ensures Prepend(t, o).trace + Flush(Prepend(t, o)) == t + (o.trace + Flush(o))
  {
  }

  lemma EmptyRun(chs: seq<Channel>, o: Outcome)
    requires Startable(chs) && o.rest == ""
    ensures Parse(chs, Outside, "") == [] && Flush(o) == []
  {
  }

  /** A start is found in `a`; the one found in `a + b` may be another. */
  lemma {:induction false} StartShows(chs: seq<Channel>, a: string, b: string)
    requires Startable(chs) && VisiblyStable(chs) && NextStart(chs, a, 0).Some?
    ensures Shows(chs, Run(chs, Outside, a), b) == VisibleParse(chs, Outside, a + b)
    decreases |a| + |b|, 0
  {
    hide Run, Parse, ParseInside, ParseAtStart, Visible, VisiblyStable, TurnAtStart, NextStart, Shows, Finish;
    var hit := NextStart(chs, a, 0).value;
    NextStartOccurs(chs, a, 0);
    var c := chs[hit.index];
    var head, tail := Chars("", a[..hit.pos]) + [Opened(c.name, c.start)], a[hit.pos..];
    RunStarts(chs, a);
    ShowsPrepend(chs, head, Finish(chs, TurnAtStart(c, tail)), b);
    VisibleHead(a[..hit.pos], c);
    assert (a + b)[..hit.pos] == a[..hit.pos] && (a + b)[hit.pos..] == tail + b;
    AtStartShows(chs, c, tail, b);
    if NextStart(chs, a + b, 0) == Some(hit) {
      ParseStarts(chs, a + b);
    } else {
      Retaken(chs, a, b);
    }
  }

  lemma RunStarts(chs: seq<Channel>, t: string)
    requires Startable(chs) && NextStart(chs, t, 0).Some?
    ensures var hit := NextStart(chs, t, 0).value;
            && hit.pos <= |t| && |chs[hit.index].start| <= |t| - hit.pos
            && var c := chs[hit.index];
               Run(chs, Outside, t) == Prepend(Chars("", t[..hit.pos]) + [Opened(c.name, c.start)],
                   Finish(chs, TurnAtStart(c, t[hit.pos..])))
  {
    hide NextStart, Chars, TurnAtStart, Finish;
    NextStartOccurs(chs, t, 0);
    var hit := NextStart(chs, t, 0).value;
    var c := chs[hit.index];
    assert t != "";
    RunIsFinish(chs, Outside, t);
    FinishAfter(chs, Chars("", t[..hit.pos]) + [Opened(c.name, c.start)], TurnAtStart(c, t[hit.pos..]));
  }

  lemma ParseStarts(chs: seq<Channel>, t: string)
    requires Startable(chs) && NextStart(chs, t, 0).Some?
    ensures var hit := NextStart(chs, t, 0).value;
            && hit.pos <= |t| && |chs[hit.index].start| <= |t| - hit.pos
            && VisibleParse(chs, Outside, t) == Chars("", t[..hit.pos])
                + Visible(ParseAtStart(chs, chs[hit.index], t[hit.pos..]))
  {
    hide NextStart, Chars, ParseAtStart, Visible;
    NextStartOccurs(chs, t, 0);
    var hit := NextStart(chs, t, 0).value;
    var c := chs[hit.index];
    VisibleHead(t[..hit.pos], c);
    VisibleJoin(Chars("", t[..hit.pos]) + [Opened(c.name, c.start)], ParseAtStart(chs, c, t[hit.pos..]));
  }

  lemma {:induction false} AtStartShows(chs: seq<Channel>, c: Channel, a: string, b: string)
    requires Startable(chs) && VisiblyStable(chs) && |c.start| <= |a| && c.start != ""
    ensures Shows(chs, Finish(chs, TurnAtStart(c, a)), b) == Visible(ParseAtStart(chs, c, a + b))
    decreases |a| + |b| - |c.start|, 3
  {
    hide Finish, ParseInside, Visible, Shows, VisiblyStable, TurnInside;
    if c.name != "" {
      assert (a + b)[|c.start|..] == a[|c.start|..] + b;
      InsideShows(chs, c.name, c.end, 0, a[|c.start|..], b);
    } else {
      InsideShows(chs, "", c.end, |c.start|, a, b);
    }
  }

  /** Where the start found in `a` gives way to a longer one that ends only in `b`: the user sees no
      difference. */
  lemma {:induction false} Retaken(chs: seq<Channel>, a: string, b: string)
    requires Startable(chs) && VisiblyStable(chs)
    requires NextStart(chs, a, 0).Some? && NextStart(chs, a + b, 0) != NextStart(chs, a, 0)
    ensures var hit := NextStart(chs, a, 0).value;
            && hit.pos <= |a| && |chs[hit.index].start| <= |a| - hit.pos
            && VisibleParse(chs, Outside, a + b)
               == Chars("", a[..hit.pos]) + Visible(ParseAtStart(chs, chs[hit.index], a[hit.pos..] + b))
    decreases |a| + |b| - 1, 5
  {
    hide Parse, ParseAtStart, Visible, VisiblyStable, NextStart, CutUnseen, Chars, OccursAt, Shadowed, VisibleParse,
        Seen, Entered;
    NextStartOccurs(chs, a, 0);
    var hit := NextStart(chs, a, 0).value;
    var r := Superseding(chs, a, b);
    var i, m, n := r.index, hit.index, |a| - r.pos;
    StableCut(chs, i, n);
    CutOfUnseen(chs, i, n, m);
    var s := chs[i].start;
    var z := (a + b)[r.pos + |s|..];
    assert (a + b)[..r.pos] == a[..hit.pos];
    assert (a + b)[r.pos..] == s + z == a[hit.pos..] + b;
    ParseStarts(chs, a + b);
    SameReading(chs, i, m, z);
  }

  /** Read as channel `m` and then on, the start of channel `i` leads to what follows as it does itself. */
  lemma {:induction false} SameReading(chs: seq<Channel>, i: nat, m: nat, z: string)
    requires Startable(chs) && VisiblyStable(chs) && i < |chs| && m < |chs|
    requires chs[m].name != "" && chs[i].name != "" && |chs[m].start| <= |chs[i].start|
    requires Seen(Entered(chs, chs[m], chs[i].start[|chs[m].start|..])) == Seen(Entered(chs, chs[i], ""))
    ensures Visible(ParseAtStart(chs, chs[m], chs[i].start + z)) == Visible(ParseAtStart(chs, chs[i], chs[i].start + z))
    decreases |chs[i].start| + |z| - 1, 4
  {
    hide ParseAtStart, ParseInside, Visible, VisiblyStable, Shows, Finish, TurnInside, Seen;
    var s, u := chs[i].start, chs[m].start;
    var v := s[|u|..];
    assert u != "" && s != "";
    assert (s + z)[|u|..] == v + z && (s + z)[|s|..] == "" + z;
    ParseNamed(chs, chs[i], s + z);
    ParseNamed(chs, chs[m], s + z);
    InsideShows(chs, chs[m].name, chs[m].end, 0, v, z);
    InsideShows(chs, chs[i].name, chs[i].end, 0, "", z);
    SeenShows(chs, Entered(chs, chs[m], v), Entered(chs, chs[i], ""), z);
  }

  lemma StableCut(chs: seq<Channel>, i: nat, n: nat)
    requires Startable(chs) && VisiblyStable(chs) && i < |chs| && n < |chs[i].start| && !Shadowed(chs, i)
    ensures CutUnseen(chs, i, n)
  {
  }

  lemma CutOfUnseen(chs: seq<Channel>, i: nat, n: nat, m: nat)
    requires Startable(chs) && i < |chs| && n < |chs[i].start| && CutUnseen(chs, i, n)
    requires NextStart(chs, chs[i].start[..n], 0).Some? && NextStart(chs, chs[i].start[..n], 0).value.index == m
    ensures NextStart(chs, chs[i].start[..n], 0).value.pos == 0
    ensures chs[m].name != "" && chs[i].name != "" && |chs[m].start| <= |chs[i].start|
    ensures Seen(Entered(chs, chs[m], chs[i].start[|chs[m].start|..])) == Seen(Entered(chs, chs[i], ""))
  {
    hide NextStart, Seen, Entered;
  }

  lemma ParseNamed(chs: seq<Channel>, c: Channel, t: string)
    requires Startable(chs) && c.name != "" && |c.start| <= |t|
    ensures ParseAtStart(chs, c, t) == ParseInside(chs, c.name, c.end, 0, t[|c.start|..])
  {
  }

  lemma SeenShows(chs: seq<Channel>, o: Outcome, o': Outcome, b: string)
    requires Startable(chs) && Seen(o) == Seen(o')
    ensures Shows(chs, o, b) == Shows(chs, o', b)
  {
    hide Visible, VisibleParse;
  }

  /** The longer start that takes over begins no later than the one found before, ends in `b`, and
      cut where `a` ends it is taken for that one. */
  lemma {:induction false} Superseding(chs: seq<Channel>, a: string, b: string) returns (r: Hit)
    requires Startable(chs)
    requires NextStart(chs, a, 0).Some? && NextStart(chs, a + b, 0) != NextStart(chs, a, 0)
    ensures NextStart(chs, a + b, 0) == Some(r) && !Shadowed(chs, r.index)
    ensures r.pos <= |a| < r.pos + |chs[r.index].start| <= |a + b|
    ensures (a + b)[r.pos..r.pos + |chs[r.index].start|] == chs[r.index].start
    ensures var hit := NextStart(chs, a, 0).value;
            && r.pos <= hit.pos
            && NextStart(chs, chs[r.index].start[..|a| - r.pos], 0) == Some(Hit(hit.pos - r.pos, hit.index))
  {
    hide NextStart, OccursAt, Shadowed;
    var hit := NextStart(chs, a, 0).value;
    NextStartIsFirst(chs, a, 0);
    r := StartOfBoth(chs, a, b);
    FirstIsUnshadowed(chs, a + b, r);
    NextStartSkip(chs, a, r.pos);
    assert a[r.pos..] == (a + b)[r.pos..r.pos + |chs[r.index].start|][..|a| - r.pos];
  }

  lemma {:induction false} StartOfBoth(chs: seq<Channel>, a: string, b: string) returns (r: Hit)
    requires NextStart(chs, a, 0).Some? && NextStart(chs, a + b, 0) != NextStart(chs, a, 0)
    ensures NextStart(chs, a + b, 0) == Some(r) && IsFirstStart(chs, a + b, 0, r)
    ensures r.pos <= NextStart(chs, a, 0).value.pos <= |a| < r.pos + |chs[r.index].start| <= |a + b|
    ensures (a + b)[r.pos..r.pos + |chs[r.index].start|] == chs[r.index].start
    ensures forall i, q :: 0 <= i < |chs| && 0 <= q < r.pos ==> !OccursAt(a, chs[i].start, q)
  {
    hide NextStart;
    var hit := NextStart(chs, a, 0).value;
    NextStartIsFirst(chs, a, 0);
    OccursInPrefix(a, b, chs[hit.index].start, hit.pos);
    NextStartIsFirst(chs, a + b, 0);
    r := NextStart(chs, a + b, 0).value;
    if r.pos + |chs[r.index].start| <= |a| {
      OccursInPrefix(a, b, chs[r.index].start, r.pos);
      assert false;
    }
  }

  // ---- all chunks --------------------------------------------------------------------------

  lemma {:induction false} FeedAllShows(chs: seq<Channel>, mode: Mode, chunks: seq<string>, more: string)
    requires Startable(chs) && VisiblyStable(chs) && ModeOk(mode)
    ensures Shows(chs, FeedAll(chs, mode, chunks), more) == VisibleParse(chs, mode, Concat(chunks) + more)
    decreases |chunks|
  {
    hide Run, VisiblyStable, Shows, VisibleParse;
    if chunks == [] {
      NothingFed(chs, mode, more);
    } else {
      var n := |chunks| - 1;
      var before := FeedAll(chs, mode, chunks[..n]);
      StreamConservation.FeedAllKeeps(chs, mode, chunks[..n]);
      FeedAllShows(chs, mode, chunks[..n], chunks[n] + more);
      RunShows(chs, before.mode, before.rest + chunks[n], more);
      FeedShows(chs, before, chunks[n], more);
      Assoc(Concat(chunks[..n]), chunks[n], more);
    }
  }

  lemma NothingFed(chs: seq<Channel>, mode: Mode, more: string)
    requires Startable(chs)
    ensures Shows(chs, Outcome([], mode, ""), more) == VisibleParse(chs, mode, "" + more)
  {
    assert Visible([]) + VisibleParse(chs, mode, "" + more) == VisibleParse(chs, mode, "" + more);
  }

  lemma FeedShows(chs: seq<Channel>, o: Outcome, chunk: string, more: string)
    requires Startable(chs)
    requires Shows(chs, Run(chs, o.mode, o.rest + chunk), more) == VisibleParse(chs, o.mode, (o.rest + chunk) + more)
    ensures Shows(chs, Feed(chs, o, chunk), more) == Shows(chs, o, chunk + more)
  {
    hide Run, Visible, VisibleParse;
    ShowsPrepend(chs, o.trace, Run(chs, o.mode, o.rest + chunk), more);
    Assoc(o.rest, chunk, more);
  }

  /** When the generation is done after `more`, what is seen is what the state before it shows. */
  lemma {:induction false} DoneShows(chs: seq<Channel>, mode: Mode, chunks: seq<string>, more: string)
    requires Startable(chs) && ModeOk(mode)
    ensures Visible(AtDone(chs, mode, chunks + [more])) == Shows(chs, FeedAll(chs, mode, chunks), more)
    ensures Concat(chunks + [more]) == Concat(chunks) + more
  {
    hide Run, Parse, Visible, Flush;
    assert (chunks + [more])[..|chunks|] == chunks;
    var o := FeedAll(chs, mode, chunks);
    StreamConservation.FeedAllKeeps(chs, mode, chunks);
    var r := Run(chs, o.mode, o.rest + more);
    RunFlushIsParse(chs, o.mode, o.rest + more);
    FlushPrepend(o.trace, r);
    VisibleJoin(o.trace, Parse(chs, o.mode, o.rest + more));
  }

  /** What the user has seen at any moment stays the beginning of what will be seen in the end. */
  lemma {:induction false} SeenIsPrefix(chs: seq<Channel>, mode: Mode, chunks: seq<string>, more: string)
    requires Startable(chs) && VisiblyStable(chs) && ModeOk(mode)
    ensures Visible(FeedAll(chs, mode, chunks).trace) <= VisibleParse(chs, mode, Concat(chunks) + more)
  {
    hide FeedAll, VisiblyStable, Visible, VisibleParse;
    FeedAllShows(chs, mode, chunks, more);
  }

  lemma {:induction false} SeenAtDone(chs: seq<Channel>, mode: Mode, chunks: seq<string>)
    requires Startable(chs) && VisiblyStable(chs) && ModeOk(mode)
    ensures Visible(AtDone(chs, mode, chunks)) == VisibleParse(chs, mode, Concat(chunks))
  {
    hide FeedAll, VisiblyStable, VisibleParse, Visible, AtDone, Shows, Concat;
    if chunks == [] {
      NothingAtDone(chs, mode);
    } else {
      var n := |chunks| - 1;
      assert chunks[..n] + [chunks[n]] == chunks;
      DoneShows(chs, mode, chunks[..n], chunks[n]);
      FeedAllShows(chs, mode, chunks[..n], chunks[n]);
    }
  }

  lemma NothingAtDone(chs: seq<Channel>, mode: Mode)
    requires Startable(chs)
    ensures Visible(AtDone(chs, mode, [])) == VisibleParse(chs, mode, Concat([]))
  {
  }
}
