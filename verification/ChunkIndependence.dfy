/** The course of the scanner, with the delimiters it passes over, does not depend on how the response
    was cut into chunks: exactly when no start delimiter can complete inside another one that could
    win.  For what the user sees of it, see `DeliveredStream`. */
module ChunkIndependence {
  import opened Strings
  import opened ChannelScanner

  /** Channel `i` can never be chosen: an earlier listed start is a prefix of its own. */
  ghost predicate Shadowed(chs: seq<Channel>, i: nat)
    requires i < |chs|
  {
    exists j :: 0 <= j < i && chs[j].start <= chs[i].start
  }

  /** No start delimiter ends strictly inside another, unless that other is shadowed. */
  ghost predicate Stable(chs: seq<Channel>) {
    forall i, m, k | 0 <= i < |chs| && 0 <= m < |chs| && OccursAt(chs[i].start, chs[m].start, k) ::
      k + |chs[m].start| < |chs[i].start| ==> Shadowed(chs, i)
  }

  /** However a response is cut, feeding the pieces is the same as feeding it whole. */
  ghost predicate ChunkIndependent(chs: seq<Channel>)
    requires Startable(chs)
  {
    forall mode, chunks :: ModeOk(mode) ==> FeedAll(chs, mode, chunks) == Run(chs, mode, Concat(chunks))
  }

  /** What has been delivered once the generation is done, the delimiters passed over put between. */
  function AtDone(chs: seq<Channel>, mode: Mode, chunks: seq<string>): seq<Item>
    requires Startable(chs)
  {
    FeedAll(chs, mode, chunks).trace + Flush(FeedAll(chs, mode, chunks))
  }

  // ---- what more text can change --------------------------------------------------

  /** If at most `k` characters at the end of `a` can begin `pat`, then what follows `a`
      cannot bring an occurrence, or an overlap, that starts before them. */
  lemma NothingBefore(a: string, b: string, pat: string, k: nat)
    requires k <= |a|
    requires forall q: nat :: !OccursAt(a, pat, q)
    requires forall n: nat :: k < n ==> !IsOverlap(a, pat, n)
    ensures forall q :: 0 <= q < |a| - k ==> !OccursAt(a + b, pat, q)
    ensures forall n: nat :: k + |b| < n ==> !IsOverlap(a + b, pat, n)
  {
    forall q | 0 <= q < |a| - k ensures !OccursAt(a + b, pat, q) {
      if OccursAt(a + b, pat, q) { NewHitOverlaps(a, b, pat, q); }
    }
    forall n: nat | k + |b| < n ensures !IsOverlap(a + b, pat, n) {
      if IsOverlap(a + b, pat, n) { OverlapOfLonger(a, b, pat, n); }
    }
  }

  lemma FindSkip(t: string, pat: string, h: nat)
    requires h <= |t|
    requires forall q :: 0 <= q < h ==> !OccursAt(t, pat, q)
    ensures Find(t, pat, 0) == match Find(t[h..], pat, 0) case None => None case Some(q) => Some(h + q)
  {
    FindShift(t, pat, h, 0);
    assert Find(t, pat, 0).None? <==> Find(t, pat, h).None?;
  }

  lemma OverlapSkip(t: string, pat: string, h: nat)
    requires h <= |t|
    requires forall n: nat :: |t| - h < n ==> !IsOverlap(t, pat, n)
    ensures Overlap(t, pat) == Overlap(t[h..], pat)
  {
    OverlapOfSuffix(t, pat, h, Overlap(t, pat));
    OverlapOfSuffix(t, pat, h, Overlap(t[h..], pat));
  }

  lemma {:induction false} NextStartSkip(chs: seq<Channel>, t: string, h: nat)
    requires h <= |t|
    requires forall i, q :: 0 <= i < |chs| && 0 <= q < h ==> !OccursAt(t, chs[i].start, q)
    ensures NextStart(chs, t, 0) ==
            match NextStart(chs, t[h..], 0) case None => None case Some(hit) => Some(Hit(h + hit.pos, hit.index))
  {
    hide OccursAt;
    if chs != [] {
      NextStartSkip(chs[..|chs| - 1], t, h);
      FindSkip(t, chs[|chs| - 1].start, h);
    }
  }

  lemma {:induction false} MaxOverlapSkip(chs: seq<Channel>, t: string, h: nat)
    requires h <= |t|
    requires forall i, n: nat :: 0 <= i < |chs| && |t| - h < n ==> !IsOverlap(t, chs[i].start, n)
    ensures MaxOverlap(chs, t) == MaxOverlap(chs, t[h..])
  {
    if chs != [] {
      MaxOverlapSkip(chs[..|chs| - 1], t, h);
      OverlapSkip(t, chs[|chs| - 1].start, h);
    }
  }

  /** Under stability a start delimiter found stays the one found. */
  lemma NextStartExtends(chs: seq<Channel>, a: string, b: string)
    requires Stable(chs) && NextStart(chs, a, 0).Some?
    ensures NextStart(chs, a + b, 0) == NextStart(chs, a, 0)
  {
    var hit := NextStart(chs, a, 0).value;
    NextStartIsFirst(chs, a, 0);
    OccursInPrefix(a, b, chs[hit.index].start, hit.pos);
    NextStartIsFirst(chs, a + b, 0);
    var r := NextStart(chs, a + b, 0).value;
    if r.pos < hit.pos || (r.pos == hit.pos && r.index < hit.index) {
      EarlierStartUnstable(chs, a, b, hit, r);
    }
  }

  /** A start that wins only once `b` has arrived contains the start that won before. */
  lemma EarlierStartUnstable(chs: seq<Channel>, a: string, b: string, hit: Hit, r: Hit)
    requires IsFirstStart(chs, a, 0, hit) && IsFirstStart(chs, a + b, 0, r)
    requires r.pos < hit.pos || (r.pos == hit.pos && r.index < hit.index)
    ensures !Stable(chs)
  {
    var s, u := chs[hit.index].start, chs[r.index].start;
    if r.pos + |u| <= |a| {
      OccursInPrefix(a, b, u, r.pos);
    } else {
      OccursInPrefix(a, b, s, hit.pos);
      OccursInside(a + b, u, s, r.pos, hit.pos);
      FirstIsUnshadowed(chs, a + b, r);
    }
  }

  lemma FirstIsUnshadowed(chs: seq<Channel>, t: string, hit: Hit)
    requires IsFirstStart(chs, t, 0, hit)
    ensures !Shadowed(chs, hit.index)
  {
    forall j | 0 <= j < hit.index ensures !(chs[j].start <= chs[hit.index].start) {
      if chs[j].start <= chs[hit.index].start {
        OccursOuter(t, chs[hit.index].start, chs[j].start, hit.pos, 0);
      }
    }
  }

  /** The first `n` characters go out the same if the first `h` of them go out before. */
  lemma CharsSplit(name: string, t: string, h: nat, n: nat)
    requires h <= n <= |t|
    ensures Chars(name, t[..n]) == Chars(name, t[..h]) + Chars(name, t[h..][..n - h])
    ensures t[n..] == t[h..][n - h..]
  {
  }

  /** No start delimiter of `chs` begins, or can still begin, before position `h` of `t`. */
  ghost predicate ClearUpTo(chs: seq<Channel>, t: string, h: nat) {
    && h <= |t|
    && (forall i, q | 0 <= i < |chs| && 0 <= q < h :: !OccursAt(t, chs[i].start, q))
    && (forall i, n: nat | 0 <= i < |chs| && |t| - h < n :: !IsOverlap(t, chs[i].start, n))
  }

  // ---- the scanner resumes where it stopped -----------------------------------------

  lemma PrependPrepend(t: seq<Item>, u: seq<Item>, o: Outcome)
    ensures Prepend(t, Prepend(u, o)) == Prepend(t + u, o)
  {
    assert t + (u + o.trace) == (t + u) + o.trace;
  }

  lemma FeedPrepend(chs: seq<Channel>, t: seq<Item>, o: Outcome, b: string)
    requires Startable(chs)
    ensures Feed(chs, Prepend(t, o), b) == Prepend(t, Feed(chs, o, b))
  {
    PrependPrepend(t, o.trace, Run(chs, o.mode, o.rest + b));
  }

  lemma AfterAfter(t: seq<Item>, u: seq<Item>, turn: Turn)
    ensures After(t, After(u, turn)) == After(t + u, turn)
  {
    if turn.Break? {
      assert t + (u + turn.last.trace) == (t + u) + turn.last.trace;
    } else {
      assert t + (u + turn.trace) == (t + u) + turn.trace;
    }
  }

  /** Delivering the first `h` characters separately changes nothing: outside. */
  lemma {:induction false} TurnOutsideSplit(chs: seq<Channel>, t: string, h: nat)
    requires Startable(chs) && ClearUpTo(chs, t, h)
    ensures TurnOutside(chs, t) == After(Chars("", t[..h]), TurnOutside(chs, t[h..]))
  {
    hide OccursAt, IsOverlap, TurnAtStart, NextStart, MaxOverlap;
    NextStartSkip(chs, t, h);
    if NextStart(chs, t, 0).None? {
      MaxOverlapSkip(chs, t, h);
      CharsSplit("", t, h, |t| - MaxOverlap(chs, t));
    } else {
      TurnOutsideSplitAtHit(chs, t, h);
    }
  }

  lemma {:induction false} TurnOutsideSplitAtHit(chs: seq<Channel>, t: string, h: nat)
    requires Startable(chs) && h <= |t|
    requires NextStart(chs, t, 0).Some? && NextStart(chs, t[h..], 0).Some?
    requires var hit, there := NextStart(chs, t, 0).value, NextStart(chs, t[h..], 0).value;
             hit.pos == h + there.pos && hit.index == there.index
    ensures TurnOutside(chs, t) == After(Chars("", t[..h]), TurnOutside(chs, t[h..]))
  {
    hide OccursAt, MaxOverlap, TurnAtStart, NextStart, Chars;
    var u := t[h..];
    var hit := NextStart(chs, t, 0).value;
    NextStartOccurs(chs, t, 0);
    var c := chs[hit.index];
    CharsSplit("", t, h, hit.pos);
    var begun := [Opened(c.name, c.start)];
    var x, y := Chars("", t[..h]), Chars("", u[..hit.pos - h]);
    assert (x + y) + begun == x + (y + begun);
    AfterAfter(x, y + begun, TurnAtStart(c, t[hit.pos..]));
  }

  /** The same inside a custom channel. */
  lemma TurnInsideSplit(name: string, end: string, t: string, h: nat)
    requires name != "" && h <= |t|
    requires forall q :: 0 <= q < h ==> !OccursAt(t, end, q)
    requires forall n: nat :: |t| - h < n ==> !IsOverlap(t, end, n)
    ensures TurnInside(name, end, 0, t) == After(Chars(name, t[..h]), TurnInside(name, end, 0, t[h..]))
  {
    FindSkip(t, end, h);
    if Find(t, end, 0).None? {
      OverlapSkip(t, end, h);
      CharsSplit(name, t, h, |t| - Overlap(t, end));
    } else {
      var e := Find(t, end, 0).value;
      CharsSplit(name, t, h, e);
      assert t[e + |end|..] == t[h..][e - h + |end|..];
      var closed := [Closed(name, end)];
      var x, y := Chars(name, t[..h]), Chars(name, t[h..][..e - h]);
      assert (x + y) + closed == x + (y + closed);
    }
  }

  /** More text after a turn that broke: the turn is the broken one and then a turn on the
      text it kept back. */
  lemma BrokenInside(name: string, end: string, skip: nat, a: string, b: string)
    requires (name != "" ==> skip == 0) && TurnInside(name, end, skip, a).Break?
    ensures TurnInside(name, end, skip, a).last.mode == Inside(name, end, skip)
    ensures var o := TurnInside(name, end, skip, a).last;
            TurnInside(name, end, skip, a + b) == After(o.trace, TurnInside(name, end, skip, o.rest + b))
  {
    hide OccursAt, IsOverlap, Chars, After;
    if name != "" {
      var k := Overlap(a, end);
      var h := |a| - k;
      NothingBefore(a, b, end, k);
      TurnInsideSplit(name, end, a + b, h);
      assert (a + b)[..h] == a[..h] && (a + b)[h..] == a[h..] + b;
    } else {
      AfterNothing(TurnInside(name, end, skip, a + b));
    }
  }

  lemma AfterNothing(turn: Turn)
    ensures After([], turn) == turn
  {
    if turn.Break? { assert [] + turn.last.trace == turn.last.trace; } else { assert [] + turn.trace == turn.trace; }
  }

  lemma {:induction false} BrokenOutside(chs: seq<Channel>, a: string, b: string)
    requires Startable(chs) && NextStart(chs, a, 0).None?
    ensures var o := TurnOutside(chs, a).last;
            TurnOutside(chs, a + b) == After(o.trace, TurnOutside(chs, o.rest + b))
  {
    hide TurnAtStart, NextStart, OccursAt, IsOverlap, After, Chars;
    var k := MaxOverlap(chs, a);
    var h := |a| - k;
    NextStartIsFirst(chs, a, 0);
    assert ClearUpTo(chs, a + b, h) by {
      forall i | 0 <= i < |chs|
        ensures forall q :: 0 <= q < h ==> !OccursAt(a + b, chs[i].start, q)
        ensures forall n: nat :: k + |b| < n ==> !IsOverlap(a + b, chs[i].start, n)
      {
        NothingBefore(a, b, chs[i].start, k);
      }
    }
    TurnOutsideSplit(chs, a + b, h);
    assert (a + b)[..h] == a[..h] && (a + b)[h..] == a[h..] + b;
  }

  lemma ClosedInside(name: string, end: string, skip: nat, a: string, b: string)
    requires TurnInside(name, end, skip, a).Next?
    ensures var turn := TurnInside(name, end, skip, a);
            TurnInside(name, end, skip, a + b) == Next(turn.trace, turn.rest + b)
  {
    hide OccursAt, Chars, Blocks;
    FindExtends(a, b, end, skip);
    FindFits(a, end, skip);
    var e := Find(a, end, skip).value;
    assert (a + b)[..e] == a[..e] && (a + b)[..e + |end|] == a[..e + |end|];
    assert (a + b)[e + |end|..] == a[e + |end|..] + b;
  }

  /** A turn with `b` added to its text: a turn that broke goes on from what it kept back. */
  function Extended(chs: seq<Channel>, turn: Turn, b: string): Turn
    requires Startable(chs)
  {
    match turn
    case Next(trace, rest) => Next(trace, rest + b)
    case Break(last) => After(last.trace, TurnIn(chs, last.mode, last.rest + b))
  }

  lemma ExtendedAfter(chs: seq<Channel>, head: seq<Item>, turn: Turn, b: string)
    requires Startable(chs)
    ensures Extended(chs, After(head, turn), b) == After(head, Extended(chs, turn, b))
  {
    if turn.Break? {
      var o := turn.last;
      AfterAfter(head, o.trace, TurnIn(chs, o.mode, o.rest + b));
    }
  }

  lemma InsideExtends(chs: seq<Channel>, name: string, end: string, skip: nat, a: string, b: string)
    requires Startable(chs) && (name != "" ==> skip == 0)
    ensures TurnInside(name, end, skip, a + b) == Extended(chs, TurnInside(name, end, skip, a), b)
  {
    if TurnInside(name, end, skip, a).Next? {
      ClosedInside(name, end, skip, a, b);
    } else {
      BrokenInside(name, end, skip, a, b);
    }
  }

  lemma {:induction false} AtStartExtends(chs: seq<Channel>, c: Channel, a: string, b: string)
    requires Startable(chs) && |c.start| <= |a|
    ensures TurnAtStart(c, a + b) == Extended(chs, TurnAtStart(c, a), b)
  {
    if c.name != "" {
      assert (a + b)[|c.start|..] == a[|c.start|..] + b;
      InsideExtends(chs, c.name, c.end, 0, a[|c.start|..], b);
    } else {
      InsideExtends(chs, "", c.end, |c.start|, a, b);
    }
  }

  lemma {:induction false} StartedOutside(chs: seq<Channel>, a: string, b: string)
    requires Startable(chs) && Stable(chs) && NextStart(chs, a, 0).Some?
    ensures TurnOutside(chs, a + b) == Extended(chs, TurnOutside(chs, a), b)
  {
    hide TurnAtStart, Extended, TurnIn, MaxOverlap, NextStart, OccursAt, After, Chars, Stable;
    var hit := NextStart(chs, a, 0).value;
    NextStartOccurs(chs, a, 0);
    NextStartExtends(chs, a, b);
    var c := chs[hit.index];
    assert (a + b)[..hit.pos] == a[..hit.pos] && (a + b)[hit.pos..] == a[hit.pos..] + b;
    AtStartExtends(chs, c, a[hit.pos..], b);
    ExtendedAfter(chs, Chars("", a[..hit.pos]) + [Opened(c.name, c.start)], TurnAtStart(c, a[hit.pos..]), b);
  }

  /** What a turn on `a + b` is, from the turn on `a`. */
  lemma TurnExtends(chs: seq<Channel>, mode: Mode, a: string, b: string)
    requires Startable(chs) && Stable(chs) && ModeOk(mode)
    ensures TurnIn(chs, mode, a + b) == Extended(chs, TurnIn(chs, mode, a), b)
  {
    if mode.Inside? {
      InsideExtends(chs, mode.name, mode.end, mode.skip, a, b);
    } else if NextStart(chs, a, 0).None? {
      BrokenOutside(chs, a, b);
    } else {
      StartedOutside(chs, a, b);
    }
  }

  /** Scanning `a + b` is scanning `a`, then going on with `b`. */
  lemma {:induction false} Resume(chs: seq<Channel>, mode: Mode, a: string, b: string)
    requires Startable(chs) && Stable(chs) && ModeOk(mode)
    ensures Run(chs, mode, a + b) == Feed(chs, Run(chs, mode, a), b)
    decreases |a|, if mode.Inside? then 1 else 0
  {
    hide TurnIn;
    if a == "" {
      assert a + b == b;
    } else {
      TurnExtends(chs, mode, a, b);
      var turn := TurnIn(chs, mode, a);
      if turn.Next? {
        Resume(chs, Outside, turn.rest, b);
        FeedPrepend(chs, turn.trace, Run(chs, Outside, turn.rest), b);
      } else {
        var o := turn.last;
        var more := TurnIn(chs, o.mode, o.rest + b);
        if o.rest + b == "" { assert a + b == a; }
        if more.Next? { PrependPrepend(o.trace, more.trace, Run(chs, Outside, more.rest)); }
      }
    }
  }

  // ---- keeping back loses nothing ------------------------------------------------------

  lemma CharsJoin(name: string, t: string, h: nat)
    requires h <= |t|
    ensures Chars(name, t[..h]) + Chars(name, t[h..]) == Chars(name, t)
  {
  }

  lemma {:induction false} RunFlushIsParse(chs: seq<Channel>, mode: Mode, t: string)
    requires Startable(chs) && ModeOk(mode)
    ensures Run(chs, mode, t).trace + Flush(Run(chs, mode, t)) == Parse(chs, mode, t)
    decreases |t|, if mode.Inside? then 4 else 1
  {
    if t == "" {
    } else if mode.Inside? {
      InsideFlush(chs, mode.name, mode.end, mode.skip, t);
    } else if NextStart(chs, t, 0).None? {
      CharsJoin("", t, |t| - MaxOverlap(chs, t));
    } else {
      NextStartIsFirst(chs, t, 0);
      var hit := NextStart(chs, t, 0).value;
      AtStartFlush(chs, chs[hit.index], t[hit.pos..]);
      StartedFlush(chs, t);
    }
  }

  lemma {:induction false} AtStartFlush(chs: seq<Channel>, c: Channel, t: string)
    requires Startable(chs) && |c.start| <= |t|
    ensures var o := Finish(chs, TurnAtStart(c, t));
            o.trace + Flush(o) == ParseAtStart(chs, c, t)
    decreases |t| - |c.start|, 3
  {
    if c.name != "" {
      InsideFlush(chs, c.name, c.end, 0, t[|c.start|..]);
    } else {
      InsideFlush(chs, "", c.end, |c.start|, t);
    }
  }

  lemma StartedFlush(chs: seq<Channel>, t: string)
    requires Startable(chs) && t != "" && NextStart(chs, t, 0).Some?
    requires OccursAt(t, chs[NextStart(chs, t, 0).value.index].start, NextStart(chs, t, 0).value.pos)
    requires var hit := NextStart(chs, t, 0).value;
             var o := Finish(chs, TurnAtStart(chs[hit.index], t[hit.pos..]));
             o.trace + Flush(o) == ParseAtStart(chs, chs[hit.index], t[hit.pos..])
    ensures Run(chs, Outside, t).trace + Flush(Run(chs, Outside, t)) == Parse(chs, Outside, t)
  {
    hide Run, Finish, ParseAtStart, TurnAtStart, After, Chars, NextStart;
    var hit := NextStart(chs, t, 0).value;
    var c := chs[hit.index];
    var head, turn := Chars("", t[..hit.pos]) + [Opened(c.name, c.start)], TurnAtStart(c, t[hit.pos..]);
    var o := Finish(chs, turn);
    FinishAfter(chs, head, turn);
    RunIsFinish(chs, Outside, t);
    assert (head + o.trace) + Flush(o) == head + (o.trace + Flush(o));
  }

  /** The rest of the run, once a turn has been made. */
  function Finish(chs: seq<Channel>, turn: Turn): Outcome
    requires Startable(chs)
  {
    match turn
    case Break(last) => last
    case Next(trace, rest) => Prepend(trace, Run(chs, Outside, rest))
  }

  lemma RunIsFinish(chs: seq<Channel>, mode: Mode, t: string)
    requires Startable(chs) && t != ""
    ensures Run(chs, mode, t) == Finish(chs, TurnIn(chs, mode, t))
  {
  }

  lemma FinishAfter(chs: seq<Channel>, head: seq<Item>, turn: Turn)
    requires Startable(chs)
    ensures Finish(chs, After(head, turn)) == Prepend(head, Finish(chs, turn))
  {
    if turn.Next? { PrependPrepend(head, turn.trace, Run(chs, Outside, turn.rest)); }
  }

  lemma {:induction false} InsideFlush(chs: seq<Channel>, name: string, end: string, skip: nat, t: string)
    requires Startable(chs) && (name != "" ==> skip == 0)
    ensures var o := Finish(chs, TurnInside(name, end, skip, t));
            o.trace + Flush(o) == ParseInside(chs, name, end, skip, t)
    decreases |t| - skip, 2
  {
    hide Run, Parse;
    if Find(t, end, skip).None? {
      if name != "" {
        CharsJoin(name, t, |t| - Overlap(t, end));
      } else {
        assert [] + Chars("", t) == Chars("", t);
      }
    } else {
      var turn := TurnInside(name, end, skip, t);
      RunFlushIsParse(chs, Outside, turn.rest);
      var o := Run(chs, Outside, turn.rest);
      assert (turn.trace + o.trace) + Flush(o) == turn.trace + (o.trace + Flush(o));
    }
  }

  // ---- the theorem -------------------------------------------------------------------

  lemma {:induction false} FeedAllIsRun(chs: seq<Channel>, mode: Mode, chunks: seq<string>)
    requires Startable(chs) && Stable(chs) && ModeOk(mode)
    ensures FeedAll(chs, mode, chunks) == Run(chs, mode, Concat(chunks))
  {
    if chunks != [] {
      var n := |chunks| - 1;
      FeedAllIsRun(chs, mode, chunks[..n]);
      Resume(chs, mode, Concat(chunks[..n]), chunks[n]);
    }
  }

  /** The first delimiter passed over is the first start found, after the text before it. */
  lemma {:induction false} FirstOpened(chs: seq<Channel>, t: string)
    requires Startable(chs) && NextStart(chs, t, 0).Some?
    ensures var hit, trace := NextStart(chs, t, 0).value, Run(chs, Outside, t).trace;
            && hit.pos < |trace|
            && trace[hit.pos] == Opened(chs[hit.index].name, chs[hit.index].start)
            && (hit.pos > 0 ==> trace[0].Out?)
  {
    NextStartIsFirst(chs, t, 0);
    var hit := NextStart(chs, t, 0).value;
    var c := chs[hit.index];
    var head := Chars("", t[..hit.pos]) + [Opened(c.name, c.start)];
    var turn := TurnAtStart(c, t[hit.pos..]);
    assert TurnOutside(chs, t) == After(head, turn);
    assert head <= Run(chs, Outside, t).trace;
    assert head[hit.pos] == Opened(c.name, c.start);
    assert hit.pos > 0 ==> head[0].Out?;
  }

  lemma {:induction false} FeedTwo(chs: seq<Channel>, mode: Mode, a: string, b: string)
    requires Startable(chs)
    ensures FeedAll(chs, mode, [a, b]) == Feed(chs, Run(chs, mode, a), b)
    ensures Concat([a, b]) == a + b
  {
    var chunks := [a, b];
    assert chunks[..1] == [a] && chunks[..1][..0] == [];
    assert "" + a == a;
    var none := FeedAll(chs, mode, chunks[..1][..0]);
    assert FeedAll(chs, mode, chunks[..1]) == Feed(chs, none, a);
    assert [] + Run(chs, mode, a).trace == Run(chs, mode, a).trace;
    assert Concat(chunks[..1]) == Concat(chunks[..1][..0]) + a;
  }

  /** If a start ends strictly inside the start of a channel that can win, cutting the response
      right there opens another channel. */
  lemma {:induction false} UnstableDiffers(chs: seq<Channel>, i: nat, m: nat, k: nat)
    requires Startable(chs) && i < |chs| && m < |chs| && !Shadowed(chs, i)
    requires OccursAt(chs[i].start, chs[m].start, k) && k + |chs[m].start| < |chs[i].start|
    ensures var cut := k + |chs[m].start|;
            var x, y := FeedAll(chs, Outside, [chs[i].start[..cut], chs[i].start[cut..]]).trace,
                Run(chs, Outside, chs[i].start).trace;
            x != [] && y != [] && x[0] != y[0]
  {
    hide Run, FeedAll, Feed;
    var s := chs[i].start;
    var cut := k + |chs[m].start|;
    var a, b := s[..cut], s[cut..];
    FeedTwo(chs, Outside, a, b);
    assert s == a + b;
    OccursInPrefix(a, b, chs[m].start, k);
    NextStartIsFirst(chs, a, 0);
    FirstOpened(chs, a);
    assert IsFirstStart(chs, s, 0, Hit(0, i)) by {
      forall j | 0 <= j < i ensures !OccursAt(s, chs[j].start, 0) {
        assert !(chs[j].start <= s);
      }
    }
    FirstStartIsNext(chs, s, 0, Hit(0, i));
    FirstOpened(chs, s);
    FeedKeepsFirst(chs, Run(chs, Outside, a), b);
  }

  lemma FeedKeepsFirst(chs: seq<Channel>, o: Outcome, b: string)
    requires Startable(chs) && o.trace != []
    ensures Feed(chs, o, b).trace != [] && Feed(chs, o, b).trace[0] == o.trace[0]
  {
  }

  /** The course of the scanner is independent of the chunks exactly for stable channel lists. */
  lemma ChunkIndependentIffStable(chs: seq<Channel>)
    requires Startable(chs)
    ensures ChunkIndependent(chs) <==> Stable(chs)
  {
    if Stable(chs) {
      forall mode, chunks | ModeOk(mode) ensures FeedAll(chs, mode, chunks) == Run(chs, mode, Concat(chunks)) {
        FeedAllIsRun(chs, mode, chunks);
      }
    } else {
      var chunks := UnstableChunks(chs);
    }
  }

  /** The failing cut, for every list that is not stable. */
  lemma {:induction false} UnstableChunks(chs: seq<Channel>) returns (chunks: seq<string>)
    requires Startable(chs) && !Stable(chs)
    ensures var x, y := FeedAll(chs, Outside, chunks).trace, Run(chs, Outside, Concat(chunks)).trace;
            x != [] && y != [] && x[0] != y[0]
  {
    hide Run, FeedAll, Feed;
    var i, m, k :| 0 <= i < |chs| && 0 <= m < |chs| && OccursAt(chs[i].start, chs[m].start, k)
                   && k + |chs[m].start| < |chs[i].start| && !Shadowed(chs, i);
    var s, cut := chs[i].start, k + |chs[m].start|;
    UnstableDiffers(chs, i, m, k);
    FeedTwo(chs, Outside, s[..cut], s[cut..]);
    assert s == s[..cut] + s[cut..];
    chunks := [s[..cut], s[cut..]];
  }
}
