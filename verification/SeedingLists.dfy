/** Several channels: the search from the right takes each channel for itself, the scanner only the
    starts outside the channel it is in.  When the two find the same channel open, and that for some
    prompt they do not as soon as there are two channels. */
module SeedingLists {
  import opened Strings
  import opened ChannelScanner
  import opened ChunkIndependence
  import opened DeliveredStream
  import opened DeliveredExactly
  import opened ChannelUtil
  import opened Seeding
  import opened SeveralChannels

  /** The channel reported open is the one the scanner run on the prompt ends inside. */
  ghost predicate ReportsScanner(chs: seq<Channel>, prompt: string)
    requires Startable(chs)
  {
    forall i :: 0 <= i < |chs| ==>
      (IsRightmostOpen(prompt, chs, i) <==> Run(chs, Outside, prompt).mode == Inside(chs[i].name, chs[i].end, 0))
  }

  /** Every start in the prompt is one at which the scanner enters a channel. */
  ghost predicate TakenOnly(chs: seq<Channel>, t: string)
    requires Startable(chs)
    decreases |t|
  {
    match NextStart(chs, t, 0)
    case None => true
    case Some(hit) =>
      NextStartOccurs(chs, t, 0);
      var c := chs[hit.index];
      var u := t[hit.pos + |c.start|..];
      match Find(u, c.end, 0)
      case None => OnlyAt(chs, t, hit, |t|)
      case Some(e) => OnlyAt(chs, t, hit, hit.pos + |c.start| + e + |c.end|) && TakenOnly(chs, u[e + |c.end|..])
  }

  /** From the hit on up to `h`, no start occurs but there. */
  ghost predicate OnlyAt(chs: seq<Channel>, t: string, hit: Hit, h: nat) {
    forall j, q :: 0 <= j < |chs| && hit.pos <= q < h && OccursAt(t, chs[j].start, q) ==> j == hit.index && q == hit.pos
  }

  /** The mode the prompt ends in, from its first start and the first end after it. */
  lemma {:induction false} ModeOfStart(chs: seq<Channel>, t: string, hit: Hit)
    requires Startable(chs) && Named(chs) && NextStart(chs, t, 0) == Some(hit)
    ensures hit.pos + |chs[hit.index].start| <= |t|
    ensures var c := chs[hit.index];
            var u := t[hit.pos + |c.start|..];
            Run(chs, Outside, t).mode ==
            match Find(u, c.end, 0)
            case None => Inside(c.name, c.end, 0)
            case Some(e) => Run(chs, Outside, u[e + |c.end|..]).mode
  {
    hide Run, NextStart, Find, TurnInside, Finish, Chars;
    NextStartOccurs(chs, t, 0);
    RunStarts(chs, t);
    var c := chs[hit.index];
    assert t[hit.pos..][|c.start|..] == t[hit.pos + |c.start|..];
    ModeInside(chs, c, t[hit.pos + |c.start|..]);
  }

  lemma {:induction false} ModeInside(chs: seq<Channel>, c: Channel, u: string)
    requires Startable(chs) && c.name != ""
    ensures Finish(chs, TurnInside(c.name, c.end, 0, u)).mode ==
            match Find(u, c.end, 0)
            case None => Inside(c.name, c.end, 0)
            case Some(e) => Run(chs, Outside, u[e + |c.end|..]).mode
  {
    hide Run, Find;
  }

  lemma {:induction false} ModeWithoutStarts(chs: seq<Channel>, t: string)
    requires Startable(chs) && NextStart(chs, t, 0).None?
    ensures Run(chs, Outside, t).mode == Outside
  {
    hide NextStart, MaxOverlap;
  }

  /** A start not taken is none, if all are taken: so what is open after the first end is what is
      open in the rest. */
  lemma {:induction false} OpenAfterPart(chs: seq<Channel>, t: string, hit: Hit, e: nat, j: nat)
    requires Startable(chs) && NextStart(chs, t, 0) == Some(hit) && j < |chs|
    requires var c := chs[hit.index];
             && hit.pos + |c.start| <= |t|
             && Find(t[hit.pos + |c.start|..], c.end, 0) == Some(e)
                 && OnlyAt(chs, t, hit, hit.pos + |c.start| + e + |c.end|)
    ensures var h := hit.pos + |chs[hit.index].start| + e + |chs[hit.index].end|;
            h <= |t| && (OpenIn(chs[j], t) <==> OpenIn(chs[j], t[h..]))
  {
    hide NextStart;
    var c, s, d := chs[hit.index], hit.pos + |chs[hit.index].start|, chs[j];
    FindFits(t[s..], c.end, 0);
    OccursAtShift(t, c.end, s, e);
    var h := s + e + |c.end|;
    NextStartIsFirst(chs, t, 0);
    OpenInRest(d, t, h);
    if OpenIn(d, t) {
      var i :| OccursAt(t, d.start, i) && forall k :: i <= k ==> !OccursAt(t, d.end, k);
      OpenFrom(d, t, h, i);
    }
  }

  lemma {:induction false} OpenFrom(d: Channel, t: string, h: nat, i: int)
    requires h <= |t| && h <= i && OccursAt(t, d.start, i) && forall k :: i <= k ==> !OccursAt(t, d.end, k)
    ensures OpenIn(d, t[h..])
  {
    OccursAtShift(t, d.start, h, i - h);
    forall k | i - h <= k ensures !OccursAt(t[h..], d.end, k) { OccursAtShift(t, d.end, h, k); }
  }

  lemma {:induction false} OpenInRest(d: Channel, t: string, h: nat)
    requires h <= |t|
    ensures OpenIn(d, t[h..]) ==> OpenIn(d, t)
  {
    var u := t[h..];
    if OpenIn(d, u) {
      var i :| OccursAt(u, d.start, i) && forall k :: i <= k ==> !OccursAt(u, d.end, k);
      OccursAtShift(t, d.start, h, i);
      forall k | h + i <= k ensures !OccursAt(t, d.end, k) { OccursAtShift(t, d.end, h, k - h); }
    }
  }

  /** The last channel entered is open, and no other. */
  lemma {:induction false} OnlyLastOpen(chs: seq<Channel>, t: string, hit: Hit, j: nat)
    requires Startable(chs) && NextStart(chs, t, 0) == Some(hit) && j < |chs|
    requires var c := chs[hit.index];
             && Separate(c.start, c.end) && hit.pos + |c.start| <= |t|
             && Find(t[hit.pos + |c.start|..], c.end, 0).None? && OnlyAt(chs, t, hit, |t|)
    ensures OpenIn(chs[j], t) <==> j == hit.index
  {
    hide NextStart, Separate;
    NextStartIsFirst(chs, t, 0);
    var c, h := chs[hit.index], hit.pos + |chs[hit.index].start|;
    forall k | hit.pos <= k ensures !OccursAt(t, c.end, k) {
      if OccursAt(t, c.end, k) {
        NeverTouch(t, c.start, c.end, hit.pos, k);
        OccursAtShift(t, c.end, h, k - h);
      }
    }
    assert OpenIn(c, t);
    if OpenIn(chs[j], t) {
      var i :| OccursAt(t, chs[j].start, i) && forall k :: i <= k ==> !OccursAt(t, chs[j].end, k);
      assert hit.pos <= i < |t|;
    }
  }

  lemma {:induction false} OpenIffScanner(chs: seq<Channel>, t: string, j: nat)
    requires Startable(chs) && Named(chs) && j < |chs|
    requires forall i :: 0 <= i < |chs| ==> Separate(chs[i].start, chs[i].end)
    requires TakenOnly(chs, t)
    ensures OpenIn(chs[j], t) <==> Run(chs, Outside, t).mode == Inside(chs[j].name, chs[j].end, 0)
    decreases |t|
  {
    hide Run, Separate, OpenIn, NextStart, OnlyAt, Find;
    if NextStart(chs, t, 0).None? {
      ModeWithoutStarts(chs, t);
      NoStartNoneOpen(chs, t, j);
    } else {
      var hit := NextStart(chs, t, 0).value;
      NextStartOccurs(chs, t, 0);
      ModeOfStart(chs, t, hit);
      var c, s := chs[hit.index], hit.pos + |chs[hit.index].start|;
      if Find(t[s..], c.end, 0).None? {
        OnlyLastOpen(chs, t, hit, j);
      } else {
        var e := Find(t[s..], c.end, 0).value;
        OpenAfterPart(chs, t, hit, e, j);
        assert t[s..][e + |c.end|..] == t[s + e + |c.end|..];
        OpenIffScanner(chs, t[s + e + |c.end|..], j);
      }
    }
  }

  lemma {:induction false} NoStartNoneOpen(chs: seq<Channel>, t: string, j: nat)
    requires Startable(chs) && NextStart(chs, t, 0).None? && j < |chs|
    ensures !OpenIn(chs[j], t)
  {
    NextStartIsFirst(chs, t, 0);
    forall i ensures !OccursAt(t, chs[j].start, i) {}
  }

  /** For channels with separate delimiters, and a prompt in which every start is taken, the channel
      reported is the one the scanner ends inside. */
  lemma {:induction false} ListSeedingAgrees(chs: seq<Channel>, prompt: string)
    requires Startable(chs) && Named(chs) && forall i :: 0 <= i < |chs| ==> Separate(chs[i].start, chs[i].end)
    requires TakenOnly(chs, prompt)
    ensures ReportsScanner(chs, prompt)
  {
    hide Run, OpenIn, OpenAt, TakenOnly;
    forall j | 0 <= j < |chs|
      ensures OpenAt(prompt, chs[j]).Some? <==> Run(chs, Outside, prompt).mode == Inside(chs[j].name, chs[j].end, 0)
    {
      OpenAtIsOpenIn(chs[j], prompt);
      OpenIffScanner(chs, prompt, j);
    }
  }

  /** What `GetOpenChannelName` reports: the channel that is open furthest to the right, if one is. */
  ghost predicate Reported(chs: seq<Channel>, prompt: string, open: Option<nat>) {
    match open
    case None => forall j | 0 <= j < |chs| :: OpenAt(prompt, chs[j]).None?
    case Some(i) => IsRightmostOpen(prompt, chs, i)
  }

  /** Starting a response in the mode seeded with the channel reported is going on from the prompt, when
      the prompt does not end in the beginning of a delimiter. */
  lemma {:induction false} ListSeedingResumes(chs: seq<Channel>, prompt: string, response: string, open: Option<nat>)
    requires Startable(chs) && Named(chs) && Stable(chs)
    requires forall i :: 0 <= i < |chs| ==> Separate(chs[i].start, chs[i].end)
    requires TakenOnly(chs, prompt) && Run(chs, Outside, prompt).rest == ""
    requires OpenOk(chs, open) && Reported(chs, prompt, open)
    ensures var seed := SeedMode(chs, OpenName(chs, open));
            && seed == Run(chs, Outside, prompt).mode
            && Run(chs, Outside, prompt + response) ==
               Prepend(Run(chs, Outside, prompt).trace, Run(chs, seed, response))
  {
    hide Run, TakenOnly, Stable, Separate, OpenAt;
    ListSeedingAgrees(chs, prompt);
    RunEnters(chs, prompt);
    if open.Some? {
      SeedIs(chs, open.value);
    } else {
      NothingSeeded(chs);
      NothingOpen(chs, prompt);
    }
    Resume(chs, Outside, prompt, response);
    assert "" + response == response;
  }

  /** If none is open the scanner is outside. */
  lemma {:induction false} NothingOpen(chs: seq<Channel>, prompt: string)
    requires Startable(chs) && Named(chs) && ReportsScanner(chs, prompt) && Reported(chs, prompt, None)
    requires EnteredIn(chs, prompt, Run(chs, Outside, prompt).mode) && Empty(Run(chs, Outside, prompt))
    ensures Run(chs, Outside, prompt).mode == Outside
  {
    hide Run, OpenAt;
  }

  lemma {:induction false} NothingSeeded(chs: seq<Channel>)
    ensures SeedMode(chs, None) == Outside
  {
  }

  lemma {:induction false} SeedIs(chs: seq<Channel>, i: nat)
    requires Named(chs) && i < |chs|
    ensures SeedMode(chs, Some(chs[i].name)) == Inside(chs[i].name, chs[i].end, 0)
  {
    if i > 0 {
      assert forall j :: 0 <= j < |chs[1..]| ==> chs[1..][j] == chs[j + 1];
      assert chs[0].name != chs[i].name;
      SeedIs(chs[1..], i - 1);
    }
  }

  // ---- with two channels there is always a prompt on which they differ -------------------------------

  lemma {:induction false} NoneIn(t: string, pat: string)
    requires pat != "" && Find(t, pat, 0).None?
    ensures RFind(t, pat).None?
  {
  }

  lemma {:induction false} LastAt(a: string, pat: string)
    requires pat != ""
    ensures RFind(a + pat, pat) == Some(|a|)
  {
    assert (a + pat)[|a|..|a| + |pat|] == pat;
    assert OccursAt(a + pat, pat, |a|);
  }

  /** On the start of one channel and then that of another, the scanner is in the first one, and the
      other is reported. */
  lemma {:induction false} TwoStartsDiffer(chs: seq<Channel>)
    requires Startable(chs) && Named(chs) && Apart(chs) && |chs| >= 2
    ensures var prompt := chs[1].start + chs[0].start;
            && OpenAt(prompt, chs[0]) == Some(|chs[1].start|)
            && Run(chs, Outside, prompt).mode == Inside(chs[1].name, chs[1].end, 0)
            && !ReportsScanner(chs, prompt)
  {
    hide Find, Unlike, NextStart, Run, RFind, Apart;
    var x, y := chs[1], chs[0];
    var prompt := x.start + y.start;
    UnlikeStarts(chs);
    FindBeyond(x.start, y.start, y.start);
    assert y.start + "" == y.start;
    FindAlone(y.start, "");
    FindAlone(x.start, y.start);
    FirstHere(chs, prompt);
    FirstStartIsNext(chs, prompt, 0, Hit(0, 1));
    ModeOfStart(chs, prompt, Hit(0, 1));
    assert prompt[0 + |x.start|..] == y.start;
    NoEndIn(chs, 1);
    NoEndIn(chs, 0);
    LastAt(x.start, y.start);
    NoneIn(prompt, y.end);
    assert OpenAt(prompt, y) == Some(|x.start|);
    OnlyOneMode(chs, prompt);
  }

  lemma {:induction false} UnlikeStarts(chs: seq<Channel>)
    requires Apart(chs) && |chs| >= 2
    ensures Unlike(chs[1].start, chs[0].start)
  {
    UnlikeSymmetric(chs[0].start, chs[1].start);
  }

  /** No end occurs in two starts. */
  lemma {:induction false} NoEndIn(chs: seq<Channel>, j: nat)
    requires Apart(chs) && |chs| >= 2 && j < |chs|
    ensures chs[j].end != "" && Find(chs[0].start, chs[j].end, 0).None?
            && Find(chs[1].start + chs[0].start, chs[j].end, 0).None?
  {
    hide Find, Unlike, Apart;
    UnlikeEnds(chs, 0, j);
    UnlikeEnds(chs, 1, j);
    assert chs[0].start + "" == chs[0].start;
    FindBeyond(chs[0].start, "", chs[j].end);
    NoneInNothing(chs[j].end);
    FindBeyond(chs[1].start, chs[0].start, chs[j].end);
  }

  /** A channel open further to the right than the scanner's is reported in its place. */
  lemma {:induction false} OnlyOneMode(chs: seq<Channel>, prompt: string)
    requires Startable(chs) && Named(chs) && |chs| >= 2 && prompt == chs[1].start + chs[0].start
    requires Unlike(chs[1].start, chs[0].start) && OpenAt(prompt, chs[0]) == Some(|chs[1].start|)
    requires Run(chs, Outside, prompt).mode == Inside(chs[1].name, chs[1].end, 0)
    ensures !ReportsScanner(chs, prompt)
  {
    hide Run;
    if ReportsScanner(chs, prompt) {
      assert IsRightmostOpen(prompt, chs, 1);
      var x, y := chs[1].start, chs[0].start;
      var at := OpenAt(prompt, chs[1]).value;
      assert prompt[|x|..] == y;
      OccursAtShift(prompt, x, |x|, at - |x|);
      assert false;
    }
  }

  /** If the end of the first one follows, the scanner is outside, and the other is reported still. */
  lemma {:induction false} ClosedOutsideDiffers(chs: seq<Channel>)
    requires Startable(chs) && Named(chs) && Apart(chs) && |chs| >= 2 && Unlike(chs[1].end, chs[0].end)
    ensures var prompt := chs[1].start + (chs[0].start + chs[1].end);
            OpenAt(prompt, chs[0]).Some? && Run(chs, Outside, prompt).mode == Outside
  {
    hide Apart, OpenAt, Run;
    ClosedOutside(chs);
    StillOpen(chs);
  }

  lemma {:induction false} ClosedOutside(chs: seq<Channel>)
    requires Startable(chs) && Named(chs) && Apart(chs) && |chs| >= 2
    ensures Run(chs, Outside, chs[1].start + (chs[0].start + chs[1].end)).mode == Outside
  {
    hide Find, Unlike, NextStart, Run, Apart, OccursAt;
    var x, y := chs[1], chs[0];
    var u := y.start + x.end;
    var prompt := x.start + u;
    UnlikeStarts(chs);
    FindBeyond(x.start, u, y.start);
    FindAlone(y.start, x.end);
    FindAlone(x.start, u);
    FirstHere(chs, prompt);
    FirstStartIsNext(chs, prompt, 0, Hit(0, 1));
    ModeOfStart(chs, prompt, Hit(0, 1));
    assert prompt[0 + |x.start|..] == u;
    UnlikeEnds(chs, 0, 1);
    FindBeyond(y.start, x.end, x.end);
    assert x.end + "" == x.end && u[|y.start| + |x.end|..] == "";
    FindAlone(x.end, "");
    NothingRun(chs);
  }

  lemma {:induction false} StillOpen(chs: seq<Channel>)
    requires Startable(chs) && Apart(chs) && |chs| >= 2 && Unlike(chs[1].end, chs[0].end)
    ensures OpenAt(chs[1].start + (chs[0].start + chs[1].end), chs[0]).Some?
  {
    hide Find, Unlike, RFind, Apart, OccursAt;
    var x, y := chs[1], chs[0];
    var prompt := x.start + (y.start + x.end);
    UnlikeStarts(chs);
    FindBeyond(x.start, y.start + x.end, y.start);
    FindAlone(y.start, x.end);
    UnlikeEnds(chs, 0, 0);
    UnlikeEnds(chs, 1, 0);
    assert x.end + "" == x.end;
    FindBeyond(x.end, "", y.end);
    NoneInNothing(y.end);
    FindBeyond(y.start, x.end, y.end);
    FindBeyond(x.start, y.start + x.end, y.end);
    NoneIn(prompt, y.end);
    Occurs(prompt, y.start);
  }

  lemma {:induction false} Occurs(t: string, pat: string)
    requires Find(t, pat, 0).Some?
    ensures RFind(t, pat).Some?
  {
    assert OccursAt(t, pat, Find(t, pat, 0).value);
  }

  /** The two agree on all prompts exactly if there is no second channel. */
  lemma {:induction false} ReportsOnAllIffOne(chs: seq<Channel>)
    requires Startable(chs) && Named(chs) && Apart(chs)
    ensures (forall prompt :: ReportsScanner(chs, prompt)) <==> |chs| <= 1
  {
    hide Apart, Run;
    if |chs| >= 2 {
      TwoStartsDiffer(chs);
    } else {
      forall prompt ensures ReportsScanner(chs, prompt) {
        if chs != [] { OneReports(chs, prompt); }
      }
    }
  }

  lemma {:induction false} OneReports(chs: seq<Channel>, prompt: string)
    requires Startable(chs) && Named(chs) && Apart(chs) && |chs| == 1
    ensures ReportsScanner(chs, prompt)
  {
    hide Run, Apart, OpenAt, Unlike, SeedingAgrees;
    var c := chs[0];
    assert chs == [c];
    UnlikeEnds(chs, 0, 0);
    assert Separate(c.start, c.end) by { UnlikeIsSeparate(c.start, c.end); }
    SeedingAgreesIffSeparate(c);
    AgreedAt(c, prompt);
    EndModes(c, prompt);
  }

  lemma {:induction false} AgreedAt(c: Channel, prompt: string)
    requires c.start != "" && SeedingAgrees(c)
    ensures OpenAt(prompt, c).Some? <==> EndsInside(c, prompt)
  {
  }

  lemma {:induction false} UnlikeIsSeparate(a: string, b: string)
    requires Unlike(a, b) && b != ""
    ensures Separate(a, b)
  {
  }
}
