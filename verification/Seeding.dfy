/** Whether a prompt leaves a channel open is found by `rfind`; the scanner finds it by reading
    the prompt.  For one channel the two agree on every prompt exactly when the channel's
    delimiters can nowhere touch. */
module Seeding {
  import opened Strings
  import opened ChannelScanner
  import opened ChunkIndependence
  import opened ChannelUtil
  import opened BatchAgreement

  /** Neither delimiter contains the other, and no end of one begins the other. */
  ghost predicate Separate(s: string, e: string) {
    && e != ""
    && (forall k :: !OccursAt(s, e, k))
    && (forall k :: !OccursAt(e, s, k))
    && (forall n: nat :: n > 0 ==> !IsOverlap(s, e, n))
    && (forall n: nat :: n > 0 ==> !IsOverlap(e, s, n))
  }

  /** The scanner run on the prompt ends inside the channel. */
  function EndsInside(c: Channel, prompt: string): bool
    requires c.start != ""
  {
    Run([c], Outside, prompt).mode.Inside?
  }

  ghost predicate SeedingAgrees(c: Channel)
    requires c.start != ""
  {
    forall prompt :: OpenAt(prompt, c).Some? <==> EndsInside(c, prompt)
  }

  /** Some start has no end at or after it. */
  ghost predicate OpenIn(c: Channel, t: string) {
    exists i :: OccursAt(t, c.start, i) && forall j :: i <= j ==> !OccursAt(t, c.end, j)
  }

  lemma OpenAtIsOpenIn(c: Channel, t: string)
    requires c.start != "" && c.end != ""
    ensures OpenAt(t, c).Some? <==> OpenIn(c, t)
  {
    var s, e := RFind(t, c.start), RFind(t, c.end);
    if OpenAt(t, c).Some? {
      assert OccursAt(t, c.start, s.value);
    }
    if OpenIn(c, t) {
      var i :| OccursAt(t, c.start, i) && forall j :: i <= j ==> !OccursAt(t, c.end, j);
      assert s.Some? && i <= s.value;
    }
  }

  // ---- the scanner on a prompt, one channel opened and closed at a time ------------------

  datatype PromptStep = NoStart | NoEnd | ClosedAt(at: nat, rest: string)

  /** The first start of the prompt and the first end after it, at position `at`. */
  function StepOf(c: Channel, t: string): (r: PromptStep)
    requires c.start != ""
    ensures r.ClosedAt? ==> |r.rest| < |t| && OccursAt(t, c.end, r.at) && r.rest == t[r.at + |c.end|..]
  {
    match Find(t, c.start, 0)
    case None => NoStart
    case Some(q) =>
      var h := q + |c.start|;
      match Find(t[h..], c.end, 0)
      case None => NoEnd
      case Some(e) =>
        OccursAtShift(t, c.end, h, e);
        assert t[h..][e + |c.end|..] == t[h + e + |c.end|..];
        ClosedAt(h + e, t[h..][e + |c.end|..])
  }

  /** The mode the prompt ends in, from its first start and the first end after it. */
  lemma {:induction false} EndModeStep(c: Channel, t: string)
    requires c.name != "" && c.start != ""
    ensures StepOf(c, t).NoStart? ==> Run([c], Outside, t).mode == Outside
    ensures StepOf(c, t).NoEnd? ==> Run([c], Outside, t).mode == Inside(c.name, c.end, 0)
    ensures StepOf(c, t).ClosedAt? ==> Run([c], Outside, t).mode == Run([c], Outside, StepOf(c, t).rest).mode
  {
    hide Run, Find;
    match StepOf(c, t)
    case NoStart => ModeWithoutStart(c, t);
    case NoEnd => ModeWithoutEnd(c, t);
    case ClosedAt(at, rest) => ModeAfterEnd(c, t);
  }

  lemma ModeWithoutStart(c: Channel, t: string)
    requires c.name != "" && c.start != "" && StepOf(c, t).NoStart?
    ensures Run([c], Outside, t).mode == Outside
  {
    hide MaxOverlap;
    SingleStart(c, t);
  }

  lemma ModeWithoutEnd(c: Channel, t: string)
    requires c.name != "" && c.start != "" && StepOf(c, t).NoEnd?
    ensures Run([c], Outside, t).mode == Inside(c.name, c.end, 0)
  {
    hide Run;
    ModeAfterStart(c, t);
  }

  lemma {:induction false} ModeAfterEnd(c: Channel, t: string)
    requires c.name != "" && c.start != "" && StepOf(c, t).ClosedAt?
    ensures Run([c], Outside, t).mode == Run([c], Outside, StepOf(c, t).rest).mode
  {
    hide Run, Finish, TurnInside;
    ModeAfterStart(c, t);
    InsideMode(c, t[Find(t, c.start, 0).value + |c.start|..]);
  }

  lemma {:induction false} InsideMode(c: Channel, u: string)
    requires c.name != "" && c.start != "" && Find(u, c.end, 0).Some?
    ensures Finish([c], TurnInside(c.name, c.end, 0, u)).mode ==
            Run([c], Outside, u[Find(u, c.end, 0).value + |c.end|..]).mode
  {
    hide Run;
  }

  lemma {:induction false} ModeAfterStart(c: Channel, t: string)
    requires c.name != "" && c.start != "" && Find(t, c.start, 0).Some?
    ensures var inside := t[Find(t, c.start, 0).value + |c.start|..];
            Run([c], Outside, t).mode == Finish([c], TurnInside(c.name, c.end, 0, inside)).mode
  {
    hide Run, Finish, TurnOutside, TurnInside, After, Chars, NextStart;
    var q := Find(t, c.start, 0).value;
    var turn := TurnInside(c.name, c.end, 0, t[q + |c.start|..]);
    SingleTurn(c, t);
    RunIsFinish([c], Outside, t);
    FinishAfter([c], Chars("", t[..q]) + [Opened(c.name, c.start)], turn);
  }

  lemma SingleTurn(c: Channel, t: string)
    requires c.name != "" && c.start != "" && Find(t, c.start, 0).Some?
    ensures var q := Find(t, c.start, 0).value;
            TurnOutside([c], t) == After(Chars("", t[..q]) + [Opened(c.name, c.start)],
                                         TurnInside(c.name, c.end, 0, t[q + |c.start|..]))
  {
    hide MaxOverlap, TurnInside, OccursAt, NextStart;
    SingleStart(c, t);
    NextStartOccurs([c], t, 0);
    var q := Find(t, c.start, 0).value;
    assert t[q..][|c.start|..] == t[q + |c.start|..];
  }

  lemma {:induction false} EndModes(c: Channel, t: string)
    requires c.name != "" && c.start != ""
    ensures Run([c], Outside, t).mode in {Outside, Inside(c.name, c.end, 0)}
    decreases |t|
  {
    hide Run;
    EndModeStep(c, t);
    if StepOf(c, t).ClosedAt? { EndModes(c, StepOf(c, t).rest); }
  }

  /** Separate delimiters never overlap in a text. */
  lemma NeverTouch(t: string, s: string, e: string, i: int, j: int)
    requires Separate(s, e) && s != "" && OccursAt(t, s, i) && OccursAt(t, e, j)
    ensures i + |s| <= j || j + |e| <= i
  {
    if i <= j < i + |s| {
      if j + |e| <= i + |s| { OccursInside(t, s, e, i, j); } else { TouchOverlaps(t, s, e, i, j); }
    } else if j <= i < j + |e| {
      if i + |s| <= j + |e| { OccursInside(t, e, s, j, i); } else { TouchOverlaps(t, e, s, j, i); }
    }
  }

  lemma TouchOverlaps(t: string, a: string, b: string, i: int, j: int)
    requires OccursAt(t, a, i) && OccursAt(t, b, j) && i <= j < i + |a| < j + |b|
    ensures IsOverlap(a, b, i + |a| - j)
  {
    var n := i + |a| - j;
    forall k | 0 <= k < n ensures a[|a| - n + k] == b[k] {
      assert t[i..i + |a|][|a| - n + k] == t[j..j + |b|][k];
    }
  }

  /** What is left after an end is open iff the whole is. */
  lemma OpenAfterClose(c: Channel, t: string, y: nat)
    requires Separate(c.start, c.end) && c.start != "" && OccursAt(t, c.end, y)
    ensures OpenIn(c, t) <==> OpenIn(c, t[y + |c.end|..])
  {
    var h := y + |c.end|;
    var u := t[h..];
    if OpenIn(c, t) {
      var i :| OccursAt(t, c.start, i) && forall j :: i <= j ==> !OccursAt(t, c.end, j);
      NeverTouch(t, c.start, c.end, i, y);
      OccursAtShift(t, c.start, h, i - h);
      forall j | i - h <= j ensures !OccursAt(u, c.end, j) {
        OccursAtShift(t, c.end, h, j);
      }
    }
    if OpenIn(c, u) {
      var i :| OccursAt(u, c.start, i) && forall j :: i <= j ==> !OccursAt(u, c.end, j);
      OccursAtShift(t, c.start, h, i);
      forall j | h + i <= j ensures !OccursAt(t, c.end, j) {
        OccursAtShift(t, c.end, h, j - h);
      }
    }
  }

  lemma NoStartIsClosed(c: Channel, t: string)
    requires c.start != "" && StepOf(c, t).NoStart?
    ensures !OpenIn(c, t)
  {
    hide OccursAt;
    assert forall i :: 0 <= i ==> !OccursAt(t, c.start, i);
    forall i | i < 0 ensures !OccursAt(t, c.start, i) { NoNegative(t, c.start, i); }
  }

  lemma NoNegative(t: string, pat: string, i: int)
    requires i < 0
    ensures !OccursAt(t, pat, i)
  {
  }

  /** Without an end after the first start, that start is open. */
  lemma UnclosedIsOpen(c: Channel, t: string)
    requires c.start != "" && Separate(c.start, c.end) && StepOf(c, t).NoEnd?
    ensures OpenIn(c, t)
  {
    var q := Find(t, c.start, 0).value;
    var h := q + |c.start|;
    forall j | q <= j ensures !OccursAt(t, c.end, j) {
      if OccursAt(t, c.end, j) {
        NeverTouch(t, c.start, c.end, q, j);
        OccursAtShift(t, c.end, h, j - h);
      }
    }
  }

  lemma {:induction false} EndsInsideIffOpenIn(c: Channel, t: string)
    requires c.name != "" && c.start != "" && Separate(c.start, c.end)
    ensures EndsInside(c, t) <==> OpenIn(c, t)
    decreases |t|
  {
    hide Run, StepOf, OccursAt;
    EndModeStep(c, t);
    match StepOf(c, t) {
      case NoStart =>
        NoStartIsClosed(c, t);
      case NoEnd =>
        UnclosedIsOpen(c, t);
      case ClosedAt(at, rest) =>
        EndsInsideIffOpenIn(c, rest);
        OpenAfterClose(c, t, at);
    }
  }

  // ---- touching delimiters: a prompt on which the two differ ------------------------------

  lemma FindAtOnce(s: string, u: string)
    ensures Find(s + u, s, 0) == Some(0)
  {
    assert OccursAt(s + u, s, 0);
  }

  /** A prompt that begins with the start and then has no room for an end. */
  lemma StaysOpen(c: Channel, u: string)
    requires c.name != "" && c.start != "" && |u| < |c.end|
    ensures EndsInside(c, c.start + u)
  {
    FindAtOnce(c.start, u);
    EndModeStep(c, c.start + u);
    assert (c.start + u)[|c.start|..] == u;
  }

  /** A prompt that begins with start and end, and then has no room for a start. */
  lemma StaysClosed(c: Channel, u: string)
    requires c.name != "" && c.start != "" && |u| < |c.start|
    ensures !EndsInside(c, c.start + (c.end + u))
  {
    FindAtOnce(c.start, c.end + u);
    FindAtOnce(c.end, u);
    EndModeStep(c, c.start + (c.end + u));
    assert (c.start + (c.end + u))[|c.start|..] == c.end + u;
    assert (c.end + u)[|c.end|..] == u;
    EndModeStep(c, u);
  }

  lemma EmptyEndDiffers(c: Channel)
    requires c.name != "" && c.start != "" && c.end == ""
    ensures OpenAt(c.start, c).Some? && !EndsInside(c, c.start)
  {
    StaysClosed(c, "");
    assert c.start + (c.end + "") == c.start;
    assert OccursAt(c.start, c.start, 0);
  }

  lemma EndInStartDiffers(c: Channel, k: int)
    requires c.name != "" && c.start != "" && c.end != "" && OccursAt(c.start, c.end, k)
    ensures OpenAt(c.start, c).None? && EndsInside(c, c.start)
  {
    StaysOpen(c, "");
    assert c.start + "" == c.start;
    OpenAtIsOpenIn(c, c.start);
    assert forall i :: OccursAt(c.start, c.start, i) ==> i <= k;
  }

  lemma StartInEndDiffers(c: Channel, k: int) returns (prompt: string)
    requires c.name != "" && c.start != "" && c.end != "" && OccursAt(c.end, c.start, k)
    ensures OpenAt(prompt, c).Some? != EndsInside(c, prompt)
  {
    var o := RFind(c.end, c.start).value;
    var s, e := c.start, c.end;
    if o > 0 {
      prompt := s + (e + "");
      StaysClosed(c, "");
      assert e + "" == e;
      OpenAtIsOpenIn(c, prompt);
      assert prompt[|s|..] == e;
      OccursAtShift(prompt, s, |s|, o);
      assert forall j :: |s| + o <= j ==> !OccursAt(prompt, e, j);
    } else {
      prompt := e;
      assert e == s + e[|s|..];
      StaysOpen(c, e[|s|..]);
      OpenAtIsOpenIn(c, e);
      assert OccursAt(e, e, 0);
    }
  }

  lemma EndsWith(a: string, b: string, t: string)
    requires t == a + b
    ensures OccursAt(t, b, |a|) && t[|a|..] == b
  {
  }

  /** If `t` ends in `b` at `h` and `b` does not contain `pat`, then `pat` occurs nowhere from `h` on. */
  lemma NoneAfter(t: string, b: string, pat: string, h: nat)
    requires h <= |t| && t[h..] == b && forall k :: !OccursAt(b, pat, k)
    ensures forall j :: h <= j ==> !OccursAt(t, pat, j)
  {
    forall j | h <= j ensures !OccursAt(t, pat, j) {
      OccursAtShift(t, pat, h, j - h);
    }
  }

  lemma {:induction false} StartOverlapsEndDiffers(c: Channel, n: nat) returns (prompt: string)
    requires c.name != "" && c.start != "" && c.end != "" && n > 0 && IsOverlap(c.start, c.end, n)
    requires forall k :: !OccursAt(c.end, c.start, k)
    ensures OpenAt(prompt, c).None? && EndsInside(c, prompt)
  {
    var s, e := c.start, c.end;
    prompt := s + e[n..];
    StaysOpen(c, e[n..]);
    var h := |s| - n;
    Assoc(s[..h], s[h..], e[n..]);
    assert s[..h] + s[h..] == s && s[h..] + e[n..] == e;
    EndsWith(s[..h], e, prompt);
    NoneAfter(prompt, e, s, h);
    OpenAtIsOpenIn(c, prompt);
  }

  lemma EndOverlapsStartDiffers(c: Channel, n: nat) returns (prompt: string)
    requires c.name != "" && c.start != "" && c.end != "" && n > 0 && IsOverlap(c.end, c.start, n)
    requires forall k :: !OccursAt(c.start, c.end, k)
    ensures OpenAt(prompt, c).Some? && !EndsInside(c, prompt)
  {
    var s, e := c.start, c.end;
    prompt := s + (e + s[n..]);
    StaysClosed(c, s[n..]);
    var h := |s| + |e| - n;
    var k := |e| - n;
    Assoc(s, e[..k], s);
    Assoc(e[..k], e[k..], s[n..]);
    assert e[..k] + e[k..] == e && e[k..] + s[n..] == s;
    EndsWith(s + e[..k], s, prompt);
    NoneAfter(prompt, s, e, h);
    assert OpenIn(c, prompt);
    OpenAtIsOpenIn(c, prompt);
  }

  lemma {:induction false} TouchingDiffers(c: Channel) returns (prompt: string)
    requires c.name != "" && c.start != "" && !Separate(c.start, c.end)
    ensures OpenAt(prompt, c).Some? != EndsInside(c, prompt)
  {
    var s, e := c.start, c.end;
    if e == "" {
      EmptyEndDiffers(c);
      prompt := s;
    } else if k :| OccursAt(s, e, k) {
      EndInStartDiffers(c, k);
      prompt := s;
    } else if k :| OccursAt(e, s, k) {
      prompt := StartInEndDiffers(c, k);
    } else if n: nat :| n > 0 && IsOverlap(s, e, n) {
      prompt := StartOverlapsEndDiffers(c, n);
    } else {
      var n: nat :| n > 0 && IsOverlap(e, s, n);
      prompt := EndOverlapsStartDiffers(c, n);
    }
  }

  /** `GetOpenChannelName` tells how the scanner would end, exactly for separate delimiters. */
  lemma SeedingAgreesIffSeparate(c: Channel)
    requires c.name != "" && c.start != ""
    ensures SeedingAgrees(c) <==> Separate(c.start, c.end)
  {
    if Separate(c.start, c.end) {
      forall prompt ensures OpenAt(prompt, c).Some? <==> EndsInside(c, prompt) {
        OpenAtIsOpenIn(c, prompt);
        EndsInsideIffOpenIn(c, prompt);
      }
    } else {
      var prompt := TouchingDiffers(c);
    }
  }

  /** Starting a response in the mode the prompt left is going on from the prompt, when the
      prompt does not end in the beginning of a delimiter. */
  lemma {:induction false} SeedingResumes(c: Channel, prompt: string, response: string)
    requires c.name != "" && c.start != "" && Separate(c.start, c.end)
    requires Run([c], Outside, prompt).rest == ""
    ensures var seed := SeedMode([c], if OpenAt(prompt, c).Some? then Some(c.name) else None);
            Run([c], Outside, prompt + response) == Prepend(Run([c], Outside, prompt).trace, Run([c], seed, response))
  {
    SingleIsStable(c);
    Resume([c], Outside, prompt, response);
    SeedingAgreesIffSeparate(c);
    EndModes(c, prompt);
    assert "" + response == response;
    assert OpenAt(prompt, c).Some? <==> EndsInside(c, prompt);
  }
}
