/** What parsing a response comes to, case by case, in terms of the text alone: which characters, blocks
    and delimiters there are, and what the messages that were sent carry of them. */
module ParseCases {
  import opened Strings
  import opened ChannelScanner
  import opened ChannelUtil
  import opened InternalCallback
  import opened BatchAgreement
  import opened DeliveredStream
  import opened Selections

  lemma FirstIs(t: string, pat: string, from: nat, e: nat)
    requires from <= e && OccursAt(t, pat, e) && forall q :: from <= q < e ==> !OccursAt(t, pat, q)
    ensures Find(t, pat, from) == Some(e)
  {
  }

  /** Without a start in it the whole text is ordinary. */
  lemma {:induction false} PlainText(chs: seq<Channel>, t: string)
    requires Startable(chs) && forall j, q :: 0 <= j < |chs| && 0 <= q ==> !OccursAt(t, chs[j].start, q)
    ensures Parse(chs, Outside, t) == Chars("", t)
  {
    hide OccursAt;
    NextStartIsFirst(chs, t, 0);
  }

  /** `pat` comes first at the end of `body`. */
  predicate EndsFirst(body: string, pat: string, after: string) {
    forall q :: 0 <= q < |body| ==> !OccursAt(body + pat + after, pat, q)
  }

  lemma EndFound(body: string, pat: string, after: string)
    requires EndsFirst(body, pat, after)
    ensures Find(body + pat + after, pat, 0) == Some(|body|)
  {
    assert OccursAt(body + pat + after, pat, |body|);
  }

  /** A text up to the end of a named channel: what stands before the start is ordinary, the content goes
      to the channel, and the rest is parsed anew. */
  lemma {:induction false} ChannelClosed(chs: seq<Channel>, i: nat, before: string, body: string, after: string)
    requires Startable(chs) && i < |chs| && chs[i].name != ""
    requires IsFirstStart(chs, before + (chs[i].start + (body + chs[i].end + after)), 0, Hit(|before|, i))
    requires EndsFirst(body, chs[i].end, after)
    ensures var c := chs[i];
            Parse(chs, Outside, before + (c.start + (body + c.end + after))) ==
            (Chars("", before) + [Opened(c.name, c.start)]) +
            ((Chars(c.name, body) + [Closed(c.name, c.end)]) + Parse(chs, Outside, after))
  {
    hide OccursAt, Find, Chars, EndsFirst, IsFirstStart;
    var c := chs[i];
    var u := body + c.end + after;
    Started(chs, i, before, u);
    EndFound(body, c.end, after);
    assert u[..|body|] == body && u[|body| + |c.end|..] == after;
  }

  lemma {:induction false} Started(chs: seq<Channel>, i: nat, before: string, u: string)
    requires Startable(chs) && i < |chs|
    requires IsFirstStart(chs, before + (chs[i].start + u), 0, Hit(|before|, i))
    ensures var c := chs[i];
            Parse(chs, Outside, before + (c.start + u)) ==
            (Chars("", before) + [Opened(c.name, c.start)]) +
            (if c.name != "" then ParseInside(chs, c.name, c.end, 0, u)
             else ParseInside(chs, "", c.end, |c.start|, c.start + u))
  {
    hide OccursAt, Find, Chars, IsFirstStart, ParseInside;
    var c := chs[i];
    var t := before + (c.start + u);
    FirstStartIsNext(chs, t, 0, Hit(|before|, i));
    assert t[..|before|] == before && t[|before|..] == c.start + u && (c.start + u)[|c.start|..] == u;
    assert c.start != "" && t != "";
  }

  /** If the channel does not end, all the rest is its content. */
  lemma {:induction false} ChannelOpen(chs: seq<Channel>, i: nat, before: string, body: string)
    requires Startable(chs) && i < |chs| && chs[i].name != ""
    requires IsFirstStart(chs, before + (chs[i].start + body), 0, Hit(|before|, i))
    requires forall q :: 0 <= q ==> !OccursAt(body, chs[i].end, q)
    ensures var c := chs[i];
            Parse(chs, Outside, before + (c.start + body)) ==
            (Chars("", before) + [Opened(c.name, c.start)]) + Chars(c.name, body)
  {
    hide OccursAt, Chars, IsFirstStart;
    Started(chs, i, before, body);
  }

  /** A tool-call fence goes out as one block, its delimiters included. */
  lemma {:induction false} FenceClosed(chs: seq<Channel>, i: nat, before: string, body: string, after: string)
    requires Startable(chs) && i < |chs| && chs[i].name == ""
    requires IsFirstStart(chs, before + (chs[i].start + (body + chs[i].end + after)), 0, Hit(|before|, i))
    requires EndsFirst(body, chs[i].end, after)
    ensures var c := chs[i];
            Parse(chs, Outside, before + (c.start + (body + c.end + after))) ==
            (Chars("", before) + [Opened("", c.start)]) +
            (([Block(c.start + body + c.end)] + [Closed("", c.end)]) + Parse(chs, Outside, after))
  {
    hide OccursAt, Find, Chars, EndsFirst, IsFirstStart;
    var c := chs[i];
    var u := body + c.end + after;
    Started(chs, i, before, u);
    EndFound(body, c.end, after);
    FindShift(c.start + u, c.end, |c.start|, 0);
    assert (c.start + u)[|c.start|..] == u;
    FenceParts(c.start, body, c.end, after);
    assert c.start != "";
  }

  lemma FenceParts(start: string, body: string, end: string, after: string)
    ensures var t, e := start + (body + end + after), |start| + |body| + |end|;
            t[..e] == start + body + end && t[e..] == after
  {
    assert start + (body + end + after) == (start + body + end) + after;
  }

  /** A fence that does not end is ordinary text in the end, from its start on. */
  lemma {:induction false} FenceOpen(chs: seq<Channel>, i: nat, before: string, body: string)
    requires Startable(chs) && i < |chs| && chs[i].name == ""
    requires IsFirstStart(chs, before + (chs[i].start + body), 0, Hit(|before|, i))
    requires forall q :: 0 <= q ==> !OccursAt(body, chs[i].end, q)
    ensures var c := chs[i];
            Parse(chs, Outside, before + (c.start + body)) ==
            (Chars("", before) + [Opened("", c.start)]) + Chars("", c.start + body)
  {
    hide OccursAt, Chars, IsFirstStart;
    var c := chs[i];
    Started(chs, i, before, body);
    FindShift(c.start + body, c.end, |c.start|, 0);
    assert (c.start + body)[|c.start|..] == body;
  }

  /** A response that begins inside a channel: up to its end, or to the end of the text. */
  lemma {:induction false} SeededClosed(chs: seq<Channel>, name: string, end: string, body: string, after: string)
    requires Startable(chs) && name != "" && EndsFirst(body, end, after) && body + end + after != ""
    ensures Parse(chs, Inside(name, end, 0), body + end + after) ==
            (Chars(name, body) + [Closed(name, end)]) + Parse(chs, Outside, after)
  {
    hide OccursAt, Find, Chars, EndsFirst;
    var u := body + end + after;
    EndFound(body, end, after);
    assert u[..|body|] == body && u[|body| + |end|..] == after;
  }

  lemma {:induction false} SeededOpen(chs: seq<Channel>, name: string, end: string, body: string)
    requires Startable(chs) && forall q :: 0 <= q ==> !OccursAt(body, end, q)
    ensures Parse(chs, Inside(name, end, 0), body) == Chars(name, body)
  {
    hide OccursAt;
  }

  /** The mode a response starts in: inside the first channel of the name the prompt left open. */
  lemma {:induction false} SeedModeIs(chs: seq<Channel>, open: Option<string>, i: nat)
    requires i <= |chs| && (i < |chs| ==> open == Some(chs[i].name))
    requires forall j :: 0 <= j < i ==> open != Some(chs[j].name)
    ensures SeedMode(chs, open) == if i < |chs| then Inside(chs[i].name, chs[i].end, 0) else Outside
  {
    if open.Some? && chs != [] && chs[0].name != open.value {
      SeedModeIs(chs[1..], open, i - 1);
    }
  }

  // ---- what the messages carry ---------------------------------------------------------------

  /** The texts of the messages to a named channel; of the ordinary messages, for the empty name. */
  function SentTo(name: string, ms: seq<Message>): string {
    if ms == [] then ""
    else
      var m := ms[|ms| - 1];
      SentTo(name, ms[..|ms| - 1]) +
      match m
      case Plain(text) => if name == "" then text else ""
      case Fence(_) => ""
      case ToChannel(to, text) => if to == name then text else ""
  }

  /** What was sent under a name is what the stream has under it. */
  lemma {:induction false} SentIsStream(name: string, ms: seq<Message>)
    ensures SentTo(name, ms) == TextTo(name, Flatten(ms))
  {
    if ms != [] {
      var n := |ms| - 1;
      SentIsStream(name, ms[..n]);
      TextToJoin(name, Flatten(ms[..n]), Items(ms[n]));
      match ms[n] {
        case Plain(text) => TextToChars(name, "", text);
        case Fence(text) => TextToDelimiter(name, Block(text));
        case ToChannel(to, text) => TextToChars(name, to, text);
      }
    }
  }

  /** What is shown of a stream is all of it but the delimiters, in order. */
  lemma {:induction false} ShownAre(trace: seq<Item>) returns (at: seq<nat>)
    ensures Picks(trace, at, Visible(trace))
    ensures forall k :: k in at <==> 0 <= k < |trace| && (trace[k].Out? || trace[k].Block?)
  {
    hide Picks;
    if trace == [] {
      at := [];
      PickNone<Item>();
    } else {
      var n := |trace| - 1;
      at := ShownAre(trace[..n]);
      PickMore(trace, at, Visible(trace[..n]));
      ShownLast(trace);
      assert forall k :: 0 <= k < n ==> trace[..n][k] == trace[k];
      if trace[n].Out? || trace[n].Block? { at := at + [n]; }
    }
  }

  lemma ShownLast(trace: seq<Item>)
    requires trace != []
    ensures var n := |trace| - 1;
            Visible(trace) ==
            if trace[n].Out? || trace[n].Block? then Visible(trace[..n]) + [trace[n]] else Visible(trace[..n])
  {
    var n := |trace| - 1;
    VisibleJoin(trace[..n], [trace[n]]);
    assert trace == trace[..n] + [trace[n]] && [trace[n]][1..] == [];
    assert Visible([trace[n]][1..]) == [];
  }

  // ---- the channel a prompt leaves open ------------------------------------------------------

  /** `s` is the last start of the channel, and no end comes at or after it; a channel without a start is
      never open, one without an end stays open. */
  ghost predicate LeftOpen(text: string, c: Channel, s: nat) {
    && c.start != "" && OccursAt(text, c.start, s)
    && (forall i :: s < i ==> !OccursAt(text, c.start, i))
    && (c.end != "" ==> forall i :: s <= i ==> !OccursAt(text, c.end, i))
  }

  lemma {:induction false} OpenIff(text: string, c: Channel, s: nat)
    ensures OpenAt(text, c) == Some(s) <==> LeftOpen(text, c, s)
  {
    hide OccursAt;
  }

  // ---- the extraction, channel by channel -----------------------------------------------------

  /** What taking one channel makes of a text and the fields, where `kept` is the text around its contents
      and `inside` the contents: nothing if they are empty, else the text is `kept` and the contents are
      added to the channel's field. */
  ghost predicate Takes(c: Channel, kept: string, inside: string, x: Extraction, y: Extraction) {
    if inside == "" then y == x
    else
      && y.content == kept
      && (forall name :: name in y.fields <==> name in x.fields || name == c.name)
      && (forall name :: name in x.fields && name != c.name ==> y.fields[name] == x.fields[name])
      && y.fields[c.name] == (if c.name in x.fields then x.fields[c.name] else "") + inside
  }

  /** The extraction goes through the channels in their order; each is taken from what those before it
      left, as the parser with that channel alone would: open from the start if the prompt left it open. */
  lemma {:induction false} ExtractionSteps(channels: seq<Channel>, open: Option<string>, text: string)
      returns (xs: seq<Extraction>)
    requires Startable(channels) && forall i :: 0 <= i < |channels| ==> channels[i].name != ""
    ensures |xs| == |channels| + 1 && xs[0] == Extraction(text, map[])
    ensures xs[|channels|] == ExtractAll(channels, open, Extraction(text, map[]))
    ensures forall k :: 0 <= k < |channels| ==>
              var c := channels[k];
              var mode := if open == Some(c.name) then Inside(c.name, c.end, 0) else Outside;
              var parsed := Parse([c], mode, xs[k].content);
              Takes(c, TextTo("", parsed), TextTo(c.name, parsed), xs[k], xs[k + 1])
  {
    hide Parse, TextTo, SplitFrom, Takes;
    if channels == [] {
      xs := [Extraction(text, map[])];
    } else {
      var n := |channels| - 1;
      var c := channels[n];
      xs := ExtractionSteps(channels[..n], open, text);
      ParseFromIsSplit(c, open == Some(c.name), xs[n].content);
      var y := ExtractOne(c, open, xs[n]);
      OneTaken(c, open, xs[n]);
      xs := xs + [y];
      assert forall k :: 0 <= k < n ==> channels[..n][k] == channels[k];
    }
  }

  lemma {:induction false} OneTaken(c: Channel, open: Option<string>, x: Extraction)
    requires c.start != ""
    ensures var (kept, inside) := SplitFrom(c, open == Some(c.name), x.content);
            Takes(c, kept, inside, x, ExtractOne(c, open, x))
  {
    hide SplitFrom;
  }
}
