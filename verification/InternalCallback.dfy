/** The callback that parses a streamed response: its state, and what one call of it does,
    against the functions of `ChannelScanner`. */
module InternalCallback {
  import opened Strings
  import opened ChannelScanner
  import opened ChunkIndependence
  import opened DeliveredStream
  import opened ChannelUtil
  import opened Selections

  /** What the user callback receives.  `Plain` and `Fence` are both built by the model data
      processor; `Fence` is the send of a complete tool-call block. */
  datatype Message = Plain(text: string) | Fence(text: string) | ToChannel(name: string, text: string)

  function Items(m: Message): seq<Item> {
    match m
    case Plain(text) => Chars("", text)
    case Fence(text) => [Block(text)]
    case ToChannel(name, text) => Chars(name, text)
  }

  /** The stream the messages carry. */
  function Flatten(ms: seq<Message>): seq<Item> {
    if ms == [] then [] else Flatten(ms[..|ms| - 1]) + Items(ms[|ms| - 1])
  }

  lemma FlattenAppend(ms: seq<Message>, m: Message)
    ensures Flatten(ms + [m]) == Flatten(ms) + Items(m)
  {
    assert (ms + [m])[..|ms|] == ms;
  }

  // ---- complete fences ------------------------------------------------------------------

  /** The messages that carry a complete fence. */
  function FencesSent(ms: seq<Message>): seq<string> {
    if ms == [] then []
    else FencesSent(ms[..|ms| - 1]) + (if ms[|ms| - 1].Fence? then [ms[|ms| - 1].text] else [])
  }

  /** The complete fences of a stream. */
  function FencesIn(trace: seq<Item>): seq<string> {
    if trace == [] then []
    else FencesIn(trace[..|trace| - 1]) + (if trace[|trace| - 1].Block? then [trace[|trace| - 1].text] else [])
  }

  lemma {:induction false} FencesInJoin(t: seq<Item>, u: seq<Item>)
    ensures FencesIn(t + u) == FencesIn(t) + FencesIn(u)
  {
    if u == [] {
      assert t + u == t;
    } else {
      var n := |u| - 1;
      FencesInJoin(t, u[..n]);
      assert (t + u)[..|t| + n] == t + u[..n] && (t + u)[|t| + n] == u[n];
      Assoc(FencesIn(t), FencesIn(u[..n]), if u[n].Block? then [u[n].text] else []);
    }
  }

  lemma {:induction false} NoFenceInChars(name: string, s: string)
    ensures FencesIn(Chars(name, s)) == []
  {
    if s != "" {
      var n := |s| - 1;
      NoFenceInChars(name, s[..n]);
      assert Chars(name, s)[..n] == Chars(name, s[..n]);
    }
  }

  /** Each complete fence of the stream went out in exactly one message, in order. */
  lemma {:induction false} OneMessagePerFence(ms: seq<Message>)
    ensures FencesSent(ms) == FencesIn(Flatten(ms))
  {
    if ms != [] {
      var n := |ms| - 1;
      OneMessagePerFence(ms[..n]);
      FencesInJoin(Flatten(ms[..n]), Items(ms[n]));
      match ms[n] {
        case Plain(text) => NoFenceInChars("", text);
        case ToChannel(name, text) => NoFenceInChars(name, text);
        case Fence(text) => assert FencesIn([Block(text)][..0]) == [];
      }
    }
  }

  // ---- helpers of the callback ----------------------------------------------------------

  function NonEmptyStarts(custom: seq<Channel>): (r: seq<Channel>)
    ensures Startable(r)
  {
    if custom == [] then []
    else
      var n := |custom| - 1;
      NonEmptyStarts(custom[..n]) + (if custom[n].start != "" then [custom[n]] else [])
  }

  /** The channels searched for: the tool-call fence first, then the custom channels that have
      a start. */
  function ChannelsOf(fenceStart: string, fenceEnd: string, custom: seq<Channel>): (r: seq<Channel>)
    ensures Startable(r)
  {
    (if fenceStart != "" then [Channel("", fenceStart, fenceEnd)] else []) + NonEmptyStarts(custom)
  }

  /** With named custom channels, as a conversation demands, only the first in the list can be the
      fence. */
  lemma {:induction false} OnlyFirstIsFence(fenceStart: string, fenceEnd: string, custom: seq<Channel>)
    requires forall i :: 0 <= i < |custom| ==> custom[i].name != ""
    ensures FenceFirst(ChannelsOf(fenceStart, fenceEnd, custom))
    ensures forall i :: 0 <= i < |NonEmptyStarts(custom)| ==> NonEmptyStarts(custom)[i].name != ""
  {
    if custom != [] { OnlyFirstIsFence(fenceStart, fenceEnd, custom[..|custom| - 1]); }
  }

  /** `channels` holds the fence first, if it has a start, and then the custom channels at the places `at`,
      which are those with a start. */
  ghost predicate Lists(fenceStart: string, fenceEnd: string, custom: seq<Channel>, channels: seq<Channel>,
      at: seq<nat>)
  {
    var first := if fenceStart != "" then 1 else 0;
    && |channels| == first + |at| && Places(at, |custom|)
    && (fenceStart != "" ==> channels[0] == Channel("", fenceStart, fenceEnd))
    && (forall i :: 0 <= i < |at| ==> channels[first + i] == custom[at[i]])
    && (forall k :: k in at <==> 0 <= k < |custom| && custom[k].start != "")
  }

  lemma {:induction false} StartsAre(custom: seq<Channel>) returns (at: seq<nat>)
    ensures Picks(custom, at, NonEmptyStarts(custom))
    ensures forall k :: k in at <==> 0 <= k < |custom| && custom[k].start != ""
  {
    hide Picks, Startable;
    if custom == [] {
      at := [];
      PickNone<Channel>();
    } else {
      var n := |custom| - 1;
      at := StartsAre(custom[..n]);
      PickMore(custom, at, NonEmptyStarts(custom[..n]));
      StartsMore(custom);
      assert forall k :: 0 <= k < n ==> custom[..n][k] == custom[k];
      if custom[n].start != "" { at := at + [n]; }
    }
  }

  lemma StartsMore(custom: seq<Channel>)
    requires custom != []
    ensures var n := |custom| - 1;
            NonEmptyStarts(custom) ==
            if custom[n].start != "" then NonEmptyStarts(custom[..n]) + [custom[n]] else NonEmptyStarts(custom[..n])
  {
    hide Startable;
  }

  /** The parser's channels are just the fence, if it has a start, and the custom channels that have one:
      the fence first, the others in their order and as often as they were given. */
  lemma {:induction false} ListedAre(fenceStart: string, fenceEnd: string, custom: seq<Channel>)
    ensures var channels := ChannelsOf(fenceStart, fenceEnd, custom);
            && (exists at :: Lists(fenceStart, fenceEnd, custom, channels, at))
            && forall c :: c in channels <==>
                 (c == Channel("", fenceStart, fenceEnd) && fenceStart != "") || (c in custom && c.start != "")
  {
    hide NonEmptyStarts;
    var at := StartsAre(custom);
    assert Lists(fenceStart, fenceEnd, custom, ChannelsOf(fenceStart, fenceEnd, custom), at);
    forall c ensures c in NonEmptyStarts(custom) <==> c in custom && c.start != "" { StartIn(custom, c); }
  }

  lemma {:induction false} StartIn(custom: seq<Channel>, c: Channel)
    ensures c in NonEmptyStarts(custom) <==> c in custom && c.start != ""
  {
    if custom != [] {
      var n := |custom| - 1;
      StartIn(custom[..n], c);
      assert custom == custom[..n] + [custom[n]];
    }
  }

  method GetChannels(fenceStart: string, fenceEnd: string, custom: seq<Channel>) returns (channels: seq<Channel>)
    ensures channels == ChannelsOf(fenceStart, fenceEnd, custom)
    ensures exists at :: Lists(fenceStart, fenceEnd, custom, channels, at)
  {
    hide Lists, Startable;
    channels := [];
    if fenceStart != "" {
      channels := channels + [Channel("", fenceStart, fenceEnd)];
    }
    ghost var fence := channels;
    for i := 0 to |custom|
      invariant channels == fence + NonEmptyStarts(custom[..i])
    {
      assert custom[..i + 1][..i] == custom[..i];
      if custom[i].start != "" {
        channels := channels + [custom[i]];
      }
    }
    assert custom[..|custom|] == custom;
    ListedAre(fenceStart, fenceEnd, custom);
  }

  method FindNextChannelStart(possible: seq<Channel>, text: string, cursor: nat) returns (best: Option<Hit>)
    ensures best == NextStart(possible, text, cursor)
  {
    best := None;
    for i := 0 to |possible|
      invariant best == NextStart(possible[..i], text, cursor)
    {
      assert possible[..i + 1][..i] == possible[..i];
      var start := Find(text, possible[i].start, cursor);
      if start.Some? && (best.None? || start.value < best.value.pos) {
        best := Some(Hit(start.value, i));
      }
    }
    assert possible[..|possible|] == possible;
  }

  method FindMaxOverlap(channels: seq<Channel>, text: string) returns (r: nat)
    ensures r == MaxOverlap(channels, text)
  {
    hide IsOverlap;
    r := 0;
    for i := 0 to |channels|
      invariant r == MaxOverlap(channels[..i], text)
    {
      assert channels[..i + 1][..i] == channels[..i];
      var overlap := SuffixPrefixOverlap(text, channels[i].start);
      if overlap > r {
        r := overlap;
      }
    }
    assert channels[..|channels|] == channels;
  }

  lemma {:induction false} NextStartShift(chs: seq<Channel>, t: string, h: nat)
    requires h <= |t|
    ensures NextStart(chs, t, h) ==
            match NextStart(chs, t[h..], 0) case None => None case Some(hit) => Some(Hit(h + hit.pos, hit.index))
  {
    hide OccursAt;
    if chs != [] {
      NextStartShift(chs[..|chs| - 1], t, h);
      FindShift(t, chs[|chs| - 1].start, h, 0);
    }
  }

  function CustomOnly(channels: seq<Channel>): (r: seq<Channel>)
    ensures Startable(channels) ==> Startable(r)
  {
    if channels == [] then []
    else
      var n := |channels| - 1;
      CustomOnly(channels[..n]) + (if channels[n].name != "" then [channels[n]] else [])
  }

  /** What the extraction is given at the end: just the named channels, in their order and as often as
      they are in the list. */
  lemma {:induction false} CustomAre(channels: seq<Channel>) returns (at: seq<nat>)
    ensures Picks(channels, at, CustomOnly(channels))
    ensures forall k :: k in at <==> 0 <= k < |channels| && channels[k].name != ""
  {
    hide Picks, Startable;
    if channels == [] {
      at := [];
      PickNone<Channel>();
    } else {
      var n := |channels| - 1;
      at := CustomAre(channels[..n]);
      PickMore(channels, at, CustomOnly(channels[..n]));
      CustomMore(channels);
      assert forall k :: 0 <= k < n ==> channels[..n][k] == channels[k];
      if channels[n].name != "" { at := at + [n]; }
    }
  }

  lemma CustomMore(channels: seq<Channel>)
    requires channels != []
    ensures var n := |channels| - 1;
            CustomOnly(channels) ==
            if channels[n].name != "" then CustomOnly(channels[..n]) + [channels[n]] else CustomOnly(channels[..n])
  {
    hide Startable;
  }

  // ---- what is ahead of the loop, case by case ---------------------------------------------

  /** Still to be delivered once the inside of a channel is being searched for its end. */
  function InsideAhead(chs: seq<Channel>, before: seq<Item>, mode: Mode, rest: string): Outcome
    requires Startable(chs) && mode.Inside?
  {
    Prepend(before, Finish(chs, TurnInside(mode.name, mode.end, mode.skip, rest)))
  }

  function AllAhead(chs: seq<Channel>, before: seq<Item>, mode: Mode, rest: string): Outcome
    requires Startable(chs)
  {
    Prepend(before, Run(chs, mode, rest))
  }

  lemma InsideIsAhead(chs: seq<Channel>, before: seq<Item>, mode: Mode, rest: string)
    requires Startable(chs) && mode.Inside? && rest != ""
    ensures AllAhead(chs, before, mode, rest) == InsideAhead(chs, before, mode, rest)
  {
    hide Run, Finish, TurnInside, Prepend;
    RunIsFinish(chs, mode, rest);
  }

  lemma {:induction false} StartAhead(chs: seq<Channel>, before: seq<Item>, rem: string)
    requires Startable(chs) && rem != "" && NextStart(chs, rem, 0).Some?
    ensures var hit := NextStart(chs, rem, 0).value;
            var c := chs[hit.index];
            && hit.pos + |c.start| <= |rem|
            && AllAhead(chs, before, Outside, rem) ==
               InsideAhead(chs, before + (Chars("", rem[..hit.pos]) + [Opened(c.name, c.start)]),
                           Inside(c.name, c.end, if c.name != "" then 0 else |c.start|),
                           rem[hit.pos + (if c.name != "" then |c.start| else 0)..])
  {
    hide Run, Finish, TurnInside, Chars, NextStart, After;
    NextStartOccurs(chs, rem, 0);
    RunIsFinish(chs, Outside, rem);
    var hit := NextStart(chs, rem, 0).value;
    var c := chs[hit.index];
    assert rem[hit.pos..][|c.start|..] == rem[hit.pos + |c.start|..];
    var head, turn := Chars("", rem[..hit.pos]) + [Opened(c.name, c.start)], TurnAtStart(c, rem[hit.pos..]);
    FinishAfter(chs, head, turn);
    PrependPrepend(before, head, Finish(chs, turn));
  }

  lemma NoStartAhead(chs: seq<Channel>, before: seq<Item>, rem: string)
    requires Startable(chs) && rem != "" && NextStart(chs, rem, 0).None?
    ensures var safe := |rem| - MaxOverlap(chs, rem);
            AllAhead(chs, before, Outside, rem) == Outcome(before + Chars("", rem[..safe]), Outside, rem[safe..])
  {
    hide Run, Chars, NextStart, MaxOverlap;
    RunIsFinish(chs, Outside, rem);
  }

  lemma {:induction false} EndAhead(chs: seq<Channel>, before: seq<Item>, mode: Mode, rem: string)
    requires Startable(chs) && mode.Inside? && Find(rem, mode.end, mode.skip).Some?
    ensures mode.skip <= Find(rem, mode.end, mode.skip).value
    ensures Find(rem, mode.end, mode.skip).value + |mode.end| <= |rem|
    ensures var e := Find(rem, mode.end, mode.skip).value;
            var body := if mode.name != "" then Chars(mode.name, rem[..e]) else Blocks(rem[..e + |mode.end|]);
            InsideAhead(chs, before, mode, rem) ==
            AllAhead(chs, before + (body + [Closed(mode.name, mode.end)]), Outside, rem[e + |mode.end|..])
  {
    hide Run, TurnInside, Prepend, OccursAt;
    FindFits(rem, mode.end, mode.skip);
    TurnClosed(mode, rem);
    var turn := TurnInside(mode.name, mode.end, mode.skip, rem);
    PrependPrepend(before, turn.trace, Run(chs, Outside, turn.rest));
  }

  lemma TurnClosed(mode: Mode, rem: string)
    requires mode.Inside? && Find(rem, mode.end, mode.skip).Some?
    ensures var e := Find(rem, mode.end, mode.skip).value;
            var body := if mode.name != "" then Chars(mode.name, rem[..e]) else Blocks(rem[..e + |mode.end|]);
            TurnInside(mode.name, mode.end, mode.skip, rem) ==
                Next(body + [Closed(mode.name, mode.end)], rem[e + |mode.end|..])
  {
    hide Chars, Blocks;
  }

  lemma NoEndAhead(chs: seq<Channel>, before: seq<Item>, mode: Mode, rem: string)
    requires Startable(chs) && mode.Inside? && Find(rem, mode.end, mode.skip).None?
    ensures var safe := |rem| - Overlap(rem, mode.end);
            InsideAhead(chs, before, mode, rem) ==
            if mode.name != "" then Outcome(before + Chars(mode.name, rem[..safe]), mode, rem[safe..])
            else Outcome(before, mode, rem)
  {
    hide Run, Chars, OccursAt, IsOverlap, Blocks;
    assert before + [] == before;
  }

  lemma NothingAhead(chs: seq<Channel>, before: seq<Item>, mode: Mode)
    requires Startable(chs)
    ensures AllAhead(chs, before, mode, "") == Outcome(before, mode, "")
  {
    assert before + [] == before;
  }

  // ---- the callback -----------------------------------------------------------------------

  class ResponseParser {
    const channels: seq<Channel>
    const openChannelName: Option<string>
    var accumulated: string
    var cursor: nat
    var insideChannel: bool
    var activeEnd: string
    var activeStartPos: nat
    var activeStartSize: nat
    var activeName: string
    /** What the user callback has received. */
    var sent: seq<Message>
    /** The same with the delimiters passed over, the mode at the start and the chunks so far. */
    ghost var trace: seq<Item>
    ghost const initial: Mode
    ghost var chunks: seq<string>

    /** How far the search for the end starts beyond the cursor. */
    function Skip(): nat
      reads this
    {
      if activeStartPos + activeStartSize > cursor then activeStartPos + activeStartSize - cursor else 0
    }

    function CurrentMode(): Mode
      reads this
    {
      if insideChannel then Inside(activeName, activeEnd, Skip()) else Outside
    }

    ghost predicate Consistent()
      reads this
    {
      && Startable(channels)
      && cursor <= |accumulated|
      && ModeOk(CurrentMode())
      && (insideChannel ==> activeStartPos + activeStartSize <= |accumulated|)
      && Flatten(sent) == Visible(trace)
    }

    /** The whole history: the state is what feeding the chunks one by one leads to. */
    ghost predicate Valid()
      reads this
    {
      && Consistent()
      && ModeOk(initial)
      && accumulated == Concat(chunks)
      && Outcome(trace, CurrentMode(), accumulated[cursor..]) == FeedAll(channels, initial, chunks)
    }

    /** Where the loop is heading from its head, and from the middle of its body. */
    ghost function Ahead(): Outcome
      requires Consistent()
      reads this
    {
      AllAhead(channels, trace, CurrentMode(), accumulated[cursor..])
    }

    ghost function AheadInside(): Outcome
      requires Consistent() && insideChannel
      reads this
    {
      InsideAhead(channels, trace, CurrentMode(), accumulated[cursor..])
    }

    ghost function Here(): Outcome
      requires cursor <= |accumulated|
      reads this
    {
      Outcome(trace, CurrentMode(), accumulated[cursor..])
    }

    constructor (fenceStart: string, fenceEnd: string, custom: seq<Channel>, open: Option<string>)
      ensures Valid() && chunks == [] && sent == []
      ensures channels == ChannelsOf(fenceStart, fenceEnd, custom)
      ensures exists at :: Lists(fenceStart, fenceEnd, custom, channels, at)
      ensures openChannelName == open && initial == SeedMode(channels, open)
    {
      hide Lists;
      var chs := GetChannels(fenceStart, fenceEnd, custom);
      var i := 0;
      var name := if open.Some? then open.value else "";
      while i < |chs| && chs[i].name != name
        invariant i <= |chs|
        invariant open.Some? ==> SeedMode(chs[i..], open) == SeedMode(chs, open)
      {
        i := i + 1;
      }
      channels, openChannelName := chs, open;
      insideChannel := open.Some? && i < |chs|;
      activeEnd := if open.Some? && i < |chs| then chs[i].end else "";
      activeName := if open.Some? && i < |chs| then chs[i].name else "";
      accumulated, cursor, activeStartPos, activeStartSize := "", 0, 0, 0;
      sent, trace, chunks, initial := [], [], [], SeedMode(chs, open);
    }

    method SendMessage(text: string, whole: bool)
      modifies this`sent
      ensures old(sent) <= sent
      ensures Flatten(sent) == Flatten(old(sent)) + (if whole then Blocks(text) else Chars("", text))
    {
      if text == "" {
        assert Flatten(sent) + [] == Flatten(sent);
        return;
      }
      var m := if whole then Fence(text) else Plain(text);
      FlattenAppend(sent, m);
      sent := sent + [m];
    }

    method SendMessageToChannel(text: string, name: string)
      modifies this`sent
      ensures old(sent) <= sent
      ensures Flatten(sent) == Flatten(old(sent)) + Chars(name, text)
    {
      if text == "" {
        assert Flatten(sent) + [] == Flatten(sent);
        return;
      }
      FlattenAppend(sent, ToChannel(name, text));
      sent := sent + [ToChannel(name, text)];
    }

    /** Outside every channel: send text up to the next start, or up to what may become one. */
    method SearchStart() returns (wait: bool)
      requires Consistent() && !insideChannel && cursor < |accumulated|
      modifies this`sent, this`trace, this`cursor, this`insideChannel
      modifies this`activeEnd, this`activeStartPos, this`activeStartSize, this`activeName
      ensures Consistent()
      ensures insideChannel ==> !wait && AheadInside() == old(Ahead())
      ensures !insideChannel ==> Here() == old(Ahead()) && (wait || cursor == |accumulated|)
      ensures cursor >= old(cursor) && (insideChannel ==> cursor + Skip() > old(cursor))
      ensures old(sent) <= sent && old(trace) <= trace
    {
      hide *;
      NextStartShift(channels, accumulated, cursor);
      var next := FindNextChannelStart(channels, accumulated, cursor);
      if next.Some? {
        EnterChannel(next.value.index, next.value.pos);
        return false;
      }
      wait := SendSafeText();
    }

    /** A start was found: the text before it goes out, and its channel becomes the active one. */
    method EnterChannel(index: nat, startPos: nat)
      requires Consistent() && !insideChannel && cursor < |accumulated| && cursor <= startPos
      requires NextStart(channels, accumulated[cursor..], 0) == Some(Hit(startPos - cursor, index))
      modifies this`sent, this`trace, this`cursor, this`insideChannel
      modifies this`activeEnd, this`activeStartPos, this`activeStartSize, this`activeName
      ensures Consistent() && insideChannel
      ensures AheadInside() == old(Ahead())
      ensures cursor >= old(cursor) && cursor + Skip() > old(cursor)
      ensures old(sent) <= sent && old(trace) <= trace
    {
      hide AllAhead, InsideAhead, Visible, Chars, NextStart, Flatten;
      ghost var rem := accumulated[cursor..];
      ghost var before := trace;
      ghost var n := startPos - cursor;
      StartAhead(channels, before, rem);
      var c := channels[index];
      Slices(accumulated, cursor, n);
      Slices(accumulated, cursor, n + |c.start|);
      SendMessage(accumulated[cursor..startPos], false);
      cursor := startPos;
      insideChannel := true;
      activeEnd := c.end;
      activeStartPos := startPos;
      activeStartSize := |c.start|;
      activeName := c.name;
      if activeName != "" {
        cursor := cursor + activeStartSize;
      }
      trace := before + (Chars("", rem[..n]) + [Opened(c.name, c.start)]);
      StartVisible(before, rem[..n], c);
    }

    /** No start was found: everything that cannot be the beginning of one goes out. */
    method SendSafeText() returns (wait: bool)
      requires Consistent() && !insideChannel && cursor < |accumulated|
      requires NextStart(channels, accumulated[cursor..], 0).None?
      modifies this`sent, this`trace, this`cursor
      ensures Consistent()
      ensures Here() == old(Ahead()) && (wait || cursor == |accumulated|)
      ensures cursor >= old(cursor)
      ensures old(sent) <= sent && old(trace) <= trace
    {
      hide AllAhead, Visible, Chars, NextStart, MaxOverlap, Flatten;
      ghost var rem := accumulated[cursor..];
      ghost var before := trace;
      NoStartAhead(channels, before, rem);
      var overlap := FindMaxOverlap(channels, accumulated[cursor..]);
      ghost var safe := |rem| - overlap;
      VisibleJoin(before, Chars("", rem[..safe]));
      VisibleChars("", rem[..safe]);
      Slices(accumulated, cursor, safe);
      if overlap > 0 {
        var possible := |accumulated| - overlap;
        SendMessage(accumulated[cursor..possible], false);
        cursor := possible;
        wait := true;
      } else {
        assert rem[..safe] == accumulated[cursor..];
        SendMessage(accumulated[cursor..], false);
        cursor := |accumulated|;
        wait := false;
      }
      trace := before + Chars("", rem[..safe]);
    }

    /** Inside a channel: send up to its end, or up to what may become one. */
    method SearchEnd() returns (wait: bool)
      requires Consistent() && insideChannel
      modifies this`sent, this`trace, this`cursor, this`insideChannel
      ensures Consistent()
      ensures wait ==> Here() == old(AheadInside())
      ensures !wait ==> !insideChannel && Ahead() == old(AheadInside()) && cursor >= old(cursor) + old(Skip())
      ensures old(sent) <= sent && old(trace) <= trace
    {
      hide AllAhead, InsideAhead, Visible, Chars, Blocks, Flatten, OccursAt, Find, Overlap;
      ghost var rem := accumulated[cursor..];
      ghost var before := trace;
      var searchStart := if cursor > activeStartPos + activeStartSize then cursor else activeStartPos + activeStartSize;
      assert searchStart == cursor + Skip();
      FindShift(accumulated, activeEnd, cursor, Skip());
      var end := Find(accumulated, activeEnd, searchStart);
      if end.Some? {
        LeaveChannel(end.value);
        return false;
      }
      NoEndAhead(channels, before, CurrentMode(), rem);
      wait := true;
      if activeName != "" {
        StreamActiveChannel(searchStart);
      }
    }

    /** The channel ends at `end`: its content goes out, and the cursor past the delimiter. */
    method LeaveChannel(end: nat)
      requires Consistent() && insideChannel && end >= cursor
      requires Find(accumulated[cursor..], activeEnd, Skip()) == Some(end - cursor)
      modifies this`sent, this`trace, this`cursor, this`insideChannel
      ensures Consistent() && !insideChannel
      ensures Ahead() == old(AheadInside()) && cursor >= old(cursor) + old(Skip())
      ensures old(sent) <= sent && old(trace) <= trace
    {
      hide AllAhead, InsideAhead, Visible, Chars, Blocks, Flatten, OccursAt, Find, Overlap;
      ghost var rem := accumulated[cursor..];
      ghost var before := trace;
      EndAhead(channels, before, CurrentMode(), rem);
      ghost var e := end - cursor;
      Slices(accumulated, cursor, e);
      Slices(accumulated, cursor, e + |activeEnd|);
      EndVisible(before, activeName, activeEnd, rem, e);
      ghost var body := if activeName != "" then Chars(activeName, rem[..e]) else Blocks(rem[..e + |activeEnd|]);
      if activeName != "" {
        SendMessageToChannel(accumulated[cursor..end], activeName);
      } else {
        SendMessage(accumulated[cursor..end + |activeEnd|], true);
      }
      cursor := end + |activeEnd|;
      insideChannel := false;
      trace := before + (body + [Closed(activeName, activeEnd)]);
    }

    /** Stream the channel except for what may be the beginning of its end. */
    method StreamActiveChannel(searchStart: nat)
      requires Consistent() && insideChannel && activeName != "" && searchStart == cursor
      modifies this`sent, this`trace, this`cursor
      ensures Consistent()
      ensures var rem := old(accumulated[cursor..]);
              var safe := |rem| - Overlap(rem, activeEnd);
              Here() == Outcome(old(trace) + Chars(activeName, rem[..safe]), old(CurrentMode()), rem[safe..])
      ensures old(sent) <= sent && old(trace) <= trace
    {
      hide Visible, Chars, Flatten;
      ghost var rem := accumulated[cursor..];
      ghost var before := trace;
      var overlap := SuffixPrefixOverlap(accumulated[searchStart..], activeEnd);
      var safeEnd := |accumulated| - overlap;
      ghost var safe := |rem| - overlap;
      assert accumulated[cursor..safeEnd] == rem[..safe] && accumulated[safeEnd..] == rem[safe..];
      VisibleJoin(before, Chars(activeName, rem[..safe]));
      VisibleChars(activeName, rem[..safe]);
      if safeEnd > cursor {
        SendMessageToChannel(accumulated[cursor..safeEnd], activeName);
        cursor := safeEnd;
      } else {
        assert Flatten(sent) + [] == Flatten(sent);
        assert Chars(activeName, rem[..safe]) == [];
      }
      trace := before + Chars(activeName, rem[..safe]);
    }

    /** A response in state `kProcessing` carrying a text. */
    method OnProcessing(text: string)
      requires Valid()
      modifies this
      ensures Valid()
      ensures chunks == old(chunks) + [text] && accumulated == old(accumulated) + text
      ensures old(sent) <= sent && old(trace) <= trace
    {
      hide AllAhead, InsideAhead, Visible, Flatten, FeedAll, Concat;
      ghost var kept := accumulated[cursor..];
      FeedMore(channels, initial, chunks, text);
      accumulated := accumulated + text;
      chunks := chunks + [text];
      assert accumulated[cursor..] == kept + text;
      ghost var goal := Ahead();
      while cursor < |accumulated|
        invariant Consistent()
        invariant accumulated == old(accumulated) + text && chunks == old(chunks) + [text]
        invariant old(sent) <= sent && old(trace) <= trace
        invariant Ahead() == goal
        decreases |accumulated| - cursor, insideChannel
      {
        var wait := false;
        if !insideChannel {
          wait := SearchStart();
          if wait {
            break;
          }
        } else {
          InsideIsAhead(channels, trace, CurrentMode(), accumulated[cursor..]);
        }
        if insideChannel {
          wait := SearchEnd();
          if wait {
            break;
          }
        } else {
          assert accumulated[cursor..] == "";
          NothingAhead(channels, trace, CurrentMode());
        }
      }
      if cursor == |accumulated| {
        assert accumulated[cursor..] == "";
        NothingAhead(channels, trace, CurrentMode());
      }
      assert Here() == goal;
    }

    method CustomChannels() returns (custom: seq<Channel>)
      ensures custom == CustomOnly(channels)
    {
      custom := [];
      for i := 0 to |channels|
        invariant custom == CustomOnly(channels[..i])
      {
        assert channels[..i + 1][..i] == channels[..i];
        if channels[i].name != "" {
          custom := custom + [channels[i]];
        }
      }
      assert channels[..|channels|] == channels;
    }

    /** A response in state `kDone` or `kMaxNumTokensReached`: what was kept back goes out, and the
        complete text is handed on with its channel contents taken out. */
    method OnDone() returns (fields: map<string, string>, content: string)
      requires Valid()
      modifies this`sent, this`trace, this`cursor
      ensures trace == AtDone(channels, initial, chunks)
      ensures Flatten(sent) == Visible(trace) && FencesSent(sent) == FencesIn(Visible(trace))
      ensures VisiblyStable(channels) ==> Flatten(sent) == VisibleParse(channels, initial, accumulated)
      ensures old(sent) <= sent
      ensures Extraction(content, fields) ==
              ExtractAll(CustomOnly(channels), openChannelName, Extraction(accumulated, map[]))
    {
      hide Visible, Chars, Flatten, FeedAll, Parse, Concat, VisiblyStable;
      ghost var rest := accumulated[cursor..];
      ghost var before := trace;
      var name := if insideChannel then activeName else "";
      if cursor < |accumulated| {
        if name != "" {
          SendMessageToChannel(accumulated[cursor..], name);
        } else {
          SendMessage(accumulated[cursor..], false);
        }
      } else {
        assert Flatten(sent) + [] == Flatten(sent);
        assert Chars(name, rest) == [];
      }
      trace := before + Chars(name, rest);
      VisibleJoin(before, Chars(name, rest));
      VisibleChars(name, rest);
      OneMessagePerFence(sent);
      if VisiblyStable(channels) { SeenAtDone(channels, initial, chunks); }
      var custom := CustomChannels();
      var extracted, texts := ExtractChannelContent(custom, [accumulated], openChannelName);
      fields, content := extracted.value, texts[0];
      cursor := |accumulated|;
    }
  }

  lemma FeedMore(chs: seq<Channel>, mode: Mode, chunks: seq<string>, text: string)
    requires Startable(chs)
    ensures var o := FeedAll(chs, mode, chunks);
            FeedAll(chs, mode, chunks + [text]) == AllAhead(chs, o.trace, o.mode, o.rest + text)
    ensures Concat(chunks + [text]) == Concat(chunks) + text
  {
    assert (chunks + [text])[..|chunks|] == chunks;
  }

  lemma VisibleSent(before: seq<Item>, body: seq<Item>, delimiter: Item)
    requires delimiter.Opened? || delimiter.Closed?
    ensures Visible(before + (body + [delimiter])) == Visible(before) + Visible(body)
  {
    VisibleJoin(before, body + [delimiter]);
    VisibleWithDelimiter(body, delimiter);
  }

  lemma StartVisible(before: seq<Item>, text: string, c: Channel)
    ensures Visible(before + (Chars("", text) + [Opened(c.name, c.start)])) == Visible(before) + Chars("", text)
  {
    VisibleSent(before, Chars("", text), Opened(c.name, c.start));
    VisibleChars("", text);
  }

  lemma EndVisible(before: seq<Item>, name: string, end: string, rem: string, e: nat)
    requires e + |end| <= |rem|
    ensures var body := if name != "" then Chars(name, rem[..e]) else Blocks(rem[..e + |end|]);
            Visible(before + (body + [Closed(name, end)])) == Visible(before) + body
  {
    var body := if name != "" then Chars(name, rem[..e]) else Blocks(rem[..e + |end|]);
    VisibleSent(before, body, Closed(name, end));
    VisibleChars(name, rem[..e]);
    VisibleBlocks(rem[..e + |end|]);
  }

  lemma Slices(t: string, h: nat, n: nat)
    requires h + n <= |t|
    ensures t[h..][..n] == t[h..h + n] && t[h..][n..] == t[h + n..]
  {
  }
}
