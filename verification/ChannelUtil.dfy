/** Channel content in a complete text: extraction after the generation, and the channel a
    prompt leaves open. */
module ChannelUtil {
  import opened Results
  import opened Strings
  import opened ChannelScanner


  datatype Match = Match(before: string, inside: string, remaining: string)

  /** The remaining text and channel contents while the channels are taken one by one. */
  datatype Extraction = Extraction(content: string, fields: map<string, string>)

  /** Consuming `(.*?)start(.*?)(end|$)`, dot matching newlines: the first start, then up to the
      first end after it or to the end of the text. */
  function Consume(c: Channel, t: string): (r: Option<Match>)
    ensures r.Some? ==> |r.value.remaining| + |c.start| <= |t|
  {
    match Find(t, c.start, 0)
    case None => None
    case Some(q) =>
      var (inside, remaining) := ConsumeInside(c, t[q + |c.start|..]);
      Some(Match(t[..q], inside, remaining))
  }

  /** Consuming `(.*?)(end|$)`. */
  function ConsumeInside(c: Channel, t: string): (r: (string, string))
    ensures |r.1| <= |t|
  {
    match Find(t, c.end, 0)
    case None => (t, "")
    case Some(e) => (t[..e], t[e + |c.end|..])
  }

  /** All of a text's (kept text, channel content). */
  function Split(c: Channel, t: string): (string, string)
    requires c.start != ""
    decreases |t|
  {
    match Consume(c, t)
    case None => (t, "")
    case Some(m) =>
      var (kept, inside) := Split(c, m.remaining);
      (m.before + kept, m.inside + inside)
  }

  function SplitFrom(c: Channel, open: bool, t: string): (string, string)
    requires c.start != ""
  {
    if open then
      var (first, remaining) := ConsumeInside(c, t);
      var (kept, inside) := Split(c, remaining);
      (kept, first + inside)
    else Split(c, t)
  }

  /** One channel's turn: the text is rewritten only if some content was found. */
  function ExtractOne(c: Channel, open: Option<string>, x: Extraction): Extraction
    requires c.start != ""
  {
    var (kept, inside) := SplitFrom(c, open == Some(c.name), x.content);
    if inside == "" then x
    else Extraction(kept, x.fields[c.name := (if c.name in x.fields then x.fields[c.name] else "") + inside])
  }

  function ExtractAll(channels: seq<Channel>, open: Option<string>, x: Extraction): Extraction
    requires Startable(channels)
  {
    if channels == [] then x
    else
      var n := |channels| - 1;
      ExtractOne(channels[n], open, ExtractAll(channels[..n], open, x))
  }

  /** The regex loop for one channel. */
  method SplitContent(c: Channel, open: bool, content: string) returns (newContent: string, channelContent: string)
    requires c.start != ""
    ensures (newContent, channelContent) == SplitFrom(c, open, content)
  {
    newContent, channelContent := "", "";
    var remaining := content;
    if open {
      var (first, rest) := ConsumeInside(c, remaining);
      channelContent, remaining := first, rest;
    }
    ghost var (kept, inside) := SplitFrom(c, open, content);
    assert "" + kept == kept && "" + inside == inside;
    while true
      invariant newContent + Split(c, remaining).0 == kept
      invariant channelContent + Split(c, remaining).1 == inside
      decreases |remaining|
    {
      var m := Consume(c, remaining);
      if m.None? {
        break;
      }
      ghost var (k, s) := Split(c, m.value.remaining);
      Assoc(newContent, m.value.before, k);
      Assoc(channelContent, m.value.inside, s);
      newContent := newContent + m.value.before;
      channelContent := channelContent + m.value.inside;
      remaining := m.value.remaining;
    }
    newContent := newContent + remaining;
    assert channelContent + "" == channelContent;
  }

  method ExtractChannelContent(channels: seq<Channel>, texts: seq<string>, open: Option<string>)
    returns (r: Result<map<string, string>, string>, newTexts: seq<string>)
    requires Startable(channels)
    ensures |texts| == 0 ==> r == Ok(map[]) && newTexts == texts
    ensures |texts| > 1 ==> r.Err? && newTexts == texts
    ensures |texts| == 1 ==>
              var x := ExtractAll(channels, open, Extraction(texts[0], map[]));
              r == Ok(x.fields) && newTexts == [x.content]
  {
    if |texts| == 0 {
      return Ok(map[]), texts;
    }
    if |texts| > 1 {
      return Err("When extracting channel text, responses must not have more than one text element."), texts;
    }
    var content, fields := texts[0], map[];
    for i := 0 to |channels|
      invariant Extraction(content, fields) == ExtractAll(channels[..i], open, Extraction(texts[0], map[]))
    {
      var c := channels[i];
      assert channels[..i + 1][..i] == channels[..i];
      var newContent, channelContent := SplitContent(c, open == Some(c.name), content);
      if channelContent != "" {
        content := newContent;
        fields := fields[c.name := (if c.name in fields then fields[c.name] else "") + channelContent];
      }
    }
    assert channels[..|channels|] == channels;
    return Ok(fields), [content];
  }

  // ---- the channel a prompt leaves open ------------------------------------------------

  /** The last start of `c` when no end of `c` comes at or after it. */
  function OpenAt(text: string, c: Channel): Option<nat> {
    if c.start == "" then None
    else
      match RFind(text, c.start)
      case None => None
      case Some(s) =>
        var e := if c.end == "" then None else RFind(text, c.end);
        if e.None? || s > e.value then Some(s) else None
  }

  /** `rightmost` is the channel of `channels` that opened last and is still open, the first
      listed on a tie. */
  ghost predicate IsRightmostOpen(text: string, channels: seq<Channel>, rightmost: nat) {
    && rightmost < |channels|
    && OpenAt(text, channels[rightmost]).Some?
    && forall j | 0 <= j < |channels| && OpenAt(text, channels[j]).Some? ::
         var here, best := OpenAt(text, channels[j]).value, OpenAt(text, channels[rightmost]).value;
         here < best || (here == best && rightmost <= j)
  }

  method GetOpenChannelName(text: string, channels: seq<Channel>) returns (name: Option<string>)
    ensures name.None? <==> forall j | 0 <= j < |channels| :: OpenAt(text, channels[j]).None?
    ensures name.Some? ==> exists i: nat :: IsRightmostOpen(text, channels, i) && channels[i].name == name.value
  {
    name := None;
    var maxStart: Option<nat> := None;
    ghost var at: nat := 0;
    for i := 0 to |channels|
      invariant name.None? <==> maxStart.None?
      invariant name.None? <==> forall j | 0 <= j < i :: OpenAt(text, channels[j]).None?
      invariant name.Some? ==> IsRightmostOpen(text, channels[..i], at) && channels[at].name == name.value
      invariant name.Some? ==> OpenAt(text, channels[at]) == maxStart
    {
      var c := channels[i];
      assert channels[..i + 1] == channels[..i] + [c];
      if c.start == "" {
        continue;
      }
      var lastStart := RFind(text, c.start);
      if lastStart.None? {
        continue;
      }
      var lastEnd := if c.end == "" then None else RFind(text, c.end);
      if lastEnd.None? || lastStart.value > lastEnd.value {
        if maxStart.None? || lastStart.value > maxStart.value {
          maxStart := lastStart;
          name := Some(c.name);
          at := i;
        }
      }
    }
    assert channels[..|channels|] == channels;
  }
}
