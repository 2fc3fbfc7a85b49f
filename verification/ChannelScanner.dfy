/** What the streaming response parser does to a text, as functions of the text.

    `Run` is the scanner on the part of the response not yet consumed: it delivers what it
    can, and keeps back what might still become a delimiter.  `Parse` is the parser that
    sees the whole response at once and keeps nothing back. */
module ChannelScanner {
  import opened Strings

  /** A channel; the tool-call code fence is the channel with the empty name. */
  datatype Channel = Channel(name: string, start: string, end: string)

  /** One piece of the delivered stream: a character under a label ("" is ordinary text), a
      complete fence block, or a delimiter passed over. */
  datatype Item =
    | Out(to: string, ch: char)
    | Block(text: string)
    | Opened(name: string, start: string)
    | Closed(name: string, end: string)

  /** Where the scanner stands.  `skip` is how much of the unconsumed text belongs to the
      start delimiter of a fence that is being buffered. */
  datatype Mode = Outside | Inside(name: string, end: string, skip: nat)

  datatype Outcome = Outcome(trace: seq<Item>, mode: Mode, rest: string)

  datatype Hit = Hit(pos: nat, index: nat)

  /** Only a buffered fence still has its start delimiter ahead of the search. */
  predicate ModeOk(mode: Mode) {
    mode.Inside? && mode.name != "" ==> mode.skip == 0
  }

  predicate Startable(chs: seq<Channel>) {
    forall i :: 0 <= i < |chs| ==> chs[i].start != ""
  }

  function Chars(to: string, s: string): (r: seq<Item>)
    ensures |r| == |s|
  {
    seq(|s|, i requires 0 <= i < |s| => Out(to, s[i]))
  }

  function Prepend(t: seq<Item>, o: Outcome): Outcome {
    o.(trace := t + o.trace)
  }

  /** `FindNextChannelStart`: the earliest start delimiter, the first listed channel on a tie. */
  function NextStart(chs: seq<Channel>, t: string, from: nat): (r: Option<Hit>)
    ensures r.Some? ==> r.value.index < |chs| && from <= r.value.pos
  {
    if chs == [] then None
    else
      var n := |chs| - 1;
      var best := NextStart(chs[..n], t, from);
      var here := Find(t, chs[n].start, from);
      if here.Some? && (best.None? || here.value < best.value.pos) then Some(Hit(here.value, n)) else best
  }

  /** `FindMaxOverlap`: the longest end of `t` that begins some start delimiter. */
  function MaxOverlap(chs: seq<Channel>, t: string): (r: nat)
    ensures r <= |t|
    ensures forall i, n: nat :: 0 <= i < |chs| && r < n ==> !IsOverlap(t, chs[i].start, n)
    ensures r == 0 || exists i :: 0 <= i < |chs| && IsOverlap(t, chs[i].start, r)
  {
    if chs == [] then 0
    else
      var n := |chs| - 1;
      var best := MaxOverlap(chs[..n], t);
      var here := Overlap(t, chs[n].start);
      assert forall i :: 0 <= i < n ==> chs[i] == chs[..n][i];
      if here > best then here else best
  }

  /** One turn of the `while` loop: it breaks, or goes on outside every channel. */
  datatype Turn = Break(last: Outcome) | Next(trace: seq<Item>, rest: string)

  function After(head: seq<Item>, turn: Turn): Turn {
    match turn
    case Break(o) => Break(Outcome(head + o.trace, o.mode, o.rest))
    case Next(trace, rest) => Next(head + trace, rest)
  }

  function TurnInside(name: string, end: string, skip: nat, rem: string): (r: Turn)
    ensures r.Next? ==> |r.rest| <= |rem| - skip
  {
    match Find(rem, end, skip)
    case Some(e) =>
      Next((if name != "" then Chars(name, rem[..e]) else Blocks(rem[..e + |end|])) + [Closed(name, end)],
           rem[e + |end|..])
    case None =>
      if name != "" then
        var safe := |rem| - Overlap(rem, end);
        Break(Outcome(Chars(name, rem[..safe]), Inside(name, end, skip), rem[safe..]))
      else
        Break(Outcome([], Inside(name, end, skip), rem))
  }

  /** Past the start delimiter of a custom channel; a fence is kept from its delimiter on. */
  function TurnAtStart(c: Channel, rem: string): (r: Turn)
    requires |c.start| <= |rem|
    ensures r.Next? ==> |r.rest| <= |rem| - |c.start|
  {
    if c.name != "" then TurnInside(c.name, c.end, 0, rem[|c.start|..])
    else TurnInside("", c.end, |c.start|, rem)
  }

  function TurnOutside(chs: seq<Channel>, rem: string): (r: Turn)
    requires Startable(chs)
    ensures r.Next? ==> |r.rest| < |rem|
  {
    match NextStart(chs, rem, 0)
    case None =>
      var safe := |rem| - MaxOverlap(chs, rem);
      Break(Outcome(Chars("", rem[..safe]), Outside, rem[safe..]))
    case Some(hit) =>
      NextStartIsFirst(chs, rem, 0);
      var c := chs[hit.index];
      After(Chars("", rem[..hit.pos]) + [Opened(c.name, c.start)], TurnAtStart(c, rem[hit.pos..]))
  }

  function TurnIn(chs: seq<Channel>, mode: Mode, rem: string): (r: Turn)
    requires Startable(chs)
    ensures r.Next? ==> |r.rest| < |rem| || (mode.Inside? && |r.rest| <= |rem|)
  {
    if mode.Inside? then TurnInside(mode.name, mode.end, mode.skip, rem) else TurnOutside(chs, rem)
  }

  /** The `while` loop over what is left of the accumulated text. */
  function Run(chs: seq<Channel>, mode: Mode, rem: string): Outcome
    requires Startable(chs)
    decreases |rem|, if mode.Inside? then 1 else 0
  {
    if rem == "" then Outcome([], mode, "")
    else match TurnIn(chs, mode, rem)
      case Break(last) => last
      case Next(trace, rest) => Prepend(trace, Run(chs, Outside, rest))
  }

  /** A fence block goes out whole (an empty text is never sent). */
  function Blocks(s: string): seq<Item> {
    if s == "" then [] else [Block(s)]
  }

  /** The end of the generation: what was kept back is sent as it stands. */
  function Flush(o: Outcome): seq<Item> {
    Chars(if o.mode.Inside? then o.mode.name else "", o.rest)
  }

  /** The response parsed at once, nothing kept back. */
  function Parse(chs: seq<Channel>, mode: Mode, t: string): seq<Item>
    requires Startable(chs)
    decreases |t|, if mode.Inside? then 4 else 1
  {
    if t == "" then []
    else match mode
      case Inside(name, end, skip) => ParseInside(chs, name, end, skip, t)
      case Outside =>
        match NextStart(chs, t, 0)
        case None => Chars("", t)
        case Some(hit) =>
          NextStartIsFirst(chs, t, 0);
          var c := chs[hit.index];
          (Chars("", t[..hit.pos]) + [Opened(c.name, c.start)]) + ParseAtStart(chs, c, t[hit.pos..])
  }

  function ParseAtStart(chs: seq<Channel>, c: Channel, t: string): seq<Item>
    requires Startable(chs) && |c.start| <= |t|
    decreases |t| - |c.start|, 3
  {
    if c.name != "" then ParseInside(chs, c.name, c.end, 0, t[|c.start|..])
    else ParseInside(chs, "", c.end, |c.start|, t)
  }

  function ParseInside(chs: seq<Channel>, name: string, end: string, skip: nat, t: string): seq<Item>
    requires Startable(chs)
    decreases |t| - skip, 2
  {
    match Find(t, end, skip)
    case None => Chars(name, t)
    case Some(e) =>
      ((if name != "" then Chars(name, t[..e]) else Blocks(t[..e + |end|])) + [Closed(name, end)])
      + Parse(chs, Outside, t[e + |end|..])
  }

  /** The mode a response starts in when the prompt left `open` open: inside the first channel
      of that name, if there is one. */
  function SeedMode(chs: seq<Channel>, open: Option<string>): (r: Mode)
    ensures ModeOk(r)
  {
    if open.None? || chs == [] then Outside
    else if chs[0].name == open.value then Inside(chs[0].name, chs[0].end, 0)
    else SeedMode(chs[1..], open)
  }

  /** The scanner fed one chunk after another. */
  function Feed(chs: seq<Channel>, o: Outcome, chunk: string): Outcome
    requires Startable(chs)
  {
    Prepend(o.trace, Run(chs, o.mode, o.rest + chunk))
  }

  function FeedAll(chs: seq<Channel>, mode: Mode, chunks: seq<string>): Outcome
    requires Startable(chs)
  {
    if chunks == [] then Outcome([], mode, "")
    else Feed(chs, FeedAll(chs, mode, chunks[..|chunks| - 1]), chunks[|chunks| - 1])
  }

  function Concat(chunks: seq<string>): string {
    if chunks == [] then "" else Concat(chunks[..|chunks| - 1]) + chunks[|chunks| - 1]
  }

  // ---- what `NextStart` means -----------------------------------------------------

  ghost predicate IsFirstStart(chs: seq<Channel>, t: string, from: nat, hit: Hit) {
    && hit.index < |chs| && from <= hit.pos
    && OccursAt(t, chs[hit.index].start, hit.pos)
    && (forall j, q :: 0 <= j < |chs| && from <= q < hit.pos ==> !OccursAt(t, chs[j].start, q))
    && (forall j :: 0 <= j < hit.index ==> !OccursAt(t, chs[j].start, hit.pos))
  }

  /** The hit returned is an occurrence, no start delimiter occurs earlier, and no channel
      listed before it occurs at the same place; without a hit nothing occurs at all. */
  lemma {:induction false} NextStartIsFirst(chs: seq<Channel>, t: string, from: nat)
    ensures match NextStart(chs, t, from)
            case Some(hit) => IsFirstStart(chs, t, from, hit)
            case None => forall j, q :: 0 <= j < |chs| && from <= q ==> !OccursAt(t, chs[j].start, q)
  {
    if chs != [] {
      var n := |chs| - 1;
      NextStartIsFirst(chs[..n], t, from);
      var best, here := NextStart(chs[..n], t, from), Find(t, chs[n].start, from);
      forall j | 0 <= j < |chs| ensures j < n ==> chs[j] == chs[..n][j] {}
    }
  }

  /** There is only one first start. */
  lemma FirstStartIsNext(chs: seq<Channel>, t: string, from: nat, hit: Hit)
    requires IsFirstStart(chs, t, from, hit)
    ensures NextStart(chs, t, from) == Some(hit)
  {
    NextStartIsFirst(chs, t, from);
    var r := NextStart(chs, t, from);
    assert r.Some?;
    assert !(r.value.pos < hit.pos) && !(hit.pos < r.value.pos);
    assert r.value.pos == hit.pos;
  }

  lemma NextStartOccurs(chs: seq<Channel>, t: string, from: nat)
    requires NextStart(chs, t, from).Some?
    ensures var hit := NextStart(chs, t, from).value;
            hit.pos <= |t| && chs[hit.index].start <= t[hit.pos..]
  {
    NextStartIsFirst(chs, t, from);
    var hit := NextStart(chs, t, from).value;
    var s := chs[hit.index].start;
    assert t[hit.pos..][..|s|] == t[hit.pos..hit.pos + |s|];
  }
}
