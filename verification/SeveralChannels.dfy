/** Several channels: the extraction takes them from the text one after the other, the streaming in
    the order of the text.  When the two agree, and that for some text they do not as soon as there
    are two channels. */
module SeveralChannels {
  import opened Strings
  import opened ChannelScanner
  import opened ChunkIndependence
  import opened DeliveredStream
  import opened DeliveredExactly
  import opened ChannelUtil
  import opened BatchAgreement

  /** What a response is made of: ordinary text, or the content of a channel, with its start unless the
      prompt left the channel open, and with its end if there is one. */
  datatype Piece = Plain(text: string) | Part(index: nat, begun: bool, text: string, ended: bool)

  predicate Named(chs: seq<Channel>) {
    && (forall i :: 0 <= i < |chs| ==> chs[i].name != "")
    && (forall i, j :: 0 <= i < j < |chs| ==> chs[i].name != chs[j].name)
  }

  /** The channel, if any, that the prompt left open. */
  predicate OpenOk(chs: seq<Channel>, open: Option<nat>) {
    open.Some? ==> open.value < |chs|
  }

  function StartMode(chs: seq<Channel>, open: Option<nat>): (r: Mode)
    requires OpenOk(chs, open)
    ensures ModeOk(r)
  {
    match open case None => Outside case Some(i) => Inside(chs[i].name, chs[i].end, 0)
  }

  function OpenName(chs: seq<Channel>, open: Option<nat>): Option<string>
    requires OpenOk(chs, open)
  {
    match open case None => None case Some(i) => Some(chs[i].name)
  }

  /** The pieces the parser finds. */
  function Pieces(chs: seq<Channel>, t: string): seq<Piece>
    requires Startable(chs)
    decreases |t|, 1
  {
    match NextStart(chs, t, 0)
    case None => [Plain(t)]
    case Some(hit) =>
      NextStartOccurs(chs, t, 0);
      [Plain(t[..hit.pos])] + PiecesInside(chs, hit.index, true, t[hit.pos..][|chs[hit.index].start|..])
  }

  function PiecesInside(chs: seq<Channel>, i: nat, begun: bool, u: string): seq<Piece>
    requires Startable(chs) && i < |chs|
    decreases |u|, 2
  {
    match Find(u, chs[i].end, 0)
    case None => [Part(i, begun, u, false)]
    case Some(e) => [Part(i, begun, u[..e], true)] + Pieces(chs, u[e + |chs[i].end|..])
  }

  function PiecesFrom(chs: seq<Channel>, open: Option<nat>, t: string): seq<Piece>
    requires Startable(chs) && OpenOk(chs, open)
  {
    match open case None => Pieces(chs, t) case Some(i) => PiecesInside(chs, i, false, t)
  }

  // ---- what is in the pieces -----------------------------------------------------------------

  predicate IndicesOk(chs: seq<Channel>, ps: seq<Piece>) {
    forall k :: 0 <= k < |ps| && ps[k].Part? ==> ps[k].index < |chs|
  }

  function Render(chs: seq<Channel>, p: Piece): string
    requires p.Part? ==> p.index < |chs|
  {
    match p
    case Plain(text) => text
    case Part(i, begun, text, ended) =>
      (if begun then chs[i].start else "") + (text + (if ended then chs[i].end else ""))
  }

  /** The text made of some pieces. */
  function TextOf(chs: seq<Channel>, ps: seq<Piece>): string
    requires IndicesOk(chs, ps)
  {
    if ps == [] then "" else Render(chs, ps[0]) + TextOf(chs, ps[1..])
  }

  function Contents(ps: seq<Piece>, i: nat): string {
    if ps == [] then ""
    else (if ps[0].Part? && ps[0].index == i then ps[0].text else "") + Contents(ps[1..], i)
  }

  function Plains(ps: seq<Piece>): string {
    if ps == [] then "" else (if ps[0].Plain? then ps[0].text else "") + Plains(ps[1..])
  }

  /** The characters under one label. */
  function Labelled(chs: seq<Channel>, ps: seq<Piece>, to: string): string
    requires IndicesOk(chs, ps)
  {
    if ps == [] then ""
    else
      var under := if ps[0].Part? then chs[ps[0].index].name else "";
      (if under == to then ps[0].text else "") + Labelled(chs, ps[1..], to)
  }

  lemma {:induction false} LabelledIs(chs: seq<Channel>, ps: seq<Piece>, i: nat)
    requires Named(chs) && IndicesOk(chs, ps) && i < |chs|
    ensures Labelled(chs, ps, "") == Plains(ps)
    ensures Labelled(chs, ps, chs[i].name) == Contents(ps, i)
  {
    if ps != [] { LabelledIs(chs, ps[1..], i); }
  }

  lemma {:induction false} PlainsAre(chs: seq<Channel>, ps: seq<Piece>)
    requires Named(chs) && IndicesOk(chs, ps)
    ensures Labelled(chs, ps, "") == Plains(ps)
  {
    if ps != [] { PlainsAre(chs, ps[1..]); }
  }

  /** A part ends with the first end in it, or runs on to the end of the text. */
  predicate CutOk(chs: seq<Channel>, p: Piece, last: bool) {
    p.Part? ==>
      && p.index < |chs|
      && (p.ended ==> Find(p.text + chs[p.index].end, chs[p.index].end, 0) == Some(|p.text|))
      && (!p.ended ==> last && Find(p.text, chs[p.index].end, 0).None?)
  }

  predicate WellCut(chs: seq<Channel>, ps: seq<Piece>) {
    forall k :: 0 <= k < |ps| ==> CutOk(chs, ps[k], k == |ps| - 1)
  }

  predicate AllBegun(ps: seq<Piece>) {
    forall k :: 0 <= k < |ps| && ps[k].Part? ==> ps[k].begun
  }

  predicate BegunOf(ps: seq<Piece>, i: nat) {
    forall p :: p in ps && p.Part? && p.index == i ==> p.begun
  }

  lemma {:induction false} FirstIn(u: string, pat: string)
    requires Find(u, pat, 0).Some?
    ensures var e := Find(u, pat, 0).value;
            e + |pat| <= |u| && Find(u[..e] + pat, pat, 0) == Some(e) && u == u[..e] + (pat + u[e + |pat|..])
  {
    FindFits(u, pat, 0);
    var e := Find(u, pat, 0).value;
    AroundHit(u, pat, e);
    var a := u[..e] + pat;
    assert OccursAt(a, pat, e) && u == a + u[e + |pat|..];
    forall i | 0 <= i < e ensures !OccursAt(a, pat, i) { OccursInPrefix(a, u[e + |pat|..], pat, i); }
    Assoc(u[..e], pat, u[e + |pat|..]);
  }

  lemma {:induction false} PiecesAre(chs: seq<Channel>, t: string)
    requires Startable(chs)
    ensures WellCut(chs, Pieces(chs, t)) && AllBegun(Pieces(chs, t)) && Pieces(chs, t) != []
    ensures TextOf(chs, Pieces(chs, t)) == t
    decreases |t|, 1
  {
    hide Find, NextStart;
    if NextStart(chs, t, 0).None? {
      assert [Plain(t)][1..] == [];
      assert t + "" == t;
    } else {
      NextStartOccurs(chs, t, 0);
      var hit := NextStart(chs, t, 0).value;
      var s := chs[hit.index].start;
      var u := t[hit.pos..][|s|..];
      InsideAre(chs, hit.index, true, u);
      assert t == t[..hit.pos] + t[hit.pos..] && t[hit.pos..] == s + u;
      Cons(chs, Plain(t[..hit.pos]), PiecesInside(chs, hit.index, true, u));
    }
  }

  lemma {:induction false} InsideAre(chs: seq<Channel>, i: nat, begun: bool, u: string)
    requires Startable(chs) && i < |chs|
    ensures var ps := PiecesInside(chs, i, begun, u);
            && WellCut(chs, ps) && ps != [] && ps[0].Part? && ps[0].index == i && ps[0].begun == begun
                && AllBegun(ps[1..])
            && TextOf(chs, ps) == (if begun then chs[i].start else "") + u
    decreases |u|, 2
  {
    hide Find;
    var end := chs[i].end;
    if Find(u, end, 0).None? {
      assert [Part(i, begun, u, false)][1..] == [];
      assert u + "" == u;
      Cons(chs, Part(i, begun, u, false), []);
    } else {
      FirstIn(u, end);
      var e := Find(u, end, 0).value;
      var rest := u[e + |end|..];
      PiecesAre(chs, rest);
      var p := Part(i, begun, u[..e], true);
      Cons(chs, p, Pieces(chs, rest));
      Assoc(u[..e], end, rest);
      Assoc(if begun then chs[i].start else "", u[..e] + end, rest);
    }
  }

  lemma {:induction false} Cons(chs: seq<Channel>, p: Piece, ps: seq<Piece>)
    requires IndicesOk(chs, ps) && (p.Part? ==> p.index < |chs|)
    ensures IndicesOk(chs, [p] + ps) && TextOf(chs, [p] + ps) == Render(chs, p) + TextOf(chs, ps)
    ensures ([p] + ps)[1..] == ps && ([p] + ps)[0] == p
    ensures forall to :: Labelled(chs, [p] + ps, to) ==
              (if (if p.Part? then chs[p.index].name else "") == to then p.text else "") + Labelled(chs, ps, to)
    ensures WellCut(chs, ps) && CutOk(chs, p, ps == []) ==> WellCut(chs, [p] + ps)
    ensures AllBegun(ps) && (p.Part? ==> p.begun) ==> AllBegun([p] + ps)
  {
    hide CutOk;
    assert ([p] + ps)[1..] == ps;
    assert forall k :: 0 < k < |[p] + ps| ==> ([p] + ps)[k] == ps[k - 1];
  }

  // ---- the streaming shows the pieces -----------------------------------------------------------

  /** Label by label, the parse of a text is its pieces. */
  lemma {:induction false} ParseIsPieces(chs: seq<Channel>, t: string, to: string)
    requires Startable(chs) && Named(chs)
    ensures IndicesOk(chs, Pieces(chs, t))
    ensures TextTo(to, Parse(chs, Outside, t)) == Labelled(chs, Pieces(chs, t), to)
    decreases |t|, 1
  {
    hide TextTo, NextStart, ParseInside, Labelled;
    if NextStart(chs, t, 0).None? {
      TextToChars(to, "", t);
      NoStartHere(chs, t);
      Cons(chs, Plain(t), []);
      NothingLabelled(chs, to);
      assert [Plain(t)] + [] == [Plain(t)];
    } else {
      NextStartOccurs(chs, t, 0);
      var hit := NextStart(chs, t, 0).value;
      var c := chs[hit.index];
      var u := t[hit.pos..][|c.start|..];
      InsideIsPieces(chs, hit.index, true, u, to);
      StartedParse(chs, t, hit);
      ForgetStart(to, c, t[..hit.pos], ParseInside(chs, c.name, c.end, 0, u));
      Cons(chs, Plain(t[..hit.pos]), PiecesInside(chs, hit.index, true, u));
    }
  }

  lemma {:induction false} NothingLabelled(chs: seq<Channel>, to: string)
    ensures Labelled(chs, [], to) == ""
  {
  }

  lemma {:induction false} StartedParse(chs: seq<Channel>, t: string, hit: Hit)
    requires Startable(chs) && NextStart(chs, t, 0) == Some(hit) && chs[hit.index].name != ""
    requires hit.pos <= |t| && |chs[hit.index].start| <= |t| - hit.pos
    ensures var c := chs[hit.index];
            Parse(chs, Outside, t) == (Chars("", t[..hit.pos]) + [Opened(c.name, c.start)])
                                      + ParseInside(chs, c.name, c.end, 0, t[hit.pos..][|c.start|..])
  {
    hide NextStart, ParseInside, Chars;
    assert t != "";
  }

  lemma {:induction false} InsideIsPieces(chs: seq<Channel>, i: nat, begun: bool, u: string, to: string)
    requires Startable(chs) && Named(chs) && i < |chs|
    ensures IndicesOk(chs, PiecesInside(chs, i, begun, u))
    ensures TextTo(to, ParseInside(chs, chs[i].name, chs[i].end, 0, u)) ==
            Labelled(chs, PiecesInside(chs, i, begun, u), to)
    decreases |u|, 2
  {
    hide TextTo, Parse, ParseInside, Labelled, Find, Pieces;
    var c := chs[i];
    if Find(u, c.end, 0).None? {
      TextToChars(to, c.name, u);
      UnclosedParse(chs, c, u);
      NothingLabelled(chs, to);
      Cons(chs, Part(i, begun, u, false), []);
      assert [Part(i, begun, u, false)] + [] == [Part(i, begun, u, false)];
    } else {
      FindFits(u, c.end, 0);
      var e := Find(u, c.end, 0).value;
      var rest := u[e + |c.end|..];
      ParseIsPieces(chs, rest, to);
      ClosedParse(chs, c, u);
      ForgetEnd(to, c, u[..e], Parse(chs, Outside, rest));
      Cons(chs, Part(i, begun, u[..e], true), Pieces(chs, rest));
    }
  }

  lemma {:induction false} UnclosedParse(chs: seq<Channel>, c: Channel, u: string)
    requires Startable(chs) && Find(u, c.end, 0).None?
    ensures ParseInside(chs, c.name, c.end, 0, u) == Chars(c.name, u)
  {
    hide Find;
  }

  lemma {:induction false} ClosedParse(chs: seq<Channel>, c: Channel, u: string)
    requires Startable(chs) && c.name != "" && Find(u, c.end, 0).Some?
    ensures var e := Find(u, c.end, 0).value;
            && e + |c.end| <= |u|
            && ParseInside(chs, c.name, c.end, 0, u) ==
               (Chars(c.name, u[..e]) + [Closed(c.name, c.end)]) + Parse(chs, Outside, u[e + |c.end|..])
  {
    hide Find, Parse;
    FindFits(u, c.end, 0);
  }

  lemma {:induction false} StreamIsPieces(chs: seq<Channel>, open: Option<nat>, t: string, to: string)
    requires Startable(chs) && Named(chs) && OpenOk(chs, open)
    ensures IndicesOk(chs, PiecesFrom(chs, open, t))
    ensures TextTo(to, Parse(chs, StartMode(chs, open), t)) == Labelled(chs, PiecesFrom(chs, open, t), to)
  {
    hide TextTo, Parse, ParseInside, Labelled, Pieces, PiecesInside;
    if open.Some? {
      var c := chs[open.value];
      InsideIsPieces(chs, open.value, false, t, to);
      WholeParse(chs, c, t, to);
    } else {
      ParseIsPieces(chs, t, to);
    }
  }

  lemma {:induction false} WholeParse(chs: seq<Channel>, c: Channel, t: string, to: string)
    requires Startable(chs) && c.name != ""
    ensures TextTo(to, Parse(chs, Inside(c.name, c.end, 0), t)) == TextTo(to, ParseInside(chs, c.name, c.end, 0, t))
  {
    if t == "" {
      if c.end == "" {
        assert Find("", "", 0) == Some(0);
        assert ParseInside(chs, c.name, c.end, 0, t) == [Closed(c.name, c.end)];
      } else {
        assert ParseInside(chs, c.name, c.end, 0, t) == Chars(c.name, "") == [];
      }
    }
  }

  /** Delimiters that are not shown carry no text. */
  lemma {:induction false} TextToVisible(to: string, trace: seq<Item>)
    ensures TextTo(to, Visible(trace)) == TextTo(to, trace)
  {
    if trace != [] {
      TextToVisible(to, trace[1..]);
      var head := if trace[0].Opened? || trace[0].Closed? then [] else [trace[0]];
      TextToJoin(to, head, Visible(trace[1..]));
    }
  }

  // ---- the extraction takes the same ones, channel by channel ----------------------------------------

  /** The pieces without the parts of channel `i`. */
  function Without(ps: seq<Piece>, i: nat): seq<Piece> {
    if ps == [] then []
    else (if ps[0].Part? && ps[0].index == i then [] else [ps[0]]) + Without(ps[1..], i)
  }

  /** What is left when the first `n` channels have been taken; one without content stays where it is. */
  function LeftAt(ps: seq<Piece>, n: nat): seq<Piece> {
    if n == 0 then ps
    else if Contents(ps, n - 1) == "" then LeftAt(ps, n - 1)
    else Without(LeftAt(ps, n - 1), n - 1)
  }

  /** The start of channel `i` is found just where its parts begin: it does not occur in what stands
      between them (`before` is what precedes `ps`), nor any earlier with the next part's start after it. */
  predicate Alone(chs: seq<Channel>, i: nat, before: string, ps: seq<Piece>)
    requires i < |chs| && IndicesOk(chs, ps)
    decreases |ps|
  {
    if ps == [] then Find(before, chs[i].start, 0).None?
    else if ps[0].Part? && ps[0].index == i then
      && (ps[0].begun ==> Find(before + chs[i].start, chs[i].start, 0) == Some(|before|))
      && Alone(chs, i, "", ps[1..])
    else Alone(chs, i, before + Render(chs, ps[0]), ps[1..])
  }

  /** No channel's start is hidden in the contents of a channel taken later, or made by taking out those before. */
  predicate Untangled(chs: seq<Channel>, ps: seq<Piece>)
    requires IndicesOk(chs, ps)
  {
    forall i :: 0 <= i < |chs| ==> IndicesOk(chs, LeftAt(ps, i)) && Alone(chs, i, "", LeftAt(ps, i))
  }

  lemma {:induction false} WithoutKeeps(chs: seq<Channel>, ps: seq<Piece>, i: nat)
    requires WellCut(chs, ps)
    ensures WellCut(chs, Without(ps, i)) && |Without(ps, i)| <= |ps|
  {
    hide WellCut;
    if ps != [] {
      var p, rest := ps[0], ps[1..];
      TailCut(chs, ps);
      WithoutKeeps(chs, rest, i);
      var r := Without(rest, i);
      if p.Part? && p.index == i { assert [] + r == r; } else { ConsCut(chs, p, r); }
    }
  }

  lemma {:induction false} TailCut(chs: seq<Channel>, ps: seq<Piece>)
    requires ps != [] && WellCut(chs, ps)
    ensures WellCut(chs, ps[1..]) && CutOk(chs, ps[0], |ps| == 1)
  {
    var rest := ps[1..];
    assert forall k :: 0 <= k < |rest| ==> rest[k] == ps[k + 1];
  }

  lemma {:induction false} ConsCut(chs: seq<Channel>, p: Piece, ps: seq<Piece>)
    requires WellCut(chs, ps) && CutOk(chs, p, ps == [])
    ensures WellCut(chs, [p] + ps)
  {
    assert forall k :: 0 < k < |[p] + ps| ==> ([p] + ps)[k] == ps[k - 1];
  }

  lemma {:induction false} WithoutParts(ps: seq<Piece>, i: nat)
    ensures forall p :: p in Without(ps, i) <==> p in ps && !(p.Part? && p.index == i)
    ensures Plains(Without(ps, i)) == Plains(ps)
  {
    if ps != [] {
      WithoutParts(ps[1..], i);
      var rest := Without(ps[1..], i);
      assert ps == [ps[0]] + ps[1..];
      if ps[0].Part? && ps[0].index == i { assert [] + rest == rest; } else { assert ([ps[0]] + rest)[1..] == rest; }
      assert "" + Plains(rest) == Plains(rest);
    }
  }

  lemma {:induction false} WithoutContents(ps: seq<Piece>, i: nat, j: nat)
    requires i != j
    ensures Contents(Without(ps, i), j) == Contents(ps, j)
  {
    if ps != [] {
      WithoutContents(ps[1..], i, j);
      var rest := Without(ps[1..], i);
      if ps[0].Part? && ps[0].index == i { assert [] + rest == rest; } else { assert ([ps[0]] + rest)[1..] == rest; }
      assert "" + Contents(rest, j) == Contents(rest, j);
    }
  }

  /** Taking channel `i` from the text of such pieces gives its contents and the text of the others. */
  lemma {:induction false} SplitAlone(chs: seq<Channel>, i: nat, before: string, ps: seq<Piece>)
    requires Startable(chs) && i < |chs| && WellCut(chs, ps) && BegunOf(ps, i) && Alone(chs, i, before, ps)
    ensures WellCut(chs, Without(ps, i))
    ensures Split(chs[i], before + TextOf(chs, ps)) == (before + TextOf(chs, Without(ps, i)), Contents(ps, i))
    decreases |ps|
  {
    hide Find, Split, Render, Contents, Without, TextOf;
    WithoutKeeps(chs, ps, i);
    if ps == [] {
      assert before + "" == before;
      NoPieces(chs, i);
      NoSplit(chs[i], before);
    } else {
      var p, rest := ps[0], ps[1..];
      TailOk(chs, i, ps);
      WithoutKeeps(chs, rest, i);
      if p.Part? && p.index == i {
        SplitAlone(chs, i, "", rest);
        PartFirst(chs, i, before, ps);
      } else {
        SplitAlone(chs, i, before + Render(chs, p), rest);
        OtherFirst(chs, i, before, ps);
      }
    }
  }

  lemma {:induction false} NoPieces(chs: seq<Channel>, i: nat)
    ensures TextOf(chs, []) == "" && Without([], i) == [] && Contents([], i) == ""
  {
  }

  lemma {:induction false} TailOk(chs: seq<Channel>, i: nat, ps: seq<Piece>)
    requires ps != [] && WellCut(chs, ps) && BegunOf(ps, i)
    ensures WellCut(chs, ps[1..]) && BegunOf(ps[1..], i)
    ensures ps[0].Part? && !ps[0].ended ==> ps[1..] == []
  {
    hide Find;
    var rest := ps[1..];
    assert forall k :: 0 <= k < |rest| ==> rest[k] == ps[k + 1];
  }

  lemma {:induction false} CutIndices(chs: seq<Channel>, ps: seq<Piece>)
    requires WellCut(chs, ps)
    ensures IndicesOk(chs, ps)
  {
  }

  lemma {:induction false} FirstPart(chs: seq<Channel>, ps: seq<Piece>)
    requires WellCut(chs, ps) && ps != [] && ps[0].Part?
    ensures var p := ps[0];
            && p.index < |chs|
            && (p.ended ==> Find(p.text + chs[p.index].end, chs[p.index].end, 0) == Some(|p.text|))
            && (!p.ended ==> |ps| == 1 && Find(p.text, chs[p.index].end, 0).None?)
  {
    hide Find;
  }

  lemma {:induction false} PartFirst(chs: seq<Channel>, i: nat, before: string, ps: seq<Piece>)
    requires Startable(chs) && i < |chs| && ps != [] && WellCut(chs, ps) && WellCut(chs, ps[1..]) && BegunOf(ps, i)
    requires ps[0].Part? && ps[0].index == i && (!ps[0].ended ==> ps[1..] == [])
    requires Find(before + chs[i].start, chs[i].start, 0) == Some(|before|)
    requires WellCut(chs, Without(ps[1..], i)) && WellCut(chs, Without(ps, i))
    requires Split(chs[i], "" + TextOf(chs, ps[1..])) == ("" + TextOf(chs, Without(ps[1..], i)), Contents(ps[1..], i))
    ensures Split(chs[i], before + TextOf(chs, ps)) == (before + TextOf(chs, Without(ps, i)), Contents(ps, i))
  {
    hide Find, Split, WellCut, TextOf, Without, Contents, Render;
    var c, p, rest := chs[i], ps[0], ps[1..];
    FirstPart(chs, ps);
    CutIndices(chs, ps);
    CutIndices(chs, rest);
    CutIndices(chs, Without(rest, i));
    PartTaken(ps, i);
    PartText(chs, ps);
    assert p.begun by { assert p in ps; }
    assert "" + TextOf(chs, rest) == TextOf(chs, rest);
    assert "" + TextOf(chs, Without(rest, i)) == TextOf(chs, Without(rest, i));
    PartSplits(c, before, p.text, p.ended, TextOf(chs, rest)) by {
      if !p.ended { NoPieces(chs, i); }
    }
  }

  lemma {:induction false} PartTaken(ps: seq<Piece>, i: nat)
    requires ps != [] && ps[0].Part? && ps[0].index == i
    ensures Without(ps, i) == Without(ps[1..], i) && Contents(ps, i) == ps[0].text + Contents(ps[1..], i)
  {
    assert [] + Without(ps[1..], i) == Without(ps[1..], i);
  }

  lemma {:induction false} PartText(chs: seq<Channel>, ps: seq<Piece>)
    requires IndicesOk(chs, ps) && ps != [] && IndicesOk(chs, ps[1..]) && ps[0].Part? && ps[0].begun
    ensures var p, c := ps[0], chs[ps[0].index];
            TextOf(chs, ps) == c.start + ((p.text + (if p.ended then c.end else "")) + TextOf(chs, ps[1..]))
  {
    var p, c := ps[0], chs[ps[0].index];
    Assoc(c.start, p.text + (if p.ended then c.end else ""), TextOf(chs, ps[1..]));
  }

  lemma {:induction false} OtherFirst(chs: seq<Channel>, i: nat, before: string, ps: seq<Piece>)
    requires Startable(chs) && i < |chs| && ps != [] && WellCut(chs, ps) && WellCut(chs, ps[1..])
    requires !(ps[0].Part? && ps[0].index == i)
    requires WellCut(chs, Without(ps[1..], i)) && WellCut(chs, Without(ps, i))
    requires Split(chs[i], (before + Render(chs, ps[0])) + TextOf(chs, ps[1..])) ==
             ((before + Render(chs, ps[0])) + TextOf(chs, Without(ps[1..], i)), Contents(ps[1..], i))
    ensures Split(chs[i], before + TextOf(chs, ps)) == (before + TextOf(chs, Without(ps, i)), Contents(ps, i))
  {
    hide Find, Split, Render;
    var p, rest := ps[0], ps[1..];
    Assoc(before, Render(chs, p), TextOf(chs, rest));
    Assoc(before, Render(chs, p), TextOf(chs, Without(rest, i)));
    Cons(chs, p, Without(rest, i));
    assert Without(ps, i) == [p] + Without(rest, i) && "" + Contents(rest, i) == Contents(rest, i);
  }

  lemma {:induction false} NoSplit(c: Channel, t: string)
    requires c.start != "" && Find(t, c.start, 0).None?
    ensures Split(c, t) == (t, "")
  {
  }

  lemma {:induction false} PartSplits(c: Channel, before: string, text: string, ended: bool, rest: string)
    requires c.start != "" && Find(before + c.start, c.start, 0) == Some(|before|)
    requires if ended then Find(text + c.end, c.end, 0) == Some(|text|) else Find(text, c.end, 0).None? && rest == ""
    ensures Split(c, before + (c.start + ((text + (if ended then c.end else "")) + rest))) ==
            (before + Split(c, rest).0, text + Split(c, rest).1)
  {
    hide Find;
    var u := (text + (if ended then c.end else "")) + rest;
    var t := before + (c.start + u);
    Assoc(before, c.start, u);
    FindExtends(before + c.start, u, c.start, 0);
    assert t[..|before|] == before && t[|before| + |c.start|..] == u;
    InsideOf(c, text, ended, rest);
    OneSplit(c, t);
  }

  lemma {:induction false} InsideOf(c: Channel, text: string, ended: bool, rest: string)
    requires if ended then Find(text + c.end, c.end, 0) == Some(|text|) else Find(text, c.end, 0).None? && rest == ""
    ensures ConsumeInside(c, (text + (if ended then c.end else "")) + rest) == (text, rest)
  {
    hide Find;
    var u := (text + (if ended then c.end else "")) + rest;
    if ended {
      FindExtends(text + c.end, rest, c.end, 0);
      assert u[..|text|] == text && u[|text| + |c.end|..] == rest;
    } else {
      assert u == text;
    }
  }

  lemma {:induction false} OneSplit(c: Channel, t: string)
    requires c.start != "" && Consume(c, t).Some?
    ensures var m := Consume(c, t).value;
            Split(c, t) == (m.before + Split(c, m.remaining).0, m.inside + Split(c, m.remaining).1)
  {
  }

  /** Of channel `i`, only the first of all pieces is without its start, if the prompt left it open. */
  predicate StartsOk(open: Option<nat>, i: nat, ps: seq<Piece>) {
    if open == Some(i) then ps != [] && ps[0].Part? && ps[0].index == i && !ps[0].begun && BegunOf(ps[1..], i)
    else BegunOf(ps, i)
  }

  lemma {:induction false} StartsWithout(chs: seq<Channel>, open: Option<nat>, i: nat, ps: seq<Piece>, j: nat)
    requires WellCut(chs, ps) && StartsOk(open, i, ps) && i != j
    ensures StartsOk(open, i, Without(ps, j))
  {
    WithoutParts(ps, j);
    if open == Some(i) {
      WithoutParts(ps[1..], j);
      assert Without(ps, j) == [ps[0]] + Without(ps[1..], j);
      assert Without(ps, j)[1..] == Without(ps[1..], j);
    }
  }

  /** One channel's turn. */
  lemma {:induction false} StageIs(chs: seq<Channel>, open: Option<nat>, i: nat, ps: seq<Piece>)
    requires Startable(chs) && i < |chs| && WellCut(chs, ps) && StartsOk(open, i, ps) && Alone(chs, i, "", ps)
    ensures WellCut(chs, Without(ps, i))
    ensures SplitFrom(chs[i], open == Some(i), TextOf(chs, ps)) == (TextOf(chs, Without(ps, i)), Contents(ps, i))
  {
    hide Find, Split, Alone, ConsumeInside;
    WithoutKeeps(chs, ps, i);
    if open == Some(i) {
      var p, rest := ps[0], ps[1..];
      assert forall k :: 0 <= k < |rest| ==> rest[k] == ps[k + 1];
      AloneAfterOpen(chs, i, ps);
      WithoutKeeps(chs, rest, i);
      SplitAlone(chs, i, "", rest);
      assert "" + TextOf(chs, rest) == TextOf(chs, rest);
      assert "" + TextOf(chs, Without(rest, i)) == TextOf(chs, Without(rest, i));
      assert p.ended || rest == [];
      InsideOf(chs[i], p.text, p.ended, TextOf(chs, rest));
      assert [] + Without(rest, i) == Without(rest, i);
      assert "" + (p.text + (if p.ended then chs[i].end else "")) == p.text + (if p.ended then chs[i].end else "");
    } else {
      SplitAlone(chs, i, "", ps);
      assert "" + TextOf(chs, ps) == TextOf(chs, ps) && "" + TextOf(chs, Without(ps, i)) == TextOf(chs, Without(ps, i));
    }
  }

  lemma {:induction false} AloneAfterOpen(chs: seq<Channel>, i: nat, ps: seq<Piece>)
    requires i < |chs| && IndicesOk(chs, ps) && Alone(chs, i, "", ps)
    requires ps != [] && ps[0].Part? && ps[0].index == i && !ps[0].begun
    ensures IndicesOk(chs, ps[1..]) && Alone(chs, i, "", ps[1..])
  {
  }

  /** What the first `n` channels have been found to contain. */
  function Fields(chs: seq<Channel>, ps: seq<Piece>, n: nat): map<string, string>
    requires n <= |chs|
  {
    if n == 0 then map[]
    else if Contents(ps, n - 1) == "" then Fields(chs, ps, n - 1)
    else Fields(chs, ps, n - 1)[chs[n - 1].name := Contents(ps, n - 1)]
  }

  lemma {:induction false} FieldsAre(chs: seq<Channel>, ps: seq<Piece>, n: nat)
    requires Named(chs) && n <= |chs|
    ensures forall i :: 0 <= i < |chs| ==> (chs[i].name in Fields(chs, ps, n) <==> i < n && Contents(ps, i) != "")
    ensures forall i :: 0 <= i < n && Contents(ps, i) != "" ==> Fields(chs, ps, n)[chs[i].name] == Contents(ps, i)
    ensures forall name :: name in Fields(chs, ps, n) ==> exists i :: 0 <= i < n && chs[i].name == name
  {
    hide Contents;
    if n > 0 { FieldsAre(chs, ps, n - 1); }
  }

  lemma {:induction false} LeftAre(chs: seq<Channel>, open: Option<nat>, ps: seq<Piece>, n: nat)
    requires WellCut(chs, ps) && forall i :: 0 <= i < |chs| ==> StartsOk(open, i, ps)
    requires n <= |chs|
    ensures WellCut(chs, LeftAt(ps, n))
    ensures forall i :: n <= i < |chs| ==>
              StartsOk(open, i, LeftAt(ps, n)) && Contents(LeftAt(ps, n), i) == Contents(ps, i)
    ensures Plains(LeftAt(ps, n)) == Plains(ps)
    ensures forall p :: p in LeftAt(ps, n) <==> p in ps && !(p.Part? && p.index < n && Contents(ps, p.index) != "")
  {
    hide WellCut, StartsOk, Without, Contents, Plains;
    if n > 0 {
      LeftAre(chs, open, ps, n - 1);
      var before := LeftAt(ps, n - 1);
      var without := Without(before, n - 1);
      WithoutKeeps(chs, before, n - 1);
      WithoutParts(before, n - 1);
      forall i | n <= i < |chs| ensures StartsOk(open, i, without) && Contents(without, i) == Contents(before, i) {
        StartsWithout(chs, open, i, before, n - 1);
        WithoutContents(before, n - 1, i);
      }
    }
  }

  /** The extraction from the text of such pieces, channel by channel. */
  lemma {:induction false} ExtractedAre(chs: seq<Channel>, open: Option<nat>, ps: seq<Piece>, n: nat)
    requires Startable(chs) && Named(chs) && OpenOk(chs, open) && WellCut(chs, ps) && Untangled(chs, ps)
    requires (forall i :: 0 <= i < |chs| ==> StartsOk(open, i, ps)) && n <= |chs|
    ensures WellCut(chs, LeftAt(ps, n))
    ensures ExtractAll(chs[..n], OpenName(chs, open), Extraction(TextOf(chs, ps), map[])) ==
            Extraction(TextOf(chs, LeftAt(ps, n)), Fields(chs, ps, n))
  {
    hide WellCut, StartsOk, Without, Contents, Alone, TextOf, SplitFrom;
    LeftAre(chs, open, ps, n);
    if n > 0 {
      var i := n - 1;
      ExtractedAre(chs, open, ps, i);
      LeftAre(chs, open, ps, i);
      var q := LeftAt(ps, i);
      StageIs(chs, open, i, q);
      FieldsAre(chs, ps, i);
      assert chs[..n][..i] == chs[..i] && chs[..n][i] == chs[i];
      assert OpenName(chs, open) == Some(chs[i].name) <==> open == Some(i);
      assert "" + Contents(ps, i) == Contents(ps, i);
    }
  }

  // ---- agreement ------------------------------------------------------------------------------------

  /** Parts without content are of delimiters alone; if the channel has no content at all they stay in
      the text. */
  predicate NoneLeft(chs: seq<Channel>, ps: seq<Piece>)
    requires IndicesOk(chs, ps)
  {
    forall k :: 0 <= k < |ps| && ps[k].Part? && Contents(ps, ps[k].index) == "" ==> Render(chs, ps[k]) == ""
  }

  lemma {:induction false} OnlyPlain(chs: seq<Channel>, ps: seq<Piece>)
    requires IndicesOk(chs, ps)
    ensures |TextOf(chs, ps)| >= |Plains(ps)|
    ensures TextOf(chs, ps) == Plains(ps) <==> forall p :: p in ps && p.Part? ==> Render(chs, p) == ""
  {
    if ps != [] {
      var rest := ps[1..];
      OnlyPlain(chs, rest);
      assert ps == [ps[0]] + rest;
      assert |TextOf(chs, ps)| == |Render(chs, ps[0])| + |TextOf(chs, rest)|;
      assert "" + TextOf(chs, rest) == TextOf(chs, rest) && "" + Plains(rest) == Plains(rest);
      if ps[0].Plain? && TextOf(chs, ps) == Plains(ps) {
        assert TextOf(chs, rest) == TextOf(chs, ps)[|ps[0].text|..] == Plains(rest);
      }
    }
  }

  lemma {:induction false} PiecesFromAre(chs: seq<Channel>, open: Option<nat>, t: string)
    requires Startable(chs) && OpenOk(chs, open)
    ensures var ps := PiecesFrom(chs, open, t);
            WellCut(chs, ps) && TextOf(chs, ps) == t && forall i :: 0 <= i < |chs| ==> StartsOk(open, i, ps)
  {
    hide Find, NextStart, Pieces, PiecesInside, TextOf;
    if open.Some? {
      InsideAre(chs, open.value, false, t);
      assert "" + t == t;
      var ps := PiecesFrom(chs, open, t);
      assert forall k :: 0 < k < |ps| ==> ps[k] == ps[1..][k - 1];
    } else {
      PiecesAre(chs, t);
    }
  }

  /** Streaming agrees with extraction, for any number of channels, from a channel the prompt left open or
      not, and for every way the response was cut, if its pieces are untangled: every channel's
      content is the extracted field; the text is the text left exactly if no delimiters of a
      channel without content are in it. */
  lemma {:induction false} SeveralAgree(chs: seq<Channel>, open: Option<nat>, chunks: seq<string>)
    requires Startable(chs) && Named(chs) && OpenOk(chs, open) && VisiblyStable(chs)
    requires IndicesOk(chs, PiecesFrom(chs, open, Concat(chunks)))
             && Untangled(chs, PiecesFrom(chs, open, Concat(chunks)))
    ensures var t, out := Concat(chunks), AtDone(chs, StartMode(chs, open), chunks);
            var x := ExtractAll(chs, OpenName(chs, open), Extraction(t, map[]));
            && Agrees(chs, x.fields, out)
            && (TextTo("", out) == x.content <==> NoneLeft(chs, PiecesFrom(chs, open, t)))
  {
    hide AtDone, VisiblyStable, TextTo, PiecesFrom, Untangled, TextOf, Plains, Contents, Render, ExtractAll, Fields,
        NoneLeft, Concat, StartMode;
    var t, ps, n := Concat(chunks), PiecesFrom(chs, open, Concat(chunks)), |chs|;
    StreamedAre(chs, open, chunks);
    PiecesFromAre(chs, open, t);
    ExtractedAre(chs, open, ps, n);
    assert chs[..n] == chs;
    FieldsAre(chs, ps, n);
    TextLeft(chs, open, ps);
  }

  /** What was streamed once the generation is done, label by label. */
  lemma {:induction false} StreamedAre(chs: seq<Channel>, open: Option<nat>, chunks: seq<string>)
    requires Startable(chs) && Named(chs) && OpenOk(chs, open) && VisiblyStable(chs)
    ensures var ps, out := PiecesFrom(chs, open, Concat(chunks)), AtDone(chs, StartMode(chs, open), chunks);
            && TextTo("", out) == Plains(ps)
            && forall i :: 0 <= i < |chs| ==> TextTo(chs[i].name, out) == Contents(ps, i)
  {
    hide AtDone, Parse, VisiblyStable, TextTo, Visible, PiecesFrom, Labelled, Plains, Contents;
    var t, mode := Concat(chunks), StartMode(chs, open);
    var ps, out := PiecesFrom(chs, open, t), AtDone(chs, mode, chunks);
    SeenAtDone(chs, mode, chunks);
    PiecesFromAre(chs, open, t);
    CutIndices(chs, ps);
    forall to ensures TextTo(to, out) == Labelled(chs, ps, to) {
      TextToVisible(to, out);
      TextToVisible(to, Parse(chs, mode, t));
      StreamIsPieces(chs, open, t, to);
    }
    PlainsAre(chs, ps);
    forall i | 0 <= i < |chs| ensures TextTo(chs[i].name, out) == Contents(ps, i) { LabelledIs(chs, ps, i); }
  }

  lemma {:induction false} TextLeft(chs: seq<Channel>, open: Option<nat>, ps: seq<Piece>)
    requires WellCut(chs, ps) && IndicesOk(chs, ps) && forall i :: 0 <= i < |chs| ==> StartsOk(open, i, ps)
    ensures WellCut(chs, LeftAt(ps, |chs|))
    ensures Plains(ps) == TextOf(chs, LeftAt(ps, |chs|)) <==> NoneLeft(chs, ps)
  {
    hide WellCut, StartsOk, TextOf, Plains, Contents, Render, LeftAt, NoneLeft;
    var left := LeftAt(ps, |chs|);
    LeftAre(chs, open, ps, |chs|);
    CutIndices(chs, left);
    OnlyPlain(chs, left);
    LeftIsNone(chs, ps, left);
  }

  lemma {:induction false} LeftIsNone(chs: seq<Channel>, ps: seq<Piece>, left: seq<Piece>)
    requires IndicesOk(chs, ps) && IndicesOk(chs, left)
    requires forall p :: p in left <==> p in ps && !(p.Part? && p.index < |chs| && Contents(ps, p.index) != "")
    ensures (forall p :: p in left && p.Part? ==> Render(chs, p) == "") <==> NoneLeft(chs, ps)
  {
    hide Contents, Render;
    if forall p :: p in left && p.Part? ==> Render(chs, p) == "" {
      forall k | 0 <= k < |ps| && ps[k].Part? && Contents(ps, ps[k].index) == "" ensures Render(chs, ps[k]) == "" {
        assert ps[k] in left;
      }
    }
  }

  /** The fields are what was streamed to the channels. */
  predicate Agrees(chs: seq<Channel>, fields: map<string, string>, out: seq<Item>) {
    && (forall i :: 0 <= i < |chs| ==> (chs[i].name in fields <==> TextTo(chs[i].name, out) != ""))
    && (forall i :: 0 <= i < |chs| && chs[i].name in fields ==> fields[chs[i].name] == TextTo(chs[i].name, out))
    && (forall name :: name in fields ==> exists i :: 0 <= i < |chs| && chs[i].name == name)
  }

  /** For a single channel the pieces are always untangled. */
  lemma {:induction false} OneIsUntangled(c: Channel, open: Option<nat>, t: string)
    requires Startable([c]) && OpenOk([c], open)
    ensures IndicesOk([c], PiecesFrom([c], open, t)) && Untangled([c], PiecesFrom([c], open, t))
  {
    hide Find, NextStart, Pieces, PiecesInside, Alone, TextOf;
    PiecesFromAre([c], open, t);
    CutIndices([c], PiecesFrom([c], open, t));
    if open.Some? { InsideAlone(c, false, "", t); } else { PiecesAlone(c, t); }
  }

  lemma {:induction false} PiecesAlone(c: Channel, t: string)
    requires Startable([c])
    ensures IndicesOk([c], Pieces([c], t)) && Alone([c], 0, "", Pieces([c], t))
    decreases |t|, 1
  {
    hide NextStart, Find;
    SingleStart(c, t);
    assert "" + t == t;
    if NextStart([c], t, 0).None? {
      assert [Plain(t)][1..] == [];
      AloneLater(c, "", Plain(t), []);
      assert [Plain(t)] + [] == [Plain(t)];
    } else {
      NextStartOccurs([c], t, 0);
      FirstIn(t, c.start);
      var q := Find(t, c.start, 0).value;
      var u := t[q..][|c.start|..];
      assert "" + t[..q] == t[..q];
      InsideAlone(c, true, t[..q], u);
      AloneLater(c, "", Plain(t[..q]), PiecesInside([c], 0, true, u));
    }
  }

  lemma {:induction false} AloneLater(c: Channel, before: string, p: Piece, ps: seq<Piece>)
    requires p.Plain? && IndicesOk([c], ps) && Alone([c], 0, before + p.text, ps)
    ensures IndicesOk([c], [p] + ps) && Alone([c], 0, before, [p] + ps)
  {
    hide Find;
    assert ([p] + ps)[1..] == ps;
    assert forall k :: 0 < k < |[p] + ps| ==> ([p] + ps)[k] == ps[k - 1];
  }

  lemma {:induction false} InsideAlone(c: Channel, begun: bool, before: string, u: string)
    requires Startable([c]) && (begun ==> Find(before + c.start, c.start, 0) == Some(|before|))
    ensures IndicesOk([c], PiecesInside([c], 0, begun, u)) && Alone([c], 0, before, PiecesInside([c], 0, begun, u))
    decreases |u|, 2
  {
    hide Find, Pieces;
    if Find(u, c.end, 0).Some? {
      FindFits(u, c.end, 0);
      var e := Find(u, c.end, 0).value;
      var rest := u[e + |c.end|..];
      PiecesAlone(c, rest);
      AlonePart(c, before, Part(0, begun, u[..e], true), Pieces([c], rest));
    } else {
      NoStartInNothing(c);
      AlonePart(c, before, Part(0, begun, u, false), []);
      assert [Part(0, begun, u, false)] + [] == [Part(0, begun, u, false)];
    }
  }

  lemma {:induction false} NoStartInNothing(c: Channel)
    requires Startable([c])
    ensures Alone([c], 0, "", [])
  {
    assert [c][0].start != "";
  }

  lemma {:induction false} AlonePart(c: Channel, before: string, p: Piece, ps: seq<Piece>)
    requires p.Part? && p.index == 0 && (p.begun ==> Find(before + c.start, c.start, 0) == Some(|before|))
    requires IndicesOk([c], ps) && Alone([c], 0, "", ps)
    ensures IndicesOk([c], [p] + ps) && Alone([c], 0, before, [p] + ps)
  {
    hide Find;
    assert ([p] + ps)[1..] == ps;
    assert forall k :: 0 < k < |[p] + ps| ==> ([p] + ps)[k] == ps[k - 1];
  }

  // ---- with two channels there is always a text on which they differ --------------------------------

  /** Neither occurs in the other, and no end of one begins the other. */
  ghost predicate Unlike(a: string, b: string) {
    && (forall k :: !OccursAt(a, b, k)) && (forall k :: !OccursAt(b, a, k))
    && (forall n: nat :: n > 0 ==> !IsOverlap(a, b, n)) && (forall n: nat :: n > 0 ==> !IsOverlap(b, a, n))
  }

  /** The delimiters of the channels have nothing in common. */
  ghost predicate Apart(chs: seq<Channel>) {
    && (forall i, j :: 0 <= i < j < |chs| ==> Unlike(chs[i].start, chs[j].start))
    && (forall i, j :: 0 <= i < |chs| && 0 <= j < |chs| ==> Unlike(chs[i].start, chs[j].end))
  }

  /** The fields extracted from a text are what its streaming shows. */
  ghost predicate AgreesOn(chs: seq<Channel>, t: string)
    requires Startable(chs)
  {
    Agrees(chs, ExtractAll(chs, None, Extraction(t, map[])).fields, Parse(chs, Outside, t))
  }

  lemma {:induction false} FindBeyond(a: string, b: string, pat: string)
    requires Unlike(a, pat)
    ensures Find(a + b, pat, 0) == match Find(b, pat, 0) case None => None case Some(i) => Some(|a| + i)
  {
    forall q | 0 <= q < |a| ensures !OccursAt(a + b, pat, q) {
      if OccursAt(a + b, pat, q) { NewHitOverlaps(a, b, pat, q); }
    }
    FindSkip(a + b, pat, |a|);
    assert (a + b)[|a|..] == b;
  }

  lemma {:induction false} FindAlone(s: string, b: string)
    ensures Find(s + b, s, 0) == Some(0)
  {
    assert OccursAt(s + b, s, 0);
  }

  lemma {:induction false} NoneInNothing(pat: string)
    requires pat != ""
    ensures Find("", pat, 0).None?
  {
  }

  lemma {:induction false} UnlikeSymmetric(a: string, b: string)
    requires Unlike(a, b)
    ensures Unlike(b, a)
  {
  }

  /** The start of the second channel, that of the first one in it as content, and the second again. */
  function Nested(chs: seq<Channel>): string
    requires |chs| >= 2
  {
    chs[1].start + (chs[0].start + chs[1].start)
  }

  /** The streaming shows the first channel empty; ... */
  lemma {:induction false} NestedStreams(chs: seq<Channel>)
    requires Startable(chs) && Named(chs) && Apart(chs) && |chs| >= 2
    ensures TextTo(chs[0].name, Parse(chs, Outside, Nested(chs))) == ""
  {
    hide Find, Unlike, TextTo, ParseInside, NextStart;
    var x, y, t := chs[1], chs[0], Nested(chs);
    var rest := y.start + x.start;
    UnlikeSymmetric(y.start, x.start);
    FindBeyond(x.start, rest, y.start);
    FindAlone(y.start, x.start);
    FindAlone(x.start, rest);
    assert IsFirstStart(chs, t, 0, Hit(0, 1)) by { FirstHere(chs, t); }
    FirstStartIsNext(chs, t, 0, Hit(0, 1));
    StartedParse(chs, t, Hit(0, 1));
    assert t[0..] == t && t[|x.start|..] == rest;
    UnlikeEnds(chs, 0, 1);
    UnlikeEnds(chs, 1, 1);
    FindBeyond(y.start, x.start, x.end);
    assert x.start + "" == x.start;
    FindBeyond(x.start, "", x.end);
    NoneInNothing(x.end);
    UnclosedParse(chs, x, rest);
    ForgetStart(y.name, x, t[..0], Chars(x.name, rest));
    TextToChars(y.name, x.name, rest);
  }

  lemma {:induction false} UnlikeEnds(chs: seq<Channel>, i: nat, j: nat)
    requires Apart(chs) && i < |chs| && j < |chs|
    ensures Unlike(chs[i].start, chs[j].end) && chs[j].end != ""
  {
    assert !OccursAt(chs[i].start, chs[j].end, 0);
  }

  lemma {:induction false} FirstHere(chs: seq<Channel>, t: string)
    requires |chs| >= 2 && Find(t, chs[1].start, 0) == Some(0) && Find(t, chs[0].start, 0).Some?
             && Find(t, chs[0].start, 0).value > 0
    ensures IsFirstStart(chs, t, 0, Hit(0, 1))
  {
  }

  /** ... the extraction finds content in it. */
  lemma {:induction false} NestedExtracts(chs: seq<Channel>)
    requires Startable(chs) && Apart(chs) && |chs| >= 2
    ensures chs[0].name in ExtractAll(chs, None, Extraction(Nested(chs), map[])).fields
  {
    hide Find, Unlike, Split;
    var x, y, t := chs[1], chs[0], Nested(chs);
    UnlikeSymmetric(y.start, x.start);
    FindBeyond(x.start, y.start + x.start, y.start);
    FindAlone(y.start, x.start);
    assert t[|x.start| + |y.start|..] == x.start;
    UnlikeEnds(chs, 1, 0);
    assert x.start + "" == x.start;
    FindBeyond(x.start, "", y.end);
    NoneInNothing(y.end);
    OneSplit(y, t);
    NothingSplit(y);
    assert x.start + "" == x.start;
    assert chs[..1][..0] == [] && chs[..1][0] == y;
    assert ExtractAll(chs[..1], None, Extraction(t, map[])) == ExtractOne(y, None, Extraction(t, map[]));
    FieldsStay(chs, Extraction(t, map[]), 1, |chs|, y.name);
    assert chs[..|chs|] == chs;
  }

  lemma {:induction false} NothingSplit(c: Channel)
    requires c.start != ""
    ensures Split(c, "") == ("", "")
  {
  }

  lemma {:induction false} FieldsStay(chs: seq<Channel>, x: Extraction, m: nat, n: nat, name: string)
    requires Startable(chs) && m <= n <= |chs| && name in ExtractAll(chs[..m], None, x).fields
    ensures name in ExtractAll(chs[..n], None, x).fields
  {
    hide SplitFrom;
    if m < n {
      FieldsStay(chs, x, m, n - 1, name);
      assert chs[..n][..n - 1] == chs[..n - 1];
    }
  }

  /** Streaming and extraction agree on all texts exactly if there is no second channel. */
  lemma {:induction false} AgreesOnAllIffOne(chs: seq<Channel>)
    requires Startable(chs) && Named(chs) && Apart(chs)
    ensures (forall t :: AgreesOn(chs, t)) <==> |chs| <= 1
  {
    hide Apart, Untangled;
    if |chs| >= 2 {
      NestedStreams(chs);
      NestedExtracts(chs);
      assert !AgreesOn(chs, Nested(chs));
    } else {
      forall t ensures AgreesOn(chs, t) {
        if chs == [] { NoChannels(t); } else { OneAgrees(chs[0], t); assert chs == [chs[0]]; }
      }
    }
  }

  lemma {:induction false} NoChannels(t: string)
    ensures AgreesOn([], t)
  {
  }

  lemma {:induction false} OneAgrees(c: Channel, t: string)
    requires Startable([c]) && Named([c])
    ensures AgreesOn([c], t)
  {
    hide AtDone, Parse, VisiblyStable, TextTo, Untangled, ExtractAll, PiecesFrom;
    SingleIsStable(c);
    StableIsVisiblyStable([c]);
    OneIsUntangled(c, None, t);
    OneChunk(t);
    SeveralAgree([c], None, [t]);
    SeenAtDone([c], Outside, [t]);
    TextToVisible(c.name, AtDone([c], Outside, [t]));
    TextToVisible(c.name, Parse([c], Outside, t));
  }

  lemma {:induction false} OneChunk(t: string)
    ensures Concat([t]) == t
  {
    assert [t][..0] == [] && "" + t == t;
  }

  /** For instance: a channel's start inside another channel's content. */
  lemma {:induction false} NestedInput()
    ensures var chs, t := [Channel("y", "<y>", "</y>"), Channel("x", "<x>", "</x>")], "<x><y>a</x>b</y>";
            var out := Parse(chs, Outside, t);
            && TextTo("x", out) == "<y>a" && TextTo("y", out) == "" && TextTo("", out) == "b</y>"
            && ExtractAll(chs, None, Extraction(t, map[])) == Extraction("<x>", map["y" := "a</x>b"])
  {
    hide Find, TextTo, Parse, ExtractAll;
    var t := "<x><y>a</x>b</y>";
    InputStarts(t);
    InputLabel(t, "x");
    InputLabel(t, "y");
    InputLabel(t, "");
    InputExtracted(t);
    assert "<y>a" + "" == "<y>a" && "" + "b</y>" == "b</y>";
  }

  lemma {:induction false} InputLabel(t: string, to: string)
    requires t == "<x><y>a</x>b</y>" && Find(t, "<x>", 0) == Some(0) && Find(t, "<y>", 0) == Some(3)
    ensures var chs := [Channel("y", "<y>", "</y>"), Channel("x", "<x>", "</x>")];
            TextTo(to, Parse(chs, Outside, t)) == (if to == "x" then "<y>a" else "")
                + (if to == "" then "b</y>" else "")
  {
    hide Find, TextTo, NextStart, Parse, ParseInside, OccursAt;
    var y, x := Channel("y", "<y>", "</y>"), Channel("x", "<x>", "</x>");
    var chs := [y, x];
    FirstHere(chs, t);
    FirstStartIsNext(chs, t, 0, Hit(0, 1));
    StartedParse(chs, t, Hit(0, 1));
    var u, rest := "<y>a</x>b</y>", "b</y>";
    assert t[0..] == t && t[3..] == u && t[..0] == "";
    ForgetStart(to, x, "", ParseInside(chs, "x", "</x>", 0, u));
    InputInside(chs, u, rest, to);
    assert "" + ("<y>a" + "b</y>") == "<y>a" + "b</y>";
  }

  lemma {:induction false} InputInside(chs: seq<Channel>, u: string, rest: string, to: string)
    requires chs == [Channel("y", "<y>", "</y>"), Channel("x", "<x>", "</x>")] && u == "<y>a</x>b</y>"
             && rest == "b</y>"
    ensures TextTo(to, ParseInside(chs, "x", "</x>", 0, u)) ==
            (if to == "x" then "<y>a" else "") + (if to == "" then rest else "")
  {
    hide Find, TextTo, NextStart, Parse, ParseInside, OccursAt;
    var x := chs[1];
    assert u[..4] == "<y>a" && u[8..] == rest;
    InputEnds(u, rest);
    ClosedParse(chs, x, u);
    NextStartIsFirst(chs, rest, 0);
    NoStartHere(chs, rest);
    ForgetEnd(to, x, "<y>a", Chars("", rest));
    TextToChars(to, "", rest);
  }

  lemma {:induction false} NotAt(t: string, pat: string, i: nat, k: nat)
    requires k < |pat| && (i + k < |t| ==> t[i + k] != pat[k])
    ensures !OccursAt(t, pat, i)
  {
    if i + |pat| <= |t| { assert t[i..i + |pat|][k] == t[i + k]; }
  }

  lemma {:induction false} FoundFirst(t: string, pat: string, i: nat)
    requires OccursAt(t, pat, i) && forall j :: 0 <= j < i ==> !OccursAt(t, pat, j)
    ensures Find(t, pat, 0) == Some(i)
  {
  }

  lemma {:induction false} InputStarts(t: string)
    requires t == "<x><y>a</x>b</y>"
    ensures Find(t, "<x>", 0) == Some(0) && Find(t, "<y>", 0) == Some(3)
  {
    assert t[0..3] == "<x>" && t[3..6] == "<y>";
    FoundFirst(t, "<x>", 0);
    NotAt(t, "<y>", 0, 1);
    NotAt(t, "<y>", 1, 0);
    NotAt(t, "<y>", 2, 0);
    FoundFirst(t, "<y>", 3);
  }

  lemma {:induction false} InputEnds(u: string, rest: string)
    requires u == "<y>a</x>b</y>" && rest == "b</y>"
    ensures Find(u, "</x>", 0) == Some(4)
    ensures forall q: nat :: !OccursAt(rest, "<y>", q) && !OccursAt(rest, "<x>", q)
  {
    assert u[4..8] == "</x>";
    NotAt(u, "</x>", 0, 1);
    NotAt(u, "</x>", 1, 0);
    NotAt(u, "</x>", 2, 0);
    NotAt(u, "</x>", 3, 0);
    FoundFirst(u, "</x>", 4);
    forall q: nat ensures !OccursAt(rest, "<y>", q) && !OccursAt(rest, "<x>", q) {
      if q == 1 {
        NotAt(rest, "<y>", q, 1);
        NotAt(rest, "<x>", q, 1);
      } else {
        NotAt(rest, "<y>", q, 0);
        NotAt(rest, "<x>", q, 0);
      }
    }
  }

  lemma {:induction false} InputExtracted(t: string)
    requires t == "<x><y>a</x>b</y>" && Find(t, "<y>", 0) == Some(3)
    ensures var chs := [Channel("y", "<y>", "</y>"), Channel("x", "<x>", "</x>")];
            ExtractAll(chs, None, Extraction(t, map[])) == Extraction("<x>", map["y" := "a</x>b"])
  {
    hide Find, Split;
    var y, x := Channel("y", "<y>", "</y>"), Channel("x", "<x>", "</x>");
    var chs := [y, x];
    InputOfY(t);
    InputOfX();
    assert chs[..1][..0] == [] && chs[..1] == [y];
    assert ExtractAll(chs[..1], None, Extraction(t, map[])) == ExtractOne(y, None, Extraction(t, map[]));
    assert "" + "a</x>b" == "a</x>b";
  }

  lemma {:induction false} InputOfY(t: string)
    requires t == "<x><y>a</x>b</y>" && Find(t, "<y>", 0) == Some(3)
    ensures Split(Channel("y", "<y>", "</y>"), t) == ("<x>", "a</x>b")
  {
    hide Find, Split;
    var y, u := Channel("y", "<y>", "</y>"), "a</x>b</y>";
    assert t[6..] == u && t[..3] == "<x>";
    assert u[6..10] == "</y>" && u[..6] == "a</x>b" && u[10..] == "";
    InputEndOfY(u);
    OneSplit(y, t);
    NothingSplit(y);
    assert "<x>" + "" == "<x>" && "a</x>b" + "" == "a</x>b";
  }

  lemma {:induction false} InputEndOfY(u: string)
    requires u == "a</x>b</y>"
    ensures Find(u, "</y>", 0) == Some(6)
  {
    assert u[6..10] == "</y>";
    forall j | 0 <= j < 6 ensures !OccursAt(u, "</y>", j) {
      if j == 1 { NotAt(u, "</y>", 1, 2); } else { NotAt(u, "</y>", j, 0); }
    }
    FoundFirst(u, "</y>", 6);
  }

  lemma {:induction false} InputOfX()
    ensures Split(Channel("x", "<x>", "</x>"), "<x>").1 == ""
  {
    hide Find, Split;
    var x := Channel("x", "<x>", "</x>");
    FindAlone("<x>", "");
    assert "<x>" + "" == "<x>" && "<x>"[3..] == "" && "<x>"[..0] == "";
    NoneInNothing("</x>");
    OneSplit(x, "<x>");
    NothingSplit(x);
  }
}
