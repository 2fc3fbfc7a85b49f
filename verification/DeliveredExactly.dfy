/** That the condition of `DeliveredStream` is exact: where a start delimiter shows where it was cut, some
    response and two ways of cutting it are delivered differently. */
module DeliveredExactly {
  import opened Strings
  import opened ChannelScanner
  import opened ChunkIndependence
  import opened DeliveredStream

  /** Two ways of cutting a text `t` show the same, whatever comes after. */
  lemma {:induction false} SameShown(chs: seq<Channel>, xs: seq<string>, ys: seq<string>, w: string)
    requires Startable(chs) && DeliversParse(chs) && Concat(xs) == Concat(ys)
    ensures Shows(chs, FeedAll(chs, Outside, xs), w) == Shows(chs, FeedAll(chs, Outside, ys), w)
  {
    hide FeedAll, AtDone, VisibleParse, Visible, Shows;
    DoneShows(chs, Outside, xs, w);
    DoneShows(chs, Outside, ys, w);
  }

  lemma FeedOne(chs: seq<Channel>, mode: Mode, a: string)
    requires Startable(chs)
    ensures FeedAll(chs, mode, [a]) == Run(chs, mode, a) && Concat([a]) == a
  {
    hide Run;
    assert [a][..0] == [];
    var none := FeedAll(chs, mode, [a][..0]);
    assert none == Outcome([], mode, "") && "" + a == a;
    assert [] + Run(chs, mode, a).trace == Run(chs, mode, a).trace;
  }

  /** The start taken in a beginning of a text is still taken where it ends. */
  lemma {:induction false} TakenWhereItEnds(chs: seq<Channel>, t: string)
    requires NextStart(chs, t, 0).Some?
    ensures var hit := NextStart(chs, t, 0).value;
            && hit.pos + |chs[hit.index].start| <= |t|
            && NextStart(chs, t[..hit.pos + |chs[hit.index].start|], 0) == Some(hit)
  {
    hide NextStart;
    NextStartIsFirst(chs, t, 0);
    var hit := NextStart(chs, t, 0).value;
    var e := hit.pos + |chs[hit.index].start|;
    assert t == t[..e] + t[e..];
    forall j, q | 0 <= j < |chs| && q + |chs[j].start| <= e
      ensures OccursAt(t[..e], chs[j].start, q) <==> OccursAt(t, chs[j].start, q)
    {
      OccursInPrefix(t[..e], t[e..], chs[j].start, q);
    }
    FirstStartIsNext(chs, t[..e], 0, hit);
  }

  /** A text that ends with the start it is taken for: then the channel is entered. */
  lemma {:induction false} TakenThen(chs: seq<Channel>, x: string, v: string)
    requires Startable(chs) && v != ""
    requires NextStart(chs, x, 0).Some?
    requires var hit := NextStart(chs, x, 0).value;
             chs[hit.index].name != "" && hit.pos + |chs[hit.index].start| == |x|
    ensures var hit := NextStart(chs, x, 0).value;
            var c := chs[hit.index];
            FeedAll(chs, Outside, [x, v]) == Prepend(Chars("", x[..hit.pos]) + [Opened(c.name, c.start)],
                Entered(chs, c, v))
  {
    hide Run, NextStart, Entered, Feed, FeedAll;
    var hit := NextStart(chs, x, 0).value;
    var c := chs[hit.index];
    var head := Chars("", x[..hit.pos]) + [Opened(c.name, c.start)];
    FeedTwo(chs, Outside, x, v);
    RunStarts(chs, x);
    assert x[hit.pos..][|c.start|..] == "";
    assert Run(chs, Outside, x) == Prepend(head, Entered(chs, c, "")) by { NamedAtStart(chs, c, x[hit.pos..]); }
    FeedPrepend(chs, head, Entered(chs, c, ""), v);
    EnteredThen(chs, c, v);
  }

  lemma NamedAtStart(chs: seq<Channel>, c: Channel, t: string)
    requires Startable(chs) && c.name != "" && |c.start| <= |t|
    ensures Finish(chs, TurnAtStart(c, t)) == Entered(chs, c, t[|c.start|..])
  {
  }

  lemma EnteredThen(chs: seq<Channel>, c: Channel, v: string)
    requires Startable(chs) && c.name != "" && v != ""
    ensures Feed(chs, Entered(chs, c, ""), v) == Entered(chs, c, v)
  {
    hide Run, Find;
    assert "" + v == v;
    EnteredIs(chs, c);
    if c.end == "" {
      EndsAtOnce(c.name, v);
    } else {
      RunIsFinish(chs, Inside(c.name, c.end, 0), v);
      assert forall t: seq<Item> :: [] + t == t;
    }
  }

  /** A channel without an end is left as soon as it is entered. */
  lemma EnteredIs(chs: seq<Channel>, c: Channel)
    requires Startable(chs) && c.name != ""
    ensures Entered(chs, c, "") ==
            if c.end == "" then Outcome([Closed(c.name, "")], Outside, "")
            else Outcome([], Inside(c.name, c.end, 0), "")
  {
    hide Run;
    if c.end == "" {
      EndsAtOnce(c.name, "");
      assert Run(chs, Outside, "") == Outcome([], Outside, "") by { NothingRun(chs); }
      assert [Closed(c.name, "")] + [] == [Closed(c.name, "")];
    }
  }

  lemma EndsAtOnce(name: string, v: string)
    requires name != ""
    ensures TurnInside(name, "", 0, v) == Next([Closed(name, "")], v)
  {
    assert OccursAt(v, "", 0) && Find(v, "", 0) == Some(0);
    assert v[0..] == v && Chars(name, v[..0]) == [];
    assert [] + [Closed(name, "")] == [Closed(name, "")];
  }

  /** Cut where another start ends, all that is seen of the start `x + v` and what follows it. */
  lemma {:induction false} TakenDone(chs: seq<Channel>, x: string, v: string)
    requires Startable(chs) && v != ""
    requires NextStart(chs, x, 0).Some?
    requires var hit := NextStart(chs, x, 0).value;
             chs[hit.index].name != "" && hit.pos + |chs[hit.index].start| == |x|
    ensures var hit := NextStart(chs, x, 0).value;
            Visible(AtDone(chs, Outside, [x, v])) == Chars("", x[..hit.pos]) + VisibleInside(chs, chs[hit.index], v)
    ensures Concat([x, v]) == x + v
  {
    hide NextStart, FeedAll, ParseInside, Visible, TurnInside, Finish, Flush;
    var hit := NextStart(chs, x, 0).value;
    var c := chs[hit.index];
    var head, o := Chars("", x[..hit.pos]) + [Opened(c.name, c.start)], Entered(chs, c, v);
    TakenThen(chs, x, v);
    FeedTwo(chs, Outside, x, v);
    InsideFlush(chs, c.name, c.end, 0, v);
    FlushPrepend(head, o);
    VisibleJoin(head, ParseInside(chs, c.name, c.end, 0, v));
    VisibleHead(x[..hit.pos], c);
  }

  /** Blocks are never longer than the text they come from. */
  lemma {:induction false} BlocksFit(chs: seq<Channel>, mode: Mode, t: string, k: nat)
    requires Startable(chs) && k < |Parse(chs, mode, t)| && Parse(chs, mode, t)[k].Block?
    ensures |Parse(chs, mode, t)[k].text| <= |t|
    decreases |t|, if mode.Inside? then 4 else 1
  {
    if t != "" {
      if mode.Inside? {
        BlocksFitInside(chs, mode.name, mode.end, mode.skip, t, k);
      } else if NextStart(chs, t, 0).Some? {
        NextStartIsFirst(chs, t, 0);
        var hit := NextStart(chs, t, 0).value;
        var c, u := chs[hit.index], t[hit.pos..];
        var head := Chars("", t[..hit.pos]) + [Opened(c.name, c.start)];
        assert Parse(chs, mode, t) == head + ParseAtStart(chs, c, u);
        var j := k - |head|;
        if c.name != "" {
          BlocksFitInside(chs, c.name, c.end, 0, u[|c.start|..], j);
        } else {
          BlocksFitInside(chs, "", c.end, |c.start|, u, j);
        }
      }
    }
  }

  lemma {:induction false} BlocksFitInside(chs: seq<Channel>, name: string, end: string, skip: nat, t: string, k: nat)
    requires Startable(chs) && k < |ParseInside(chs, name, end, skip, t)|
             && ParseInside(chs, name, end, skip, t)[k].Block?
    ensures |ParseInside(chs, name, end, skip, t)[k].text| <= |t|
    decreases |t| - skip, 2
  {
    hide Parse;
    if Find(t, end, skip).Some? {
      FindFits(t, end, skip);
      var turn := TurnInside(name, end, skip, t);
      ParseOfTurn(chs, name, end, skip, t);
      if k >= |turn.trace| { BlocksFit(chs, Outside, turn.rest, k - |turn.trace|); }
    }
  }

  lemma {:induction false} VisibleFrom(trace: seq<Item>, k: nat)
    requires k < |Visible(trace)|
    ensures Visible(trace)[k] in trace
  {
    if trace[0].Opened? || trace[0].Closed? {
      assert Visible(trace) == Visible(trace[1..]);
      VisibleFrom(trace[1..], k);
    } else if k > 0 {
      VisibleFrom(trace[1..], k - 1);
    }
  }

  /** A scanner that keeps nothing back is outside, or inside a named channel that has an end. */
  predicate Empty(o: Outcome) {
    o.rest == "" && (o.mode.Inside? ==> o.mode.name != "" && o.mode.end != "" && o.mode.skip == 0)
  }

  /** The channel the scanner stands in after `t`. */
  ghost predicate EnteredIn(chs: seq<Channel>, t: string, mode: Mode) {
    mode.Inside? ==>
      exists j :: 0 <= j < |chs| && chs[j].name == mode.name && chs[j].end == mode.end && |chs[j].start| <= |t|
  }

  lemma {:induction false} RunEnters(chs: seq<Channel>, t: string)
    requires Startable(chs)
    ensures EnteredIn(chs, t, Run(chs, Outside, t).mode)
    ensures Run(chs, Outside, t).rest == "" ==> Empty(Run(chs, Outside, t))
    decreases |t|, 1
  {
    hide Run, NextStart, Finish, TurnAtStart;
    if t == "" {
      assert Run(chs, Outside, t) == Outcome([], Outside, "") by { NothingRun(chs); }
    } else if NextStart(chs, t, 0).None? {
      RunIsFinish(chs, Outside, t);
      BrokenIs(chs, t);
    } else {
      RunStarts(chs, t);
      var hit := NextStart(chs, t, 0).value;
      StartEnters(chs, chs[hit.index], t[hit.pos..]);
      EnteredInMore(chs, t[hit.pos..], t, hit.index);
    }
  }

  lemma NothingRun(chs: seq<Channel>)
    requires Startable(chs)
    ensures Run(chs, Outside, "") == Outcome([], Outside, "")
  {
  }

  lemma EnteredInMore(chs: seq<Channel>, u: string, t: string, i: nat)
    requires Startable(chs) && i < |chs| && |chs[i].start| <= |u| <= |t|
    ensures forall mode ::
              EnteredIn(chs, u, mode) || (mode.Inside? && mode.name == chs[i].name && mode.end == chs[i].end) ==>
              EnteredIn(chs, t, mode)
  {
  }

  lemma {:induction false} StartEnters(chs: seq<Channel>, c: Channel, t: string)
    requires Startable(chs) && c.start != "" && |c.start| <= |t|
    ensures var o := Finish(chs, TurnAtStart(c, t));
            && (EnteredIn(chs, t, o.mode) || (o.mode.Inside? && o.mode.name == c.name && o.mode.end == c.end))
            && (o.rest == "" ==> Empty(o))
    decreases |t|, 0
  {
    hide Run;
    var turn := TurnAtStart(c, t);
    if turn.Next? { RunEnters(chs, turn.rest); }
  }

  lemma {:induction false} OneCharOutside(chs: seq<Channel>, ch: char)
    requires Startable(chs)
    ensures forall item :: item in VisibleParse(chs, Outside, [ch]) && item.Out? ==> item.to == ""
  {
    forall k | 0 <= k < |VisibleParse(chs, Outside, [ch])| && VisibleParse(chs, Outside, [ch])[k].Out?
      ensures VisibleParse(chs, Outside, [ch])[k].to == ""
    {
      VisibleFrom(Parse(chs, Outside, [ch]), k);
      LabelsOfOne(chs, ch, VisibleParse(chs, Outside, [ch])[k]);
    }
  }

  lemma LabelsOfOne(chs: seq<Channel>, ch: char, item: Item)
    requires Startable(chs) && item in Parse(chs, Outside, [ch]) && item.Out?
    ensures item.to == ""
  {
    hide Parse, ParseInside;
    if NextStart(chs, [ch], 0).Some? {
      NextStartOccurs(chs, [ch], 0);
      NextStartIsFirst(chs, [ch], 0);
      var hit := NextStart(chs, [ch], 0).value;
      var c := chs[hit.index];
      assert hit.pos == 0 && |c.start| == 1;
      assert [ch][0..] == [ch] && [ch][1..] == "";
      StartsHere(chs, [ch]);
      if c.name != "" { InsideNothing(chs, c.name, c.end, 0, ""); } else { InsideNothing(chs, "", c.end, 1, [ch]); }
    } else {
      NoStartHere(chs, [ch]);
    }
  }

  lemma StartsHere(chs: seq<Channel>, t: string)
    requires Startable(chs) && t != "" && NextStart(chs, t, 0).Some? && NextStart(chs, t, 0).value.pos == 0
    ensures var c := chs[NextStart(chs, t, 0).value.index];
            |c.start| <= |t| && Parse(chs, Outside, t) == [Opened(c.name, c.start)] + ParseAtStart(chs, c, t)
  {
    hide NextStart, ParseAtStart;
    NextStartOccurs(chs, t, 0);
    assert t[0..] == t && Chars("", t[..0]) == [];
    var c := chs[NextStart(chs, t, 0).value.index];
    assert [] + [Opened(c.name, c.start)] == [Opened(c.name, c.start)];
  }

  lemma NoStartHere(chs: seq<Channel>, t: string)
    requires Startable(chs) && NextStart(chs, t, 0).None?
    ensures Parse(chs, Outside, t) == Chars("", t)
  {
  }

  lemma InsideNothing(chs: seq<Channel>, name: string, end: string, skip: nat, t: string)
    requires Startable(chs) && skip == |t| && (name != "" ==> t == "")
    ensures forall item :: item in ParseInside(chs, name, end, skip, t) && item.Out? ==> item.to == ""
    ensures name != "" ==> Visible(ParseInside(chs, name, end, skip, t)) == []
  {
    if name != "" && end == "" {
      var r := ParseInside(chs, name, end, skip, t);
      assert r == [Closed(name, end)];
      VisibleWithDelimiter([], Closed(name, end));
      assert [] + [Closed(name, end)] == [Closed(name, end)];
    }
  }

  /** Different places to stand are told apart by some text. */
  lemma {:induction false} PlacesDiffer(chs: seq<Channel>, m: Mode, m': Mode) returns (w: string)
    requires Startable(chs) && m != m' && Empty(Outcome([], m, "")) && Empty(Outcome([], m', ""))
    ensures VisibleParse(chs, m, w) != VisibleParse(chs, m', w)
  {
    hide Parse, Visible;
    if m.Outside? {
      w := OutsideDiffers(chs, m');
    } else if m'.Outside? {
      w := OutsideDiffers(chs, m);
    } else if m.name != m'.name {
      var ch := if m.end == "a" then 'b' else 'a';
      w := [ch];
      OneCharInside(chs, m, ch);
      if m'.end == w { WholeEndInside(chs, m'); } else { OneCharInside(chs, m', ch); }
    } else if |m.end| <= |m'.end| {
      w := m.end;
      WholeEndInside(chs, m);
      OtherTextInside(chs, m', w);
    } else {
      w := m'.end;
      WholeEndInside(chs, m');
      OtherTextInside(chs, m, w);
    }
  }

  lemma {:induction false} OutsideDiffers(chs: seq<Channel>, m: Mode) returns (w: string)
    requires Startable(chs) && m.Inside? && Empty(Outcome([], m, ""))
    ensures VisibleParse(chs, m, w) != VisibleParse(chs, Outside, w)
  {
    hide Parse, Visible;
    var ch := if m.end == "a" then 'b' else 'a';
    w := [ch];
    OneCharInside(chs, m, ch);
    OneCharOutside(chs, ch);
    assert VisibleParse(chs, m, w)[0] in VisibleParse(chs, m, w);
  }

  lemma OneCharInside(chs: seq<Channel>, m: Mode, ch: char)
    requires Startable(chs) && m.Inside? && Empty(Outcome([], m, "")) && m.end != [ch]
    ensures VisibleParse(chs, m, [ch]) == [Out(m.name, ch)]
  {
    OtherTextInside(chs, m, [ch]);
  }

  /** A text in which the end does not occur. */
  lemma OtherTextInside(chs: seq<Channel>, m: Mode, w: string)
    requires Startable(chs) && m.Inside? && Empty(Outcome([], m, "")) && |w| <= |m.end| && w != m.end
    ensures VisibleParse(chs, m, w) == Chars(m.name, w)
  {
    hide Visible;
    VisibleChars(m.name, w);
    assert Chars(m.name, "") == [];
    if w != "" { ParseIsInside(chs, m, w); }
    NoLongerInShorter(w, m.end);
  }

  lemma NoLongerInShorter(w: string, pat: string)
    requires |w| <= |pat| && w != pat
    ensures Find(w, pat, 0).None?
  {
    forall i ensures !OccursAt(w, pat, i) {
      assert 0 <= i && i + |pat| <= |w| ==> w[i..i + |pat|] == w;
    }
  }

  lemma WholeEndInside(chs: seq<Channel>, m: Mode)
    requires Startable(chs) && m.Inside? && Empty(Outcome([], m, ""))
    ensures VisibleParse(chs, m, m.end) == []
  {
    var e := m.end;
    assert e[0..|e|] == e && OccursAt(e, e, 0);
    assert Find(e, e, 0) == Some(0);
    assert e[..0] == "" && Chars(m.name, "") == [] && e[0 + |e|..] == "";
    ParseOfTurn(chs, m.name, e, 0, e);
    assert [] + [Closed(m.name, e)] == [Closed(m.name, e)] && [Closed(m.name, e)] + [] == [Closed(m.name, e)];
    assert Parse(chs, m, e) == [Closed(m.name, e)];
    VisibleWithDelimiter([], Closed(m.name, e));
    assert [] + [Closed(m.name, e)] == [Closed(m.name, e)];
  }

  /** The same shown by entering `c` and reading `v` as by entering `d`, the scanner then stands in
      the same place. */
  lemma {:induction false} SameState(chs: seq<Channel>, c: Channel, v: string, d: Channel)
    requires Startable(chs) && c.name != "" && d.name != "" && c.start != "" && d.start != ""
    requires VisibleInside(chs, c, v) == []
    requires forall w :: Shows(chs, Entered(chs, c, v), w) == Shows(chs, Entered(chs, d, ""), w)
    ensures Seen(Entered(chs, c, v)) == Seen(Entered(chs, d, ""))
  {
    hide Parse, ParseInside, Visible, VisibleParse, Entered;
    var o, o' := Entered(chs, c, v), Entered(chs, d, "");
    NothingShown(chs, c, v);
    InsideNothing(chs, d.name, d.end, 0, "");
    NothingShown(chs, d, "");
    assert o.mode == o'.mode by {
      if o.mode != o'.mode {
        var w := PlacesDiffer(chs, o.mode, o'.mode);
        ShowsFrom(chs, o, w);
        ShowsFrom(chs, o', w);
        assert false;
      }
    }
  }

  lemma ShowsFrom(chs: seq<Channel>, o: Outcome, w: string)
    requires Startable(chs) && Visible(o.trace) == [] && o.rest == ""
    ensures Shows(chs, o, w) == VisibleParse(chs, o.mode, w)
  {
    hide Visible, VisibleParse;
    assert "" + w == w && [] + VisibleParse(chs, o.mode, w) == VisibleParse(chs, o.mode, w);
  }

  lemma {:induction false} NothingShown(chs: seq<Channel>, c: Channel, v: string)
    requires Startable(chs) && c.name != "" && c.start != "" && VisibleInside(chs, c, v) == []
    ensures var o := Entered(chs, c, v); Visible(o.trace) == [] && o.rest == "" && Empty(Outcome([], o.mode, ""))
  {
    hide ParseInside, Visible, Run;
    var o := Entered(chs, c, v);
    InsideFlush(chs, c.name, c.end, 0, v);
    VisibleJoin(o.trace, Flush(o));
    var name := if o.mode.Inside? then o.mode.name else "";
    VisibleChars(name, o.rest);
    assert |Chars(name, o.rest)| == |o.rest|;
    assert (c.start + v)[|c.start|..] == v;
    StartEnters(chs, c, c.start + v);
  }

  /** The start wins where it stands alone, whatever follows if it is the first in the list. */
  lemma StartAlone(chs: seq<Channel>, i: nat, z: string)
    requires Startable(chs) && i < |chs| && !Shadowed(chs, i) && (i == 0 || z == "")
    ensures NextStart(chs, chs[i].start + z, 0) == Some(Hit(0, i))
  {
    var s := chs[i].start;
    assert (s + z)[0..|s|] == s;
    forall j | 0 <= j < i ensures !OccursAt(s + z, chs[j].start, 0) {
      assert s + z == s;
      assert !(chs[j].start <= s);
    }
    FirstStartIsNext(chs, s + z, 0, Hit(0, i));
  }

  lemma {:induction false} StartShown(chs: seq<Channel>, i: nat)
    requires Startable(chs) && i < |chs| && !Shadowed(chs, i) && chs[i].name != ""
    ensures VisibleParse(chs, Outside, chs[i].start) == []
  {
    hide NextStart, ParseAtStart, ParseInside, Visible;
    var s := chs[i].start;
    StartAlone(chs, i, "");
    assert s + "" == s && s[0..] == s && s[|s|..] == "" && Chars("", s[..0]) == [];
    ParseStarts(chs, s);
    ParseNamed(chs, chs[i], s);
    InsideNothing(chs, chs[i].name, chs[i].end, 0, "");
  }

  lemma {:induction false} StartRun(chs: seq<Channel>, i: nat)
    requires Startable(chs) && i < |chs| && !Shadowed(chs, i) && chs[i].name != ""
    ensures Run(chs, Outside, chs[i].start) == Prepend([Opened(chs[i].name, chs[i].start)], Entered(chs, chs[i], ""))
  {
    hide NextStart, Entered, Run;
    var s := chs[i].start;
    StartAlone(chs, i, "");
    assert s + "" == s && s[0..] == s && s[|s|..] == "" && Chars("", s[..0]) == [];
    assert [] + [Opened(chs[i].name, s)] == [Opened(chs[i].name, s)];
    RunStarts(chs, s);
    NamedAtStart(chs, chs[i], s);
  }

  /** Start `i` is `x + v`, and `x` is taken for another start that it ends with. */
  ghost predicate CutAt(chs: seq<Channel>, i: nat, x: string, v: string, hit: Hit) {
    && i < |chs| && !Shadowed(chs, i) && chs[i].start == x + v && v != ""
    && NextStart(chs, x, 0) == Some(hit) && hit.pos + |chs[hit.index].start| == |x|
  }

  lemma {:induction false} FenceInsideShows(chs: seq<Channel>, i: nat, x: string, v: string, hit: Hit)
    requires Startable(chs) && FenceFirst(chs) && CutAt(chs, i, x, v, hit) && chs[hit.index].name == ""
    ensures chs[i].name != ""
    ensures Visible(AtDone(chs, Outside, [x, v])) != []
  {
    hide NextStart, Run, Visible, Flush, Finish, TurnAtStart, OccursAt;
    NextStartOccurs(chs, x, 0);
    assert hit.index == 0 && i > 0;
    var s, u := chs[i].start, chs[0].start;
    assert x[0..] == x && x <= s;
    assert hit.pos == 0 ==> u <= s;
    RunStarts(chs, x);
    var head := Chars("", x[..hit.pos]) + [Opened("", chs[0].start)];
    FeedTwo(chs, Outside, x, v);
    VisibleHead(x[..hit.pos], chs[0]);
    BeginsWith(head, AtDone(chs, Outside, [x, v]));
  }

  lemma BeginsWith(head: seq<Item>, trace: seq<Item>)
    requires head <= trace
    ensures Visible(head) <= Visible(trace)
  {
    hide Visible;
    assert trace == head + trace[|head|..];
    VisibleJoin(head, trace[|head|..]);
  }

  lemma {:induction false} FenceShown(chs: seq<Channel>)
    requires Startable(chs) && chs != [] && chs[0].name == ""
    ensures var t := chs[0].start + chs[0].end; VisibleParse(chs, Outside, t) == [Block(t)]
  {
    hide NextStart, Visible, Find, OccursAt;
    var s, e := chs[0].start, chs[0].end;
    var t := s + e;
    StartAlone(chs, 0, e);
    ParseStarts(chs, t);
    EndFound(s, e);
    assert t[0..] == t && t[..|s| + |e|] == t && t[|s| + |e|..] == "" && Chars("", t[..0]) == [];
    ParseOfTurn(chs, "", e, |s|, t);
    assert ([Block(t)] + [Closed("", e)]) + [] == [Block(t)] + [Closed("", e)];
    assert ParseInside(chs, "", e, |s|, t) == [Block(t)] + [Closed("", e)];
    VisibleWithDelimiter([Block(t)], Closed("", e));
    VisibleBlocks(t);
    assert [] + [Block(t)] == [Block(t)];
  }

  lemma EndFound(s: string, e: string)
    ensures Find(s + e, e, |s|) == Some(|s|)
  {
    assert (s + e)[|s|..|s| + |e|] == e;
  }

  /** Inside the fence's start no start can be complete. */
  lemma {:induction false} FenceCutShows(chs: seq<Channel>, x: string, v: string, hit: Hit)
    requires Startable(chs) && CutAt(chs, 0, x, v, hit) && chs[0].name == "" && chs[hit.index].name != ""
    ensures var t := v + chs[0].end;
            Visible(AtDone(chs, Outside, [x, t])) != VisibleParse(chs, Outside, Concat([x, t]))
  {
    hide NextStart, Visible, FeedAll, ParseInside, AtDone, VisibleParse, OccursAt;
    var t, c := v + chs[0].end, chs[hit.index];
    NextStartOccurs(chs, x, 0);
    TakenDone(chs, x, t);
    FenceShown(chs);
    var whole := chs[0].start + chs[0].end;
    assert x + t == whole;
    NotOneBlock(chs, c, t, x[..hit.pos], whole);
  }

  lemma {:induction false} NotOneBlock(chs: seq<Channel>, c: Channel, t: string, before: string, whole: string)
    requires Startable(chs) && |t| < |whole|
    ensures Chars("", before) + VisibleInside(chs, c, t) != [Block(whole)]
  {
    hide Visible;
    var seen := VisibleInside(chs, c, t);
    var all := Chars("", before) + seen;
    if before != "" {
      assert all[0].Out?;
    } else {
      assert all == seen;
      forall k | 0 <= k < |seen| && seen[k].Block? ensures |seen[k].text| <= |t| {
        var trace := ParseInside(chs, c.name, c.end, 0, t);
        VisibleFrom(trace, k);
        var j :| 0 <= j < |trace| && trace[j] == seen[k];
        BlocksFitInside(chs, c.name, c.end, 0, t, j);
      }
      var block := Block(whole);
      if seen != [] { assert seen[0] != block; }
      assert [block][0] == block;
    }
  }

  lemma {:induction false} NamedCutUnseen(chs: seq<Channel>, i: nat, x: string, v: string, hit: Hit)
    requires Startable(chs) && DeliversParse(chs) && CutAt(chs, i, x, v, hit)
    requires chs[i].name != "" && chs[hit.index].name != ""
    ensures hit.pos == 0 && chs[hit.index].start == x
    ensures Seen(Entered(chs, chs[hit.index], v)) == Seen(Entered(chs, chs[i], ""))
  {
    hide NextStart, Visible, FeedAll, ParseInside, AtDone, VisibleParse, Seen, Entered, Shows, OccursAt, Run;
    var s, c := chs[i].start, chs[hit.index];
    NextStartOccurs(chs, x, 0);
    TakenDone(chs, x, v);
    StartShown(chs, i);
    StartRun(chs, i);
    assert Visible(AtDone(chs, Outside, [x, v])) == [];
    assert |Chars("", x[..hit.pos])| == 0;
    assert x[0..] == x && x[..0] == "" && [] + VisibleInside(chs, c, v) == VisibleInside(chs, c, v);
    assert Chars("", x[..0]) + [Opened(c.name, c.start)] == [Opened(c.name, c.start)];
    TakenThen(chs, x, v);
    FeedOne(chs, Outside, s);
    forall w ensures Shows(chs, Entered(chs, c, v), w) == Shows(chs, Entered(chs, chs[i], ""), w) {
      SameShown(chs, [x, v], [s], w);
      OpenedShows(chs, c, Entered(chs, c, v), w);
      OpenedShows(chs, chs[i], Entered(chs, chs[i], ""), w);
    }
    SameState(chs, c, v, chs[i]);
  }

  lemma OpenedShows(chs: seq<Channel>, c: Channel, o: Outcome, w: string)
    requires Startable(chs)
    ensures Shows(chs, Prepend([Opened(c.name, c.start)], o), w) == Shows(chs, o, w)
  {
    hide Visible, Shows;
    ShowsPrepend(chs, [Opened(c.name, c.start)], o, w);
    VisibleHead("", c);
    assert Chars("", "") + [Opened(c.name, c.start)] == [Opened(c.name, c.start)];
    assert [] + Shows(chs, o, w) == Shows(chs, o, w);
  }

  /** A start cut where another one ends must not show it. */
  lemma {:induction false} NeedsUnseen(chs: seq<Channel>, i: nat, n: nat)
    requires Startable(chs) && FenceFirst(chs) && DeliversParse(chs)
    requires i < |chs| && n < |chs[i].start| && !Shadowed(chs, i)
    ensures CutUnseen(chs, i, n)
  {
    hide NextStart, Seen, Entered, Visible, VisibleParse, AtDone, Shadowed, Concat;
    var s := chs[i].start;
    if NextStart(chs, s[..n], 0).Some? {
      var hit := NextStart(chs, s[..n], 0).value;
      TakenWhereItEnds(chs, s[..n]);
      var e := hit.pos + |chs[hit.index].start|;
      var x, v := s[..e], s[e..];
      assert s[..n][..e] == x && s == x + v;
      if chs[hit.index].name == "" {
        FenceInsideShows(chs, i, x, v, hit);
        StartShown(chs, i);
        TwoParts(chs, x, v);
        assert false;
      }
      if chs[i].name == "" {
        FenceCutShows(chs, x, v, hit);
        assert false;
      }
      NamedCutUnseen(chs, i, x, v, hit);
    }
  }

  lemma TwoParts(chs: seq<Channel>, x: string, v: string)
    requires Startable(chs)
    ensures Concat([x, v]) == x + v
  {
    FeedTwo(chs, Outside, x, v);
  }

  /** What is delivered does not depend on how the response was cut exactly if no start delimiter shows
      where it was cut. */
  lemma DeliversParseIffVisiblyStable(chs: seq<Channel>)
    requires Startable(chs) && FenceFirst(chs)
    ensures DeliversParse(chs) <==> VisiblyStable(chs)
  {
    hide AtDone, VisibleParse, Visible, CutUnseen, Shadowed;
    if VisiblyStable(chs) {
      forall mode, chunks | ModeOk(mode)
        ensures Visible(AtDone(chs, mode, chunks)) == VisibleParse(chs, mode, Concat(chunks))
      {
        SeenAtDone(chs, mode, chunks);
      }
    }
    if DeliversParse(chs) {
      forall i, n | 0 <= i < |chs| && 0 <= n < |chs[i].start| && !Shadowed(chs, i) ensures CutUnseen(chs, i, n) {
        NeedsUnseen(chs, i, n);
      }
    }
  }

  // ---- a condition that is easier to check ----------------------------------------------------

  /** If no start ends strictly inside another one that can win, no cut shows. */
  lemma StableIsVisiblyStable(chs: seq<Channel>)
    requires Startable(chs) && Stable(chs)
    ensures VisiblyStable(chs)
  {
    hide NextStart;
    forall i, n | 0 <= i < |chs| && 0 <= n < |chs[i].start| && !Shadowed(chs, i) ensures CutUnseen(chs, i, n) {
      var s := chs[i].start;
      NextStartIsFirst(chs, s[..n], 0);
      assert s == s[..n] + s[n..];
      if NextStart(chs, s[..n], 0).Some? {
        var hit := NextStart(chs, s[..n], 0).value;
        OccursInPrefix(s[..n], s[n..], chs[hit.index].start, hit.pos);
        assert false;
      }
    }
  }

  /** No two channels have the same name and the same end, and all have an end. */
  predicate ToldApart(chs: seq<Channel>) {
    && (forall i :: 0 <= i < |chs| ==> chs[i].end != "")
    && (forall i, j :: 0 <= i < j < |chs| && chs[i].name == chs[j].name ==> chs[i].end != chs[j].end)
  }

  /** Nothing shown of a text read inside a channel, and the scanner inside a channel at its end:
      then that is one entered in the text. */
  lemma {:induction false} EnteredAnew(chs: seq<Channel>, c: Channel, v: string)
    requires Startable(chs) && c.name != "" && v != ""
    requires Visible(Entered(chs, c, v).trace) == [] && Entered(chs, c, v).rest == ""
    ensures EnteredIn(chs, v, Entered(chs, c, v).mode)
  {
    hide Run, Visible, EnteredIn;
    var turn := TurnInside(c.name, c.end, 0, v);
    if turn.Next? {
      RunEnters(chs, turn.rest);
      EnteredInLonger(chs, turn.rest, v, Run(chs, Outside, turn.rest).mode);
    } else {
      SomethingLeft(c, v);
    }
  }

  lemma SomethingLeft(c: Channel, v: string)
    requires c.name != "" && v != "" && TurnInside(c.name, c.end, 0, v).Break?
    ensures var o := TurnInside(c.name, c.end, 0, v).last; Visible(o.trace) != [] || o.rest != ""
  {
    var safe := |v| - Overlap(v, c.end);
    VisibleChars(c.name, v[..safe]);
    assert |Chars(c.name, v[..safe])| == safe;
  }

  lemma EnteredInLonger(chs: seq<Channel>, u: string, t: string, mode: Mode)
    requires EnteredIn(chs, u, mode) && |u| <= |t|
    ensures EnteredIn(chs, t, mode)
  {
  }

  /** For channels told apart by name and end, and with ends: what is delivered does not depend on how the
      response was cut exactly if no start ends strictly inside another one that can win. */
  lemma {:induction false} DeliversParseIffStable(chs: seq<Channel>)
    requires Startable(chs) && FenceFirst(chs) && ToldApart(chs)
    ensures DeliversParse(chs) <==> Stable(chs)
  {
    hide DeliversParse, CutUnseen, VisiblyStable, NextStart, Entered, Visible, Shadowed;
    DeliversParseIffVisiblyStable(chs);
    if Stable(chs) { StableIsVisiblyStable(chs); }
    if VisiblyStable(chs) {
      forall i, m, k | 0 <= i < |chs| && 0 <= m < |chs| && OccursAt(chs[i].start, chs[m].start, k)
                       && k + |chs[m].start| < |chs[i].start|
        ensures Shadowed(chs, i)
      {
        if !Shadowed(chs, i) { CompleteStartShows(chs, i, m, k); }
      }
    }
  }

  lemma {:induction false} CompleteStartShows(chs: seq<Channel>, i: nat, m: nat, k: nat)
    requires Startable(chs) && ToldApart(chs) && VisiblyStable(chs) && i < |chs| && m < |chs|
    requires OccursAt(chs[i].start, chs[m].start, k) && k + |chs[m].start| < |chs[i].start|
    ensures Shadowed(chs, i)
  {
    hide CutUnseen, VisiblyStable, NextStart, Entered, Shadowed;
    var s, n := chs[i].start, k + |chs[m].start|;
    if !Shadowed(chs, i) {
      assert s == s[..n] + s[n..];
      OccursInPrefix(s[..n], s[n..], chs[m].start, k);
      NextStartIsFirst(chs, s[..n], 0);
      var hit := NextStart(chs, s[..n], 0).value;
      var c := chs[hit.index];
      NextStartOccurs(chs, s[..n], 0);
      StableCut(chs, i, n);
      CutOfUnseen(chs, i, n, hit.index);
      EnteredIs(chs, chs[i]);
      EnteredAnew(chs, c, s[|c.start|..]);
      assert false;
    }
  }

  /** That the channels are told apart is needed: here the first start is taken for the second
      when it is cut, and still the user sees the same, because the third channel has the name and
      the end of the first. */
  lemma {:induction false} SharedChannel(x: string, p: string)
    requires x != "" && p != ""
    ensures var chs := [Channel(x, "<>A", "E"), Channel(p, "<", ">"), Channel(x, "A", "E")];
            && Startable(chs) && FenceFirst(chs) && DeliversParse(chs) && !Stable(chs)
  {
    hide DeliversParse, CutUnseen, Entered, Finish, NextStart;
    var chs := [Channel(x, "<>A", "E"), Channel(p, "<", ">"), Channel(x, "A", "E")];
    assert OccursAt("<>A", "<", 0) && !Shadowed(chs, 0);
    assert !Stable(chs) by { assert OccursAt(chs[0].start, chs[1].start, 0); }
    forall i, n | 0 <= i < |chs| && 0 <= n < |chs[i].start| ensures CutUnseen(chs, i, n) {
      NextStartIsFirst(chs, chs[i].start[..n], 0);
      if n == 0 { NothingInEmpty(chs, i); } else { SharedCut(chs, n); }
    }
    DeliversParseIffVisiblyStable(chs);
  }

  lemma NothingInEmpty(chs: seq<Channel>, i: nat)
    requires Startable(chs) && i < |chs|
    ensures CutUnseen(chs, i, 0)
  {
    hide NextStart;
    NextStartIsFirst(chs, chs[i].start[..0], 0);
  }

  /** The channels of `SharedChannel`. */
  predicate Sharing(chs: seq<Channel>) {
    && |chs| == 3 && chs[0].name != "" && chs[1].name != ""
    && chs[0] == Channel(chs[0].name, "<>A", "E")
    && chs[1] == Channel(chs[1].name, "<", ">")
    && chs[2] == Channel(chs[0].name, "A", "E")
  }

  lemma {:induction false} SharedCut(chs: seq<Channel>, n: nat)
    requires Startable(chs) && Sharing(chs) && 0 < n < 3
    ensures CutUnseen(chs, 0, n)
  {
    hide NextStart, Run, Visible, Entered;
    var t := "<>A"[..n];
    assert t[0..1] == "<" && OccursAt(t, "<", 0) && !OccursAt(t, "<>A", 0);
    FirstStartIsNext(chs, t, 0, Hit(0, 1));
    assert "<>A"[1..] == ">A";
    EnteredIs(chs, chs[0]);
    SharedEntered(chs);
    var left, begun := Closed(chs[1].name, ">"), Opened(chs[2].name, "A");
    VisibleWithDelimiter([left], begun);
    VisibleWithDelimiter([], left);
    assert [] + [left] == [left];
  }

  lemma {:induction false} SharedEntered(chs: seq<Channel>)
    requires Startable(chs) && Sharing(chs)
    ensures Entered(chs, chs[1], ">A") ==
            Outcome([Closed(chs[1].name, ">")] + [Opened(chs[2].name, "A")], Inside(chs[2].name, "E", 0), "")
  {
    hide NextStart, Run, Find, OccursAt;
    var v, c := ">A", chs[1];
    FoundHere(v, ">");
    assert v[1..] == "A" && v[..0] == "" && Chars(c.name, "") == [];
    assert [] + [Closed(c.name, ">")] == [Closed(c.name, ">")];
    assert TurnInside(c.name, ">", 0, v) == Next([Closed(c.name, ">")], "A");
    SharedRun(chs);
  }

  lemma {:induction false} SharedRun(chs: seq<Channel>)
    requires Startable(chs) && Sharing(chs)
    ensures Run(chs, Outside, "A") == Outcome([Opened(chs[2].name, "A")], Inside(chs[2].name, "E", 0), "")
  {
    hide NextStart, Run, Entered;
    assert OccursAt("A", "A", 0) && !OccursAt("A", "<", 0) && !OccursAt("A", "<>A", 0);
    FirstStartIsNext(chs, "A", 0, Hit(0, 2));
    RunStarts(chs, "A");
    assert "A"[0..] == "A" && "A"[1..] == "" && Chars("", "A"[..0]) == [];
    NamedAtStart(chs, chs[2], "A");
    EnteredIs(chs, chs[2]);
    var begun := Opened(chs[2].name, "A");
    assert [] + [begun] == [begun] && [begun] + [] == [begun];
  }

  lemma FoundHere(t: string, pat: string)
    requires pat <= t
    ensures Find(t, pat, 0) == Some(0)
  {
  }
}
