/** A conversation told as one text that grows, without session, rewinding or checkpoints; and the theorem
    that the conversation with them does the same, in every run and whatever the template. */
module ConversationRuns {
  import opened Strings
  import opened ConversationModel
  import S = SessionBasic

  /** Before which message of the history the text was marked, and the text. */
  datatype Mark = Mark(place: nat, text: string)

  /** `cache` is all the model has seen; `channels`: it may have channel content since the mark. */
  datatype Story = Story(history: seq<Message>, cache: string, mark: Option<Mark>, channels: bool) {
    predicate Ok() { mark.Some? ==> mark.value.place <= |history| }
  }

  /** The text that the prompt after `h` must begin with, and does not bring again. */
  function Told(cfg: Config, h: seq<Message>): string {
    if h == [] && (!cfg.prefillPreface || cfg.emptyPreface) then "" else cfg.render(h, false)
  }

  /** The history with the message, or with all those of the array. */
  function Heard(h: seq<Message>, input: Input): seq<Message> {
    if input.One? then h + [input.message] else h + input.messages
  }

  function Prompt(cfg: Config, s: Story, turn: Turn): string {
    cfg.render(Heard(s.history, turn.input), true)
  }

  /** A user message before which the channel content is to be taken out. */
  predicate Cleans(cfg: Config, s: Story, turn: Turn) {
    cfg.filterChannels && turn.input.One? && turn.input.message.fromUser && s.channels && s.mark.Some?
  }

  /** The text from which the cache is completed again, and whether the history still begins with it. */
  function Kept(cfg: Config, s: Story): string
    requires s.Ok() && s.mark.Some?
  {
    if s.mark.value.place == 0 && !cfg.prefillPreface then "" else cfg.render(s.history[..s.mark.value.place], false)
  }

  function Ends(cfg: Config, s: Story, turn: Turn): Fate
    requires s.Ok()
  {
    if !(Told(cfg, s.history) <= Prompt(cfg, s, turn)) then Refused
    else if Cleans(cfg, s, turn) && !(Kept(cfg, s) <= cfg.render(s.history, false)) then Unanswered
    else Answered
  }

  /** The cache before the prompt: that of the mark and the history rendered on from there, if channel
      content is taken out; else as it is. */
  function Cleaned(cfg: Config, s: Story, turn: Turn): string
    requires s.Ok() && Ends(cfg, s, turn).Answered?
  {
    if Cleans(cfg, s, turn) then s.mark.value.text + cfg.render(s.history, false)[|Kept(cfg, s)|..] else s.cache
  }

  function Tell(cfg: Config, s: Story, turn: Turn): (r: Story)
    requires s.Ok()
    ensures r.Ok()
  {
    var told := Heard(s.history, turn.input);
    match Ends(cfg, s, turn)
    case Refused => s
    case Unanswered => s.(history := told, cache := s.mark.value.text)
    case Answered =>
      var m := cfg.parse(turn.reply);
      var marks := cfg.filterChannels && turn.input.One? && turn.input.message.fromUser;
      Story(told + [m],
            Cleaned(cfg, s, turn) + Prompt(cfg, s, turn)[|Told(cfg, s.history)|..] + turn.reply,
            if marks then Some(Mark(|s.history|, Cleaned(cfg, s, turn))) else s.mark,
            (s.channels && !marks) || (cfg.filterChannels && m.hasChannels))
  }

  function Begin(cfg: Config): (s: Story)
    ensures s.Ok()
  {
    Story([], if cfg.prefillPreface && !cfg.emptyPreface then cfg.render([], false) else "", None, false)
  }

  function TellAll(cfg: Config, turns: seq<Turn>): (s: Story)
    ensures s.Ok()
  {
    if turns == [] then Begin(cfg) else Tell(cfg, TellAll(cfg, turns[..|turns| - 1]), turns[|turns| - 1])
  }

  /** The conversation is where the story is: its session holds the text, its checkpoint the mark. */
  ghost predicate At(c: Conversation, s: Story) {
    && c.history == s.history && c.session.kv == s.cache && c.channelSinceUser == s.channels
    && (s.mark.None? ==> c.checkpointIndex == None && c.session.checkpoints == map[])
    && (s.mark.Some? ==>
          && c.checkpointIndex == Some(s.mark.value.place)
          && c.session.checkpoints == map[CHANNEL_CHECKPOINT := |s.mark.value.text|]
          && s.mark.value.text <= s.cache)
  }

  // ---- the filtering step ----------------------------------------------------------------------

  lemma {:induction false} RewoundTo(cfg: Config, c: Conversation, s: Story, m: Message)
    requires s.Ok() && At(c, s) && s.mark.Some?
    ensures var told := c.(history := c.history + [m]);
            var (r, status, refill) := RewindAndRefill(cfg, told);
            && r.history == told.history && r.channelSinceUser == told.channelSinceUser
            && r.session.kv == s.mark.value.text && r.session.checkpoints == c.session.checkpoints
            && if Kept(cfg, s) <= cfg.render(s.history, false)
               then status == Ok && r.checkpointIndex == None
                    && refill == cfg.render(s.history, false)[|Kept(cfg, s)|..]
               else status == NotPrefix && r.checkpointIndex == told.checkpointIndex
  {
    var told, i := c.(history := c.history + [m]), s.mark.value.place;
    assert told.history[..i] == s.history[..i] && told.history[i..|told.history| - 1] == s.history[i..];
    assert s.history[..i] + s.history[i..] == s.history;
    var (session, status) := S.Apply(told.session, S.Rewind(CHANNEL_CHECKPOINT));
    assert session.checkpoints == c.session.checkpoints;
    assert "" <= cfg.render(s.history, false);
  }

  lemma {:induction false} FilteredTo(cfg: Config, c: Conversation, s: Story, turn: Turn)
    requires s.Ok() && At(c, s) && cfg.filterChannels && IsUser(turn.input)
    requires Told(cfg, s.history) <= Prompt(cfg, s, turn)
    ensures var told := c.(history := c.history + MessagesOf(turn.input));
            var (r, status) := Filter(cfg, told);
            && r.history == told.history
            && match Ends(cfg, s, turn)
               case Refused => false
               case Unanswered => status == NotPrefix && At(r, Tell(cfg, s, turn))
               case Answered =>
                 var clean := Cleaned(cfg, s, turn);
                 && status == Ok && !r.channelSinceUser && r.session.kv == clean
                 && r.checkpointIndex == Some(|s.history|)
                 && r.session.checkpoints == map[CHANNEL_CHECKPOINT := |clean|]
  {
    hide RewindAndRefill, Kept, Told;
    if c.channelSinceUser && s.mark.Some? {
      RewoundTo(cfg, c, s, turn.input.message);
      assert s.mark.value.text + "" == s.mark.value.text;
    } else if c.channelSinceUser {
      NotRewound(cfg, c.(history := c.history + MessagesOf(turn.input)));
    }
  }

  lemma NotRewound(cfg: Config, c: Conversation)
    requires c.checkpointIndex == None
    ensures RewindAndRefill(cfg, c) == (c, Ok, "")
  {
  }

  /** One turn of the conversation is one turn of the story. */
  lemma {:induction false} SendTells(cfg: Config, c: Conversation, s: Story, turn: Turn)
    requires s.Ok() && At(c, s)
    ensures var (r, status) := Send(cfg, c, turn.input, turn.reply);
            && At(r, Tell(cfg, s, turn))
            && FateOf(cfg, c, turn) == Ends(cfg, s, turn)
            && status == (if Ends(cfg, s, turn).Answered? then Ok else NotPrefix)
  {
    hide Filter, Kept;
    TextIs(cfg, c, s, turn);
    if Told(cfg, s.history) <= Prompt(cfg, s, turn) {
      if cfg.filterChannels && IsUser(turn.input) {
        FilteredTo(cfg, c, s, turn);
      }
      if Ends(cfg, s, turn).Answered? {
        var told := c.(history := c.history + MessagesOf(turn.input));
        var ready := if cfg.filterChannels && IsUser(turn.input) then Filter(cfg, told).0 else told;
        var text := Prompt(cfg, s, turn)[|Told(cfg, s.history)|..];
        assert ready.session.kv == Cleaned(cfg, s, turn);
        assert ready.session.kv + text + turn.reply == (ready.session.kv + text) + turn.reply;
      }
    }
  }

  lemma {:induction false} TextIs(cfg: Config, c: Conversation, s: Story, turn: Turn)
    requires c.history == s.history
    ensures TurnText(cfg, c.history, turn.input) ==
            if Told(cfg, s.history) <= Prompt(cfg, s, turn) then Some(Prompt(cfg, s, turn)[|Told(cfg, s.history)|..])
            else None
  {
    var whole := Prompt(cfg, s, turn);
    assert whole[0..] == whole && "" <= whole;
  }

  // ---- every run ---------------------------------------------------------------------------------

  /** In every run, with any template, filtering or not, refused and unanswered messages included: the
      history, all of the session's text, the mark and the flag are those of the story. */
  lemma {:induction false} RunIsTold(cfg: Config, turns: seq<Turn>)
    ensures At(RunTurns(cfg, turns), TellAll(cfg, turns))
  {
    hide Send, Tell;
    if turns == [] {
      assert "" + cfg.render([], false) == cfg.render([], false);
    } else {
      var n := |turns| - 1;
      RunIsTold(cfg, turns[..n]);
      SendTells(cfg, RunTurns(cfg, turns[..n]), TellAll(cfg, turns[..n]), turns[n]);
    }
  }

  /** How a turn without filtering continues history and text. */
  ghost predicate Continues(cfg: Config, h: seq<Message>, text: string, turn: Turn, h': seq<Message>, text': string) {
    var prompt := cfg.render(Heard(h, turn.input), true);
    var known := if h == [] && (!cfg.prefillPreface || cfg.emptyPreface) then "" else cfg.render(h, false);
    if known <= prompt then
      h' == Heard(h, turn.input) + [cfg.parse(turn.reply)] && text' == text + prompt[|known|..] + turn.reply
    else
      h' == h && text' == text
  }

  /** Without filtering: the session holds the prefilled preface and then, for each turn that is not
      refused, in order, what its prompt adds and the raw reply; the history is every such message and
      reply; there is never a checkpoint. */
  lemma {:induction false} UnfilteredRun(cfg: Config, turns: seq<Turn>)
      returns (hs: seq<seq<Message>>, texts: seq<string>)
    requires !cfg.filterChannels
    ensures |hs| == |texts| == |turns| + 1
    ensures hs[0] == [] && texts[0] == if cfg.prefillPreface && !cfg.emptyPreface then cfg.render([], false) else ""
    ensures forall k :: 0 <= k < |turns| ==> Continues(cfg, hs[k], texts[k], turns[k], hs[k + 1], texts[k + 1])
    ensures var c := RunTurns(cfg, turns);
            && c.history == hs[|turns|] && c.session.kv == texts[|turns|]
            && c.checkpointIndex == None && c.session.checkpoints == map[] && !c.channelSinceUser
  {
    hide RunTurns, Continues;
    RunIsTold(cfg, turns);
    Unmarked(cfg, turns);
    if turns == [] {
      hs, texts := [[]], [Begin(cfg).cache];
    } else {
      var n := |turns| - 1;
      hs, texts := UnfilteredRun(cfg, turns[..n]);
      var before, after := TellAll(cfg, turns[..n]), TellAll(cfg, turns);
      Unmarked(cfg, turns[..n]);
      RunIsTold(cfg, turns[..n]);
      UnfilteredTurn(cfg, before, turns[n]);
      hs, texts := hs + [after.history], texts + [after.cache];
      assert forall k :: 0 <= k < n ==> turns[..n][k] == turns[k];
    }
  }

  lemma {:induction false} UnfilteredTurn(cfg: Config, s: Story, turn: Turn)
    requires s.Ok() && !cfg.filterChannels
    ensures var r := Tell(cfg, s, turn); Continues(cfg, s.history, s.cache, turn, r.history, r.cache)
  {
  }

  lemma {:induction false} Unmarked(cfg: Config, turns: seq<Turn>)
    requires !cfg.filterChannels
    ensures TellAll(cfg, turns).mark == None && !TellAll(cfg, turns).channels
  {
    hide Told;
    if turns != [] { Unmarked(cfg, turns[..|turns| - 1]); }
  }

  /** Filtering or not, in every run: an answered turn whose cache was the rendered history, once channel
      content had been taken out if it was to be, leaves the whole prompt and the raw reply in it. */
  lemma {:induction false} AnsweredCache(cfg: Config, turns: seq<Turn>, turn: Turn)
    requires PrefaceAccounted(cfg) && FateAt(cfg, turns + [turn], |turns|).Answered?
    requires var c := RunTurns(cfg, turns);
             if cfg.filterChannels && IsUser(turn.input) && c.channelSinceUser && c.checkpointIndex.Some?
             then HasCheckpoint(cfg, c) else c.session.kv == Rendered(cfg, c.history)
    ensures var c := RunTurns(cfg, turns);
            RunTurns(cfg, turns + [turn]).session.kv ==
            cfg.render(Heard(c.history, turn.input), true) + turn.reply
  {
    hide Send, Tell;
    var c, s := RunTurns(cfg, turns), TellAll(cfg, turns);
    assert (turns + [turn])[..|turns|] == turns;
    RunIsTold(cfg, turns);
    SendTells(cfg, c, s, turn);
    CleanedIs(cfg, c, s, turn);
    TellsAnswer(cfg, s, turn);
    assert Told(cfg, s.history) + Prompt(cfg, s, turn)[|Told(cfg, s.history)|..] == Prompt(cfg, s, turn);
  }

  lemma {:induction false} TellsAnswer(cfg: Config, s: Story, turn: Turn)
    requires s.Ok() && Ends(cfg, s, turn).Answered?
    ensures Tell(cfg, s, turn).cache ==
            Cleaned(cfg, s, turn) + Prompt(cfg, s, turn)[|Told(cfg, s.history)|..] + turn.reply
  {
    hide Told;
  }

  lemma {:induction false} CleanedIs(cfg: Config, c: Conversation, s: Story, turn: Turn)
    requires PrefaceAccounted(cfg) && s.Ok() && At(c, s) && Ends(cfg, s, turn).Answered?
    requires if cfg.filterChannels && IsUser(turn.input) && c.channelSinceUser && c.checkpointIndex.Some?
             then HasCheckpoint(cfg, c) else c.session.kv == Rendered(cfg, c.history)
    ensures Cleaned(cfg, s, turn) == Told(cfg, s.history)
  {
    if Cleans(cfg, s, turn) {
      var kept, whole := Kept(cfg, s), cfg.render(s.history, false);
      assert s.mark.value.text == s.cache[..|s.mark.value.text|] == kept;
      assert kept + whole[|kept|..] == whole;
    }
  }

  /** Without filtering and without channel content in any reply, the session holds the rendered history. */
  lemma {:induction false} UnfilteredRendered(cfg: Config, turns: seq<Turn>)
    requires !cfg.filterChannels && RendersAsDecoded(cfg) && PrefaceAccounted(cfg)
    requires forall k :: 0 <= k < |turns| ==> !cfg.parse(turns[k].reply).hasChannels
    ensures RunTurns(cfg, turns).session.kv == Rendered(cfg, RunTurns(cfg, turns).history)
  {
    hide Send, RendersAsDecoded, PrefaceAccounted, Rendered, RunTurns, Create, TellAll, FateOf;
    if turns == [] {
      RunMore(cfg, [], Turn(Many([]), ""));
      CreateKeeps(cfg);
      CreateClean(cfg);
    } else {
      var n := |turns| - 1;
      var before, turn := turns[..n], turns[n];
      assert before + [turn] == turns;
      UnfilteredRendered(cfg, before);
      RunMore(cfg, before, turn);
      RunIsTold(cfg, before);
      UnfilteredTurnRendered(cfg, before, turn);
    }
  }

  lemma CreateClean(cfg: Config)
    ensures !Create(cfg).channelSinceUser
  {
  }

  lemma {:induction false} UnfilteredTurnRendered(cfg: Config, before: seq<Turn>, turn: Turn)
    requires !cfg.filterChannels && RendersAsDecoded(cfg) && PrefaceAccounted(cfg) && !cfg.parse(turn.reply).hasChannels
    requires var c := RunTurns(cfg, before); c.session.kv == Rendered(cfg, c.history)
    ensures var c := RunTurns(cfg, before + [turn]); c.session.kv == Rendered(cfg, c.history)
  {
    hide Send, RendersAsDecoded, PrefaceAccounted, RunTurns, TellAll, Ends;
    var c, s := RunTurns(cfg, before), TellAll(cfg, before);
    var h := Heard(c.history, turn.input);
    RunMore(cfg, before, turn);
    RunIsTold(cfg, before);
    SendTells(cfg, c, s, turn);
    assert (before + [turn])[..|before|] == before;
    if Ends(cfg, s, turn).Answered? {
      AnsweredCache(cfg, before, turn);
      AsDecoded(cfg, h, turn.reply);
    } else {
      NotFiltered(cfg, s, turn);
    }
  }

  lemma NotFiltered(cfg: Config, s: Story, turn: Turn)
    requires s.Ok() && !cfg.filterChannels
    ensures !Ends(cfg, s, turn).Unanswered?
  {
    hide Told;
  }

  lemma AsDecoded(cfg: Config, h: seq<Message>, reply: string)
    requires RendersAsDecoded(cfg) && !cfg.parse(reply).hasChannels
    ensures cfg.render(h, true) + reply == cfg.render(h + [cfg.parse(reply)], false)
  {
  }

  /** A clone goes on with history and text, but without the mark and the note of channel content. */
  lemma CloneIsTold(c: Conversation, s: Story)
    requires At(c, s)
    ensures At(CloneOf(c), s.(mark := None, channels := false)) && CloneOf(c).session.phase == c.session.phase
  {
  }
}
