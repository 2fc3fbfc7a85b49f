/** What sending a message does to a conversation's history and to its session's cache, and the
    theorem that the filtered cache refines the rendered history. */
module ConversationModel {
  import opened Strings
  import S = SessionBasic

  datatype Message = Message(fromUser: bool, hasChannels: bool, content: string)

  /** A message, or an array of messages. */
  datatype Input = One(message: Message) | Many(messages: seq<Message>)

  /** `render(messages, generate)` is the prompt template applied to the preface and the messages;
      `parse` is the complete message made from a raw response. */
  datatype Config = Config(render: (seq<Message>, bool) -> string, parse: string -> Message,
                           filterChannels: bool, prefillPreface: bool, emptyPreface: bool)

  datatype Conversation = Conversation(history: seq<Message>, checkpointIndex: Option<nat>,
                                       channelSinceUser: bool, session: S.State)

  datatype Status = Ok | NotPrefix | SessionError(status: S.Status)

  const CHANNEL_CHECKPOINT: string := "channel_content_checkpoint"

  function MessagesOf(input: Input): seq<Message> {
    match input case One(m) => [m] case Many(ms) => ms
  }

  /** An array is not a user message, whatever it holds. */
  predicate IsUser(input: Input) {
    input.One? && input.message.fromUser
  }

  // ---- the texts sent to the session ---------------------------------------------------------

  /** What `to` has beyond `from`, if it begins with it. */
  function Difference(from: string, to: string): Option<string> {
    if from <= to then Some(to[|from|..]) else None
  }

  /** The prompt text of a turn, from the full history. */
  function TurnText(cfg: Config, history: seq<Message>, input: Input): Option<string> {
    var whole := cfg.render(history + MessagesOf(input), true);
    if history == [] && !cfg.prefillPreface then Some(whole)
    else Difference(if cfg.emptyPreface && history == [] then "" else cfg.render(history, false), whole)
  }

  /** The prefill text that takes the session from the messages `older` on to the messages `newer`. */
  function PrefillText(cfg: Config, older: seq<Message>, newer: seq<Message>, includePreface: bool): Option<string> {
    Difference(if older != [] || !includePreface then cfg.render(older, false) else "",
               cfg.render(older + newer, false))
  }

  // ---- one turn ---------------------------------------------------------------------------------

  /** The session rewound to the checkpoint, and what has to be put back into it; the index is
      forgotten.  Without an index nothing happens. */
  function RewindAndRefill(cfg: Config, c: Conversation): (Conversation, Status, string) {
    if c.checkpointIndex.None? || c.checkpointIndex.value >= |c.history| then (c, Ok, "")
    else
      var i := c.checkpointIndex.value;
      var (session, status) := S.Apply(c.session, S.Rewind(CHANNEL_CHECKPOINT));
      if status != S.Ok then (c, SessionError(status), "")
      else
        match PrefillText(cfg, c.history[..i], c.history[i..|c.history| - 1], !cfg.prefillPreface)
        case None => (c.(session := session), NotPrefix, "")
        case Some(text) => (c.(session := session, checkpointIndex := None), Ok, text)
  }

  function OnSession(c: Conversation, op: S.Op): Conversation {
    c.(session := S.Apply(c.session, op).0)
  }

  /** The filtering step of a user message, the message being the last of the history: channel
      content is taken out of the session by rewinding and refilling, and a new checkpoint is saved. */
  function Filter(cfg: Config, c: Conversation): (Conversation, Status)
    requires c.history != []
  {
    var (rewound, status, refill) := if c.channelSinceUser then RewindAndRefill(cfg, c) else (c, Ok, "");
    if status != Ok then (rewound, status)
    else
      var cleared := rewound.(channelSinceUser := false);
      var refilled := if refill == "" then cleared else OnSession(cleared, S.Prefill(refill));
      var last: nat := |c.history| - 1;
      (OnSession(refilled, S.Save(CHANNEL_CHECKPOINT)).(checkpointIndex := Some(last)), Ok)
  }

  /** Prefill of the turn's text, the raw response decoded, and the complete message recorded. */
  function Answer(cfg: Config, c: Conversation, text: string, reply: string): Conversation {
    var decoded := OnSession(OnSession(c, S.Prefill(text)), S.Decode(reply));
    var m := cfg.parse(reply);
    decoded.(history := c.history + [m],
             channelSinceUser := c.channelSinceUser || (cfg.filterChannels && m.hasChannels))
  }

  /** `SendMessage`, with the raw text the model answers. */
  function Send(cfg: Config, c: Conversation, input: Input, reply: string): (Conversation, Status) {
    match TurnText(cfg, c.history, input)
    case None => (c, NotPrefix)
    case Some(text) =>
      var told := c.(history := c.history + MessagesOf(input));
      var (filtered, status) := if cfg.filterChannels && IsUser(input) then Filter(cfg, told) else (told, Ok);
      if status != Ok then (filtered, status) else (Answer(cfg, filtered, text, reply), Ok)
  }

  /** A new conversation; the preface may already be in the session. */
  function Create(cfg: Config): Conversation {
    var c := Conversation([], None, false, S.Init());
    if cfg.prefillPreface && !cfg.emptyPreface then OnSession(c, S.Prefill(cfg.render([], false))) else c
  }

  datatype Turn = Turn(input: Input, reply: string)

  function RunTurns(cfg: Config, turns: seq<Turn>): Conversation {
    if turns == [] then Create(cfg)
    else
      var n := |turns| - 1;
      Send(cfg, RunTurns(cfg, turns[..n]), turns[n].input, turns[n].reply).0
  }

  // ---- what the texts complete ----------------------------------------------------------------------

  /** A reply without channel content is rendered just as it was decoded. */
  ghost predicate RendersAsDecoded(cfg: Config) {
    forall h, reply {:trigger cfg.render(h + [cfg.parse(reply)], false)} ::
      !cfg.parse(reply).hasChannels ==> cfg.render(h, true) + reply == cfg.render(h + [cfg.parse(reply)], false)
  }

  /** An empty preface renders to nothing, if it counts as prefilled. */
  predicate PrefaceAccounted(cfg: Config) {
    cfg.prefillPreface && cfg.emptyPreface ==> cfg.render([], false) == ""
  }

  /** The text a session without channel content holds after `h`. */
  function Rendered(cfg: Config, h: seq<Message>): string {
    if h == [] && !cfg.prefillPreface then "" else cfg.render(h, false)
  }

  /** The turn's text is there exactly if the rendered prompt begins with the rendered history, and
      brings a faithful session to that prompt. */
  lemma TurnTextCompletes(cfg: Config, h: seq<Message>, input: Input)
    requires PrefaceAccounted(cfg)
    ensures var text, whole := TurnText(cfg, h, input), cfg.render(h + MessagesOf(input), true);
            && (text.Some? <==> Rendered(cfg, h) <= whole)
            && (text.Some? ==> Rendered(cfg, h) + text.value == whole)
  {
    var whole := cfg.render(h + MessagesOf(input), true);
    assert "" + whole == whole && whole[0..] == whole;
  }

  /** The refill text is there exactly if the rendered history begins with that of the older
      messages, and brings the session from the one to the other. */
  lemma PrefillTextCompletes(cfg: Config, older: seq<Message>, newer: seq<Message>)
    requires newer != []
    ensures var text, whole := PrefillText(cfg, older, newer, !cfg.prefillPreface), Rendered(cfg, older + newer);
            && (text.Some? <==> Rendered(cfg, older) <= whole)
            && (text.Some? ==> Rendered(cfg, older) + text.value == whole)
  {
    var whole := cfg.render(older + newer, false);
    assert "" + whole == whole && whole[0..] == whole;
  }

  // ---- what every turn keeps, answered or refused ----------------------------------------------------

  ghost predicate HasCheckpoint(cfg: Config, c: Conversation)
    requires c.checkpointIndex.Some?
  {
    var i, marks := c.checkpointIndex.value, c.session.checkpoints;
    && i < |c.history| && c.history[i].fromUser
    && CHANNEL_CHECKPOINT in marks && marks[CHANNEL_CHECKPOINT] <= |c.session.kv|
    && c.session.kv[..marks[CHANNEL_CHECKPOINT]] == Rendered(cfg, c.history[..i])
  }

  /** The checkpoint is the rendering of what precedes its user message; and unless channel content
      has come since, the whole cache is the rendered history. */
  ghost predicate Kept(cfg: Config, c: Conversation) {
    && (c.checkpointIndex.Some? ==> HasCheckpoint(cfg, c))
    && (!c.channelSinceUser ==> c.session.kv == Rendered(cfg, c.history))
    && (c.channelSinceUser ==> c.checkpointIndex.Some?)
  }

  /** A refill is due, and the history is no longer rendered as what the checkpoint holds and more. */
  predicate RefillFails(cfg: Config, c: Conversation) {
    && c.channelSinceUser && c.checkpointIndex.Some? && c.checkpointIndex.value <= |c.history|
    && !(Rendered(cfg, c.history[..c.checkpointIndex.value]) <= Rendered(cfg, c.history))
  }

  /** After the filtering step of a user message: a clean session, checkpointed there. */
  ghost predicate Ready(cfg: Config, c: Conversation) {
    && c.history != [] && c.checkpointIndex == Some(|c.history| - 1)
    && c.session.kv == Rendered(cfg, c.history[..|c.history| - 1])
    && c.session.checkpoints.Keys >= {CHANNEL_CHECKPOINT}
    && c.session.checkpoints[CHANNEL_CHECKPOINT] == |c.session.kv|
    && !c.channelSinceUser
  }

  /** Without an answer: the message is in the history and the session is back at the checkpoint, which
      is still that of the earlier message. */
  ghost predicate BackAtCheckpoint(cfg: Config, c: Conversation, r: Conversation) {
    && c.checkpointIndex.Some? && c.checkpointIndex.value <= |c.history|
    && r.checkpointIndex == c.checkpointIndex && HasCheckpoint(cfg, r) && r.channelSinceUser
    && r.session.kv == Rendered(cfg, c.history[..c.checkpointIndex.value])
  }

  lemma FilterReady(cfg: Config, c: Conversation, m: Message)
    requires Kept(cfg, c) && m.fromUser
    ensures var told := c.(history := c.history + [m]);
            var (r, status) := Filter(cfg, told);
            && r.history == told.history
            && (RefillFails(cfg, c) ==> status == NotPrefix && BackAtCheckpoint(cfg, c, r))
            && (!RefillFails(cfg, c) ==> status == Ok && Ready(cfg, r))
  {
    hide Rendered;
    var told := c.(history := c.history + [m]);
    assert told.history[..|c.history|] == c.history;
    if c.channelSinceUser {
      var i := c.checkpointIndex.value;
      assert told.history[..i] == c.history[..i];
      assert told.history[i..|told.history| - 1] == c.history[i..];
      assert c.history[..i] + c.history[i..] == c.history;
      PrefillTextCompletes(cfg, c.history[..i], c.history[i..]);
    }
  }

  /** Prefilling and decoding at the end of the cache leaves the checkpoint as it is. */
  lemma AnswerKeepsCheckpoint(cfg: Config, c: Conversation, text: string, reply: string)
    requires c.checkpointIndex.Some? && HasCheckpoint(cfg, c)
    ensures HasCheckpoint(cfg, Answer(cfg, c, text, reply))
  {
    var i, mark := c.checkpointIndex.value, c.session.checkpoints[CHANNEL_CHECKPOINT];
    var r := Answer(cfg, c, text, reply);
    assert r.history[..i] == c.history[..i];
    assert r.session.kv[..mark] == c.session.kv[..mark];
  }

  lemma ReadyHasCheckpoint(cfg: Config, c: Conversation)
    requires Ready(cfg, c) && c.history[|c.history| - 1].fromUser
    ensures HasCheckpoint(cfg, c)
  {
    assert c.session.kv[..|c.session.kv|] == c.session.kv;
  }

  /** What becomes of a turn: its message is refused; or is recorded, but gets no answer, because the
      refill failed; or is answered. */
  datatype Fate = Refused | Unanswered | Answered

  function FateOf(cfg: Config, c: Conversation, turn: Turn): Fate {
    if TurnText(cfg, c.history, turn.input).None? then Refused
    else if Send(cfg, c, turn.input, turn.reply).1 != Ok then Unanswered
    else Answered
  }

  /** A message is refused exactly if the new prompt does not begin with the rendered history, and stays
      without an answer exactly if it is a user message whose refill fails. */
  lemma {:induction false} FateIff(cfg: Config, c: Conversation, turn: Turn)
    requires cfg.filterChannels && PrefaceAccounted(cfg) && Kept(cfg, c)
    ensures var prompt := cfg.render(c.history + MessagesOf(turn.input), true);
            FateOf(cfg, c, turn) ==
            if !(Rendered(cfg, c.history) <= prompt) then Refused
            else if IsUser(turn.input) && RefillFails(cfg, c) then Unanswered else Answered
  {
    hide Filter, HasCheckpoint, TurnText, Rendered, Kept, RefillFails, BackAtCheckpoint, Ready;
    TurnTextCompletes(cfg, c.history, turn.input);
    if IsUser(turn.input) { FilterReady(cfg, c, turn.input.message); }
  }

  /** What a turn without an answer leaves behind. */
  lemma {:induction false} FateLeaves(cfg: Config, c: Conversation, turn: Turn)
    requires cfg.filterChannels && PrefaceAccounted(cfg) && Kept(cfg, c)
    ensures var (r, status) := Send(cfg, c, turn.input, turn.reply);
            match FateOf(cfg, c, turn)
            case Refused => status == NotPrefix && r == c
            case Unanswered => status == NotPrefix && r.history == c.history + MessagesOf(turn.input)
                && BackAtCheckpoint(cfg, c, r)
            case Answered => status == Ok
  {
    hide Filter, HasCheckpoint, TurnText, Rendered, Kept, RefillFails, BackAtCheckpoint, Ready;
    if IsUser(turn.input) { FilterReady(cfg, c, turn.input.message); }
  }

  /** The conversation just before the prefill of an answered turn. */
  lemma {:induction false} ReadyToAnswer(cfg: Config, c: Conversation, turn: Turn)
    requires cfg.filterChannels && PrefaceAccounted(cfg) && Kept(cfg, c) && FateOf(cfg, c, turn).Answered?
    ensures var told := c.(history := c.history + MessagesOf(turn.input));
            var r := if IsUser(turn.input) then Filter(cfg, told).0 else told;
            && r.history == told.history
            && r.checkpointIndex == (if IsUser(turn.input) then Some(|c.history|) else c.checkpointIndex)
            && (r.checkpointIndex.Some? ==> HasCheckpoint(cfg, r))
            && (!r.channelSinceUser ==> r.session.kv == Rendered(cfg, c.history))
            && (r.channelSinceUser ==> c.channelSinceUser)
            && Send(cfg, c, turn.input, turn.reply).0 ==
               Answer(cfg, r, TurnText(cfg, c.history, turn.input).value, turn.reply)
  {
    hide TurnText, Rendered, RefillFails, Filter, Answer, BackAtCheckpoint;
    FateLeaves(cfg, c, turn);
    var told := c.(history := c.history + MessagesOf(turn.input));
    if IsUser(turn.input) {
      FilterReady(cfg, c, turn.input.message);
      var r := Filter(cfg, told).0;
      assert r.history[..|c.history|] == c.history;
      ReadyHasCheckpoint(cfg, r);
    } else if c.checkpointIndex.Some? {
      assert told.history[..c.checkpointIndex.value] == c.history[..c.checkpointIndex.value];
    }
  }

  /** A reply without channel content leaves the cache as rendered with it. */
  lemma AnswerRendered(cfg: Config, h: seq<Message>, ms: seq<Message>, text: string, c: Conversation, reply: string)
    requires RendersAsDecoded(cfg) && !cfg.parse(reply).hasChannels
    requires c.history == h + ms && c.session.kv == Rendered(cfg, h)
    requires Rendered(cfg, h) + text == cfg.render(h + ms, true)
    ensures var r := Answer(cfg, c, text, reply);
            r.session.kv == Rendered(cfg, r.history)
  {
    var m := cfg.parse(reply);
    assert cfg.render(h + ms, true) + reply == cfg.render((h + ms) + [m], false);
  }

  /** Every turn, whatever becomes of it, keeps the checkpoint right, if channel content does not come
      while there is none. */
  lemma {:induction false} SendKeeps(cfg: Config, c: Conversation, turn: Turn)
    requires cfg.filterChannels && RendersAsDecoded(cfg) && PrefaceAccounted(cfg) && Kept(cfg, c)
    requires FateOf(cfg, c, turn).Answered? && cfg.parse(turn.reply).hasChannels && !IsUser(turn.input) ==>
               c.checkpointIndex.Some?
    ensures var r := Send(cfg, c, turn.input, turn.reply).0;
            && Kept(cfg, r)
            && r.history == HistoryAfter(cfg, c.history, turn, FateOf(cfg, c, turn))
            && r.checkpointIndex ==
               if FateOf(cfg, c, turn).Answered? && IsUser(turn.input) then Some(|c.history|) else c.checkpointIndex
  {
    hide Filter, HasCheckpoint, TurnText, Rendered, Send, FateOf, RefillFails, RendersAsDecoded;
    FateLeaves(cfg, c, turn);
    if FateOf(cfg, c, turn).Answered? {
      var ms, h := MessagesOf(turn.input), c.history;
      TurnTextCompletes(cfg, h, turn.input);
      AnsweredHasText(cfg, c, turn);
      var text := TurnText(cfg, h, turn.input).value;
      ReadyToAnswer(cfg, c, turn);
      var told := c.(history := h + ms);
      var ready := if IsUser(turn.input) then Filter(cfg, told).0 else told;
      var r := Answer(cfg, ready, text, turn.reply);
      if r.checkpointIndex.Some? { AnswerKeepsCheckpoint(cfg, ready, text, turn.reply); }
      if !r.channelSinceUser { AnswerRendered(cfg, h, ms, text, ready, turn.reply); }
    }
  }

  lemma AnsweredHasText(cfg: Config, c: Conversation, turn: Turn)
    requires FateOf(cfg, c, turn).Answered?
    ensures TurnText(cfg, c.history, turn.input).Some?
  {
  }

  // ---- the refinement theorem, over all runs -----------------------------------------------------------

  function HistoryAfter(cfg: Config, h: seq<Message>, turn: Turn, fate: Fate): seq<Message> {
    match fate
    case Refused => h
    case Unanswered => h + MessagesOf(turn.input)
    case Answered => h + MessagesOf(turn.input) + [cfg.parse(turn.reply)]
  }

  function FateAt(cfg: Config, turns: seq<Turn>, k: nat): Fate
    requires k < |turns|
  {
    FateOf(cfg, RunTurns(cfg, turns[..k]), turns[k])
  }

  /** A user message that was answered. */
  predicate UserAnswered(cfg: Config, turns: seq<Turn>, k: nat)
    requires k < |turns|
  {
    IsUser(turns[k].input) && FateAt(cfg, turns, k).Answered?
  }

  /** The messages and replies recorded. */
  function HistoryOf(cfg: Config, turns: seq<Turn>): seq<Message> {
    if turns == [] then []
    else
      var n := |turns| - 1;
      HistoryAfter(cfg, HistoryOf(cfg, turns[..n]), turns[n], FateAt(cfg, turns, n))
  }

  /** The place in the history of the latest user message that was answered. */
  function LatestAnswered(cfg: Config, turns: seq<Turn>): Option<nat> {
    if turns == [] then None
    else
      var n := |turns| - 1;
      if UserAnswered(cfg, turns, n) then Some(|HistoryOf(cfg, turns[..n])|) else LatestAnswered(cfg, turns[..n])
  }

  /** The place in the history of the latest user message recorded. */
  function LatestRecorded(cfg: Config, turns: seq<Turn>): Option<nat> {
    if turns == [] then None
    else
      var n := |turns| - 1;
      if IsUser(turns[n].input) && !FateAt(cfg, turns, n).Refused? then Some(|HistoryOf(cfg, turns[..n])|)
      else LatestRecorded(cfg, turns[..n])
  }

  /** No reply with channel content has come before a user message was answered. */
  ghost predicate UserFirst(cfg: Config, turns: seq<Turn>) {
    forall k :: 0 <= k < |turns| && FateAt(cfg, turns, k).Answered? && cfg.parse(turns[k].reply).hasChannels ==>
      exists j :: 0 <= j <= k && UserAnswered(cfg, turns, j)
  }

  /** The conversation holds what was recorded; its checkpoint is that of the latest user message
      answered, with the cache as it was rendered before that message; and unless channel content
      has come since, the whole cache is the rendered history. */
  ghost predicate Refines(cfg: Config, turns: seq<Turn>, c: Conversation) {
    && c.history == HistoryOf(cfg, turns)
    && c.checkpointIndex == LatestAnswered(cfg, turns)
    && Kept(cfg, c)
  }

  /** KV refinement: in every run in which no channel content comes before a user message was
      answered, whatever messages were refused or left without an answer on the way. */
  lemma {:induction false} KvRefinement(cfg: Config, turns: seq<Turn>)
    requires cfg.filterChannels && RendersAsDecoded(cfg) && PrefaceAccounted(cfg)
    requires UserFirst(cfg, turns)
    ensures Refines(cfg, turns, RunTurns(cfg, turns))
  {
    hide Kept, Send, RendersAsDecoded, Create, PrefaceAccounted, IsUser, UserFirst, HistoryAfter, FateOf, MessagesOf;
    if turns == [] {
      CreateKeeps(cfg);
    } else {
      var n := |turns| - 1;
      UserFirstBefore(cfg, turns);
      KvRefinement(cfg, turns[..n]);
      SendKeeps(cfg, RunTurns(cfg, turns[..n]), turns[n]);
    }
  }

  lemma CreateKeeps(cfg: Config)
    requires PrefaceAccounted(cfg)
    ensures Kept(cfg, Create(cfg)) && Create(cfg).history == [] && Create(cfg).checkpointIndex == None
  {
    assert "" + cfg.render([], false) == cfg.render([], false);
  }

  lemma UserFirstBefore(cfg: Config, turns: seq<Turn>)
    requires turns != [] && UserFirst(cfg, turns)
    ensures var n := |turns| - 1;
            && UserFirst(cfg, turns[..n])
            && (FateAt(cfg, turns, n).Answered? && cfg.parse(turns[n].reply).hasChannels && !IsUser(turns[n].input) ==>
                  LatestAnswered(cfg, turns[..n]).Some?)
  {
    hide IsUser, LatestAnswered, FateOf, RunTurns;
    var n := |turns| - 1;
    var before := turns[..n];
    forall k | 0 <= k < n ensures before[k] == turns[k] && before[..k] == turns[..k] {}
    forall k | 0 <= k < n && FateAt(cfg, before, k).Answered? && cfg.parse(before[k].reply).hasChannels
      ensures exists j :: 0 <= j <= k && UserAnswered(cfg, before, j)
    {
      var j :| 0 <= j <= k && UserAnswered(cfg, turns, j);
      assert UserAnswered(cfg, before, j);
    }
    if FateAt(cfg, turns, n).Answered? && cfg.parse(turns[n].reply).hasChannels && !IsUser(turns[n].input) {
      var j :| 0 <= j <= n && UserAnswered(cfg, turns, j);
      assert UserAnswered(cfg, before, j);
      AnsweredIsLatest(cfg, before, j);
    }
  }

  lemma {:induction false} AnsweredIsLatest(cfg: Config, turns: seq<Turn>, j: nat)
    requires j < |turns| && UserAnswered(cfg, turns, j)
    ensures LatestAnswered(cfg, turns).Some?
  {
    hide FateOf, RunTurns, HistoryOf;
    var n := |turns| - 1;
    if j < n {
      assert turns[..n][..j] == turns[..j];
      AnsweredIsLatest(cfg, turns[..n], j);
    }
  }

  /** After the message of turn `k`, a user message was answered. */
  ghost predicate AnsweredAfter(cfg: Config, turns: seq<Turn>, k: nat) {
    exists j :: k < j < |turns| && UserAnswered(cfg, turns, j)
  }

  /** After every message left without an answer, a user message was answered. */
  ghost predicate AllAnsweredAfter(cfg: Config, turns: seq<Turn>) {
    forall k :: 0 <= k < |turns| && FateAt(cfg, turns, k).Unanswered? ==> AnsweredAfter(cfg, turns, k)
  }

  /** The checkpoint is that of the latest user message in the history exactly if
      no message left without an answer is later than the latest one answered. */
  lemma {:induction false} LatestUserIff(cfg: Config, turns: seq<Turn>)
    requires cfg.filterChannels && RendersAsDecoded(cfg) && PrefaceAccounted(cfg)
    requires UserFirst(cfg, turns)
    ensures RunTurns(cfg, turns).checkpointIndex == LatestRecorded(cfg, turns) <==> AllAnsweredAfter(cfg, turns)
  {
    hide FateOf, RunTurns, HistoryOf, RendersAsDecoded, PrefaceAccounted, UserFirst, Kept, LatestAnswered,
        LatestRecorded;
    KvRefinement(cfg, turns);
    LatestAgree(cfg, turns);
  }

  lemma {:induction false} LatestAgree(cfg: Config, turns: seq<Turn>)
    requires cfg.filterChannels
    ensures LatestAnswered(cfg, turns) == LatestRecorded(cfg, turns) <==> AllAnsweredAfter(cfg, turns)
  {
    hide FateOf, RunTurns, HistoryOf, AnsweredAfter, IsUser;
    if turns != [] {
      var n := |turns| - 1;
      LatestAgree(cfg, turns[..n]);
      LatestInHistory(cfg, turns[..n]);
      if FateAt(cfg, turns, n).Unanswered? { UnansweredIsUser(cfg, RunTurns(cfg, turns[..n]), turns[n]); }
      if UserAnswered(cfg, turns, n) {
        forall k | 0 <= k < n ensures AnsweredAfter(cfg, turns, k) { SinceThen(cfg, turns, k); }
      } else {
        NothingSince(cfg, turns);
      }
    }
  }

  lemma SinceThen(cfg: Config, turns: seq<Turn>, k: nat)
    requires turns != [] && k < |turns| - 1 && UserAnswered(cfg, turns, |turns| - 1)
    ensures AnsweredAfter(cfg, turns, k)
  {
  }

  /** If the last turn is no user message answered, it makes no difference to those before. */
  lemma NothingSince(cfg: Config, turns: seq<Turn>)
    requires turns != [] && !UserAnswered(cfg, turns, |turns| - 1)
    ensures var n := |turns| - 1;
            && !AnsweredAfter(cfg, turns, n)
            && (AllAnsweredAfter(cfg, turns) <==>
                  AllAnsweredAfter(cfg, turns[..n]) && !FateAt(cfg, turns, n).Unanswered?)
  {
    hide FateOf, RunTurns, IsUser;
    var n := |turns| - 1;
    var before := turns[..n];
    forall k | 0 <= k < n ensures before[k] == turns[k] && before[..k] == turns[..k] {}
    forall k | 0 <= k < n ensures FateAt(cfg, before, k) == FateAt(cfg, turns, k) {}
    forall k | 0 <= k < n ensures AnsweredAfter(cfg, before, k) <==> AnsweredAfter(cfg, turns, k) {
      if AnsweredAfter(cfg, turns, k) {
        var j :| k < j < |turns| && UserAnswered(cfg, turns, j);
        assert UserAnswered(cfg, before, j);
      }
      if AnsweredAfter(cfg, before, k) {
        var j :| k < j < n && UserAnswered(cfg, before, j);
        assert UserAnswered(cfg, turns, j);
      }
    }
  }

  lemma {:induction false} LatestInHistory(cfg: Config, turns: seq<Turn>)
    ensures LatestAnswered(cfg, turns).Some? ==> LatestAnswered(cfg, turns).value < |HistoryOf(cfg, turns)|
  {
    hide RunTurns, FateOf;
    if turns != [] { LatestInHistory(cfg, turns[..|turns| - 1]); }
  }

  lemma UnansweredIsUser(cfg: Config, c: Conversation, turn: Turn)
    requires FateOf(cfg, c, turn).Unanswered?
    ensures IsUser(turn.input)
  {
  }

  // ---- templates that only add text ------------------------------------------------------------------

  /** Adding messages only adds text at the end. */
  ghost predicate Extends(cfg: Config) {
    && (forall h, ms {:trigger cfg.render(h + ms, false)} :: cfg.render(h, false) <= cfg.render(h + ms, false))
    && (forall h, ms {:trigger cfg.render(h + ms, true)} :: cfg.render(h, false) <= cfg.render(h + ms, true))
  }

  /** With such a template every message is answered. */
  lemma {:induction false} SendSucceeds(cfg: Config, c: Conversation, turn: Turn)
    requires cfg.filterChannels && Extends(cfg) && PrefaceAccounted(cfg) && Kept(cfg, c)
    ensures FateOf(cfg, c, turn).Answered?
  {
    hide HasCheckpoint, FateOf;
    FateIff(cfg, c, turn);
    assert cfg.render(c.history, false) <= cfg.render(c.history + MessagesOf(turn.input), true);
    if c.checkpointIndex.Some? && c.checkpointIndex.value <= |c.history| {
      var i := c.checkpointIndex.value;
      assert c.history[..i] + c.history[i..] == c.history;
      assert cfg.render(c.history[..i], false) <= cfg.render(c.history[..i] + c.history[i..], false);
    }
  }

  lemma {:induction false} NothingRefused(cfg: Config, turns: seq<Turn>, k: nat)
    requires cfg.filterChannels && Extends(cfg) && RendersAsDecoded(cfg) && PrefaceAccounted(cfg)
    requires UserFirst(cfg, turns) && k < |turns|
    ensures FateAt(cfg, turns, k).Answered?
    decreases |turns|
  {
    hide Extends, RendersAsDecoded, PrefaceAccounted, FateOf, RunTurns, Kept, UserFirst;
    var n := |turns| - 1;
    UserFirstBefore(cfg, turns);
    if k < n {
      NothingRefused(cfg, turns[..n], k);
      assert turns[..n][..k] == turns[..k];
    } else {
      KvRefinement(cfg, turns[..n]);
      SendSucceeds(cfg, RunTurns(cfg, turns[..n]), turns[n]);
    }
  }

  /** A template that drops the preface after the first message; every reply has channel content. */
  function Forgetting(): Config {
    Config((h: seq<Message>, generate: bool) => if |h| <= 1 then "P" else "X",
           s => Message(false, true, ""), true, true, false)
  }

  /** Without it a message can be left without an answer, and the checkpoint behind: the second user
      message finds no refill. */
  lemma {:induction false} RefillCanFail(user: Message, user': Message)
    requires user.fromUser && user'.fromUser
    ensures var cfg, turns := Forgetting(), [Turn(One(user), ""), Turn(One(user'), "")];
            && cfg.filterChannels && RendersAsDecoded(cfg) && PrefaceAccounted(cfg) && UserFirst(cfg, turns)
            && FateAt(cfg, turns, 1).Unanswered?
            && RunTurns(cfg, turns).checkpointIndex == Some(0) && RunTurns(cfg, turns).history[2..] == [user']
  {
    hide UserFirst, Send, FateOf, HasCheckpoint, RunTurns, IsUser;
    var cfg, turns := Forgetting(), [Turn(One(user), ""), Turn(One(user'), "")];
    assert IsUser(turns[0].input) && IsUser(turns[1].input) by { UserIs(user); UserIs(user'); }
    assert turns[..1] == [turns[0]] && turns[..0] == [] && [] + [user] == [user];
    var c0, c1 := Create(cfg), RunTurns(cfg, turns[..1]);
    CreateKeeps(cfg);
    RunMore(cfg, [], turns[0]);
    RunMore(cfg, turns[..1], turns[1]);
    assert turns[..1] + [turns[1]] == turns && [] + [turns[0]] == turns[..1];
    FateIff(cfg, c0, turns[0]);
    assert UserAnswered(cfg, turns, 0);
    FirstIsUser(cfg, turns);
    SendKeeps(cfg, c0, turns[0]);
    UserTurnMarks(cfg, c0, user, "");
    assert c1.history == [user, cfg.parse("")] && c1.history[..0] == [];
    assert FateAt(cfg, turns, 1) == FateOf(cfg, c1, turns[1]);
    assert Rendered(cfg, c1.history) == "X" && cfg.render(c1.history + MessagesOf(turns[1].input), true) == "X";
    assert Rendered(cfg, c1.history[..0]) == "P" && "P"[0] != "X"[0];
    FateIff(cfg, c1, turns[1]);
    FateLeaves(cfg, c1, turns[1]);
  }

  lemma UserIs(m: Message)
    requires m.fromUser
    ensures IsUser(One(m))
  {
  }

  lemma RunMore(cfg: Config, turns: seq<Turn>, turn: Turn)
    ensures RunTurns(cfg, []) == Create(cfg)
    ensures RunTurns(cfg, turns + [turn]) == Send(cfg, RunTurns(cfg, turns), turn.input, turn.reply).0
  {
    hide Send, Create;
    assert (turns + [turn])[..|turns|] == turns;
  }

  lemma UserTurnMarks(cfg: Config, c: Conversation, user: Message, reply: string)
    requires cfg.filterChannels && cfg.parse(reply).hasChannels && FateOf(cfg, c, Turn(One(user), reply)).Answered?
    ensures Send(cfg, c, One(user), reply).0.channelSinceUser
  {
  }

  lemma FirstIsUser(cfg: Config, turns: seq<Turn>)
    requires turns != [] && UserAnswered(cfg, turns, 0)
    ensures UserFirst(cfg, turns)
  {
  }

  // ---- where the two assumptions on the run and the preface are needed ------------------------

  /** The first user message answered takes the cache as it is for the checkpoint. */
  lemma FirstUserTurn(cfg: Config, c: Conversation, user: Message, next: string)
    requires cfg.filterChannels && user.fromUser && c.checkpointIndex == None
    requires FateOf(cfg, c, Turn(One(user), next)).Answered?
    ensures var r := Send(cfg, c, One(user), next).0;
            && r.checkpointIndex == Some(|c.history|)
            && (HasCheckpoint(cfg, r) <==> c.session.kv == Rendered(cfg, c.history))
  {
    var told := c.(history := c.history + [user]);
    var filtered := Filter(cfg, told).0;
    var r := Answer(cfg, filtered, TurnText(cfg, c.history, One(user)).value, next);
    assert r == Send(cfg, c, One(user), next).0;
    assert r.history[..|c.history|] == c.history;
    assert r.session.kv[..|c.session.kv|] == c.session.kv;
  }

  /** After any turns in which no user message was answered, the checkpoint of the next one that is
      answered is right exactly if the whole cache was the rendered history: channel content among
      the earlier replies stays in it. */
  lemma {:induction false} FirstCheckpointIff(cfg: Config, turns: seq<Turn>, user: Message, next: string)
    requires cfg.filterChannels && user.fromUser && RunTurns(cfg, turns).checkpointIndex == None
    requires FateAt(cfg, turns + [Turn(One(user), next)], |turns|).Answered?
    ensures var before, c := RunTurns(cfg, turns), RunTurns(cfg, turns + [Turn(One(user), next)]);
            && c.checkpointIndex == Some(|before.history|)
            && (HasCheckpoint(cfg, c) <==> before.session.kv == Rendered(cfg, before.history))
  {
    hide Send, HasCheckpoint, FateOf;
    assert (turns + [Turn(One(user), next)])[..|turns|] == turns;
    FirstUserTurn(cfg, RunTurns(cfg, turns), user, next);
  }

  /** After the first turn of a run, not a user message's, the cache holds the prompt and the raw
      reply, and there is no checkpoint. */
  lemma FirstTurn(cfg: Config, first: Input, reply: string)
    requires PrefaceAccounted(cfg) && !IsUser(first)
    requires FateOf(cfg, Create(cfg), Turn(first, reply)).Answered?
    ensures var c := Send(cfg, Create(cfg), first, reply).0;
            && c.history == MessagesOf(first) + [cfg.parse(reply)]
            && c.checkpointIndex == None
            && c.session.kv == cfg.render(MessagesOf(first), true) + reply
  {
    var h: seq<Message> := [];
    TurnTextCompletes(cfg, h, first);
    assert h + MessagesOf(first) == MessagesOf(first);
    CreateKeeps(cfg);
  }

  /** So if one reply came first, the checkpoint is right exactly when the template renders that
      reply as it was decoded. */
  lemma {:induction false} ReplyBeforeUser(cfg: Config, first: Input, reply: string, user: Message, next: string)
    requires cfg.filterChannels && PrefaceAccounted(cfg)
    requires !IsUser(first) && user.fromUser
    requires var turns := [Turn(first, reply), Turn(One(user), next)];
             FateAt(cfg, turns, 0).Answered? && FateAt(cfg, turns, 1).Answered?
    ensures var c := RunTurns(cfg, [Turn(first, reply), Turn(One(user), next)]);
            var h := MessagesOf(first) + [cfg.parse(reply)];
            && c.checkpointIndex == Some(|h|)
            && (HasCheckpoint(cfg, c) <==> cfg.render(MessagesOf(first), true) + reply == cfg.render(h, false))
  {
    hide Send, Create, HasCheckpoint, FateOf, MessagesOf, IsUser;
    var turns := [Turn(first, reply), Turn(One(user), next)];
    var one := [Turn(first, reply)];
    assert turns[..1] == one && one + [Turn(One(user), next)] == turns;
    assert turns[..0] == [] && one[..0] == [];
    FirstTurn(cfg, first, reply);
    FirstCheckpointIff(cfg, one, user, next);
  }

  /** With an empty preface that still renders to some text and counts as prefilled, a user turn
      answered with channel content and then a second user turn leave a checkpoint that lacks that
      text: the checkpoint is right exactly when the preface is accounted for. */
  lemma {:induction false} UncountedPreface(cfg: Config, user: Message, reply: string, user': Message, next: string)
    requires cfg.filterChannels && cfg.prefillPreface && cfg.emptyPreface
    requires user.fromUser && user'.fromUser && cfg.parse(reply).hasChannels
    requires FateAt(cfg, [Turn(One(user), reply), Turn(One(user'), next)], 1).Answered?
    ensures var c := RunTurns(cfg, [Turn(One(user), reply), Turn(One(user'), next)]);
            && c.checkpointIndex == Some(2)
            && (HasCheckpoint(cfg, c) <==> PrefaceAccounted(cfg))
  {
    hide Send, Create, FateOf;
    var m := cfg.parse(reply);
    var turns := [Turn(One(user), reply), Turn(One(user'), next)];
    assert turns[..1] == [Turn(One(user), reply)] && turns[..1][..0] == [];
    UncountedFirst(cfg, user, reply);
    var c1 := Send(cfg, Create(cfg), One(user), reply).0;
    assert c1 == RunTurns(cfg, turns[..1]);
    UncountedSecond(cfg, c1, user, m, user', next);
    var c := RunTurns(cfg, turns);
    assert c == Send(cfg, c1, One(user'), next).0;
    assert c.history[..2] == [user, m];
  }

  lemma UncountedFirst(cfg: Config, user: Message, reply: string)
    requires cfg.filterChannels && cfg.prefillPreface && cfg.emptyPreface
    requires user.fromUser && cfg.parse(reply).hasChannels
    ensures var c := Send(cfg, Create(cfg), One(user), reply).0;
            && c.history == [user, cfg.parse(reply)] && c.checkpointIndex == Some(0) && c.channelSinceUser
            && CHANNEL_CHECKPOINT in c.session.checkpoints && c.session.checkpoints[CHANNEL_CHECKPOINT] == 0
  {
    var h: seq<Message> := [];
    assert h + [user] == [user];
    var whole := cfg.render([user], true);
    assert whole[0..] == whole;
    assert TurnText(cfg, h, One(user)) == Some(whole);
    var told := Create(cfg).(history := [user]);
    var filtered := Filter(cfg, told).0;
    assert Answer(cfg, filtered, whole, reply) == Send(cfg, Create(cfg), One(user), reply).0;
  }

  lemma UncountedSecond(cfg: Config, c: Conversation, user: Message, m: Message, user': Message, next: string)
    requires cfg.filterChannels && cfg.prefillPreface && user'.fromUser
    requires c.history == [user, m] && c.checkpointIndex == Some(0) && c.channelSinceUser
    requires CHANNEL_CHECKPOINT in c.session.checkpoints && c.session.checkpoints[CHANNEL_CHECKPOINT] == 0
    requires FateOf(cfg, c, Turn(One(user'), next)).Answered?
    ensures cfg.render([], false) <= cfg.render([user, m], false)
    ensures var r := Send(cfg, c, One(user'), next).0;
            var refill := cfg.render([user, m], false)[|cfg.render([], false)|..];
            && r.checkpointIndex == Some(2) && |r.history| == 4 && r.history[..3] == [user, m, user']
            && CHANNEL_CHECKPOINT in r.session.checkpoints
            && r.session.checkpoints[CHANNEL_CHECKPOINT] == |refill| && refill <= r.session.kv
  {
    var none: seq<Message> := [];
    assert none + [user, m] == [user, m];
    var text := TurnText(cfg, c.history, One(user')).value;
    var told := c.(history := c.history + [user']);
    assert told.history[..0] == [] && told.history[0..2] == [user, m];
    var rewound := RewindAndRefill(cfg, told);
    assert Filter(cfg, told).1 == Ok && rewound.1 == Ok;
    var refill := cfg.render([user, m], false)[|cfg.render([], false)|..];
    assert rewound.2 == refill && rewound.0.session.kv == "";
    var filtered := Filter(cfg, told).0;
    assert filtered.session.kv == refill;
    assert Answer(cfg, filtered, text, next) == Send(cfg, c, One(user'), next).0;
  }

  // ---- cloning -----------------------------------------------------------------------------------

  /** `Clone`: the history and what the session's cache holds go along; the checkpoint, its index and
      the note that channel content has come do not. */
  function CloneOf(c: Conversation): Conversation {
    Conversation(c.history, None, false, S.State(c.session.kv, map[], c.session.phase))
  }

  /** So the clone's next user message takes the cache for clean: its checkpoint is right exactly
      when the original's whole cache was the rendered history, as it is while no channel content
      has come since its last user message. */
  lemma CloneForgetsChannels(cfg: Config, c: Conversation, user: Message, next: string)
    requires cfg.filterChannels && Kept(cfg, c) && user.fromUser
    requires FateOf(cfg, CloneOf(c), Turn(One(user), next)).Answered?
    ensures var r := Send(cfg, CloneOf(c), One(user), next).0;
            && r.checkpointIndex == Some(|c.history|)
            && (HasCheckpoint(cfg, r) <==> c.session.kv == Rendered(cfg, c.history))
            && (!c.channelSinceUser ==> HasCheckpoint(cfg, r))
  {
    hide Send, HasCheckpoint, FateOf;
    FirstUserTurn(cfg, CloneOf(c), user, next);
  }
}
