/** The conversation object: its methods update the history, the checkpoint index, the flag and the
    session in place, and each does what the functions of `ConversationModel` say. */
module ConversationObject {
  import opened Strings
  import S = SessionBasic
  import M = ConversationModel

  class Conversation {
    const config: M.Config
    const session: S.Session
    var history: seq<M.Message>
    var checkpointMessageIndex: Option<nat>
    var channelContentSinceLastUserMessage: bool

    ghost predicate Valid()
      reads this
    {
      checkpointMessageIndex.Some? ==> checkpointMessageIndex.value < |history|
    }

    ghost function View(): M.Conversation
      reads this, session
    {
      M.Conversation(history, checkpointMessageIndex, channelContentSinceLastUserMessage, session.View())
    }

    constructor (cfg: M.Config)
      ensures config == cfg && fresh(session) && Valid()
      ensures View() == M.Create(cfg)
    {
      var s := new S.Session();
      config, session := cfg, s;
      history, checkpointMessageIndex, channelContentSinceLastUserMessage := [], None, false;
      new;
      if config.prefillPreface && !config.emptyPreface {
        var status := session.PrefillInternal(config.render([], false));
      }
    }

    method GetSingleTurnTextFromFullHistory(message: M.Input) returns (text: Option<string>)
      ensures text == M.TurnText(config, history, message)
    {
      var messages := M.MessagesOf(message);
      if history == [] && !config.prefillPreface {
        return Some(config.render(history + messages, true));
      }
      var oldString := "";
      if !config.emptyPreface || history != [] {
        oldString := config.render(history, false);
      }
      var newString := config.render(history + messages, true);
      if |oldString| > |newString| || newString[..|oldString|] != oldString {
        return None;
      }
      return Some(newString[|oldString|..]);
    }

    method GetPrefillTextForMessages(older: seq<M.Message>, newer: seq<M.Message>, includePreface: bool)
      returns (text: Option<string>)
      ensures text == M.PrefillText(config, older, newer, includePreface)
    {
      var oldString := "";
      if older != [] || !includePreface {
        oldString := config.render(older, false);
      }
      var newString := config.render(older + newer, false);
      if |oldString| > |newString| {
        return None;
      }
      if newString[..|oldString|] != oldString {
        return None;
      }
      return Some(newString[|oldString|..]);
    }

    method RewindAndGetInputDataVector() returns (status: M.Status, refill: string)
      requires Valid()
      modifies this, session
      ensures Valid() && history == old(history)
      ensures (View(), status, refill) == M.RewindAndRefill(config, old(View()))
    {
      if checkpointMessageIndex.None? {
        return M.Ok, "";
      }
      var i := checkpointMessageIndex.value;
      var rewound := session.RewindToCheckpoint(M.CHANNEL_CHECKPOINT);
      if rewound != S.Ok {
        return M.SessionError(rewound), "";
      }
      var text := GetPrefillTextForMessages(history[..i], history[i..|history| - 1], !config.prefillPreface);
      if text.None? {
        return M.NotPrefix, "";
      }
      checkpointMessageIndex := None;
      return M.Ok, text.value;
    }

    /** The step for a user message when channel content is filtered; the message is already in
        the history. */
    method FilterChannelContent() returns (status: M.Status)
      requires Valid() && history != []
      modifies this, session
      ensures Valid() && history == old(history)
      ensures (View(), status) == M.Filter(config, old(View()))
    {
      var refill := "";
      if channelContentSinceLastUserMessage {
        status, refill := RewindAndGetInputDataVector();
        if status != M.Ok {
          return status;
        }
        channelContentSinceLastUserMessage := false;
      }
      if refill != "" {
        var prefilled := session.PrefillInternal(refill);
      }
      var saved := session.SaveCheckpoint(M.CHANNEL_CHECKPOINT);
      checkpointMessageIndex := Some(|history| - 1);
      return M.Ok;
    }

    method SendMessage(message: M.Input, reply: string) returns (status: M.Status)
      requires Valid()
      modifies this, session
      ensures Valid()
      ensures (View(), status) == M.Send(config, old(View()), message, reply)
    {
      var text := GetSingleTurnTextFromFullHistory(message);
      if text.None? {
        return M.NotPrefix;
      }
      PushMessages(message);
      if config.filterChannels && M.IsUser(message) {
        status := FilterChannelContent();
        if status != M.Ok {
          return status;
        }
      }
      var prefilled := session.PrefillInternal(text.value);
      var decoded := session.DecodeInternal(reply);
      var complete := config.parse(reply);
      history := history + [complete];
      if config.filterChannels && complete.hasChannels {
        channelContentSinceLastUserMessage := true;
      }
      return M.Ok;
    }

    method PushMessages(message: M.Input)
      requires Valid()
      modifies this`history
      ensures Valid() && history == old(history) + M.MessagesOf(message)
    {
      match message
      case One(m) => history := history + [m];
      case Many(ms) =>
        var k := 0;
        while k < |ms|
          invariant 0 <= k <= |ms| && history == old(history) + ms[..k]
        {
          history := history + [ms[k]];
          k := k + 1;
        }
    }
  }
}
