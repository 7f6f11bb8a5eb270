/** The Scrumlord Discord bot's message hook: it ignores bots and answers the
    exact command `!ping`. The Discord client, its intents, login and the
    ready log line are not modelled; a message is its author's bot flag and
    its text, and the hook's effect is the list of reply calls it makes. */
module DiscordBot {

  datatype Message = Message(authorIsBot: bool, content: string)

  const PingCommand: string := "!ping"

  /** "Pong! Scrumlord is watching. " followed by the crown emoji U+1F451. */
  const PongReply: string := "Pong! Scrumlord is watching. \U{1F451}"

  predicate IsPing(m: Message) {
    !m.authorIsBot && m.content == PingCommand
  }

  /** The `MessageCreate` handler: at most one reply, sent exactly when a
      non-bot author wrote `!ping` and nothing else (case and surrounding
      spaces matter), and that reply is always the pong text. */
  function OnMessageCreate(m: Message): (replies: seq<string>)
    ensures |replies| <= 1
    ensures replies != [] <==> !m.authorIsBot && m.content == PingCommand
    ensures forall k :: 0 <= k < |replies| ==> replies[k] == PongReply
  {
    if m.authorIsBot then []
    else if m.content == PingCommand then [PongReply]
    else []
  }

  /** The replies to a stream of messages, in order. */
  function RepliesTo(ms: seq<Message>): seq<string> {
    if ms == [] then [] else OnMessageCreate(ms[0]) + RepliesTo(ms[1..])
  }

  function PingCount(ms: seq<Message>): nat {
    if ms == [] then 0 else (if IsPing(ms[0]) then 1 else 0) + PingCount(ms[1..])
  }

  /** Over any stream of messages the bot sends exactly one pong per human
      `!ping` and nothing else. */
  lemma {:induction false} OnePongPerPing(ms: seq<Message>)
    ensures |RepliesTo(ms)| == PingCount(ms)
    ensures forall k :: 0 <= k < |RepliesTo(ms)| ==> RepliesTo(ms)[k] == PongReply
  {
    if ms != [] {
      OnePongPerPing(ms[1..]);
      var first := OnMessageCreate(ms[0]);
      forall k | 0 <= k < |RepliesTo(ms)|
        ensures RepliesTo(ms)[k] == PongReply
      {
        if k >= |first| {
          assert RepliesTo(ms)[k] == RepliesTo(ms[1..])[k - |first|];
        }
      }
    }
  }

  /** No message carrying the pong text, whoever posted it, triggers a reply:
      the bot's own pong cannot start a reply loop. */
  lemma NoReplyLoop(m: Message)
    requires m.content == PongReply
    ensures OnMessageCreate(m) == []
  {
    assert PongReply[0] != PingCommand[0];
  }
}
