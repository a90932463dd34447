/**
  The message list both chat widgets keep. Sending is split into its two
  steps: the submission appends the user's message and raises the typing
  flag; the reply, which the widget schedules on a timer, appends the bot's
  message and lowers the flag. The question the reply answers is the input
  text captured at submission.
 */
module Conversation {
  import opened Text
  import opened Opt

  datatype Author = User | Bot

  /** `{ id, type, content, timestamp }`; both stamps are the millisecond clock. */
  datatype Message = Message(id: int, author: Author, content: string, at: int)

  /** The widget state the send handler touches: messages, input box, typing flag. */
  datatype Chat = Chat(messages: seq<Message>, input: string, typing: bool)

  /** The chat after a submission, and the question a reply is scheduled for
      (`None` when the submission was ignored). */
  datatype Submitted = Submitted(chat: Chat, question: Option<string>)

  /** The first half of `handleSendMessage`, at clock `now`. */
  function Submit(c: Chat, now: int): (r: Submitted)
    ensures r.question.None? <==> forall i :: 0 <= i < |c.input| ==> IsSpace(c.input[i])
    ensures r.question.None? ==> r.chat == c
    ensures r.question.Some? ==>
      && r.question.value == c.input
      && r.chat.messages == c.messages + [Message(now, User, c.input, now)]
      && r.chat.input == ""
      && r.chat.typing
  {
    BlankIff(c.input);
    if Trim(c.input) == "" then Submitted(c, None)
    else Submitted(Chat(c.messages + [Message(now, User, c.input, now)], "", true), Some(c.input))
  }

  /** The timer callback of `handleSendMessage`, firing at clock `now` with
      the answer the widget's matcher gave. */
  function Reply(c: Chat, answer: string, now: int): (r: Chat)
    ensures |r.messages| == |c.messages| + 1
    ensures r.messages[..|c.messages|] == c.messages
    ensures r.messages[|c.messages|] == Message(now + 1, Bot, answer, now)
    ensures r.input == c.input && !r.typing
  {
    Chat(c.messages + [Message(now + 1, Bot, answer, now)], c.input, false)
  }

  /** A whole exchange: a non-blank submission and its reply append exactly
      the user's message and then the bot's answer to that message, keep
      every earlier message, and leave the typing flag down. */
  lemma Exchange(c: Chat, sentAt: int, repliedAt: int, respond: string -> string)
    requires exists i :: 0 <= i < |c.input| && !IsSpace(c.input[i])
    ensures var s := Submit(c, sentAt);
      && s.question == Some(c.input)
      && var r := Reply(s.chat, respond(s.question.value), repliedAt);
      && r.messages == c.messages
           + [Message(sentAt, User, c.input, sentAt), Message(repliedAt + 1, Bot, respond(c.input), repliedAt)]
      && !r.typing
      && r.input == ""
  {
  }
}
