/**
 * The `message` handler and `handleCommand`: which incoming chat messages
 * are commands for the bot, where the reply goes, and which handler the
 * first word selects.
 */
module Router {
  import opened Wrappers
  import opened Strings

  /** A chat user; the handler compares users by identity. */
  datatype User = User(id: string)

  /** A channel and its `type`: "text" for a server channel, "dm" for a direct message. */
  datatype Channel = Channel(id: string, kind: string)

  datatype Message = Message(author: User, channel: Channel, content: string)

  /** The bot's own user (`client.user`) and its application id (`auth.client_id`). */
  datatype BotIdentity = BotIdentity(user: User, clientId: string)

  /** Where replies go: the channel the message came from, or its author. */
  datatype Target = ToChannel(channel: Channel) | ToAuthor(user: User)

  datatype SkipReason = OwnMessage | NotMentioned | NoTarget | NoCommand

  /** The outcome of the handler: nothing, or a call of `handleCommand`. */
  datatype Routing = Skip(reason: SkipReason) | Dispatch(target: Target, commands: seq<string>)

  /** The words of a message: its content split on single spaces. */
  function Words(message: Message): (words: seq<string>)
    ensures |words| >= 1
  {
    Split(message.content, ' ')
  }

  /**
   * The routing the handler performs. A message in a "text" channel is a
   * command only when its first word mentions the bot's client id, and then
   * the remaining words are the command; in a "dm" channel every word is.
   */
  function Route(bot: BotIdentity, message: Message): (r: Routing)
    ensures r.Dispatch? ==> r.commands != []
  {
    var words := Words(message);
    if message.author == bot.user then Skip(OwnMessage)
    else if message.channel.kind == "text" then
      if !Contains(words[0], bot.clientId) then Skip(NotMentioned)
      else if |words| == 1 then Skip(NoCommand)
      else Dispatch(ToChannel(message.channel), words[1..])
    else if message.channel.kind == "dm" then Dispatch(ToAuthor(message.author), words)
    else Skip(NoTarget)
  }

  /**
   * The handler as the source runs it: split, check the mention and drop it
   * with a shift, pick the target, and dispatch if any word is left.
   */
  method OnMessage(bot: BotIdentity, message: Message) returns (routing: Routing)
    ensures routing == Route(bot, message)
  {
    if message.author == bot.user {
      return Skip(OwnMessage);
    }
    var commands := Split(message.content, ' ');
    var target: Option<Target> := None;
    if message.channel.kind == "text" {
      if !Contains(commands[0], bot.clientId) {
        return Skip(NotMentioned);
      }
      commands := commands[1..];
      target := Some(ToChannel(message.channel));
    } else if message.channel.kind == "dm" {
      target := Some(ToAuthor(message.author));
    }
    if target.None? {
      return Skip(NoTarget);
    }
    if |commands| > 0 {
      routing := Dispatch(target.value, commands);
    } else {
      routing := Skip(NoCommand);
    }
  }

  /** The bot never answers itself, whatever the channel or the content. */
  lemma OwnMessageSkipped(bot: BotIdentity, message: Message)
    requires message.author == bot.user
    ensures Route(bot, message) == Skip(OwnMessage)
  {
  }

  /**
   * In a "text" channel a message is dispatched exactly when its first word
   * mentions the client id and more words follow; the reply goes to the
   * channel, and the message is the mention, a space and the command's words.
   */
  lemma TextChannelRoute(bot: BotIdentity, message: Message)
    requires message.author != bot.user && message.channel.kind == "text"
    ensures Route(bot, message).Dispatch? <==>
      Contains(Words(message)[0], bot.clientId) && |Words(message)| > 1
    ensures Route(bot, message).Dispatch? ==>
      var r := Route(bot, message);
      && r.target == ToChannel(message.channel)
      && r.commands == Words(message)[1..]
      && message.content == Words(message)[0] + " " + Join(r.commands, ' ')
  {
    var words := Words(message);
    JoinSplit(message.content, ' ');
    if |words| > 1 {
      assert Join(words, ' ') == words[0] + [' '] + Join(words[1..], ' ');
    }
  }

  /** A message whose first word lacks the mention gets no reply in a "text" channel. */
  lemma UnmentionedSkipped(bot: BotIdentity, message: Message)
    requires message.author != bot.user && message.channel.kind == "text"
    requires !Contains(Words(message)[0], bot.clientId)
    ensures Route(bot, message) == Skip(NotMentioned)
  {
  }

  /**
   * A command mentioning the bot and sent in a "text" channel is routed to
   * that channel with exactly the words that follow the mention.
   */
  lemma {:induction false} MentionedCommandRoutes(bot: BotIdentity, author: User, channel: Channel, mention: string, commands: seq<string>)
    requires author != bot.user && channel.kind == "text"
    requires Contains(mention, bot.clientId) && ' ' !in mention
    requires commands != [] && forall i :: 0 <= i < |commands| ==> ' ' !in commands[i]
    ensures Route(bot, Message(author, channel, mention + " " + Join(commands, ' ')))
      == Dispatch(ToChannel(channel), commands)
  {
    SplitAfterSeparator(mention, Join(commands, ' '), ' ');
    SplitJoin(commands, ' ');
    assert ([mention] + commands)[1..] == commands;
  }

  /**
   * In a direct message the reply goes to the author and the command is the
   * whole content split on spaces, which joins back to the content.
   */
  lemma DirectMessageRoute(bot: BotIdentity, message: Message)
    requires message.author != bot.user && message.channel.kind == "dm"
    ensures Route(bot, message) == Dispatch(ToAuthor(message.author), Words(message))
    ensures Join(Route(bot, message).commands, ' ') == message.content
  {
    JoinSplit(message.content, ' ');
  }

  /** A channel that is neither "text" nor "dm" gives no target and no dispatch. */
  lemma OtherChannelSkipped(bot: BotIdentity, message: Message)
    requires message.author != bot.user
    requires message.channel.kind != "text" && message.channel.kind != "dm"
    ensures Route(bot, message) == Skip(NoTarget)
  {
  }

  /** The handler `handleCommand` selects. */
  datatype Action = SendHelp | SendShutdownAndDestroy | Upcoming | NoOp

  const CommandNames: set<string> := {"help", "sudoku", "upcoming"}

  /** `handleCommand`: an exact match of the first word against the command table. */
  function HandleCommand(commands: seq<string>): (action: Action)
    ensures action != NoOp <==> commands != [] && commands[0] in CommandNames
  {
    if commands == [] then NoOp
    else match commands[0]
      case "help" => SendHelp
      case "sudoku" => SendShutdownAndDestroy
      case "upcoming" => Upcoming
      case _ => NoOp
  }

  /** Each of the three names selects its own handler, and only that name selects it. */
  lemma HandlerSelected(commands: seq<string>)
    ensures commands != [] ==>
      && (HandleCommand(commands) == SendHelp <==> commands[0] == "help")
      && (HandleCommand(commands) == SendShutdownAndDestroy <==> commands[0] == "sudoku")
      && (HandleCommand(commands) == Upcoming <==> commands[0] == "upcoming")
  {
  }

  /** The words after the first never change the selected handler. */
  lemma FirstWordDecides(a: seq<string>, b: seq<string>)
    requires a != [] && b != [] && a[0] == b[0]
    ensures HandleCommand(a) == HandleCommand(b)
  {
  }
}
