/**
 * The bot end to end, with the chat platform and the calendar provider
 * abstracted to the effects the core asks of them: a message handled by
 * `handleCommand` and its handlers, and the later completion of an
 * `upcoming` request.
 */
module Bot {
  import opened Wrappers
  import opened Router
  import opened Calendar
  import opened Renderer
  import opened GoogleDate

  /** The parts of the configuration files the core reads. */
  datatype Config = Config(help: string, upcoming: UpcomingMessages, settings: Settings)

  /** What the core asks of the outside world. */
  datatype Effect =
    | Send(to: Target, text: string)
    | DestroyClient
    | ListEvents(query: Query, replyTo: Target)

  /** The notice `sudoku` sends before it destroys the client. */
  const ShuttingDown := "Shutting down."

  /**
   * What the selected handler does. `upcoming` asks for events from today's
   * local midnight (`today`, in ISO form) with no upper bound; `now` is the
   * instant `listEvents` reads first.
   */
  function Perform(cfg: Config, action: Action, target: Target, today: string, now: string): (effects: seq<Effect>)
    ensures action == NoOp <==> effects == []
    ensures forall i :: 0 <= i < |effects| ==> effects[i].Send? ==> effects[i].to == target
  {
    match action
    case SendHelp => [Send(target, cfg.help)]
    case SendShutdownAndDestroy => [Send(target, ShuttingDown), DestroyClient]
    case Upcoming => [ListEvents(BuildQuery(cfg.settings, now, Some(today), None), target)]
    case NoOp => []
  }

  /** Everything one incoming message causes. */
  function OnMessageEffects(cfg: Config, bot: BotIdentity, message: Message, today: string, now: string): (effects: seq<Effect>)
    ensures message.author == bot.user ==> effects == []
    ensures effects != [] ==> Route(bot, message).Dispatch? && HandleCommand(Route(bot, message).commands) != NoOp
    ensures forall i :: 0 <= i < |effects| ==> effects[i].Send? ==> effects[i].to == Route(bot, message).target
  {
    match Route(bot, message)
    case Skip(_) => []
    case Dispatch(target, commands) => Perform(cfg, HandleCommand(commands), target, today, now)
  }

  /** Timestamps in a reply are read by `parseGoogleDate` and shown in the host's locale. */
  function HostDates(locale: DateArgs -> string): Dates
  {
    Dates(ParseGoogleDate, locale)
  }

  /** What happens when the provider answers an `upcoming` request. */
  function OnEventsListed(cfg: Config, locale: DateArgs -> string, target: Target,
                          response: Result<seq<Event>, string>): (effects: seq<Effect>)
    ensures |effects| <= 1
    ensures response.Failure? ==> effects == []
    ensures forall i :: 0 <= i < |effects| ==> effects[i].Send? && effects[i].to == target
  {
    match Deliver(response)
    case None => []
    case Some(items) =>
      match Reply(cfg.upcoming, HostDates(locale), items)
      case None => []
      case Some(text) => [Send(target, text)]
  }

  /**
   * A message causes something exactly when it is routed and its first word
   * names a command; an unknown name is dropped without a reply.
   */
  lemma EffectsOnlyForKnownCommands(cfg: Config, bot: BotIdentity, message: Message, today: string, now: string)
    ensures OnMessageEffects(cfg, bot, message, today, now) != [] <==>
      Route(bot, message).Dispatch? && Route(bot, message).commands[0] in CommandNames
  {
    if Route(bot, message).Dispatch? {
      HandlerSelected(Route(bot, message).commands);
    }
  }

  /** `help`, routed to any target, sends the help text there and does nothing else. */
  lemma HelpReply(cfg: Config, bot: BotIdentity, message: Message, today: string, now: string)
    requires Route(bot, message).Dispatch? && Route(bot, message).commands[0] == "help"
    ensures OnMessageEffects(cfg, bot, message, today, now) == [Send(Route(bot, message).target, cfg.help)]
  {
    HandlerSelected(Route(bot, message).commands);
  }

  /**
   * `sudoku` sends the shutdown notice to the target first and then destroys
   * the client.
   */
  lemma SudokuShutsDown(cfg: Config, bot: BotIdentity, message: Message, today: string, now: string)
    requires Route(bot, message).Dispatch? && Route(bot, message).commands[0] == "sudoku"
    ensures OnMessageEffects(cfg, bot, message, today, now) ==
      [Send(Route(bot, message).target, "Shutting down."), DestroyClient]
  {
    HandlerSelected(Route(bot, message).commands);
  }

  /**
   * `upcoming` in a direct message asks the configured calendar for single
   * events ordered by start time from today on, with no upper bound, and
   * the answer goes back to the author.
   */
  lemma UpcomingQuery(cfg: Config, bot: BotIdentity, message: Message, today: string, now: string)
    requires message.author != bot.user && message.channel.kind == "dm"
    requires Words(message)[0] == "upcoming"
    ensures var effects := OnMessageEffects(cfg, bot, message, today, now);
      && |effects| == 1 && effects[0].ListEvents?
      && effects[0].replyTo == ToAuthor(message.author)
      && effects[0].query.timeMin == today && effects[0].query.timeMax.None?
      && effects[0].query.singleEvents && effects[0].query.orderBy == "startTime"
      && effects[0].query.calendarId == cfg.settings.calendarId
      && effects[0].query.maxResults == cfg.settings.numberOfUpcomingEvents
  {
    DirectMessageRoute(bot, message);
    var target := ToAuthor(message.author);
    assert HandleCommand(Words(message)) == Upcoming;
    assert OnMessageEffects(cfg, bot, message, today, now) == Perform(cfg, Upcoming, target, today, now);
  }

  /**
   * A successful answer sends one message to the requesting target, the
   * reply; only an event without `start` makes it send none.
   */
  lemma SuccessSendsOneReply(cfg: Config, locale: DateArgs -> string, target: Target, items: seq<Event>)
    ensures var effects := OnEventsListed(cfg, locale, target, Success(items));
      && |effects| <= 1
      && (|effects| == 1 <==> AllHaveStart(items))
      && (|effects| == 1 ==> effects[0] == Send(target, Reply(cfg.upcoming, HostDates(locale), items).value))
  {
    ReplyShape(cfg.upcoming, HostDates(locale), items);
  }

  /**
   * An empty answer sends the `foundUpcoming` preamble on its own; the
   * `noUpcoming` text is sent only when that preamble is empty.
   */
  lemma EmptyAnswer(cfg: Config, locale: DateArgs -> string, target: Target)
    ensures OnEventsListed(cfg, locale, target, Success([])) ==
      [Send(target, if cfg.upcoming.foundUpcoming != "" then cfg.upcoming.foundUpcoming else cfg.upcoming.noUpcoming)]
  {
    ReplyNoEvents(cfg.upcoming, HostDates(locale));
  }

  /**
   * A timed event with no all-day date is shown with its start and end read
   * by `parseGoogleDate` and printed by `toLocaleString()`, after the preamble.
   */
  lemma TimedEventLine(cfg: Config, locale: DateArgs -> string, target: Target, e: Event)
    requires e.start.Some? && !Truthy(e.start.value.date)
    requires Truthy(e.start.value.dateTime) && e.end.Some? && Truthy(e.end.value.dateTime)
    ensures var text := cfg.upcoming.foundUpcoming + cfg.upcoming.between(e.summary,
        LocaleString(locale, ParseGoogleDate(e.start.value.dateTime.value)),
        LocaleString(locale, ParseGoogleDate(e.end.value.dateTime.value)));
      OnEventsListed(cfg, locale, target, Success([e])) ==
        [Send(target, if text != "" then text else cfg.upcoming.noUpcoming)]
  {
    LinesSingle(cfg.upcoming, HostDates(locale), e);
    TimedLine(cfg.upcoming, HostDates(locale), e);
  }
}
