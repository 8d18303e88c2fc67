# obibot command and calendar core, in Dafny

obibot is a Discord bot. It answers commands sent to it and reports upcoming
events from one Google calendar. This project models the core of its
`index.js` with the chat platform, the calendar provider, the clock and the
host's locale abstracted away:

- **Strings** (`strings.dfy`): JavaScript's `split(' ')`, its inverse `join`,
  and substring containment, which stands for `String.prototype.match` with
  the bot's client id as the pattern.
- **Router** (`router.dfy`): the `message` handler. It drops the bot's own
  messages. In a `text` channel it requires a first word mentioning the
  client id and drops that first word from its word list. It picks the channel or the author
  as the reply target, and dispatches when words remain. `handleCommand`
  picks the handler by an exact match of the first word. The handler is an
  imperative method (`OnMessage`) proved equal to the routing function
  `Route`.
- **GoogleDate** (`google_date.dfy`): `parseGoogleDate`, a fixed-position
  reader of `YYYY-MM-DDTHH:MM:SS±HH:MM`: a subset of the `date-time` form of
  RFC 3339, section 5.6, with whole seconds, an upper-case `T` and a numeric
  offset only. Fractional seconds, a lower-case `t` and a `Z` offset give an
  Invalid Date. It returns the arguments passed to
  `new Date`, and None for an Invalid Date. It is proved against a
  formatter `Format`: the parser accepts exactly the formatted strings and
  reads back their year, month − 1, day, hour and minute.
- **Calendar** (`calendar.dfy`): event records, the query parameters that
  `listEvents` builds, and its rule that the callback runs only on success.
- **Renderer** (`renderer.dfy`): the callback of `upcoming`. It is a loop
  (`UpcomingCallback`) that appends one line per event to the preamble. It is
  proved equal to the fold `Reply`. The renderer receives the date reader and
  the host's `toLocaleString()` together as a `Dates` value; the bot passes
  `GoogleDate.ParseGoogleDate` as the reader (`Bot.HostDates`), and
  `Bot.TimedEventLine` states the resulting line in terms of it.
- **Bot** (`bot.dfy`): the effects of one message (send, destroy the client,
  request events) and of one provider answer.

Three behaviours of the code are easy to misread, and the model keeps them
as written:

- With an empty event list the reply is the `found_upcoming` preamble, not
  `no_upcoming`. The code sends `no_upcoming` only when the accumulated text
  is empty (index.js:179, 196), so that happens only with an empty preamble.
- An event with no `start` object does not just contribute nothing. Line 182
  reads `item.start.dateTime` before any check, so such an event throws
  inside the callback and nothing is sent (`Reply` is None). The
  `item.start &&` guards on lines 184 and 186 can never be false for an
  absent or object `start`.
- `start.date` counts only when it is a non-empty string, because of
  JavaScript truthiness.

## Model

| member | source | states |
|---|---|---|
| Strings.Split | index.js:100 | splitting on a space gives at least one piece, and no piece contains a space |
| Strings.JoinSplit | index.js:100 | joining the split pieces with spaces gives back the message content |
| Strings.SplitJoin | index.js:100 | splitting a join of space-free words gives back the words |
| Strings.Contains | index.js:104 | the mention test holds exactly when the client id occurs at some position of the first word |
| Router.Route | index.js:94-130 | a dispatched command always has at least one word |
| Router.OnMessage | index.js:94-130 | the handler, which drops the first word of its word list after a mention, yields exactly the routing `Route` describes |
| Router.OwnMessageSkipped | index.js:95-98 | a message authored by the bot itself is skipped whatever its channel and content |
| Router.TextChannelRoute | index.js:100-111 | in a `text` channel a message is dispatched iff its first word contains the client id and more words follow; the target is the channel, the command is the words from index 1 on, and the content is the mention, a space and the joined command |
| Router.UnmentionedSkipped | index.js:102-106 | in a `text` channel a first word without the client id means no reply |
| Router.MentionedCommandRoutes | index.js:102-111 | a mention followed by a space and any space-free words is dispatched to the channel with exactly those words |
| Router.DirectMessageRoute | index.js:112-114 | in a `dm` the target is the author and the command is the unmodified split of the content, which joins back to it |
| Router.OtherChannelSkipped | index.js:116-120 | any channel type other than `text` or `dm` gives no target and no dispatch |
| Router.HandleCommand | index.js:132-149 | some handler runs iff there is a first word and it is one of the command names |
| Router.HandlerSelected | index.js:132-149 | the handler for `help`, `sudoku` or `upcoming` is selected iff the first word is exactly that name |
| Router.FirstWordDecides | index.js:133 | words after the first never change the selected handler |
| GoogleDate.SplitOnPattern | index.js:205 | the split has the ten pieces of a match iff the input matches the anchored pattern; otherwise it is the input alone |
| GoogleDate.SplitRejoins | index.js:205 | on a match the split starts and ends with empty text, and its eight groups put back together with the literal separators are the input |
| GoogleDate.MatchesByGroups | index.js:205 | reading the pattern position by position and group by group (`\d{4}`, `\d{2}`, …) accept the same strings |
| GoogleDate.NumberAt | index.js:206-210 | on the groups 1-5 that these lines read (absent, or all digits), unary `+` gives NaN for an absent token and otherwise the token's decimal value |
| GoogleDate.NumberWritesBack | index.js:206-210 | a number read from a token is below 10 to the token's width, and written back with that width it is the token |
| GoogleDate.ParseGoogleDate | index.js:204-214 | a valid date is only ever built from a string that matches the pattern |
| GoogleDate.DecimalPad | index.js:206-210 | unary `+` on a zero-padded digit field gives back the number written |
| GoogleDate.PadDecimal | index.js:206-210 | a digit field is the zero-padded writing of its value |
| GoogleDate.ParseFields | index.js:205-213 | on a match the parser reads the first five captured groups as year, month − 1, day, hour and minute, and ignores the rest |
| GoogleDate.ParseFormat | index.js:204-214 | a well-formed timestamp parses to its written year, month − 1, day, hour and minute |
| GoogleDate.ParseIgnoresSecondsAndOffset | index.js:205-213 | changing only the seconds or the offset leaves the parsed date unchanged |
| GoogleDate.FormatScan | index.js:205 | a string that matches the pattern is the format of the timestamp it holds |
| GoogleDate.ScanLaidOut | index.js:205 | a matching string holds, at the pattern's positions, the zero-padded fields of the timestamp read from it |
| GoogleDate.LaidOutUnique | index.js:205 | the pattern's fixed layout admits one string per timestamp |
| GoogleDate.ParseSucceedsExactlyOnFormatted | index.js:205-213 | the parser gives a valid date iff the input is a formatted timestamp; all other input gives an Invalid Date |
| GoogleDate.ParseExample | index.js:204-214 | `2024-06-01T10:00:00-04:00` parses to 2024, month index 5, day 1, 10:00; the offset is not applied |
| GoogleDate.FractionalSecondsRejected | index.js:205 | `2024-06-01T10:00:00.000-04:00`, an RFC 3339 date-time with fractional seconds, gives an Invalid Date |
| Calendar.BuildQuery | index.js:219-234 | the query has the configured calendar and count, `singleEvents`, order by `startTime`, `timeMin` the start date if given and now otherwise, and `timeMax` iff an end date is given |
| Calendar.Deliver | index.js:236-241 | the callback receives the items iff the provider answered without error |
| Renderer.LocaleString | index.js:192 | `toLocaleString()` prints `Invalid Date` for an Invalid Date and the host's text for a valid one |
| Renderer.ShapeOf | index.js:184-187 | an event is all-day iff `start.date` is truthy, with that date; it is timed iff not all-day and `start.dateTime` and `end.dateTime` are truthy, with those two times |
| Renderer.Line | index.js:183-193 | a truthy `start.date` gives the all-day line; an event that is neither all-day nor timed adds the empty string |
| Renderer.TimedLine | index.js:186-193 | an event with no all-day date and with both times gets the between text of its two dates in the host's locale |
| Renderer.Reply | index.js:179-200 | a reply exists iff every event has a `start`; an empty reply only happens when `no_upcoming` is empty |
| Renderer.AppendEventLine | index.js:181-194 | one step of `forEach` throws iff the event has no `start`, and otherwise appends exactly that event's line |
| Renderer.UpcomingCallback | index.js:178-201 | the loop that appends each event's line sends exactly the reply `Reply` describes, and nothing when an event has no `start` |
| Renderer.LinesConcat | index.js:180-194 | the lines of a run of events are the lines of its parts, in input order |
| Renderer.LinesSingle | index.js:180-194 | one event contributes exactly its own line |
| Renderer.LinesStep | index.js:180-194 | one more event appends exactly that event's line |
| Renderer.AllDayWins | index.js:184-185 | an event with a `start.date` gets the all-day line even when it also has `start.dateTime` |
| Renderer.ReplyNoEvents | index.js:179-200 | with no events the reply is the preamble, and `no_upcoming` only when the preamble is empty |
| Renderer.ReplyShape | index.js:196-200 | a sent reply starts with the preamble unless it is `no_upcoming` after an empty preamble and no lines |
| Renderer.ReplyExtends | index.js:179-194 | events after the last ones only append their lines to a non-empty reply |
| Bot.Perform | index.js:132-178 | only the no-op default does nothing, and every message a handler sends goes to the target |
| Bot.OnMessageEffects | index.js:94-158 | the bot's own messages cause nothing; any effect comes from a routed message whose first word selects a handler; every send goes to the routed target |
| Bot.OnEventsListed | index.js:236-241 | a provider answer causes at most one effect, a send to the requesting target; an error causes none |
| Bot.TimedEventLine | index.js:186-200 | a single timed event is sent as the preamble plus the between text of its start and end read by `parseGoogleDate`, or `no_upcoming` if that text is empty |
| Bot.EffectsOnlyForKnownCommands | index.js:122-149 | a message causes an effect iff it is routed and its first word is a command name; unknown names send nothing |
| Bot.HelpReply | index.js:151-153 | a routed `help` sends the help text to the routed target and does nothing else |
| Bot.SudokuShutsDown | index.js:155-158 | a routed `sudoku` sends `Shutting down.` to the routed target and then destroys the client, in that order |
| Bot.UpcomingQuery | index.js:174-178 | `upcoming` in a direct message requests events from today's midnight with no upper bound, with the fixed query options, and replies to the author |
| Bot.SuccessSendsOneReply | index.js:196-200 | a successful answer sends at most one message, the reply, to the target; it sends one iff every event has a `start` |
| Bot.EmptyAnswer | index.js:179-200 | an empty answer sends the preamble on its own, or `no_upcoming` when the preamble is empty |

## Left out

- Discord client construction, login, the `ready` and `disconnected` handlers and `client.destroy` itself (index.js:60-92, 157): chat-platform session management. `sudoku` is the `DestroyClient` effect.
- The winston logger, log directory creation and `process.exit` (index.js:21-56), and every `console.log` and `logger` call: logging only.
- The `node-schedule` announcement job (index.js:74-86): a timer that sends a fixed test string.
- OAuth2 client construction and loading of the JSON configuration and credential files (index.js:10-17, 160-172): foreign library calls and file loading. The messages and settings the core reads are inputs (`Config`).
- Calendar.BuildQuery: the `auth` entry of the parameter object is not modelled, because it only carries the opaque OAuth2 client object.
- The `calendar.events.list` network call and its callback scheduling (index.js:217, 236): the provider's answer is an input of type `Result<seq<Event>, string>`. Overlapping `upcoming` requests are independent calls of `OnEventsListed`. No timeout exists in the source, and none is modelled.
- JavaScript `Date` semantics: `setHours`, `toISOString`, `toLocaleString` and the local time zone (index.js:175-176, 192, 213). Today's midnight and the current instant are ISO strings given as inputs. A valid date's locale text comes from a given function; an Invalid Date prints `Invalid Date`.
- GoogleDate.NumberAt: unary `+` on anything but a string of decimal digits (signed text, surrounding white space, hexadecimal, exponents, fractions, `Infinity`) is not modelled (the model reads it as NaN). Lines 206-210 only apply it to digit groups. So `tzHour` (index.js:211), which the source computes from the signed group and never uses, is not computed.
- GoogleDate.ParseGoogleDate: it returns the arguments of `new Date(...)`, not the normalised `Date`. So years 0-99 are not mapped to 1900-1999, and out-of-range months, days, hours and minutes do not roll over.
- `sprintf` (index.js:185, 192): the all-day and between templates are given functions of their arguments.
- Strings.Contains: `match` treats the client id as a regular expression; the model treats it as plain text. The two agree for client ids without regular-expression metacharacters, such as Discord's numeric ids.
- What the host does with the TypeError thrown at index.js:182 for an event without `start` is not modelled: it escapes the callback and no handler for it is installed. The model only says that nothing is sent (`Bot.OnEventsListed` gives no effect).
- User identity (`===` on user objects) is modelled as equality of user values.
- `start`/`end` holding anything but an object or nothing, `date`/`dateTime` holding anything but a string or nothing, and an absent `summary` are not modelled.
