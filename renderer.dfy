/**
 * The callback `upcoming` hands to `listEvents`: it folds the returned events
 * into one reply, a preamble followed by one line per event that has an
 * all-day start or a timed start and end.
 */
module Renderer {
  import opened Wrappers
  import opened Calendar
  import opened GoogleDate

  /**
   * The `upcoming` entries of the message table. `allDay` and `between` are
   * the format strings already applied to their arguments by `sprintf`.
   */
  datatype UpcomingMessages = UpcomingMessages(
    foundUpcoming: string,
    noUpcoming: string,
    allDay: (string, string) -> string,
    between: (string, string, string) -> string)

  /**
   * How a timestamp of the provider becomes text in a line: `parse` is
   * `parseGoogleDate` (the bot passes GoogleDate.ParseGoogleDate) and
   * `locale` is the host's `toLocaleString()` of a valid date.
   */
  datatype Dates = Dates(parse: string -> Option<DateArgs>, locale: DateArgs -> string)

  /** What `toLocaleString()` prints for an Invalid Date. */
  const InvalidDate := "Invalid Date"

  /** `date.toLocaleString()`, with `locale` the host's rendering of a valid date. */
  function LocaleString(locale: DateArgs -> string, date: Option<DateArgs>): (r: string)
    ensures date.None? ==> r == "Invalid Date"
    ensures date.Some? ==> r == locale(date.value)
  {
    if date.Some? then locale(date.value) else InvalidDate
  }

  /** Which line, if any, an event contributes. */
  datatype Shape = AllDay(date: string) | Between(start: string, end: string) | NoLine

  function ShapeOf(e: Event): (shape: Shape)
    requires e.start.Some?
    ensures shape.AllDay? <==> Truthy(e.start.value.date)
    ensures shape.AllDay? ==> shape.date == e.start.value.date.value
    ensures shape.Between? <==>
      !Truthy(e.start.value.date) && Truthy(e.start.value.dateTime) && e.end.Some? && Truthy(e.end.value.dateTime)
    ensures shape.Between? ==>
      shape.start == e.start.value.dateTime.value && shape.end == e.end.value.dateTime.value
  {
    var start := e.start.value;
    if Truthy(start.date) then AllDay(start.date.value)
    else if Truthy(start.dateTime) && e.end.Some? && Truthy(e.end.value.dateTime) then
      Between(start.dateTime.value, e.end.value.dateTime.value)
    else NoLine
  }

  /** The text one event adds to the reply. */
  function Line(m: UpcomingMessages, dates: Dates, e: Event): (line: string)
    requires e.start.Some?
    ensures Truthy(e.start.value.date) ==> line == m.allDay(e.summary, e.start.value.date.value)
    ensures !Truthy(e.start.value.date) && !(Truthy(e.start.value.dateTime) && e.end.Some? && Truthy(e.end.value.dateTime))
      ==> line == ""
  {
    match ShapeOf(e)
    case AllDay(date) => m.allDay(e.summary, date)
    case Between(s, t) =>
      m.between(e.summary, LocaleString(dates.locale, dates.parse(s)), LocaleString(dates.locale, dates.parse(t)))
    case NoLine => ""
  }

  /** Every event has a `start` object, so reading `item.start.dateTime` cannot throw. */
  predicate AllHaveStart(events: seq<Event>)
  {
    forall i :: 0 <= i < |events| ==> events[i].start.Some?
  }

  /** The lines of the events, in the order the provider returned them. */
  function Lines(m: UpcomingMessages, dates: Dates, events: seq<Event>): (text: string)
    requires AllHaveStart(events)
  {
    if events == [] then "" else Line(m, dates, events[0]) + Lines(m, dates, events[1..])
  }

  /**
   * The message the callback sends: None when it throws on an event without
   * `start`; otherwise the accumulated text, or `noUpcoming` when that text
   * is empty.
   */
  function Reply(m: UpcomingMessages, dates: Dates, events: seq<Event>): (r: Option<string>)
    ensures r.Some? <==> AllHaveStart(events)
    ensures r.Some? && r.value == "" ==> m.noUpcoming == ""
  {
    if AllHaveStart(events) then
      var text := m.foundUpcoming + Lines(m, dates, events);
      Some(if text != "" then text else m.noUpcoming)
    else None
  }

  /** The lines of two runs of events are the lines of each, in order. */
  lemma {:induction false} LinesConcat(m: UpcomingMessages, dates: Dates, a: seq<Event>, b: seq<Event>)
    requires AllHaveStart(a) && AllHaveStart(b)
    ensures AllHaveStart(a + b)
    ensures Lines(m, dates, a + b) == Lines(m, dates, a) + Lines(m, dates, b)
  {
    if a == [] {
      assert a + b == b;
    } else {
      assert (a + b)[1..] == a[1..] + b;
      LinesConcat(m, dates, a[1..], b);
    }
  }

  /** Each event contributes exactly its own line. */
  lemma LinesSingle(m: UpcomingMessages, dates: Dates, e: Event)
    requires e.start.Some?
    ensures Lines(m, dates, [e]) == Line(m, dates, e)
  {
    assert [e][1..] == [];
  }

  /**
   * An event with a (non-empty) `start.date` gets the all-day line, whether
   * or not it also has `start.dateTime`.
   */
  lemma AllDayWins(m: UpcomingMessages, dates: Dates, e: Event)
    requires e.start.Some? && Truthy(e.start.value.date)
    ensures Reply(m, dates, [e]).Some?
    ensures m.foundUpcoming + m.allDay(e.summary, e.start.value.date.value) != "" ==>
      Reply(m, dates, [e]) == Some(m.foundUpcoming + m.allDay(e.summary, e.start.value.date.value))
  {
    LinesSingle(m, dates, e);
  }

  /** With no events the reply is the preamble, or `noUpcoming` when the preamble is empty. */
  lemma ReplyNoEvents(m: UpcomingMessages, dates: Dates)
    ensures Reply(m, dates, []) == Some(if m.foundUpcoming != "" then m.foundUpcoming else m.noUpcoming)
  {
    assert m.foundUpcoming + Lines(m, dates, []) == m.foundUpcoming;
  }

  /**
   * A reply begins with the preamble unless the accumulated text is empty,
   * and then it is `noUpcoming`.
   */
  lemma ReplyShape(m: UpcomingMessages, dates: Dates, events: seq<Event>)
    ensures Reply(m, dates, events).Some? ==>
      var r := Reply(m, dates, events).value;
      (r == m.noUpcoming && m.foundUpcoming == "" && Lines(m, dates, events) == "")
      || (r != "" && r[..|m.foundUpcoming|] == m.foundUpcoming)
  {
  }

  /** Adding events after the last one only appends their lines to the reply text. */
  lemma {:induction false} ReplyExtends(m: UpcomingMessages, dates: Dates, a: seq<Event>, b: seq<Event>)
    requires AllHaveStart(a) && AllHaveStart(b)
    requires m.foundUpcoming + Lines(m, dates, a) != ""
    ensures Reply(m, dates, a + b) == Some(Reply(m, dates, a).value + Lines(m, dates, b))
  {
    LinesConcat(m, dates, a, b);
    var f, la, lb := m.foundUpcoming, Lines(m, dates, a), Lines(m, dates, b);
    assert Lines(m, dates, a + b) == la + lb;
    assert f + (la + lb) == (f + la) + lb;
    assert |(f + la) + lb| >= |f + la| > 0;
    assert Reply(m, dates, a) == Some(f + la);
  }

  /** The line of a timed event: the between text of its two dates in the host's locale. */
  lemma TimedLine(m: UpcomingMessages, dates: Dates, e: Event)
    requires e.start.Some?
    ensures !Truthy(e.start.value.date) && Truthy(e.start.value.dateTime) && e.end.Some? && Truthy(e.end.value.dateTime) ==>
      Line(m, dates, e) == m.between(e.summary,
        LocaleString(dates.locale, dates.parse(e.start.value.dateTime.value)),
        LocaleString(dates.locale, dates.parse(e.end.value.dateTime.value)))
  {
  }

  /** Taking one more event of a run appends that event's line. */
  lemma LinesStep(m: UpcomingMessages, dates: Dates, events: seq<Event>, i: nat)
    requires i < |events| && AllHaveStart(events[..i]) && events[i].start.Some?
    ensures AllHaveStart(events[..i + 1])
    ensures Lines(m, dates, events[..i + 1]) == Lines(m, dates, events[..i]) + Line(m, dates, events[i])
  {
    LinesSingle(m, dates, events[i]);
    LinesConcat(m, dates, events[..i], [events[i]]);
    assert events[..i + 1] == events[..i] + [events[i]];
  }

  /**
   * The function `forEach` runs on one event: it appends the event's line to
   * the text so far, or throws (None) when the event has no `start`.
   */
  method AppendEventLine(m: UpcomingMessages, dates: Dates, returnMessage: string, item: Event)
    returns (next: Option<string>)
    ensures next.None? <==> item.start.None?
    ensures next.Some? ==> next.value == returnMessage + Line(m, dates, item)
  {
    if item.start.None? {
      // `item.start.dateTime` throws a TypeError
      return None;
    }
    var start := item.start.value;
    var text := returnMessage;
    if Truthy(start.date) {
      text := text + m.allDay(item.summary, start.date.value);
    } else if Truthy(start.dateTime) && item.end.Some? && Truthy(item.end.value.dateTime) {
      var startDate := dates.parse(start.dateTime.value);
      var endDate := dates.parse(item.end.value.dateTime.value);
      text := text + m.between(item.summary, LocaleString(dates.locale, startDate), LocaleString(dates.locale, endDate));
    }
    TimedLine(m, dates, item);
    next := Some(text);
  }

  /**
   * The callback as the source runs it: a loop over the events that appends
   * each event's line to `returnMessage`, then the choice of what to send.
   * An event that throws ends the callback before anything is sent.
   */
  method UpcomingCallback(m: UpcomingMessages, dates: Dates, events: seq<Event>)
    returns (sent: Option<string>)
    ensures sent == Reply(m, dates, events)
  {
    var returnMessage := m.foundUpcoming;
    for i := 0 to |events|
      invariant AllHaveStart(events[..i])
      invariant returnMessage == m.foundUpcoming + Lines(m, dates, events[..i])
    {
      var next := AppendEventLine(m, dates, returnMessage, events[i]);
      if next.None? {
        assert !AllHaveStart(events);
        return None;
      }
      LinesStep(m, dates, events, i);
      assert next.value == m.foundUpcoming + (Lines(m, dates, events[..i]) + Line(m, dates, events[i]));
      returnMessage := next.value;
    }
    assert events[..|events|] == events;
    if returnMessage != "" {
      sent := Some(returnMessage);
    } else {
      sent := Some(m.noUpcoming);
    }
  }
}
