/**
 * `listEvents`: the event records the calendar provider returns, the query
 * parameters the bot sends, and the rule that the callback only sees a
 * successful response.
 */
module Calendar {
  import opened Wrappers

  /** One side of an event's time span, as the provider's JSON has it. */
  datatype Boundary = Boundary(date: Option<string>, dateTime: Option<string>)

  /** An event record: `summary`, and the optional `start` and `end` objects. */
  datatype Event = Event(summary: string, start: Option<Boundary>, end: Option<Boundary>)

  /** JavaScript truthiness of an optional string: present and not empty. */
  predicate Truthy(s: Option<string>)
  {
    s.Some? && s.value != ""
  }

  /** The configured calendar and the number of events to ask for. */
  datatype Settings = Settings(calendarId: string, numberOfUpcomingEvents: int)

  /** The parameter object passed to `calendar.events.list`. */
  datatype Query = Query(
    calendarId: string, timeMin: string, timeMax: Option<string>,
    maxResults: int, singleEvents: bool, orderBy: string)

  /**
   * The parameters `listEvents` builds. `now` is the current instant and
   * `startDate`, `endDate` the optional bounds, all already in ISO form.
   */
  function BuildQuery(settings: Settings, now: string, startDate: Option<string>, endDate: Option<string>): (q: Query)
    ensures q.calendarId == settings.calendarId
    ensures q.maxResults == settings.numberOfUpcomingEvents
    ensures q.singleEvents && q.orderBy == "startTime"
    ensures startDate.Some? ==> q.timeMin == startDate.value
    ensures startDate.None? ==> q.timeMin == now
    ensures q.timeMax.Some? <==> endDate.Some?
    ensures q.timeMax.Some? ==> q.timeMax.value == endDate.value
  {
    var defaults := Query(settings.calendarId, now, None, settings.numberOfUpcomingEvents, true, "startTime");
    var withStart := if startDate.Some? then defaults.(timeMin := startDate.value) else defaults;
    if endDate.Some? then withStart.(timeMax := Some(endDate.value)) else withStart
  }

  /**
   * What reaches the callback of `listEvents` once the provider answers:
   * the items on success; on an error the callback is never called (None).
   */
  function Deliver(response: Result<seq<Event>, string>): (callback: Option<seq<Event>>)
    ensures callback.Some? <==> response.Success?
    ensures callback.Some? ==> callback.value == response.value
  {
    match response
    case Failure(_) => None
    case Success(items) => Some(items)
  }
}
