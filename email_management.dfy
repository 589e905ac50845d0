/**
 * The sequential core of the email assistant's processing run: the meeting
 * classifier, the calendar event request, the IMAP search criteria, the
 * `maxEmails` cut and the per-email loop with its two counters.
 */
module EmailManagement {
  import opened Wrappers
  import opened JsString
  import opened EmailUtils
  import opened UserCriteria
  import DateTimeParser

  // ---------------------------------------------------------- classifier

  const MeetingKeywords: seq<string> :=
    ["meeting", "conference", "call", "discussion", "appointment", "zoom", "google meet", "teams"]

  /** `keywords.some(k => subject.includes(k) || text.includes(k))`. */
  function SomeKeyword(keywords: seq<string>, subject: string, text: string): (r: bool)
    ensures r <==> exists k :: 0 <= k < |keywords| && (Includes(subject, keywords[k]) || Includes(text, keywords[k]))
  {
    if keywords == [] then false
    else
      var rest := SomeKeyword(keywords[1..], subject, text);
      assert forall k :: 1 <= k < |keywords| ==> keywords[k] == keywords[1..][k - 1];
      (Includes(subject, keywords[0]) || Includes(text, keywords[0])) || rest
  }

  /**
   * An email is about a meeting exactly when one of the keywords occurs, as a
   * plain substring, in its lower-cased subject or its lower-cased text.
   */
  function HasMeetingKeyword(subject: string, text: string): (r: bool)
    ensures r <==> exists k :: 0 <= k < |MeetingKeywords|
                     && (Includes(Lower(subject), MeetingKeywords[k]) || Includes(Lower(text), MeetingKeywords[k]))
  {
    SomeKeyword(MeetingKeywords, Lower(subject), Lower(text))
  }

  /** The classifier does not see letter case. */
  lemma ClassifierIgnoresCase(subject: string, text: string)
    ensures HasMeetingKeyword(Lower(subject), Lower(text)) == HasMeetingKeyword(subject, text)
  {
    LowerIdempotent(subject);
    LowerIdempotent(text);
  }

  /** A keyword that occurs verbatim in the text makes the email a meeting email. */
  lemma KeywordInTextIsMeeting(subject: string, text: string, k: nat, i: int)
    requires k < |MeetingKeywords| && OccursAt(text, MeetingKeywords[k], i)
    ensures HasMeetingKeyword(subject, text)
  {
    var kw := MeetingKeywords[k];
    assert forall j :: 0 <= j < |kw| ==> !('A' <= kw[j] <= 'Z');
    LowerKeepsOccurrence(text, kw, i);
  }

  /** Matching is by substring, so the word "recall" counts as the keyword "call". */
  lemma RecallCountsAsCall(subject: string, text: string, i: int)
    requires OccursAt(text, "recall", i)
    ensures HasMeetingKeyword(subject, text)
  {
    assert text[i + 2..i + 6] == "recall"[2..];
    KeywordInTextIsMeeting(subject, text, 2, i + 2);
  }

  /** The scenario of a team sync held over Zoom is classified as a meeting. */
  lemma ZoomCallIsAMeeting(subject: string, text: string)
    requires subject == "Team Sync" && text == "Join our zoom call at noon"
    ensures HasMeetingKeyword(subject, text)
  {
    assert text[9..13] == "zoom";
    KeywordInTextIsMeeting(subject, text, 5, 9);
  }

  // ------------------------------------------------------- event request

  /** What the loop hands to the calendar step for one email. */
  datatype EventDetails = EventDetails(
    summary: string, description: string, startDateTime: int, endDateTime: int)

  const CalendarTimeZone: string := "Asia/Kolkata"

  datatype EventTime = EventTime(dateTime: int, timeZone: string)
  datatype Reminder = Reminder(channel: string, minutes: int)
  datatype ReminderSettings = ReminderSettings(useDefault: bool, overrides: seq<Reminder>)

  /** The event resource sent to the calendar insert call. */
  datatype CalendarEvent = CalendarEvent(
    summary: string, description: string, start: EventTime, end: EventTime, reminders: ReminderSettings)

  const MaxDescriptionLength: nat := 500

  /** The subject as summary, the first 500 characters of the text as description. */
  function EventDetailsFor(email: Email, w: DateTimeParser.Window): (d: EventDetails)
    ensures d.summary == email.subject
    ensures d.description <= email.text && |d.description| <= 500
    ensures |email.text| <= 500 ==> d.description == email.text
    ensures |email.text| > 500 ==> |d.description| == 500
    ensures d.startDateTime == w.startDateTime && d.endDateTime == w.endDateTime
  {
    EventDetails(email.subject, Take(email.text, MaxDescriptionLength), w.startDateTime, w.endDateTime)
  }

  /** The instant a reminder fires for an event starting at `start`. */
  function ReminderInstant(start: int, r: Reminder): int {
    start - r.minutes * DateTimeParser.MinuteMs
  }

  /**
   * The event object of `addEventToCalendar`: both times in Asia/Kolkata, no
   * default reminders, and two pop-ups, one day and one hour before the start.
   */
  function CalendarEventFor(d: EventDetails): (ev: CalendarEvent)
    ensures ev.summary == d.summary && ev.description == d.description
    ensures ev.start == EventTime(d.startDateTime, "Asia/Kolkata")
    ensures ev.end == EventTime(d.endDateTime, "Asia/Kolkata")
    ensures !ev.reminders.useDefault && |ev.reminders.overrides| == 2
    ensures forall r :: r in ev.reminders.overrides ==> r.channel == "popup"
    ensures ReminderInstant(d.startDateTime, ev.reminders.overrides[0]) == d.startDateTime - DateTimeParser.DayMs
    ensures ReminderInstant(d.startDateTime, ev.reminders.overrides[1]) == d.startDateTime - DateTimeParser.HourMs
  {
    CalendarEvent(
      d.summary, d.description,
      EventTime(d.startDateTime, CalendarTimeZone),
      EventTime(d.endDateTime, CalendarTimeZone),
      ReminderSettings(false, [Reminder("popup", 24 * 60), Reminder("popup", 60)]))
  }

  // ----------------------------------------------------- search criteria

  datatype SearchKey = All | From(address: string) | Subject(text: string) | Since(instant: int)

  /** JavaScript truthiness of an optional string: present and not empty. */
  predicate Truthy(o: Option<string>) {
    o.Some? && o.value != ""
  }

  /**
   * The IMAP search criteria of `fetchTargetedEmails`: "ALL", then FROM and
   * SUBJECT when those criteria are truthy, then SINCE. Rendering an invalid
   * `since` date throws, which aborts the fetch.
   */
  method BuildSearchCriteria(criteria: Criteria) returns (r: Result<seq<SearchKey>>)
    ensures r.Failure? <==> criteria.since.None?
    ensures r.Failure? ==> r.error == "Invalid time value"
    ensures r.Success? ==>
      r.value == [All]
                 + (if Truthy(criteria.from) then [From(criteria.from.value)] else [])
                 + (if Truthy(criteria.subject) then [Subject(criteria.subject.value)] else [])
                 + [Since(criteria.since.value)]
    ensures r.Success? ==> 2 <= |r.value| <= 4 && r.value[0] == All
                           && r.value[|r.value| - 1] == Since(criteria.since.value)
  {
    var searchCriteria := [All];
    if Truthy(criteria.from) {
      searchCriteria := searchCriteria + [From(criteria.from.value)];
    }
    if Truthy(criteria.subject) {
      searchCriteria := searchCriteria + [Subject(criteria.subject.value)];
    }
    if criteria.since.None? {
      return Failure("Invalid time value");
    }
    searchCriteria := searchCriteria + [Since(criteria.since.value)];
    return Success(searchCriteria);
  }

  // ------------------------------------------------------ maxEmails cut

  /** JavaScript truthiness of the `maxEmails` criterion: a number other than 0 (NaN is falsy). */
  predicate LimitIsTruthy(maxEmails: Option<ParsedInt>) {
    maxEmails.Some? && maxEmails.value.Int? && maxEmails.value.value != 0
  }

  /** `s.slice(0, end)`: a negative end counts back from the end of `s`. */
  function SliceTo<T>(s: seq<T>, end: int): (r: seq<T>)
    ensures r <= s
    ensures end >= 0 ==> |r| == if end < |s| then end else |s|
    ensures end < 0 ==> |r| == if |s| + end > 0 then |s| + end else 0
  {
    if end < 0 then s[..if |s| + end > 0 then |s| + end else 0]
    else s[..if end < |s| then end else |s|]
  }

  /** `criteria.maxEmails ? messages.slice(0, criteria.maxEmails) : messages`. */
  function MessagesToProcess<T>(messages: seq<T>, maxEmails: Option<ParsedInt>): (r: seq<T>)
    ensures r <= messages
    ensures !LimitIsTruthy(maxEmails) ==> r == messages
    ensures LimitIsTruthy(maxEmails) && maxEmails.value.value > 0 ==>
      |r| == if maxEmails.value.value < |messages| then maxEmails.value.value else |messages|
    ensures LimitIsTruthy(maxEmails) && maxEmails.value.value < 0 ==>
      |r| == if |messages| + maxEmails.value.value > 0 then |messages| + maxEmails.value.value else 0
  {
    if LimitIsTruthy(maxEmails) then SliceTo(messages, maxEmails.value.value) else messages
  }

  /** Answering the prompt with a positive count `n` processes the first `n` messages. */
  lemma TypedLimitTakesPrefix<T>(messages: seq<T>, n: nat, from: string, subject: string,
                                 since: string, now: int, parseDate: string -> Option<int>)
    requires n > 0
    ensures var c := GetUserCriteria(from, subject, since, NatToString(n), now, parseDate);
      MessagesToProcess(messages, c.maxEmails) == messages[..if n < |messages| then n else |messages|]
  {
    TypedCountIsKept(from, subject, since, n, now, parseDate);
  }

  /** A blank answer, and also the answer "0", processes every message. */
  lemma BlankOrZeroLimitTakesAll<T>(messages: seq<T>, answer: string, from: string, subject: string,
                                    since: string, now: int, parseDate: string -> Option<int>)
    requires answer == "" || answer == "0"
    ensures var c := GetUserCriteria(from, subject, since, answer, now, parseDate);
      MessagesToProcess(messages, c.maxEmails) == messages
  {
    if answer == "0" {
      assert answer == NatToString(0);
      TypedCountIsKept(from, subject, since, 0, now, parseDate);
    }
  }

  // ---------------------------------------------------- processing loop

  /** What the loop does with one email. */
  datatype Outcome =
    | NoKeyword                            // not classified as a meeting
    | NoDateTime                           // a meeting, but no date or time found
    | InsertFailed(event: CalendarEvent)   // the calendar insert threw
    | Created(event: CalendarEvent)        // the event was inserted

  predicate Requested(o: Outcome) {
    o.InsertFailed? || o.Created?
  }

  /**
   * The fate of one email: the grammar `chrono` runs only on meeting emails,
   * an event is built only when it found a date, and `inserted` says whether
   * the calendar accepted it.
   */
  function OutcomeOf(email: Email, chrono: string -> seq<DateTimeParser.Candidate>,
                     inserted: bool, now: int): (o: Outcome)
    ensures o.NoKeyword? <==> !HasMeetingKeyword(email.subject, email.text)
    ensures o.NoDateTime? <==>
      HasMeetingKeyword(email.subject, email.text) && |chrono(email.text)| == 0
    ensures Requested(o) ==>
      o.event == CalendarEventFor(EventDetailsFor(email,
                   DateTimeParser.Extract(chrono(email.text), now).value))
    ensures o.Created? <==> Requested(o) && inserted
  {
    if !HasMeetingKeyword(email.subject, email.text) then NoKeyword
    else
      match DateTimeParser.Extract(chrono(email.text), now)
      case None => NoDateTime
      case Some(w) =>
        var event := CalendarEventFor(EventDetailsFor(email, w));
        if inserted then Created(event) else InsertFailed(event)
  }

  function Outcomes(emails: seq<Email>, chrono: string -> seq<DateTimeParser.Candidate>,
                    inserted: seq<bool>, now: int): seq<Outcome>
    requires |inserted| == |emails|
  {
    seq(|emails|, i requires 0 <= i < |emails| => OutcomeOf(emails[i], chrono, inserted[i], now))
  }

  /** The number of emails classified as meetings. */
  function CountMeetings(outcomes: seq<Outcome>): nat {
    if outcomes == [] then 0
    else CountMeetings(outcomes[..|outcomes| - 1]) + (if outcomes[|outcomes| - 1].NoKeyword? then 0 else 1)
  }

  /** The number of events inserted. */
  function CountCreated(outcomes: seq<Outcome>): nat {
    if outcomes == [] then 0
    else CountCreated(outcomes[..|outcomes| - 1]) + (if outcomes[|outcomes| - 1].Created? then 1 else 0)
  }

  /** The calendar insert requests, in order. */
  function InsertRequests(outcomes: seq<Outcome>): seq<CalendarEvent> {
    if outcomes == [] then []
    else
      var last := outcomes[|outcomes| - 1];
      InsertRequests(outcomes[..|outcomes| - 1]) + (if Requested(last) then [last.event] else [])
  }

  /** Every event created was a detected meeting, and there are no more meetings than emails. */
  lemma {:induction false} CountsAreOrdered(outcomes: seq<Outcome>)
    ensures CountCreated(outcomes) <= |InsertRequests(outcomes)| <= CountMeetings(outcomes) <= |outcomes|
  {
    if outcomes != [] {
      CountsAreOrdered(outcomes[..|outcomes| - 1]);
    }
  }

  /**
   * The loop of `processEmails`. The grammar is `chrono`, the clock is `now`,
   * and `insertSucceeds[i]` is whether the calendar insert for email `i`
   * succeeds (it is consulted only when that insert happens).
   */
  method ProcessEmails(emails: seq<Email>, chrono: string -> seq<DateTimeParser.Candidate>,
                       insertSucceeds: seq<bool>, now: int)
    returns (meetingsDetected: nat, eventsCreated: nat, requests: seq<CalendarEvent>)
    requires |insertSucceeds| == |emails|
    ensures meetingsDetected == CountMeetings(Outcomes(emails, chrono, insertSucceeds, now))
    ensures eventsCreated == CountCreated(Outcomes(emails, chrono, insertSucceeds, now))
    ensures requests == InsertRequests(Outcomes(emails, chrono, insertSucceeds, now))
    ensures eventsCreated <= meetingsDetected <= |emails|
  {
    ghost var outcomes := Outcomes(emails, chrono, insertSucceeds, now);
    meetingsDetected, eventsCreated, requests := 0, 0, [];
    for i := 0 to |emails|
      invariant meetingsDetected == CountMeetings(outcomes[..i])
      invariant eventsCreated == CountCreated(outcomes[..i])
      invariant requests == InsertRequests(outcomes[..i])
    {
      var email := emails[i];
      assert outcomes[..i + 1][..i] == outcomes[..i];
      var hasMeetingKeyword := HasMeetingKeyword(email.subject, email.text);
      if hasMeetingKeyword {
        meetingsDetected := meetingsDetected + 1;
        var meetingDetails := DateTimeParser.ParseDateTime(chrono(email.text), now);
        if meetingDetails.Some? {
          var eventDetails := EventDetailsFor(email, meetingDetails.value);
          var event := CalendarEventFor(eventDetails);
          requests := requests + [event];
          if insertSucceeds[i] {
            eventsCreated := eventsCreated + 1;
          }
        }
      }
    }
    assert outcomes[..|emails|] == outcomes;
    CountsAreOrdered(outcomes);
  }
}
