# Email assistant core, modelled in Dafny

The assistant reads mail over IMAP and looks for emails about meetings: a
keyword test on the lower-cased subject and body. It pulls a date and time
out of each such email and inserts a Google Calendar event with two pop-up
reminders. It keeps two counters while doing so: meetings detected and
events created. Next to this it formats emails as plain text and answers an
SMS menu.

This project models the deterministic kernel of that program. The network,
the clock and the natural-language date grammar become parameters.

- `Wrappers` (`wrappers.dfy`): `Option` and `Result`.
- `JsString` (`js_string.dfy`): the JavaScript built-ins the kernel relies on.
  These are `toLowerCase`, `trim`/`trimStart`, `includes`,
  `substring(0, n)`, decimal rendering of a number and `parseInt` (no radix).
- `DateTimeParser` (`date_time_parser.dfy`): `parseDateTime`.
  - Instants are integer epoch milliseconds, read in one fixed local offset of +05:30.
  - The grammar's output is a sequence of candidates.
  - `Extract` states the result in calendar terms.
  - The method `ParseDateTime` performs the source's `setDate`/`setHours`/`setTime` steps and is proved equal to it.
- `EmailUtils` (`email_utils.dfy`): the record shaping of `parseEmail`.
  - The parser's output, the HTML document and the entity decoder are inputs.
- `EmailFormatter` (`email_formatter.dfy`): `formatEmail`.
  - It is written as a method that appends to `output`, with a loop over the attachments and one over the shown links.
  - It is proved equal to the specification function `Formatted`, whose properties are lemmas.
- `UserCriteria` (`user_criteria.dfy`): the defaulting in `getUserCriteria`.
- `EmailManagement` (`email_management.dfy`), the parts of `processEmails` and its helpers:
  - the keyword classifier;
  - the event request;
  - the IMAP search criteria (a method that pushes keys);
  - the `maxEmails` cut;
  - the processing loop with its two counters.
- `Twilio` (`twilio.dfy`): the SMS handler's routing, and the copy of `parseDateTime` in that file.

Behaviour of the code that the model keeps as written:

- Moving a past start to the next day guarantees a start after `now`. It does not guarantee an end after `now`, because the duration is kept even when the candidate's end lies before its start.
- A `maxEmails` answer of "0" processes every message, because 0 is falsy.
- A negative `maxEmails` answer `-n` processes all but the last `n` messages, because `slice(0, -n)` counts from the end.
- An answer of only spaces is not blank. It is kept as the `from`/`subject` criterion, and since it is a non-empty string it becomes a FROM/SUBJECT search key.

## Model

| member | source | states |
|---|---|---|
| JsString.Lower | emailManagement.js:322-323 | `toLowerCase` keeps the length and lower-cases each character |
| JsString.LowerIdempotent | emailManagement.js:322-323 | lower-casing twice is lower-casing once |
| JsString.TrimStart | emailUtils.js:51 | the result is a suffix, what was dropped is all whitespace, and it does not start with whitespace |
| JsString.TrimEnd | emailUtils.js:51 | the result is a prefix, what was dropped is all whitespace, and it does not end with whitespace |
| JsString.Trim | emailUtils.js:51 | the result has no leading or trailing whitespace and is no longer than the input |
| JsString.TrimSplits | emailUtils.js:51 | the trimmed text is a contiguous piece of the input |
| JsString.TrimOfTrimmed | twilo.js:19 | trimming a text without surrounding whitespace changes nothing |
| JsString.TrimIdempotent | emailUtils.js:51 | trimming twice is trimming once |
| JsString.LowerCharWhitespace | twilo.js:19 | lower-casing a character neither creates nor removes whitespace |
| JsString.LowerKeepsTrimmed | twilo.js:19 | lower-casing a trimmed text leaves it trimmed |
| JsString.LowerKeepsOccurrence | emailManagement.js:320-324 | a lower-case word occurring in a text still occurs, at the same index, in the lower-cased text |
| JsString.Includes | emailManagement.js:322-323 | `includes` is true exactly when the word occurs at some index |
| JsString.Take | email-formatter.js:8 | `substring(0, n)` is a prefix of length min(n, length) |
| JsString.NatToString | email-formatter.js:13 | a number's decimal rendering is never empty and has no leading zero |
| JsString.NatToStringDigits | email-formatter.js:30 | the decimal rendering consists of decimal digits only |
| JsString.DigitPrefixLength | getUserCriteria.js:15 | the digit run `parseInt` reads is the longest prefix made of digits of the radix |
| JsString.DigitsValueOfNatToString | getUserCriteria.js:15 | reading the decimal rendering of n digit by digit gives n |
| JsString.MagnitudeOfNatToString | getUserCriteria.js:15 | the magnitude `parseInt` reads from a decimal rendering is the number rendered |
| JsString.ParseIntOfNatToString | getUserCriteria.js:15 | `parseInt` of a typed natural number is that number |
| JsString.ParseIntOfNegative | getUserCriteria.js:15 | `parseInt` of a minus sign followed by a natural number is its negation |
| JsString.ParseMagnitude | getUserCriteria.js:15 | nothing is read exactly when the text does not start with a decimal digit, or starts with "0x"/"0X" not followed by a hexadecimal digit |
| JsString.ParseInt | getUserCriteria.js:15 | NaN exactly when, after leading whitespace and one sign, there is no decimal digit, or a "0x" prefix with no hexadecimal digit after it; a negative result comes from a leading minus sign |
| JsString.TrimStartSkipsWhitespace | getUserCriteria.js:15 | whitespace put in front of a text is removed again by `trimStart` |
| JsString.ParseIntSkipsWhitespace | getUserCriteria.js:15 | leading whitespace does not change what `parseInt` reads |
| JsString.DigitPrefixOfAppend | getUserCriteria.js:15 | the digit run of digits followed by a non-digit is exactly those digits |
| JsString.ParseIntOfDigitStart | getUserCriteria.js:15 | a text starting with a digit is read from its first character |
| JsString.MagnitudeOfNatToStringThen | getUserCriteria.js:15 | the magnitude read from a decimal rendering followed by non-digit text is the number rendered |
| JsString.ParseIntIgnoresTrailingText | getUserCriteria.js:15 | text after a typed number is ignored ("5 emails" reads as 5), unless an `x` after a lone "0" selects hexadecimal |
| DateTimeParser.FieldsOfInstant | dateTimeParser.js:21 | an instant built from a local day, hour, minute, second and ms has exactly those fields |
| DateTimeParser.InstantOfFields | dateTimeParser.js:21 | every instant is rebuilt from its local day and time fields |
| DateTimeParser.FieldsDetermineInstant | dateTimeParser.js:21 | two instants with the same local day and time fields are equal |
| DateTimeParser.ParsedEnd | dateTimeParser.js:9-14 | with an end, the end is the candidate's end; without one, it is start + 3,600,000 ms |
| DateTimeParser.NextDayAtFields | dateTimeParser.js:19-21 | the new start is after `now`, on the next local day, at the parsed hour and minute, with seconds and ms zero |
| DateTimeParser.Extract | dateTimeParser.js:3-31 | null exactly when there is no candidate; only the first candidate is used; the duration is kept; a start not before `now` is returned unchanged; a past start moves to the next local day at the parsed hour and minute with zero seconds, after `now` |
| DateTimeParser.ExtractUnique | dateTimeParser.js:16-28 | the stated calendar properties determine the window completely |
| DateTimeParser.SetHoursOfNextDate | dateTimeParser.js:19-21 | `setDate(getDate() + 1)` then `setHours(h, m, 0, 0)` lands on the next local day at h:m |
| DateTimeParser.ParseDateTime | dateTimeParser.js:3-31 | the imperative steps compute exactly `Extract` |
| DateTimeParser.PastRangeMovesToTomorrow | dateTimeParser.js:18-25 | 14:00-15:00 on 2024-01-01, seen at 10:00 on 2025-01-01, becomes 14:00-15:00 on 2025-01-02 |
| DateTimeParser.FutureStartIsKept | dateTimeParser.js:12-13 | a future start without an end is kept and given one hour |
| EmailUtils.ShortenHref | emailUtils.js:40 | at most 50 characters; shorter targets unchanged; longer ones become the first 47 characters and "...", exactly 50 |
| EmailUtils.ShapeLink | emailUtils.js:39-40 | the text is the trimmed text, or "Link" when that is empty, so it is never empty; the target is shortened |
| EmailUtils.ShapeLinks | emailUtils.js:36-43 | one link per anchor, in document order; the set removes nothing |
| EmailUtils.AttachmentInfo | emailUtils.js:52-56 | same count and order, and only filename, content type and size are kept |
| EmailUtils.ParseEmail | emailUtils.js:28-58 | addresses, subject and date are copied; the text is trimmed and comes from the document's body text when that is non-empty, and from the plain-text part when there is no HTML or its body text is empty; no HTML means no links; links and attachments as above |
| EmailUtils.LinksAreBounded | emailUtils.js:36-43 | every link of a parsed email has a target of at most 50 characters and a non-empty text |
| EmailFormatter.FormatEmail | email-formatter.js:3-37 | the appended output is exactly `Formatted` |
| EmailFormatter.AppendAttachments | email-formatter.js:10-18 | the loop appends "Attachments:", one line per attachment and a blank line, or "Attachments: None" |
| EmailFormatter.AppendLinks | email-formatter.js:20-34 | appends "Links:", the lines of the first five links and the trailer, or "Links: None" |
| EmailFormatter.AppendLinkLines | email-formatter.js:22-28 | the `forEach` appends one link line per shown link, in order |
| EmailFormatter.LinkLinesSnoc | email-formatter.js:22-28 | one more shown link adds its line at the end |
| EmailFormatter.LinkLineIffHref | email-formatter.js:23-27 | a link prints a line exactly when it has a target |
| EmailFormatter.LinkSectionIgnoresTail | email-formatter.js:22 | the link section depends only on the first five links and the number of links |
| EmailFormatter.AttachmentLinesAppend | email-formatter.js:12-14 | the attachment lines of two lists are the lines of each, concatenated |
| EmailFormatter.AttachmentLineOrder | email-formatter.js:12-14 | attachment k's line comes after the lines of the attachments before it and before those after it |
| EmailFormatter.FormattedStartsWithHeader | email-formatter.js:4-8 | the output starts with the From, To, Subject and Date lines and a blank line, then the 100-character body preview |
| EmailFormatter.TrailerIffMoreThanFive | email-formatter.js:20-33 | with more than five links the output ends with "... and N more links" for N = count − 5; with none it ends with "Links: None"; with one to five there is no trailer and every link is considered |
| UserCriteria.GetUserCriteria | getUserCriteria.js:11-16 | blank from/subject give undefined, otherwise the answer itself; blank since gives now − 86,400,000 ms, otherwise the date parse; blank maxEmails gives undefined, otherwise `parseInt` |
| UserCriteria.TypedCountIsKept | getUserCriteria.js:15 | a count typed in decimal is the count the criteria carry |
| EmailManagement.SomeKeyword | emailManagement.js:320-324 | `some` is true exactly when some keyword occurs in the subject or the text |
| EmailManagement.HasMeetingKeyword | emailManagement.js:310-324 | flagged exactly when one of the eight keywords occurs in the lower-cased subject or lower-cased text |
| EmailManagement.ClassifierIgnoresCase | emailManagement.js:322-323 | lower-casing subject and text first does not change the verdict |
| EmailManagement.KeywordInTextIsMeeting | emailManagement.js:320-324 | a keyword occurring verbatim in the text flags the email |
| EmailManagement.RecallCountsAsCall | emailManagement.js:320-324 | a text containing "recall" is flagged, by substring matching on "call" |
| EmailManagement.ZoomCallIsAMeeting | emailManagement.js:310-324 | "Join our zoom call at noon" is flagged |
| EmailManagement.EventDetailsFor | emailManagement.js:335-340 | the summary is the subject; the description is the text's first 500 characters; start and end are the window's |
| EmailManagement.CalendarEventFor | emailManagement.js:79-97 | both times are in Asia/Kolkata, default reminders are off, and two pop-ups fire one day and one hour before the start |
| EmailManagement.BuildSearchCriteria | emailManagement.js:161-164 | "ALL", then FROM and SUBJECT only when truthy, and always SINCE last; an invalid since date fails |
| EmailManagement.SliceTo | emailManagement.js:174 | `slice(0, end)` is a prefix; a negative end counts from the back |
| EmailManagement.MessagesToProcess | emailManagement.js:173-175 | a prefix of the messages; all of them when maxEmails is falsy, otherwise min(maxEmails, count) (or count + maxEmails when negative) |
| EmailManagement.TypedLimitTakesPrefix | emailManagement.js:173-175 | answering with a positive n processes exactly the first n messages |
| EmailManagement.BlankOrZeroLimitTakesAll | emailManagement.js:173-175 | a blank answer or "0" processes every message |
| EmailManagement.OutcomeOf | emailManagement.js:320-361 | grammar consulted only for flagged emails; no event without a date; the event built is the request for the extracted window; it counts as created exactly when the insert succeeds |
| EmailManagement.CountsAreOrdered | emailManagement.js:302-365 | events created ≤ insert requests ≤ meetings detected ≤ emails |
| EmailManagement.ProcessEmails | emailManagement.js:302-365 | the loop's counters and insert requests are those of the per-email outcomes, and eventsCreated ≤ meetingsDetected ≤ number of emails |
| Twilio.HandleUserChoice | twilo.js:34-49 | "1" fetches, "2" fetches then creates, "3" creates, "4" replies not-implemented |
| Twilio.Normalize | twilo.js:19 | the compared message is trimmed |
| Twilio.Handler | twilo.js:17-32 | exactly one callback without error; "hello" gives the menu, "1"-"4" the choice's messages, anything else the invalid-option message, all after trimming and lower-casing |
| Twilio.Reply | twilo.js:21-29 | the reply for a normalized message, by the three branches |
| Twilio.NormalizeIdempotent | twilo.js:19 | normalizing a normalized message changes nothing |
| Twilio.HandlerSeesNormalForm | twilo.js:19 | the handler answers a message as it answers its trimmed, lower-cased form |
| Twilio.ReplyIsNeverEmpty | twilo.js:21-29 | every branch answers with one or two messages |
| Twilio.ParseDateTime | twilo.js:133-157 | the copy behaves exactly as `DateTimeParser.Extract` |

## Left out

- The chrono-node grammar: its output is the `results`/`chrono` parameter.
- IMAP connection and search, `simpleParser`, JSDOM and the html-entities `decode`: their outputs are inputs.
- The Google Calendar insert and OAuth, including `authorize` and token files: whether an insert succeeds is the `insertSucceeds` parameter. `ProcessEmails` returns the insert requests.
- WhatsApp and SMS sending, and nodemailer replies: network I/O with no effect on the counters.
- `askQuestion`, `displayEmails` and `replyToEmail`: interactive console I/O. The prompt answers are parameters of `GetUserCriteria`.
- In twilo.js, `fetchUnseenMail`'s message is the `fetchMessage` parameter of `Services`. That code is not valid JavaScript as written.
- In twilo.js, `createEvent` posts a fixed sample event. Only its two outcome messages are modelled.
- email-formatter.js:39-67, the sample data and `writeFileSync`: I/O around `formatEmail`.
- `toISOString`, `toLocaleString` and `new Date(string)`:
  - instants stay integers;
  - the parse of a typed date is the `parseDate` parameter;
  - the rendering of `email.date` is a string field.
- Time-zone rules and daylight saving: one fixed offset of +05:30.
- The system clock: `now` is a parameter. `ProcessEmails` reads it once per run, whereas the source reads it once per email.
- Console logging and the WhatsApp message text of `processEmails`: output only.
- JsString.Lower: models `toLowerCase` on ASCII letters only. Full Unicode case mapping is not modelled. All keywords are ASCII.
- JsString.ParseInt: the result is an exact integer. Values above 2^53, which JavaScript rounds, are not modelled.
- `undefined` fields, for example a missing `attachments` or `links` array: the records always carry every field.
- Twilio.Normalize: states only that the result is trimmed. That it is lower-case is stated by `JsString.Lower`, and its idempotence by `NormalizeIdempotent`.
- JsString.Take: counts Unicode scalar values, where JavaScript's `substring` and `length` count UTF-16 code units. The two agree on text inside the Basic Multilingual Plane. A character outside it, such as an emoji, counts once here and twice in JavaScript. A cut between the two halves of such a character leaves a lone surrogate, which a Dafny `string` cannot hold. This affects `EmailManagement.EventDetailsFor`, `EmailFormatter.BodyLine` and `EmailFormatter.LinkLine`. `EmailUtils.ShortenHref` is affected only in principle, because serialized URLs are ASCII.
- EmailManagement.EventDetailsFor: the 500-character description limit is counted in Unicode scalar values, not UTF-16 code units (see `JsString.Take`). A text with characters outside the Basic Multilingual Plane keeps more of itself here than in JavaScript.
