/**
 * The SMS/WhatsApp entry point: the incoming message is trimmed and
 * lower-cased, "hello" gets the menu, "1" to "4" are dispatched, anything
 * else gets an error reply; the callback then receives the reply exactly once.
 */
module Twilio {
  import opened Wrappers
  import opened JsString
  import DateTimeParser

  const MenuMessage: string :=
    "Hello! Please choose an option by replying with the number:\n1. Fetch Unseen Mail\n2. Fetch Unseen Mail and Create Event\n3. Create Event\n4. Reply to Mail"
  const InvalidOptionMessage: string :=
    "Invalid option. Please reply with \"hello\" to start or choose an option (1-4)."
  const NotImplementedMessage: string :=
    "Replying to email... (This feature is not yet implemented)"
  const EventCreatedMessage: string := "Event created successfully!"
  const EventErrorMessage: string := "Error creating event."

  /**
   * What the mail and calendar calls contribute: the message the unseen-mail
   * fetch adds to the reply, and whether the calendar insert succeeds.
   */
  datatype Services = Services(fetchMessage: string, eventInserted: bool)

  /** The message `createEvent` adds to the reply. */
  function CreateEventMessage(svc: Services): string {
    if svc.eventInserted then EventCreatedMessage else EventErrorMessage
  }

  /** The messages `handleUserChoice` adds to the reply, in order. */
  function HandleUserChoice(choice: string, svc: Services): (messages: seq<string>)
    ensures choice == "1" ==> messages == [svc.fetchMessage]
    ensures choice == "2" ==> messages == [svc.fetchMessage, CreateEventMessage(svc)]
    ensures choice == "3" ==> messages == [CreateEventMessage(svc)]
    ensures choice == "4" ==> messages == [NotImplementedMessage]
  {
    match choice
    case "1" => [svc.fetchMessage]
    case "2" => [svc.fetchMessage] + [CreateEventMessage(svc)]
    case "3" => [CreateEventMessage(svc)]
    case "4" => [NotImplementedMessage]
    case _ => []
  }

  /** The message as the handler compares it. */
  function Normalize(body: string): (r: string)
    ensures IsTrimmed(r)
  {
    var t := Trim(body);
    LowerKeepsTrimmed(t);
    Lower(t)
  }

  predicate IsChoice(s: string) {
    s == "1" || s == "2" || s == "3" || s == "4"
  }

  /** One invocation of the callback: an error (always absent here) and the reply's messages. */
  datatype Callback = Callback(error: Option<string>, reply: seq<string>)

  /**
   * `exports.handler`: the invocations of the callback for one incoming
   * message body.
   */
  function Handler(body: string, svc: Services): (calls: seq<Callback>)
    ensures |calls| == 1 && calls[0].error.None?
    ensures Normalize(body) == "hello" ==> calls[0].reply == [MenuMessage]
    ensures IsChoice(Normalize(body)) ==> calls[0].reply == HandleUserChoice(Normalize(body), svc)
    ensures Normalize(body) != "hello" && !IsChoice(Normalize(body)) ==>
              calls[0].reply == [InvalidOptionMessage]
  {
    [Callback(None, Reply(Normalize(body), svc))]
  }

  /** The reply to an already normalized message. */
  function Reply(userMessage: string, svc: Services): (reply: seq<string>)
    ensures userMessage == "hello" ==> reply == [MenuMessage]
    ensures IsChoice(userMessage) ==> reply == HandleUserChoice(userMessage, svc)
    ensures userMessage != "hello" && !IsChoice(userMessage) ==> reply == [InvalidOptionMessage]
  {
    if userMessage == "hello" then [MenuMessage]
    else if IsChoice(userMessage) then HandleUserChoice(userMessage, svc)
    else [InvalidOptionMessage]
  }

  /** Normalizing is idempotent, so the handler reacts to a message as to its normal form. */
  lemma NormalizeIdempotent(body: string)
    ensures Normalize(Normalize(body)) == Normalize(body)
  {
    var n := Normalize(body);
    TrimOfTrimmed(n);
    LowerIdempotent(Trim(body));
  }

  lemma HandlerSeesNormalForm(body: string, svc: Services)
    ensures Handler(body, svc) == Handler(Normalize(body), svc)
  {
    NormalizeIdempotent(body);
  }

  /** Every incoming message is answered with one or two messages, whatever it says. */
  lemma ReplyIsNeverEmpty(userMessage: string, svc: Services)
    ensures 1 <= |Reply(userMessage, svc)| <= 2
  {
    if userMessage != "hello" && IsChoice(userMessage) {
      assert userMessage == "1" || userMessage == "2" || userMessage == "3" || userMessage == "4";
    }
  }

  /**
   * The `parseDateTime` of this file is a verbatim copy of the shared one and
   * behaves identically.
   */
  method ParseDateTime(results: seq<DateTimeParser.Candidate>, now: int)
    returns (r: Option<DateTimeParser.Window>)
    ensures r == DateTimeParser.Extract(results, now)
  {
    r := DateTimeParser.ParseDateTime(results, now);
  }
}
