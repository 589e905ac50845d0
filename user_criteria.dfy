/**
 * `getUserCriteria`: the four prompt answers become the fetching criteria,
 * with blank answers replaced by defaults. The answers, the clock and the
 * date-string parser are parameters.
 */
module UserCriteria {
  import opened Wrappers
  import opened JsString
  import DateTimeParser

  /**
   * The criteria record. `since` is `None` when the answer was not a date the
   * parser accepts (an invalid Date); `maxEmails` is `None` when undefined.
   */
  datatype Criteria = Criteria(
    from: Option<string>, subject: Option<string>, since: Option<int>, maxEmails: Option<ParsedInt>)

  /**
   * `getUserCriteria` after the prompts: an empty answer is falsy and selects
   * the default, any other answer (whitespace included) is used.
   */
  function GetUserCriteria(
    fromAnswer: string, subjectAnswer: string, sinceAnswer: string, maxEmailsAnswer: string,
    now: int, parseDate: string -> Option<int>): (c: Criteria)
    ensures c.from.None? <==> fromAnswer == ""
    ensures c.from.Some? ==> c.from.value == fromAnswer
    ensures c.subject.None? <==> subjectAnswer == ""
    ensures c.subject.Some? ==> c.subject.value == subjectAnswer
    ensures sinceAnswer == "" ==> c.since == Some(now - 86400000)
    ensures sinceAnswer != "" ==> c.since == parseDate(sinceAnswer)
    ensures c.maxEmails.None? <==> maxEmailsAnswer == ""
    ensures c.maxEmails.Some? ==> c.maxEmails.value == ParseInt(maxEmailsAnswer)
  {
    Criteria(
      if fromAnswer != "" then Some(fromAnswer) else None,
      if subjectAnswer != "" then Some(subjectAnswer) else None,
      if sinceAnswer != "" then parseDate(sinceAnswer) else Some(now - DateTimeParser.DayMs),
      if maxEmailsAnswer != "" then Some(ParseInt(maxEmailsAnswer)) else None)
  }

  /** A count typed in decimal is the count the criteria carry. */
  lemma TypedCountIsKept(fromAnswer: string, subjectAnswer: string, sinceAnswer: string,
                         n: nat, now: int, parseDate: string -> Option<int>)
    ensures GetUserCriteria(fromAnswer, subjectAnswer, sinceAnswer, NatToString(n), now, parseDate).maxEmails
            == Some(Int(n))
  {
    ParseIntOfNatToString(n);
  }
}
