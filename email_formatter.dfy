/**
 * `formatEmail`: the plain-text digest of one email, built by appending to
 * an output string: header lines, a 100-character body preview, one line per
 * attachment, and at most five link lines with a trailer for the rest.
 */
module EmailFormatter {
  import opened JsString
  import opened EmailUtils

  /** The record the formatter reads; `body` holds the email's text. */
  datatype EmailSummary = EmailSummary(
    from: string, to: string, subject: string, date: string, body: string,
    attachments: seq<Attachment>, links: seq<Link>)

  const MaxLinksShown: nat := 5

  /** The From, To, Subject and Date lines, then a blank line. */
  function Header(e: EmailSummary): string {
    ("From: " + e.from + "\n") + ("To: " + e.to + "\n") + ("Subject: " + e.subject + "\n")
    + ("Date: " + e.date + "\n\n")
  }

  /** The first 100 characters of the body followed by "...", whatever the body's length. */
  function BodyLine(e: EmailSummary): string {
    "Body: " + Take(e.body, 100) + "...\n\n"
  }

  function AttachmentLine(a: Attachment): string {
    "- " + a.filename + " (" + a.contentType + ", " + NatToString(a.size) + " bytes)\n"
  }

  /** The attachment lines, in order. */
  function AttachmentLines(atts: seq<Attachment>): string {
    if atts == [] then "" else AttachmentLines(atts[..|atts| - 1]) + AttachmentLine(atts[|atts| - 1])
  }

  function AttachmentSection(atts: seq<Attachment>): string {
    if |atts| > 0 then "Attachments:\n" + AttachmentLines(atts) + "\n" else "Attachments: None\n\n"
  }

  /**
   * The line the `forEach` callback adds for one link: text and target, the
   * target alone, or nothing when there is no target.
   */
  function LinkLine(l: Link): string {
    if l.text != "" && l.href != "" then "- " + Take(l.text, 30) + ": " + Take(l.href, 50) + "...\n"
    else if l.href != "" then "- " + Take(l.href, 50) + "...\n"
    else ""
  }

  function LinkLines(links: seq<Link>): string {
    if links == [] then "" else LinkLines(links[..|links| - 1]) + LinkLine(links[|links| - 1])
  }

  /** The first five links, or all of them when there are fewer. */
  function Shown(links: seq<Link>): seq<Link> {
    if |links| > MaxLinksShown then links[..MaxLinksShown] else links
  }

  function LinkTrailer(links: seq<Link>): string {
    if |links| > MaxLinksShown then "... and " + NatToString(|links| - MaxLinksShown) + " more links\n" else ""
  }

  function LinkSection(links: seq<Link>): string {
    if |links| > 0 then "Links:\n" + LinkLines(Shown(links)) + LinkTrailer(links) else "Links: None\n"
  }

  /** The whole digest, section by section. */
  function Formatted(e: EmailSummary): string {
    Header(e) + BodyLine(e) + AttachmentSection(e.attachments) + LinkSection(e.links)
  }

  /** `formatEmail`, appending to `output` as the source does. */
  method FormatEmail(email: EmailSummary) returns (output: string)
    ensures output == Formatted(email)
  {
    output := "From: " + email.from + "\n";
    output := output + ("To: " + email.to + "\n");
    output := output + ("Subject: " + email.subject + "\n");
    output := output + ("Date: " + email.date + "\n\n");
    output := output + ("Body: " + Take(email.body, 100) + "...\n\n");
    output := AppendAttachments(output, email.attachments);
    output := AppendLinks(output, email.links);
  }

  /** The attachments block of `formatEmail`: a line per attachment, or "None". */
  method AppendAttachments(prefix: string, attachments: seq<Attachment>) returns (output: string)
    ensures output == prefix + AttachmentSection(attachments)
  {
    output := prefix;
    if |attachments| > 0 {
      output := output + "Attachments:\n";
      ghost var heading := output;
      var i := 0;
      while i < |attachments|
        invariant 0 <= i <= |attachments|
        invariant output == heading + AttachmentLines(attachments[..i])
      {
        output := output + AttachmentLine(attachments[i]);
        assert attachments[..i + 1][..i] == attachments[..i];
        Associative(heading, AttachmentLines(attachments[..i]), AttachmentLine(attachments[i]));
        i := i + 1;
      }
      assert attachments[..i] == attachments;
      output := output + "\n";
      Associative(heading, AttachmentLines(attachments), "\n");
      Associative(prefix, "Attachments:\n", AttachmentLines(attachments) + "\n");
    } else {
      output := output + "Attachments: None\n\n";
    }
  }

  /** The links block of `formatEmail`: at most five link lines and a trailer, or "None". */
  method AppendLinks(prefix: string, links: seq<Link>) returns (output: string)
    ensures output == prefix + LinkSection(links)
  {
    if |links| == 0 {
      output := prefix + "Links: None\n";
      assert LinkSection(links) == "Links: None\n";
      return;
    }
    output := prefix + "Links:\n";
    ghost var heading := output;
    output := AppendLinkLines(output, if |links| > MaxLinksShown then links[..MaxLinksShown] else links);
    assert output == heading + LinkLines(Shown(links));
    if |links| > MaxLinksShown {
      output := output + ("... and " + NatToString(|links| - MaxLinksShown) + " more links\n");
    }
    assert output == heading + LinkLines(Shown(links)) + LinkTrailer(links);
    Associative(heading, LinkLines(Shown(links)), LinkTrailer(links));
    Associative(prefix, "Links:\n", LinkLines(Shown(links)) + LinkTrailer(links));
    Associative("Links:\n", LinkLines(Shown(links)), LinkTrailer(links));
  }

  /** The `forEach` over the shown links: one line per link that has a target. */
  method AppendLinkLines(prefix: string, shown: seq<Link>) returns (output: string)
    ensures output == prefix + LinkLines(shown)
  {
    output := prefix;
    var j := 0;
    while j < |shown|
      invariant 0 <= j <= |shown|
      invariant output == prefix + LinkLines(shown[..j])
    {
      // The callback's `if`/`else if` contributes exactly `LinkLine(shown[j])`.
      output := output + LinkLine(shown[j]);
      LinkLinesSnoc(shown, j);
      Associative(prefix, LinkLines(shown[..j]), LinkLine(shown[j]));
      j := j + 1;
    }
    assert shown[..j] == shown;
  }

  /** Extending the shown prefix by one link appends that link's line. */
  lemma LinkLinesSnoc(links: seq<Link>, j: nat)
    requires j < |links|
    ensures LinkLines(links[..j + 1]) == LinkLines(links[..j]) + LinkLine(links[j])
  {
    assert links[..j + 1][..j] == links[..j];
  }

  // ---------------------------------------------------------- properties

  /** A link prints a line exactly when it has a target. */
  lemma LinkLineIffHref(l: Link)
    ensures LinkLine(l) != "" <==> l.href != ""
  {
  }

  /** The link section reads only the first five links and the number of links. */
  lemma {:induction false} LinkSectionIgnoresTail(a: seq<Link>, b: seq<Link>)
    requires |a| == |b|
    requires Shown(a) == Shown(b)
    ensures LinkSection(a) == LinkSection(b)
  {
  }

  /** The attachment lines are one line per attachment, concatenated in order. */
  lemma {:induction false} AttachmentLinesAppend(a: seq<Attachment>, b: seq<Attachment>)
    ensures AttachmentLines(a + b) == AttachmentLines(a) + AttachmentLines(b)
  {
    if b == [] {
      assert a + b == a;
    } else {
      var b', x := b[..|b| - 1], b[|b| - 1];
      assert (a + b)[..|a + b| - 1] == a + b';
      assert (a + b)[|a + b| - 1] == x;
      AttachmentLinesAppend(a, b');
      calc {
        AttachmentLines(a + b);
        AttachmentLines(a + b') + AttachmentLine(x);
        (AttachmentLines(a) + AttachmentLines(b')) + AttachmentLine(x);
        { Associative(AttachmentLines(a), AttachmentLines(b'), AttachmentLine(x)); }
        AttachmentLines(a) + (AttachmentLines(b') + AttachmentLine(x));
        AttachmentLines(a) + AttachmentLines(b);
      }
    }
  }

  /** Attachment `k` has its own line, after the lines of the attachments before it. */
  lemma AttachmentLineOrder(atts: seq<Attachment>, k: nat)
    requires k < |atts|
    ensures AttachmentLines(atts)
      == AttachmentLines(atts[..k]) + AttachmentLine(atts[k]) + AttachmentLines(atts[k + 1..])
  {
    var front, back := atts[..k + 1], atts[k + 1..];
    assert atts == front + back;
    AttachmentLinesAppend(front, back);
    assert front[..|front| - 1] == atts[..k];
    assert AttachmentLines(front) == AttachmentLines(atts[..k]) + AttachmentLine(atts[k]);
  }

  /** The digest starts with the four header lines and a blank line, then the body preview. */
  lemma FormattedStartsWithHeader(e: EmailSummary)
    ensures Formatted(e)[..|Header(e)|] == Header(e)
    ensures Formatted(e)[|Header(e)|..|Header(e)| + |BodyLine(e)|] == BodyLine(e)
  {
  }

  /** The trailer is present exactly when there are more than five links, and counts the rest. */
  lemma TrailerIffMoreThanFive(e: EmailSummary)
    ensures |e.links| > 5 ==>
      Formatted(e)[|Formatted(e)| - |LinkTrailer(e.links)|..]
        == "... and " + NatToString(|e.links| - 5) + " more links\n"
    ensures |e.links| == 0 ==> Formatted(e)[|Formatted(e)| - 12..] == "Links: None\n"
    ensures 1 <= |e.links| <= 5 ==>
      LinkTrailer(e.links) == "" && LinkSection(e.links) == "Links:\n" + LinkLines(e.links)
  {
  }
}
