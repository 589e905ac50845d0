/**
 * The record shaping in `parseEmail`: what the mail parser and the HTML
 * document provide is turned into the email record the rest of the assistant
 * works on (trimmed text, at most 50-character link targets, attachment
 * metadata only).
 */
module EmailUtils {
  import opened Wrappers
  import opened JsString

  /** An attachment as the mail parser delivers it, content included. */
  datatype MailAttachment = MailAttachment(
    filename: string, contentType: string, size: nat, content: seq<bv8>, checksum: string)

  /** The metadata of an attachment that the email record keeps. */
  datatype Attachment = Attachment(filename: string, contentType: string, size: nat)

  /** An `<a>` element: its text content and its resolved `href`. */
  datatype Anchor = Anchor(textContent: string, href: string)

  /** The document built from the HTML part: the body's text content and its anchors in document order. */
  datatype HtmlDocument = HtmlDocument(bodyText: string, anchors: seq<Anchor>)

  /** The output of the mail parser; `html` is absent when the message has no HTML part. */
  datatype ParsedMail = ParsedMail(
    from: string, to: string, subject: string, date: string, text: string,
    html: Option<HtmlDocument>, attachments: seq<MailAttachment>)

  datatype Link = Link(text: string, href: string)

  /** The email record `parseEmail` returns. */
  datatype Email = Email(
    from: string, to: string, subject: string, date: string, text: string,
    attachments: seq<Attachment>, links: seq<Link>)

  const MaxHrefLength: nat := 50
  const KeptHrefPrefix: nat := 47

  /** An `href` longer than 50 characters is cut to 47 characters followed by "...". */
  function ShortenHref(href: string): (r: string)
    ensures |r| <= MaxHrefLength
    ensures |href| <= MaxHrefLength ==> r == href
    ensures |href| > MaxHrefLength ==> |r| == MaxHrefLength && r == href[..47] + "..."
  {
    if |href| > MaxHrefLength then Take(href, KeptHrefPrefix) + "..." else href
  }

  /** The link record for one anchor. */
  function ShapeLink(a: Anchor): (l: Link)
    ensures l.text != ""
    ensures Trim(a.textContent) != "" ==> l.text == Trim(a.textContent)
    ensures Trim(a.textContent) == "" ==> l.text == "Link"
    ensures l.href == ShortenHref(a.href)
  {
    var text := Trim(a.textContent);
    Link(if text != "" then text else "Link", ShortenHref(a.href))
  }

  /** Link records for the anchors, one per anchor in document order. */
  function ShapeLinks(anchors: seq<Anchor>): (links: seq<Link>)
    ensures |links| == |anchors|
    ensures forall i :: 0 <= i < |anchors| ==> links[i] == ShapeLink(anchors[i])
  {
    if anchors == [] then [] else [ShapeLink(anchors[0])] + ShapeLinks(anchors[1..])
  }

  /** The metadata kept from each parser attachment, in order. */
  function AttachmentInfo(atts: seq<MailAttachment>): (r: seq<Attachment>)
    ensures |r| == |atts|
    ensures forall i :: 0 <= i < |atts| ==>
      r[i] == Attachment(atts[i].filename, atts[i].contentType, atts[i].size)
  {
    if atts == [] then []
    else [Attachment(atts[0].filename, atts[0].contentType, atts[0].size)] + AttachmentInfo(atts[1..])
  }

  /**
   * `parseEmail` after the parsing itself: `decode` stands for the HTML-entity
   * decoder. Without an HTML part the text is the plain-text part and there
   * are no links; with one, the document's text is preferred when non-empty.
   */
  function ParseEmail(mail: ParsedMail, decode: string -> string): (e: Email)
    ensures e.from == mail.from && e.to == mail.to
    ensures e.subject == mail.subject && e.date == mail.date
    ensures IsTrimmed(e.text)
    ensures mail.html.None? ==> e.links == [] && e.text == Trim(decode(mail.text))
    ensures mail.html.Some? ==>
      |e.links| == |mail.html.value.anchors|
      && forall i :: 0 <= i < |e.links| ==> e.links[i] == ShapeLink(mail.html.value.anchors[i])
    ensures mail.html.Some? && mail.html.value.bodyText != "" ==>
      e.text == Trim(decode(mail.html.value.bodyText))
    ensures mail.html.Some? && mail.html.value.bodyText == "" ==>
      e.text == Trim(decode(mail.text))
    ensures |e.attachments| == |mail.attachments|
    ensures forall i :: 0 <= i < |e.attachments| ==>
      e.attachments[i].filename == mail.attachments[i].filename
      && e.attachments[i].contentType == mail.attachments[i].contentType
      && e.attachments[i].size == mail.attachments[i].size
  {
    var textContent :=
      match mail.html
      case Some(doc) => if doc.bodyText != "" then doc.bodyText else mail.text
      case None => mail.text;
    var links :=
      match mail.html
      case Some(doc) => ShapeLinks(doc.anchors)
      case None => [];
    Email(mail.from, mail.to, mail.subject, mail.date, Trim(decode(textContent)),
          AttachmentInfo(mail.attachments), links)
  }

  /** Every link record's target is at most 50 characters and its text is never empty. */
  lemma LinksAreBounded(mail: ParsedMail, decode: string -> string)
    ensures forall l :: l in ParseEmail(mail, decode).links ==> |l.href| <= 50 && l.text != ""
  {
  }
}
