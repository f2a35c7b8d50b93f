/**
 * `create_message_with_attachment`: the outbound message for one recipient.
 * The MIME object is modelled as an object holding its header list and its
 * list of parts; the builder fills it step by step, as the source does, and
 * the header values are plain strings.
 */
module Message {
  import opened Strings

  newtype byte = x: int | 0 <= x < 256

  /** The From header: `"name" <address>` when a display name is given,
      the bare address when the display name is empty. */
  function FromHeader(senderEmail: string, senderName: string): string
  {
    if |senderName| > 0 then "\"" + senderName + "\" <" + senderEmail + ">" else senderEmail
  }

  /** Reads a From header back as (display name, address); a header that is
      not of the quoted form is a bare address. */
  function ParseFrom(header: string): (string, string)
  {
    if |header| > 0 && header[0] == '"' then
      var rest := header[1..];
      var k := FirstIndex(rest, '"');
      if 0 < k < |rest| then
        var tail := rest[k + 1..];
        if |tail| >= 3 && tail[..2] == " <" && tail[|tail| - 1] == '>' then
          (rest[..k], tail[2..|tail| - 1])
        else ("", header)
      else ("", header)
    else ("", header)
  }

  /**
   * The From header keeps both the display name and the address: they can be
   * read back from it, as long as the name holds no double quote (the source
   * does not escape one) and a bare address does not itself start with one.
   */
  lemma FromHeaderRoundTrip(senderEmail: string, senderName: string)
    requires '"' !in senderName
    requires senderName == "" ==> senderEmail == "" || senderEmail[0] != '"'
    ensures ParseFrom(FromHeader(senderEmail, senderName)) == (senderName, senderEmail)
  {
    if senderName != "" {
      var header := FromHeader(senderEmail, senderName);
      var rest := header[1..];
      assert rest == senderName + "\" <" + senderEmail + ">";
      assert rest[|senderName|] == '"';
      assert rest[..|senderName|] == senderName;
      var k := FirstIndex(rest, '"');
      assert k == |senderName|;
      var tail := rest[k + 1..];
      assert tail == " <" + senderEmail + ">";
      assert tail[2..|tail| - 1] == senderEmail;
    }
  }

  /** Because the display name is not escaped, two different senders can
      produce the same From header once the name contains a double quote. */
  lemma FromHeaderQuoteCollision()
    ensures FromHeader("c", "a\" <b>") == FromHeader("b>\" <c", "a")
  {
  }

  /** One MIME part: the plain-text body, or the base64-encoded attachment
      with its Content-Disposition header. */
  datatype Part =
    | TextPart(text: string, subtype: string, charset: string)
    | AttachmentPart(mainType: string, subType: string, payload: seq<byte>,
                     transferEncoding: string, disposition: string)

  /** The Content-Disposition header of the attachment part. */
  function Disposition(filename: string): string
  {
    "attachment; filename=\"" + filename + "\""
  }

  /** A multipart message under construction: its top-level headers in the
      order they were set, and the attached parts in order. */
  class MimeMessage {
    var headers: seq<(string, string)>
    var parts: seq<Part>

    /** `MIMEMultipart()`: the two headers every new multipart message starts
        with, and no parts yet. */
    constructor ()
      ensures headers == [("Content-Type", "multipart/mixed"), ("MIME-Version", "1.0")]
      ensures parts == []
    {
      headers := [("Content-Type", "multipart/mixed"), ("MIME-Version", "1.0")];
      parts := [];
    }

    /** `msg[name] = value`: adds a header after the existing ones. */
    method SetHeader(name: string, value: string)
      modifies this
      ensures headers == old(headers) + [(name, value)]
      ensures parts == old(parts)
    {
      headers := headers + [(name, value)];
    }

    /** `msg.attach(part)`: adds a part after the existing ones. */
    method Attach(part: Part)
      modifies this
      ensures parts == old(parts) + [part]
      ensures headers == old(headers)
    {
      parts := parts + [part];
    }
  }

  /**
   * Builds the message for one recipient: after the Content-Type and
   * MIME-Version headers of a new multipart message, From, To and Subject in
   * that order (To and Subject copied unchanged, no truncation), then the
   * body as a UTF-8 plain-text part, then the attachment as an
   * application/octet-stream part carrying the file name.
   */
  method CreateMessageWithAttachment(senderEmail: string, senderName: string,
                                     recipientEmail: string, subject: string, body: string,
                                     cvData: seq<byte>, cvFilename: string)
    returns (msg: MimeMessage)
    ensures fresh(msg)
    ensures msg.headers == [("Content-Type", "multipart/mixed"), ("MIME-Version", "1.0"),
                            ("From", FromHeader(senderEmail, senderName)),
                            ("To", recipientEmail), ("Subject", subject)]
    ensures msg.parts == [TextPart(body, "plain", "utf-8"),
                          AttachmentPart("application", "octet-stream", cvData,
                                         "base64", Disposition(cvFilename))]
  {
    msg := new MimeMessage();
    if senderName != "" {
      msg.SetHeader("From", "\"" + senderName + "\" <" + senderEmail + ">");
    } else {
      msg.SetHeader("From", senderEmail);
    }
    msg.SetHeader("To", recipientEmail);
    msg.SetHeader("Subject", subject);
    msg.Attach(TextPart(body, "plain", "utf-8"));
    var part := AttachmentPart("application", "octet-stream", cvData, "base64",
                               "attachment; filename=\"" + cvFilename + "\"");
    msg.Attach(part);
  }
}
