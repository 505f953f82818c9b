/**
 * `Emailer.send_email`: normalise the recipients, assemble the "related"
 * multipart message (headers, the "alternative" body part, one part per readable
 * attachment and inline image), then make one submission attempt to the full
 * envelope To + Cc + Bcc and report success or failure.
 *
 * The clock, the Message-ID generator, the file system, `mimetypes.guess_type`
 * and the SMTP-over-TLS session are outside the model; a `World` value supplies
 * what they would return.
 */
module ZapMail {
  import opened Wrappers
  import opened Text
  import opened Addresses
  import opened Mime

  const DefaultServer: string := "smtp.gmail.com"
  const DefaultPort: int := 465

  /** An entry written to the error log. */
  datatype LogEntry =
    | AttachmentError(path: string)
    | InlineImageError(path: string)
    | SendFailure

  /** A line written to standard output. */
  datatype Notice = SentTo(to: string) | SendFailed

  /** The arguments of `send_email`; the two dictionaries are given in their iteration order. */
  datatype Request = Request(
    recipient: AddressField,
    subject: string,
    bodyText: string,
    bodyHtml: Option<string>,
    attachments: seq<string>,
    cc: AddressField,
    bcc: AddressField,
    replyTo: Option<string>,
    inlineImages: seq<(string, string)>,
    customHeaders: seq<(string, string)>)

  /** What one SMTP session is handed: where to connect, how to log in, what to send and to whom. */
  datatype Submission = Submission(
    server: string, port: int, sender: string, password: string,
    message: Part, envelope: seq<string>)

  /**
   * What the outside world answers: the `formatdate` and `make_msgid` values, the
   * readable files and their bytes, the type `mimetypes.guess_type` guesses for a
   * path, and whether the SMTP session (connect, TLS, login, send) completes.
   */
  datatype World = World(
    date: string,
    messageId: string,
    files: map<string, seq<byte>>,
    guessType: string -> Option<string>,
    transport: Submission -> bool)

  /** Python truthiness of an optional string argument. */
  predicate Truthy(o: Option<string>)
  {
    o.Some? && o.value != ""
  }

  // ---------------------------------------------------------------------------
  // The document and envelope the code builds, as values
  // ---------------------------------------------------------------------------

  /** The custom headers, in iteration order. */
  function CustomHeaders(pairs: seq<(string, string)>): seq<Header>
  {
    if pairs == [] then []
    else CustomHeaders(pairs[..|pairs| - 1]) + [Header(pairs[|pairs| - 1].0, pairs[|pairs| - 1].1)]
  }

  /** The headers set before the custom ones, given the normalised To and Cc lists. */
  function StandardHeaders(sender: string, to: seq<string>, cc: seq<string>, subject: string,
                           replyTo: Option<string>, date: string, messageId: string): seq<Header>
  {
    [Header("From", sender), Header("To", Join(to, ", ")), Header("Subject", subject)]
    + (if cc != [] then [Header("Cc", Join(cc, ", "))] else [])
    + (if Truthy(replyTo) then [Header("Reply-To", replyTo.value)] else [])
    + [Header("Date", date), Header("Message-ID", messageId)]
  }

  function HeadersFor(sender: string, req: Request, date: string, messageId: string): seq<Header>
  {
    StandardHeaders(sender, Normalize(req.recipient), Normalize(req.cc), req.subject, req.replyTo, date, messageId)
    + CustomHeaders(req.customHeaders)
  }

  function PlainPart(text: string): Part
  {
    Leaf("text", "plain", TextBody(text), [])
  }

  function HtmlPart(html: string): Part
  {
    Leaf("text", "html", TextBody(html), [])
  }

  /** The "alternative" part: the plain text, then the HTML body when one is given. */
  function AlternativePart(req: Request): Part
  {
    Multipart("alternative", [],
      [PlainPart(req.bodyText)] + (if Truthy(req.bodyHtml) then [HtmlPart(req.bodyHtml.value)] else []))
  }

  /** `MIMEBase(main_type, sub_type)` holding a file's bytes, marked as an attachment under the file's base name. */
  function AttachmentPart(mainType: string, subType: string, contents: seq<byte>, path: string): Part
  {
    Leaf(mainType, subType, FileBytes(contents),
      [Header("Content-Disposition", "attachment; filename=" + Basename(path))])
  }

  /** `MIMEBase(main_type, sub_type)` holding an image's bytes, tagged with its Content-ID and marked inline. */
  function InlinePart(mainType: string, subType: string, contents: seq<byte>, cid: string): Part
  {
    Leaf(mainType, subType, FileBytes(contents),
      [Header("Content-ID", "<" + cid + ">"), Header("Content-Disposition", "inline")])
  }

  /** One attachment: its part when the file can be read, the error logged when it cannot. */
  function AttachmentOutcome(path: string, w: World): Result<Part, LogEntry>
  {
    if path in w.files then
      var t := ResolveType(w.guessType(path), ("application", "octet-stream"));
      Ok(AttachmentPart(t.0, t.1, w.files[path], path))
    else Err(AttachmentError(path))
  }

  /** One inline image `(cid, path)`: its part when the file can be read, the error logged when it cannot. */
  function InlineOutcome(image: (string, string), w: World): Result<Part, LogEntry>
  {
    if image.1 in w.files then
      var t := ResolveType(w.guessType(image.1), ("image", "png"));
      Ok(InlinePart(t.0, t.1, w.files[image.1], image.0))
    else Err(InlineImageError(image.1))
  }

  function AttachmentOutcomes(paths: seq<string>, w: World): seq<Result<Part, LogEntry>>
  {
    if paths == [] then []
    else AttachmentOutcomes(paths[..|paths| - 1], w) + [AttachmentOutcome(paths[|paths| - 1], w)]
  }

  function InlineOutcomes(images: seq<(string, string)>, w: World): seq<Result<Part, LogEntry>>
  {
    if images == [] then []
    else InlineOutcomes(images[..|images| - 1], w) + [InlineOutcome(images[|images| - 1], w)]
  }

  /** The children of the message: the "alternative" part, then the readable attachments, then the readable inline images. */
  function RelatedParts(req: Request, w: World): seq<Part>
  {
    [AlternativePart(req)] + Oks(AttachmentOutcomes(req.attachments, w)) + Oks(InlineOutcomes(req.inlineImages, w))
  }

  /** The message `send_email` submits. */
  function DocumentFor(sender: string, req: Request, w: World): Part
  {
    Multipart("related", HeadersFor(sender, req, w.date, w.messageId), RelatedParts(req, w))
  }

  /** `recipient_list + cc_list + bcc_list`. */
  function EnvelopeFor(req: Request): seq<string>
  {
    Normalize(req.recipient) + Normalize(req.cc) + Normalize(req.bcc)
  }

  /** The errors logged while the message is assembled, in order. */
  function AssetErrors(req: Request, w: World): seq<LogEntry>
  {
    Errs(AttachmentOutcomes(req.attachments, w)) + Errs(InlineOutcomes(req.inlineImages, w))
  }

  // ---------------------------------------------------------------------------
  // The imperative code
  // ---------------------------------------------------------------------------

  /** The error log the emailer writes to (a `logging.Logger`). */
  class Logger {
    var entries: seq<LogEntry>

    constructor ()
      ensures entries == []
    {
      entries := [];
    }

    /** `logger.error(...)` */
    method Error(e: LogEntry)
      modifies this
      ensures entries == old(entries) + [e]
    {
      entries := entries + [e];
    }
  }

  /** Standard output. */
  class Console {
    var lines: seq<Notice>

    constructor ()
      ensures lines == []
    {
      lines := [];
    }

    /** `print(...)` */
    method Print(n: Notice)
      modifies this
      ensures lines == old(lines) + [n]
    {
      lines := lines + [n];
    }
  }

  class Emailer {
    const sender: string
    const password: string
    const server: string
    const port: int
    const silent: bool
    const logger: Logger

    /** `Emailer(...)`: without a logger of the caller's, a fresh one is used. */
    constructor (sender: string, password: string, server: string := DefaultServer,
                 port: int := DefaultPort, silent: bool := false, logger: Logger? := null)
      ensures this.sender == sender && this.password == password
      ensures this.server == server && this.port == port && this.silent == silent
      ensures logger != null ==> this.logger == logger
      ensures logger == null ==> fresh(this.logger) && this.logger.entries == []
    {
      this.sender := sender;
      this.password := password;
      this.server := server;
      this.port := port;
      this.silent := silent;
      if logger != null {
        this.logger := logger;
      } else {
        this.logger := new Logger();
      }
    }

    /**
     * `send_email`. The result is the transport's verdict on the message and
     * envelope, whatever became of the assets; each unreadable asset logs one
     * error, a failed submission logs one more.
     */
    method SendEmail(req: Request, w: World, stdout: Console) returns (ok: bool)
      modifies logger, stdout
      ensures ok == (EnvelopeFor(req) != [] && w.transport(Submission(server, port, sender, password,
                                                                       DocumentFor(sender, req, w), EnvelopeFor(req))))
      ensures logger.entries == old(logger.entries) + AssetErrors(req, w) + (if ok then [] else [SendFailure])
      ensures stdout.lines == old(stdout.lines) +
        (if !ok then [SendFailed]
         else if silent then []
         else [SentTo(Join(Normalize(req.recipient), ", "))])
    {
      var recipientList := NormalizeAddresses(req.recipient);
      var ccList := NormalizeAddresses(req.cc);
      var bccList := NormalizeAddresses(req.bcc);
      var msg := Compose(req, recipientList, ccList, w);
      assert msg.AsPart() == DocumentFor(sender, req, w);

      var allRecipients := recipientList + ccList + bccList;
      // smtplib refuses a send to no recipients at all, so that session always fails.
      ok := allRecipients != [] && w.transport(Submission(server, port, sender, password, msg.AsPart(), allRecipients));
      if ok {
        if !silent {
          ToHeaderShown(sender, req, w.date, w.messageId);
          var to := Lookup(msg.headers, "To");
          stdout.Print(SentTo(if to.Some? then to.value else "None"));
        }
      } else {
        stdout.Print(SendFailed);
        logger.Error(SendFailure);
      }
    }

    /** Builds the "related" message from the normalised To and Cc lists, logging each unreadable asset. */
    method Compose(req: Request, recipientList: seq<string>, ccList: seq<string>, w: World) returns (msg: Message)
      modifies logger
      ensures fresh(msg) && msg.subType == "related"
      ensures msg.headers == StandardHeaders(sender, recipientList, ccList, req.subject, req.replyTo, w.date, w.messageId)
        + CustomHeaders(req.customHeaders)
      ensures msg.parts == RelatedParts(req, w)
      ensures logger.entries == old(logger.entries) + AssetErrors(req, w)
    {
      msg := new Message("related");
      SetStandardHeaders(msg, req, recipientList, ccList, w.date, w.messageId);
      assert [] + StandardHeaders(sender, recipientList, ccList, req.subject, req.replyTo, w.date, w.messageId)
        == StandardHeaders(sender, recipientList, ccList, req.subject, req.replyTo, w.date, w.messageId);
      SetCustomHeaders(msg, req.customHeaders);
      AttachBodies(msg, req);
      assert msg.parts == [AlternativePart(req)];
      AttachAssets(msg, req, w);
    }

    /** The attachments, then the inline images, each unreadable one logged. */
    method AttachAssets(msg: Message, req: Request, w: World)
      modifies msg, logger
      ensures msg.parts == old(msg.parts) + Oks(AttachmentOutcomes(req.attachments, w)) + Oks(InlineOutcomes(req.inlineImages, w))
      ensures msg.headers == old(msg.headers)
      ensures logger.entries == old(logger.entries) + AssetErrors(req, w)
    {
      AttachFiles(msg, req.attachments, w);
      AttachInlineImages(msg, req.inlineImages, w);
    }

    /** The header assignments of `send_email` before the custom headers. */
    method SetStandardHeaders(msg: Message, req: Request, recipientList: seq<string>, ccList: seq<string>,
                              date: string, messageId: string)
      modifies msg
      ensures msg.headers == old(msg.headers)
        + StandardHeaders(sender, recipientList, ccList, req.subject, req.replyTo, date, messageId)
      ensures msg.parts == old(msg.parts)
    {
      ghost var before := msg.headers;
      ghost var fixedPart := [Header("From", sender), Header("To", Join(recipientList, ", ")), Header("Subject", req.subject)];
      ghost var ccPart := if ccList != [] then [Header("Cc", Join(ccList, ", "))] else [];
      ghost var replyToPart := if Truthy(req.replyTo) then [Header("Reply-To", req.replyTo.value)] else [];
      ghost var stampPart := [Header("Date", date), Header("Message-ID", messageId)];
      msg.SetItem("From", sender);
      msg.SetItem("To", Join(recipientList, ", "));
      msg.SetItem("Subject", req.subject);
      assert msg.headers == before + fixedPart;
      if ccList != [] {
        msg.SetItem("Cc", Join(ccList, ", "));
      }
      assert msg.headers == before + fixedPart + ccPart;
      if Truthy(req.replyTo) {
        msg.SetItem("Reply-To", req.replyTo.value);
      }
      assert msg.headers == before + fixedPart + ccPart + replyToPart;
      msg.SetItem("Date", date);
      msg.SetItem("Message-ID", messageId);
      assert msg.headers == before + fixedPart + ccPart + replyToPart + stampPart;
      ConcatAssoc(before, fixedPart, ccPart, replyToPart, stampPart);
    }

    /** The custom headers are appended after the others, in iteration order. */
    method SetCustomHeaders(msg: Message, custom: seq<(string, string)>)
      modifies msg
      ensures msg.headers == old(msg.headers) + CustomHeaders(custom)
      ensures msg.parts == old(msg.parts)
    {
      for i := 0 to |custom|
        invariant msg.headers == old(msg.headers) + CustomHeaders(custom[..i])
        invariant msg.parts == old(msg.parts)
      {
        assert custom[..i + 1][..i] == custom[..i] && custom[..i + 1][i] == custom[i];
        msg.SetItem(custom[i].0, custom[i].1);
      }
      assert custom[..|custom|] == custom;
    }

    /** The "alternative" part is built and attached as the first child. */
    method AttachBodies(msg: Message, req: Request)
      modifies msg
      ensures msg.parts == old(msg.parts) + [AlternativePart(req)]
      ensures msg.headers == old(msg.headers)
    {
      var alt := new Message("alternative");
      alt.Attach(PlainPart(req.bodyText));
      if Truthy(req.bodyHtml) {
        alt.Attach(HtmlPart(req.bodyHtml.value));
      }
      assert alt.AsPart() == AlternativePart(req);
      msg.Attach(alt.AsPart());
    }

    /** The attachment loop: each readable file is attached, each unreadable one is logged and skipped. */
    method AttachFiles(msg: Message, attachments: seq<string>, w: World)
      modifies msg, logger
      ensures msg.parts == old(msg.parts) + Oks(AttachmentOutcomes(attachments, w))
      ensures msg.headers == old(msg.headers)
      ensures logger.entries == old(logger.entries) + Errs(AttachmentOutcomes(attachments, w))
    {
      ghost var outcomes := AttachmentOutcomes(attachments, w);
      AttachmentOutcomesLength(attachments, w);
      for i := 0 to |attachments|
        invariant msg.headers == old(msg.headers)
        invariant msg.parts == old(msg.parts) + Oks(outcomes[..i])
        invariant logger.entries == old(logger.entries) + Errs(outcomes[..i])
      {
        OksErrsPrefix(outcomes, i);
        AttachFile(msg, attachments, i, w);
      }
      assert outcomes[..|attachments|] == outcomes;
    }

    /** The body of the attachment loop for the `i`-th path: the `try` block and its `except` branch. */
    method AttachFile(msg: Message, attachments: seq<string>, i: nat, w: World)
      requires i < |attachments|
      modifies msg, logger
      ensures |AttachmentOutcomes(attachments, w)| == |attachments|
      ensures var o := AttachmentOutcomes(attachments, w)[i];
        msg.parts == old(msg.parts) + (if o.Ok? then [o.value] else [])
        && logger.entries == old(logger.entries) + (if o.Err? then [o.error] else [])
      ensures msg.headers == old(msg.headers)
    {
      AttachmentOutcomeAt(attachments, w, i);
      var path := attachments[i];
      var t := ResolveType(w.guessType(path), ("application", "octet-stream"));
      if path in w.files {
        msg.Attach(AttachmentPart(t.0, t.1, w.files[path], path));
      } else {
        logger.Error(AttachmentError(path));
      }
    }

    /** The inline-image loop: each readable image is attached with its Content-ID, each unreadable one is logged and skipped. */
    method AttachInlineImages(msg: Message, images: seq<(string, string)>, w: World)
      modifies msg, logger
      ensures msg.parts == old(msg.parts) + Oks(InlineOutcomes(images, w))
      ensures msg.headers == old(msg.headers)
      ensures logger.entries == old(logger.entries) + Errs(InlineOutcomes(images, w))
    {
      ghost var outcomes := InlineOutcomes(images, w);
      InlineOutcomesLength(images, w);
      for i := 0 to |images|
        invariant msg.headers == old(msg.headers)
        invariant msg.parts == old(msg.parts) + Oks(outcomes[..i])
        invariant logger.entries == old(logger.entries) + Errs(outcomes[..i])
      {
        OksErrsPrefix(outcomes, i);
        AttachInlineImage(msg, images, i, w);
      }
      assert outcomes[..|images|] == outcomes;
    }

    /** The body of the inline-image loop for the `i`-th `(cid, path)` entry: the `try` block and its `except` branch. */
    method AttachInlineImage(msg: Message, images: seq<(string, string)>, i: nat, w: World)
      requires i < |images|
      modifies msg, logger
      ensures |InlineOutcomes(images, w)| == |images|
      ensures var o := InlineOutcomes(images, w)[i];
        msg.parts == old(msg.parts) + (if o.Ok? then [o.value] else [])
        && logger.entries == old(logger.entries) + (if o.Err? then [o.error] else [])
      ensures msg.headers == old(msg.headers)
    {
      InlineOutcomeAt(images, w, i);
      var cid, imgPath := images[i].0, images[i].1;
      var t := ResolveType(w.guessType(imgPath), ("image", "png"));
      if imgPath in w.files {
        msg.Attach(InlinePart(t.0, t.1, w.files[imgPath], cid));
      } else {
        logger.Error(InlineImageError(imgPath));
      }
    }
  }

  /** There is one outcome per path. */
  lemma {:induction false} AttachmentOutcomesLength(paths: seq<string>, w: World)
    ensures |AttachmentOutcomes(paths, w)| == |paths|
  {
    if paths != [] {
      AttachmentOutcomesLength(paths[..|paths| - 1], w);
    }
  }

  /** The outcome at position `k` is that of the `k`-th path. */
  lemma {:induction false} AttachmentOutcomeAt(paths: seq<string>, w: World, k: nat)
    requires k < |paths|
    ensures |AttachmentOutcomes(paths, w)| == |paths|
    ensures AttachmentOutcomes(paths, w)[k] == AttachmentOutcome(paths[k], w)
  {
    AttachmentOutcomesLength(paths, w);
    var init := paths[..|paths| - 1];
    AttachmentOutcomesLength(init, w);
    if k < |init| {
      AttachmentOutcomeAt(init, w, k);
      assert init[k] == paths[k];
    }
  }

  /** There is one outcome per `(cid, path)` entry. */
  lemma {:induction false} InlineOutcomesLength(images: seq<(string, string)>, w: World)
    ensures |InlineOutcomes(images, w)| == |images|
  {
    if images != [] {
      InlineOutcomesLength(images[..|images| - 1], w);
    }
  }

  /** The outcome at position `k` is that of the `k`-th entry. */
  lemma {:induction false} InlineOutcomeAt(images: seq<(string, string)>, w: World, k: nat)
    requires k < |images|
    ensures |InlineOutcomes(images, w)| == |images|
    ensures InlineOutcomes(images, w)[k] == InlineOutcome((images[k].0, images[k].1), w)
  {
    InlineOutcomesLength(images, w);
    var init := images[..|images| - 1];
    InlineOutcomesLength(init, w);
    if k < |init| {
      InlineOutcomeAt(init, w, k);
      assert init[k] == images[k];
    } else {
      assert images[k] == (images[k].0, images[k].1);
    }
  }

  // ---------------------------------------------------------------------------
  // What the assembled message and envelope satisfy
  // ---------------------------------------------------------------------------

  /** Appending four pieces one after another appends their concatenation. */
  lemma ConcatAssoc<T>(b: seq<T>, p: seq<T>, q: seq<T>, r: seq<T>, t: seq<T>)
    ensures b + p + q + r + t == b + (p + q + r + t)
  {
  }

  /** Among the headers the code sets, the first called "To" is the second one, and custom headers after them cannot shadow it. */
  lemma ToHeaderFirst(sender: string, to: seq<string>, cc: seq<string>, subject: string,
                      replyTo: Option<string>, date: string, messageId: string, custom: seq<Header>)
    ensures Lookup(StandardHeaders(sender, to, cc, subject, replyTo, date, messageId) + custom, "To")
         == Some(Join(to, ", "))
  {
    var std := StandardHeaders(sender, to, cc, subject, replyTo, date, messageId);
    var first := [Header("From", sender), Header("To", Join(to, ", "))];
    assert std == first + std[2..];
    assert !SameName("From", "To");
    assert FirstIndex(first, "To") == 1;
    LookupPrefix(first, std[2..] + custom, "To");
    assert std + custom == first + (std[2..] + custom);
  }

  /**
   * `msg['To']` is the To header the code sets, whatever custom headers follow,
   * and reading its value back through `normalize` gives the recipient list.
   */
  lemma ToHeaderShown(sender: string, req: Request, date: string, messageId: string)
    ensures Lookup(HeadersFor(sender, req, date, messageId), "To") == Some(Join(Normalize(req.recipient), ", "))
    ensures Normalize(One(Join(Normalize(req.recipient), ", "))) == Normalize(req.recipient)
  {
    var to := Normalize(req.recipient);
    ToHeaderFirst(sender, to, Normalize(req.cc), req.subject, req.replyTo, date, messageId,
                  CustomHeaders(req.customHeaders));
    NormalizeWellFormed(req.recipient);
    JoinedRoundTrip(to);
    NormalizeFalsy(One(Join(to, ", ")));
  }
}
