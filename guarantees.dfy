/**
 * What the message `send_email` assembles and the envelope it submits satisfy:
 * where each header sits and what a lookup of it returns, the shape of the
 * body part, which assets become parts and in what order, and what becomes of
 * the Bcc recipients.
 */
module Guarantees {
  import opened Wrappers
  import opened Text
  import opened Addresses
  import opened Mime
  import opened ZapMail

  // ---------------------------------------------------------------------------
  // Headers
  // ---------------------------------------------------------------------------

  /** A header list none of whose names is `name` has no header of that name. */
  lemma NoneNamed(headers: seq<Header>, name: string)
    requires forall k :: 0 <= k < |headers| ==> !SameName(headers[k].name, name)
    ensures FirstIndex(headers, name) == |headers|
    ensures Lookup(headers, name) == None
  {
  }

  /** The custom headers come out one per dictionary entry, in iteration order, name and value unchanged. */
  lemma {:induction false} CustomHeadersInOrder(pairs: seq<(string, string)>)
    ensures |CustomHeaders(pairs)| == |pairs|
    ensures forall k :: 0 <= k < |pairs| ==> CustomHeaders(pairs)[k] == Header(pairs[k].0, pairs[k].1)
  {
    if pairs != [] {
      var init := pairs[..|pairs| - 1];
      CustomHeadersInOrder(init);
      assert forall k :: 0 <= k < |init| ==> pairs[k] == init[k];
    }
  }

  /**
   * The code's own headers end with Date and Message-ID, the custom headers
   * follow them, and the first three are From, To and Subject.
   */
  lemma HeaderLayout(sender: string, req: Request, date: string, messageId: string)
    ensures var h := HeadersFor(sender, req, date, messageId);
      var n := |h| - |req.customHeaders|;
      5 <= n <= 7
      && h[0] == Header("From", sender)
      && h[1] == Header("To", Join(Normalize(req.recipient), ", "))
      && h[2] == Header("Subject", req.subject)
      && h[n - 2] == Header("Date", date)
      && h[n - 1] == Header("Message-ID", messageId)
      && h[n..] == CustomHeaders(req.customHeaders)
  {
    CustomHeadersInOrder(req.customHeaders);
    var to, cc := Normalize(req.recipient), Normalize(req.cc);
    var std := StandardHeaders(sender, to, cc, req.subject, req.replyTo, date, messageId);
    StandardLayout(sender, to, cc, req.subject, req.replyTo, date, messageId);
    var custom := CustomHeaders(req.customHeaders);
    var h := std + custom;
    assert h == HeadersFor(sender, req, date, messageId);
    var n := |std|;
    assert h[0] == std[0] && h[1] == std[1] && h[2] == std[2];
    assert h[n - 2] == std[n - 2] && h[n - 1] == std[n - 1];
    assert h[n..] == custom;
  }

  /** The code's own headers: From, To and Subject first, Date and Message-ID last, five to seven in all. */
  lemma StandardLayout(sender: string, to: seq<string>, cc: seq<string>, subject: string,
                       replyTo: Option<string>, date: string, messageId: string)
    ensures var std := StandardHeaders(sender, to, cc, subject, replyTo, date, messageId);
      var n := |std|;
      5 <= n <= 7
      && std[0] == Header("From", sender)
      && std[1] == Header("To", Join(to, ", "))
      && std[2] == Header("Subject", subject)
      && std[n - 2] == Header("Date", date)
      && std[n - 1] == Header("Message-ID", messageId)
  {
  }

  /** A name that none of the code's header names matches is absent from the headers the code sets. */
  lemma AbsentFromStandard(name: string, sender: string, to: seq<string>, cc: seq<string>, subject: string,
                           replyTo: Option<string>, date: string, messageId: string)
    requires !SameName("From", name) && !SameName("To", name) && !SameName("Subject", name)
    requires cc != [] ==> !SameName("Cc", name)
    requires Truthy(replyTo) ==> !SameName("Reply-To", name)
    requires !SameName("Date", name) && !SameName("Message-ID", name)
    ensures FirstIndex(StandardHeaders(sender, to, cc, subject, replyTo, date, messageId), name)
         == |StandardHeaders(sender, to, cc, subject, replyTo, date, messageId)|
  {
    var a := [Header("From", sender), Header("To", Join(to, ", ")), Header("Subject", subject)];
    var c := if cc != [] then [Header("Cc", Join(cc, ", "))] else [];
    var r := if Truthy(replyTo) then [Header("Reply-To", replyTo.value)] else [];
    var d := [Header("Date", date), Header("Message-ID", messageId)];
    NoneNamed(a, name);
    NoneNamed(c, name);
    NoneNamed(r, name);
    NoneNamed(d, name);
    LookupSkip(a, c, name);
    LookupSkip(a + c, r, name);
    LookupSkip(a + c + r, d, name);
    assert StandardHeaders(sender, to, cc, subject, replyTo, date, messageId) == a + c + r + d;
  }

  /** With a non-empty Cc list, the first header called "Cc" is the one holding that list. */
  lemma CcAmongStandard(sender: string, to: seq<string>, cc: seq<string>, subject: string,
                        replyTo: Option<string>, date: string, messageId: string)
    requires cc != []
    ensures Lookup(StandardHeaders(sender, to, cc, subject, replyTo, date, messageId), "Cc") == Some(Join(cc, ", "))
  {
    var a := [Header("From", sender), Header("To", Join(to, ", ")), Header("Subject", subject)];
    var rest := [Header("Cc", Join(cc, ", "))]
      + (if Truthy(replyTo) then [Header("Reply-To", replyTo.value)] else [])
      + [Header("Date", date), Header("Message-ID", messageId)];
    NamesApart("From", "Cc");
    NamesApart("To", "Cc");
    NamesApart("Subject", "Cc");
    NoneNamed(a, "Cc");
    LookupSkip(a, rest, "Cc");
    assert FirstIndex(rest, "Cc") == 0;
    assert StandardHeaders(sender, to, cc, subject, replyTo, date, messageId) == a + rest;
  }

  /** With an empty Cc list, no header the code sets is called "Cc". */
  lemma NoCcAmongStandard(sender: string, to: seq<string>, subject: string,
                          replyTo: Option<string>, date: string, messageId: string)
    ensures FirstIndex(StandardHeaders(sender, to, [], subject, replyTo, date, messageId), "Cc")
         == |StandardHeaders(sender, to, [], subject, replyTo, date, messageId)|
  {
    NamesApart("From", "Cc");
    NamesApart("To", "Cc");
    NamesApart("Subject", "Cc");
    NamesApart("Reply-To", "Cc");
    NamesApart("Date", "Cc");
    NamesApart("Message-ID", "Cc");
    AbsentFromStandard("Cc", sender, to, [], subject, replyTo, date, messageId);
  }

  /**
   * `msg['Cc']` is the ", "-joined normalised Cc list when that list is
   * non-empty; otherwise the code sets no Cc and only a custom header can.
   */
  lemma CcHeaderShown(sender: string, req: Request, date: string, messageId: string)
    ensures Normalize(req.cc) != [] ==>
      Lookup(HeadersFor(sender, req, date, messageId), "Cc") == Some(Join(Normalize(req.cc), ", "))
    ensures Normalize(req.cc) == [] ==>
      Lookup(HeadersFor(sender, req, date, messageId), "Cc") == Lookup(CustomHeaders(req.customHeaders), "Cc")
  {
    var std := StandardHeaders(sender, Normalize(req.recipient), Normalize(req.cc), req.subject, req.replyTo,
                               date, messageId);
    if Normalize(req.cc) != [] {
      CcAmongStandard(sender, Normalize(req.recipient), Normalize(req.cc), req.subject, req.replyTo, date, messageId);
      LookupPrefix(std, CustomHeaders(req.customHeaders), "Cc");
    } else {
      NoCcAmongStandard(sender, Normalize(req.recipient), req.subject, req.replyTo, date, messageId);
      LookupSkip(std, CustomHeaders(req.customHeaders), "Cc");
    }
  }

  /** The code never sets a Bcc header: `msg['Bcc']` can only come from a custom header. */
  lemma NoBccHeader(sender: string, req: Request, date: string, messageId: string)
    ensures Lookup(HeadersFor(sender, req, date, messageId), "Bcc") == Lookup(CustomHeaders(req.customHeaders), "Bcc")
  {
    var std := StandardHeaders(sender, Normalize(req.recipient), Normalize(req.cc), req.subject, req.replyTo,
                               date, messageId);
    NamesApart("From", "Bcc");
    NamesApart("To", "Bcc");
    NamesApart("Subject", "Bcc");
    NamesApart("Cc", "Bcc");
    NamesApart("Reply-To", "Bcc");
    NamesApart("Date", "Bcc");
    NamesApart("Message-ID", "Bcc");
    AbsentFromStandard("Bcc", sender, Normalize(req.recipient), Normalize(req.cc), req.subject, req.replyTo,
                       date, messageId);
    LookupSkip(std, CustomHeaders(req.customHeaders), "Bcc");
  }

  // ---------------------------------------------------------------------------
  // Envelope
  // ---------------------------------------------------------------------------

  /**
   * The envelope is the addresses the To header lists, then those the Cc list
   * holds, then the Bcc addresses, in that order and with nothing merged away.
   */
  lemma EnvelopeMatchesHeaders(req: Request)
    ensures EnvelopeFor(req) ==
      SplitAddresses(Join(Normalize(req.recipient), ", ")) + SplitAddresses(Join(Normalize(req.cc), ", "))
      + Normalize(req.bcc)
    ensures |EnvelopeFor(req)| == |Normalize(req.recipient)| + |Normalize(req.cc)| + |Normalize(req.bcc)|
  {
    NormalizeWellFormed(req.recipient);
    NormalizeWellFormed(req.cc);
    JoinedRoundTrip(Normalize(req.recipient));
    JoinedRoundTrip(Normalize(req.cc));
  }

  /** Bcc recipients reach the envelope, at its end, and nowhere in the message. */
  lemma BccOnlyInEnvelope(sender: string, req: Request, w: World, bcc: AddressField)
    ensures DocumentFor(sender, req.(bcc := bcc), w) == DocumentFor(sender, req, w)
    ensures EnvelopeFor(req.(bcc := bcc))[..|EnvelopeFor(req)| - |Normalize(req.bcc)|]
         == EnvelopeFor(req)[..|EnvelopeFor(req)| - |Normalize(req.bcc)|]
    ensures EnvelopeFor(req.(bcc := bcc))[|EnvelopeFor(req)| - |Normalize(req.bcc)|..] == Normalize(bcc)
  {
    var front := Normalize(req.recipient) + Normalize(req.cc);
    assert EnvelopeFor(req)[..|front|] == front;
    assert EnvelopeFor(req.(bcc := bcc))[..|front|] == front;
  }

  // ---------------------------------------------------------------------------
  // Body and assets
  // ---------------------------------------------------------------------------

  /**
   * The first child of the message is the "alternative" part: the plain-text body
   * first, and a second, HTML child exactly when an HTML body is given.
   */
  lemma BodyFirst(sender: string, req: Request, w: World)
    ensures var doc := DocumentFor(sender, req, w);
      doc.Multipart? && doc.subType == "related" && |doc.children| >= 1
      && var alt := doc.children[0];
      alt.Multipart? && alt.subType == "alternative"
      && 1 <= |alt.children| <= 2
      && alt.children[0] == Leaf("text", "plain", TextBody(req.bodyText), [])
      && (|alt.children| == 2 <==> Truthy(req.bodyHtml))
      && (|alt.children| == 2 ==> alt.children[1] == Leaf("text", "html", TextBody(req.bodyHtml.value), []))
  {
  }

  /** The readable paths, in order. */
  function Readable(paths: seq<string>, files: map<string, seq<byte>>): seq<string>
  {
    if paths == [] then []
    else Readable(paths[..|paths| - 1], files) + (if paths[|paths| - 1] in files then [paths[|paths| - 1]] else [])
  }

  /** The unreadable paths, in order. */
  function Unreadable(paths: seq<string>, files: map<string, seq<byte>>): seq<string>
  {
    if paths == [] then []
    else Unreadable(paths[..|paths| - 1], files) + (if paths[|paths| - 1] in files then [] else [paths[|paths| - 1]])
  }

  /** The `(cid, path)` entries whose path is readable, in order. */
  function ReadableImages(images: seq<(string, string)>, files: map<string, seq<byte>>): seq<(string, string)>
  {
    if images == [] then []
    else
      var last := images[|images| - 1];
      ReadableImages(images[..|images| - 1], files) + (if last.1 in files then [last] else [])
  }

  /** The `(cid, path)` entries whose path is unreadable, in order. */
  function UnreadableImages(images: seq<(string, string)>, files: map<string, seq<byte>>): seq<(string, string)>
  {
    if images == [] then []
    else
      var last := images[|images| - 1];
      UnreadableImages(images[..|images| - 1], files) + (if last.1 in files then [] else [last])
  }

  /**
   * The attachment loop yields one part per readable file, in input order, and
   * one logged error per unreadable file, in input order; an error never stops
   * the files after it.
   */
  lemma {:induction false} AttachmentsSorted(paths: seq<string>, w: World)
    ensures |Oks(AttachmentOutcomes(paths, w))| == |Readable(paths, w.files)|
    ensures forall k :: 0 <= k < |Readable(paths, w.files)| ==>
      Ok(Oks(AttachmentOutcomes(paths, w))[k]) == AttachmentOutcome(Readable(paths, w.files)[k], w)
    ensures |Errs(AttachmentOutcomes(paths, w))| == |Unreadable(paths, w.files)|
    ensures forall k :: 0 <= k < |Unreadable(paths, w.files)| ==>
      Errs(AttachmentOutcomes(paths, w))[k] == AttachmentError(Unreadable(paths, w.files)[k])
  {
    if paths != [] {
      var init := paths[..|paths| - 1];
      var last := paths[|paths| - 1];
      AttachmentsSorted(init, w);
      OksErrsSnoc(AttachmentOutcomes(init, w), AttachmentOutcome(last, w));
    }
  }

  /**
   * The inline-image loop yields one part per readable image, in iteration
   * order, and one logged error per unreadable image path, in iteration order.
   */
  lemma {:induction false} InlineImagesSorted(images: seq<(string, string)>, w: World)
    ensures |Oks(InlineOutcomes(images, w))| == |ReadableImages(images, w.files)|
    ensures forall k :: 0 <= k < |ReadableImages(images, w.files)| ==>
      Ok(Oks(InlineOutcomes(images, w))[k]) == InlineOutcome(ReadableImages(images, w.files)[k], w)
    ensures |Errs(InlineOutcomes(images, w))| == |UnreadableImages(images, w.files)|
    ensures forall k :: 0 <= k < |UnreadableImages(images, w.files)| ==>
      Errs(InlineOutcomes(images, w))[k] == InlineImageError(UnreadableImages(images, w.files)[k].1)
  {
    if images != [] {
      var init := images[..|images| - 1];
      var last := images[|images| - 1];
      InlineImagesSorted(init, w);
      OksErrsSnoc(InlineOutcomes(init, w), InlineOutcome(last, w));
    }
  }

  /**
   * The message has one child for the body and one per readable asset; the log
   * has one entry per unreadable asset.
   */
  lemma ChildCount(sender: string, req: Request, w: World)
    ensures |DocumentFor(sender, req, w).children|
         == 1 + |Readable(req.attachments, w.files)| + |ReadableImages(req.inlineImages, w.files)|
    ensures |AssetErrors(req, w)|
         == |Unreadable(req.attachments, w.files)| + |UnreadableImages(req.inlineImages, w.files)|
  {
    AttachmentsSorted(req.attachments, w);
    InlineImagesSorted(req.inlineImages, w);
  }

  /** Every path is either readable or unreadable. */
  lemma {:induction false} ReadablePartition(paths: seq<string>, files: map<string, seq<byte>>)
    ensures |Readable(paths, files)| + |Unreadable(paths, files)| == |paths|
  {
    if paths != [] {
      ReadablePartition(paths[..|paths| - 1], files);
    }
  }

  /** The part made for one attachment: its bytes, its disposition and its content type. */
  predicate IsAttachmentPart(p: Part, path: string, contents: seq<byte>, guess: Option<string>)
  {
    p.Leaf?
    && p.payload == FileBytes(contents)
    && p.headers == [Header("Content-Disposition", "attachment; filename=" + Basename(path))]
    && (UsesGuess(guess) ==> p.mainType + "/" + p.subType == guess.value)
    && (!UsesGuess(guess) ==> p.mainType == "application" && p.subType == "octet-stream")
  }

  /** The part made for one inline image: its bytes, its Content-ID, its disposition and its content type. */
  predicate IsInlinePart(p: Part, cid: string, contents: seq<byte>, guess: Option<string>)
  {
    p.Leaf?
    && p.payload == FileBytes(contents)
    && p.headers == [Header("Content-ID", "<" + cid + ">"), Header("Content-Disposition", "inline")]
    && (UsesGuess(guess) ==> p.mainType + "/" + p.subType == guess.value)
    && (!UsesGuess(guess) ==> p.mainType == "image" && p.subType == "png")
  }

  /** An attachment becomes a part exactly when its file can be read; otherwise its path is logged. */
  lemma AttachmentShape(path: string, w: World)
    ensures AttachmentOutcome(path, w).Ok? <==> path in w.files
    ensures AttachmentOutcome(path, w).Ok? ==>
      IsAttachmentPart(AttachmentOutcome(path, w).value, path, w.files[path], w.guessType(path))
    ensures AttachmentOutcome(path, w).Err? ==> AttachmentOutcome(path, w).error == AttachmentError(path)
  {
  }

  /** An inline image becomes a part exactly when its file can be read; otherwise its path is logged. */
  lemma InlineShape(image: (string, string), w: World)
    ensures InlineOutcome(image, w).Ok? <==> image.1 in w.files
    ensures InlineOutcome(image, w).Ok? ==>
      IsInlinePart(InlineOutcome(image, w).value, image.0, w.files[image.1], w.guessType(image.1))
    ensures InlineOutcome(image, w).Err? ==> InlineOutcome(image, w).error == InlineImageError(image.1)
  {
  }
}
