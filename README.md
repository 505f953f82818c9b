# ZapMail: the send pathway of `Emailer.send_email`

ZapMail is a small SMTP library. `Emailer.send_email` takes recipients, a
subject, a plain-text body and an optional HTML body, attachment paths, Cc, Bcc,
Reply-To, inline images and custom headers. It does the following:

1. Normalises the To, Cc and Bcc arguments into address lists.
2. Builds a `multipart/related` message. The message gets headers and a
   `multipart/alternative` body part. It also gets one part per readable
   attachment and one per readable inline image.
3. Submits the message once over SMTP-over-TLS to the envelope To + Cc + Bcc.
4. Reports the outcome on standard output and in the error log.

This project models that pathway in Dafny and proves properties of the model.

- `wrappers.dfy` (module `Wrappers`): `Option`, `Result`, and the successes
  and errors of a sequence of outcomes.
- `text.dfy` (module `Text`): Python's `str.strip()`, `str.split(sep)` with a
  one-character separator, `sep.join`, POSIX `os.path.basename`, and
  case-insensitive header-name comparison.
- `addresses.dfy` (module `Addresses`): the `normalize` helper. `Normalize`
  is its specification as a function. `NormalizeAddresses` is the method,
  with the source's accumulating loop in `FlattenLoop`, proved equal to that
  function.
- `mime.dfy` (module `Mime`): MIME parts, headers, and the `msg[name]`
  lookup. It also holds the resolution of a guessed MIME type into a
  (main type, subtype) pair. `Message` is a class whose header and part
  sequences grow by `msg[name] = value` and `msg.attach(part)`.
- `zapmail.dfy` (module `ZapMail`): the `Emailer` class and the `send_email`
  method, split into one method per stage of the source. It also holds the
  error log and standard output as classes with append-only sequences. The
  document and envelope the method must produce are given as functions of
  its inputs (`DocumentFor`, `EnvelopeFor`, `AssetErrors`).
- `guarantees.dfy` (module `Guarantees`): what the document and envelope
  satisfy. This covers:
  - where each header sits and what `msg['Cc']` and `msg['Bcc']` return;
  - the body part's shape;
  - which assets become parts, in what order, and what each part carries;
  - where the Bcc addresses go.

The outside world is a `World` value. It holds:

- the `formatdate` and `make_msgid` strings;
- a map from readable paths to their bytes;
- the `mimetypes.guess_type` answer for each path;
- whether the SMTP session (connect, TLS, login, send) completes for a
  given submission.

The model fixes these points:

- `str.strip()` removes exactly the characters for which `str.isspace()`
  holds. They are listed in `Text.SpaceCodes`.
- `os.path.basename` follows POSIX: the text after the last `/`.
- A header lookup returns the first header whose name matches ignoring
  ASCII case. Assigning a header always appends, even when one of that
  name exists.
- The two dictionaries are sequences of pairs, in iteration order.

Three behaviours of the code are worth noting; the model follows each:

- The MIME-type fallback is used not only when no type can be guessed but
  also when the guess does not split on `/` into exactly two pieces
  (`ResolveType`).
- The failure line is printed even when `silent` is set. Only the success
  line is suppressed (`SendEmail`).
- An empty recipient list is not rejected up front. When Cc or Bcc supplies
  an address, the message is still submitted. When To, Cc and Bcc all
  normalise to nothing, smtplib refuses the send to no recipients, so the
  call takes its failure path and returns false (`SendEmail`).

## Model

| member | source | states |
|---|---|---|
| Addresses.NormalizeAddresses | ZapMail/emailer.py:74-83 | the result is exactly `Normalize` of the argument, for None, a string or a list |
| Addresses.Normalize | ZapMail/emailer.py:74-83 | the specification of `normalize`: falsy arguments give [], a string its comma-separated addresses, a list the accumulation over its elements; its properties are stated by `NormalizeFalsy`, `NormalizeWellFormed`, `NormalizeManyCons`, `NormalizeOneAsMany`, `NormalizeCommaString` and `NormalizeIdempotent` |
| Addresses.IsFalsy | ZapMail/emailer.py:75 | `not val` for None, "" and []; stated by `NormalizeFalsy` |
| Addresses.Flatten | ZapMail/emailer.py:80-83 | the `result +=` loop as a function of the list; `FlattenLoop` and `NormalizeAddresses` are proved equal to it, and `FlattenAppend`, `FlattenCons`, `FlattenSingle`, `FlattenWellFormed` and `FlattenWellFormedList` state its properties |
| Addresses.SplitAddresses | ZapMail/emailer.py:78 | the comprehension over `val.split(",")`; stated by `AddressesOfWellFormed`, `AddressThenRest`, `CommaJoinIsList` and `JoinedRoundTrip` |
| Addresses.Clean | ZapMail/emailer.py:78 | `[f.strip() for f in frags if f.strip()]`, in order; stated by `CleanWellFormed`, `CleanAppend` and `CleanSpaceHead` |
| Addresses.FlattenLoop | ZapMail/emailer.py:80-83 | the `result +=` loop over a list yields the addresses of every element, element after element |
| Addresses.FlattenStep | ZapMail/emailer.py:81-82 | one more loop iteration appends exactly the addresses of the next element |
| Addresses.NormalizeFalsy | ZapMail/emailer.py:75-76 | None, "" and [] give no addresses; a string gives its own comma-separated addresses; a list gives the accumulation over its elements |
| Addresses.NormalizeMany | ZapMail/emailer.py:75-83 | a list argument, the empty list included, normalises to the accumulation over its elements |
| Addresses.BlankHasNoAddresses | ZapMail/emailer.py:78 | the empty string holds no address |
| Addresses.FlattenSingle | ZapMail/emailer.py:80-83 | a one-element list accumulates to the addresses of its element |
| Addresses.NormalizeWellFormed | ZapMail/emailer.py:74-83 | every address returned is non-empty, has no surrounding whitespace and holds no comma |
| Addresses.CleanWellFormed | ZapMail/emailer.py:78 | stripping comma-free fragments and dropping blank ones leaves only well-formed addresses |
| Addresses.CleanAppend | ZapMail/emailer.py:78 | cleaning a concatenation of fragment lists cleans each side independently |
| Addresses.AppendWellFormed | ZapMail/emailer.py:82 | `result +=` of two well-formed lists keeps the result well-formed |
| Addresses.FlattenWellFormed | ZapMail/emailer.py:80-83 | whatever the list, its accumulated addresses are well-formed |
| Addresses.NormalizeManyCons | ZapMail/emailer.py:80-83 | a list normalises to its first element's addresses followed by the rest's, so order and duplicates are kept |
| Addresses.FlattenAppend | ZapMail/emailer.py:80-83 | the accumulation over a concatenation is the concatenation of the accumulations |
| Addresses.NormalizeOneAsMany | ZapMail/emailer.py:77-83 | a string `s` normalises the same as the list `[s]` |
| Addresses.CommaJoinIsList | ZapMail/emailer.py:77-83 | the addresses of a comma-joined string are the addresses accumulated over the list of its pieces, in the same order |
| Addresses.FlattenCons | ZapMail/emailer.py:80-83 | a non-empty list accumulates its head's addresses, then its tail's |
| Addresses.SplitAddressesAppend | ZapMail/emailer.py:78 | the addresses on either side of a comma are read independently, left side first |
| Addresses.NormalizeCommaString | ZapMail/emailer.py:74-83 | `"a,b,c"` and `["a", "b", "c"]` normalise to the same addresses, for any list of pieces |
| Addresses.NormalizeIdempotent | ZapMail/emailer.py:74-83 | normalising the normalised list again changes nothing |
| Addresses.FlattenWellFormedList | ZapMail/emailer.py:80-83 | a list of well-formed addresses accumulates to itself |
| Addresses.AddressesOfWellFormed | ZapMail/emailer.py:78 | a well-formed address is its own only address |
| Addresses.JoinedRoundTrip | ZapMail/emailer.py:91 | the `", "`-joined header value, read back through the same normalisation, gives exactly the list it was joined from |
| Addresses.AddressThenRest | ZapMail/emailer.py:78 | a well-formed address followed by `", "` reads back as that address, then the addresses of what follows |
| Addresses.CleanSpaceHead | ZapMail/emailer.py:78 | a space in front of the first fragment does not change the cleaned result |
| Text.Strip | ZapMail/emailer.py:78 | the result has no whitespace at either end |
| Text.TrimLeft | ZapMail/emailer.py:78 | the result is no longer than the input and does not start with whitespace |
| Text.TrimRight | ZapMail/emailer.py:78 | the result is no longer than the input and does not end with whitespace |
| Text.TrimLeftSuffix | ZapMail/emailer.py:78 | dropping leading whitespace keeps a suffix of the input, and everything dropped is whitespace |
| Text.TrimRightPrefix | ZapMail/emailer.py:78 | dropping trailing whitespace keeps a prefix of the input, and everything dropped is whitespace |
| Text.StripSlice | ZapMail/emailer.py:78 | the result is a contiguous slice of the input, and only whitespace is dropped on each side |
| Text.StripEmptyIff | ZapMail/emailer.py:78 | `strip()` gives "" exactly when the string is all whitespace, which is when the fragment is dropped |
| Text.StripIdempotent | ZapMail/emailer.py:78 | stripping twice is stripping once |
| Text.StripFixed | ZapMail/emailer.py:78 | a string with no surrounding whitespace is unchanged by `strip()` |
| Text.StripKeeps | ZapMail/emailer.py:78 | `strip()` introduces no character that was not in its input |
| Text.StripLeadingSpace | ZapMail/emailer.py:78 | a leading whitespace character does not change the stripped result |
| Text.Split | ZapMail/emailer.py:78 | `split` gives at least one piece, and no piece holds the separator |
| Text.Join | ZapMail/emailer.py:91-94 | `", ".join(...)` for the To and Cc headers; stated by `JoinSplit`, `SplitJoin`, `JoinedRoundTrip` and `CommaJoinIsList` |
| Text.SplitLength | ZapMail/emailer.py:116-117 | `split` gives one piece more than there are separators |
| Text.JoinSplit | ZapMail/emailer.py:116-118 | joining the pieces with the separator gives the string back |
| Text.SplitJoin | ZapMail/emailer.py:78 | splitting a join of separator-free pieces gives the pieces back |
| Text.SplitNoSep | ZapMail/emailer.py:78 | a string without the separator splits into itself alone |
| Text.SplitAppend | ZapMail/emailer.py:78 | splitting at a separator splits the two sides independently |
| Text.Basename | ZapMail/emailer.py:123 | the result is the suffix after the last '/', holds no '/', and is the whole path when there is no '/' |
| Mime.FirstIndex | ZapMail/emailer.py:155 | `msg[name]` picks the first header whose name matches ignoring ASCII case; no earlier header matches |
| Mime.Lookup | ZapMail/emailer.py:155 | `msg[name]`: the value at `FirstIndex`, or nothing; stated by `LookupPrefix`, `LookupSkip`, `ToHeaderShown`, `CcHeaderShown` and `NoBccHeader` |
| Mime.LookupPrefix | ZapMail/emailer.py:99-101 | headers appended after a matching one never change what a lookup returns |
| Mime.LookupSkip | ZapMail/emailer.py:99-101 | when no earlier header matches, a lookup falls through to the later headers |
| Mime.ResolveType | ZapMail/emailer.py:113-118 | when the guess splits on '/' into exactly two pieces they are the main type and subtype and rejoin to the guess; otherwise the fallback is used |
| Mime.UsesGuess | ZapMail/emailer.py:115-117 | a guess is used when it is present and splits into exactly two pieces; stated by `ResolveType` and `SplitLength` |
| Mime.Message.constructor | ZapMail/emailer.py:89 | a new multipart container has its subtype and no headers or parts |
| Mime.Message.SetItem | ZapMail/emailer.py:90 | `msg[name] = value` appends one header, keeps all earlier ones and leaves the parts alone |
| Mime.Message.Attach | ZapMail/emailer.py:108 | `attach` appends one child and leaves the headers alone |
| ZapMail.Logger.Error | ZapMail/emailer.py:127 | logging appends exactly one entry |
| ZapMail.Logger.constructor | ZapMail/emailer.py:44 | a new logger, standing for `logging.getLogger(__name__)`, starts with no entries |
| ZapMail.Console.Print | ZapMail/emailer.py:155 | printing appends exactly one line |
| ZapMail.Emailer.constructor | ZapMail/emailer.py:21-44 | the settings are stored; without a logger of the caller's, a fresh empty one is used |
| ZapMail.Emailer.SendEmail | ZapMail/emailer.py:46-160 | returns true exactly when the To + Cc + Bcc envelope is non-empty and the transport accepts it with the document; logs one error per unreadable asset plus one on failure; prints the failure line on failure and the To header's value on success unless silent |
| ZapMail.Emailer.Compose | ZapMail/emailer.py:89-146 | the new message has the standard headers, then the custom ones, and its children are the body part, then the readable attachments, then the readable inline images; the log gains the asset errors in order |
| ZapMail.StandardHeaders | ZapMail/emailer.py:89-98 | the headers the code sets itself, in order; stated by `SetStandardHeaders`, `StandardLayout`, `CcAmongStandard`, `NoCcAmongStandard` and `AbsentFromStandard` |
| ZapMail.CustomHeaders | ZapMail/emailer.py:99-101 | one header per custom pair; stated by `SetCustomHeaders` and `CustomHeadersInOrder` |
| ZapMail.HeadersFor | ZapMail/emailer.py:89-101 | the standard headers followed by the custom ones; stated by `Compose`, `HeaderLayout`, `ToHeaderFirst`, `CcHeaderShown` and `NoBccHeader` |
| ZapMail.AlternativePart | ZapMail/emailer.py:104-108 | the `multipart/alternative` body part; stated by `AttachBodies` and `BodyFirst` |
| ZapMail.PlainPart | ZapMail/emailer.py:105 | the `text/plain` part holding the plain body; stated by `AttachBodies` and `BodyFirst` |
| ZapMail.HtmlPart | ZapMail/emailer.py:107 | the `text/html` part holding the HTML body; stated by `AttachBodies` and `BodyFirst` |
| ZapMail.Truthy | ZapMail/emailer.py:95-106 | Python truthiness of `reply_to` and `body_html`: present and non-empty; stated by `SetStandardHeaders` and `BodyFirst` |
| ZapMail.RelatedParts | ZapMail/emailer.py:104-146 | the children of the message: the body part, then the readable attachments, then the readable inline images; stated by `Compose`, `BodyFirst`, `AttachmentsSorted`, `InlineImagesSorted` and `ChildCount` |
| ZapMail.DocumentFor | ZapMail/emailer.py:89-146 | the message submitted, as a value; stated by `SendEmail`, `Compose`, `HeaderLayout` and `BccOnlyInEnvelope` |
| ZapMail.AttachmentOutcome | ZapMail/emailer.py:112-127 | one attachment's part or log entry; stated by `AttachFile`, `AttachmentShape` and `AttachmentsSorted` |
| ZapMail.AttachmentPart | ZapMail/emailer.py:119-124 | the attachment part: resolved type, file bytes and `attachment; filename=<basename>`; stated by `AttachmentShape` |
| ZapMail.AttachmentOutcomes | ZapMail/emailer.py:111-127 | the outcome of every attachment, in order; stated by `AttachmentOutcomesLength`, `AttachmentOutcomeAt`, `AttachFiles` and `AttachmentsSorted` |
| ZapMail.InlineOutcome | ZapMail/emailer.py:131-146 | one inline image's part or log entry; stated by `AttachInlineImage`, `InlineShape` and `InlineImagesSorted` |
| ZapMail.InlinePart | ZapMail/emailer.py:138-143 | the inline part: resolved type, file bytes, `Content-ID: <cid>` and `inline`; stated by `InlineShape` |
| ZapMail.InlineOutcomes | ZapMail/emailer.py:130-146 | the outcome of every inline image, in iteration order; stated by `InlineOutcomesLength`, `InlineOutcomeAt`, `AttachInlineImages` and `InlineImagesSorted` |
| ZapMail.AssetErrors | ZapMail/emailer.py:111-146 | the log entries of the unreadable attachments, then of the unreadable inline images; stated by `Compose`, `SendEmail`, `AttachmentsSorted`, `InlineImagesSorted` and `ChildCount` |
| ZapMail.EnvelopeFor | ZapMail/emailer.py:152 | the normalised To, then Cc, then Bcc addresses; stated by `SendEmail`, `EnvelopeMatchesHeaders` and `BccOnlyInEnvelope` |
| ZapMail.Emailer.AttachAssets | ZapMail/emailer.py:110-146 | appends the readable attachments' parts, then the readable inline images' parts; logs the unreadable ones in the same order; leaves the headers alone |
| ZapMail.Emailer.SetStandardHeaders | ZapMail/emailer.py:89-98 | appends From, To, Subject, Cc only for a non-empty Cc list, Reply-To only for a non-empty reply-to, Date, then Message-ID |
| ZapMail.Emailer.SetCustomHeaders | ZapMail/emailer.py:99-101 | appends each custom header in iteration order after the existing ones |
| ZapMail.Emailer.AttachBodies | ZapMail/emailer.py:104-108 | attaches the alternative part: plain text, then HTML only when given |
| ZapMail.Emailer.AttachFiles | ZapMail/emailer.py:111-127 | each readable file adds its part and each unreadable one adds one log entry, in input order, without stopping the loop |
| ZapMail.Emailer.AttachFile | ZapMail/emailer.py:112-127 | one attachment: its part is appended when the file is readable, otherwise exactly one log entry naming the path; the headers are untouched |
| ZapMail.Emailer.AttachInlineImages | ZapMail/emailer.py:130-146 | each readable image adds its part and each unreadable one adds one log entry, in iteration order, without stopping the loop |
| ZapMail.Emailer.AttachInlineImage | ZapMail/emailer.py:131-146 | one inline image: its part is appended when the file is readable, otherwise exactly one log entry naming the path; the headers are untouched |
| ZapMail.AttachmentOutcomesLength | ZapMail/emailer.py:111 | the attachment loop has exactly one outcome per path |
| ZapMail.AttachmentOutcomeAt | ZapMail/emailer.py:111-127 | the k-th outcome of the attachment loop is that of the k-th path alone, so no path affects another |
| ZapMail.InlineOutcomesLength | ZapMail/emailer.py:130 | the inline-image loop has exactly one outcome per entry |
| ZapMail.InlineOutcomeAt | ZapMail/emailer.py:130-146 | the k-th outcome of the inline-image loop is that of the k-th entry alone, so no entry affects another |
| ZapMail.ToHeaderFirst | ZapMail/emailer.py:90-101 | among the headers set, the first called "To" is the joined recipient list, whatever custom headers follow |
| ZapMail.ToHeaderShown | ZapMail/emailer.py:155 | `msg['To']` is the joined recipient list, and normalising it gives the recipient list back |
| Guarantees.AbsentFromStandard | ZapMail/emailer.py:89-98 | a name matching none of From, To, Subject, Cc (when set), Reply-To (when set), Date and Message-ID is found by no lookup among the code's headers |
| Guarantees.CustomHeadersInOrder | ZapMail/emailer.py:99-101 | one header per dictionary entry, in iteration order, with name and value unchanged |
| Guarantees.HeaderLayout | ZapMail/emailer.py:89-101 | the headers start From, To, Subject; the code's own headers end with Date and Message-ID; the custom headers come last |
| Guarantees.StandardLayout | ZapMail/emailer.py:89-98 | the code sets five to seven headers: From, To and Subject first, Date and Message-ID last |
| Guarantees.CcAmongStandard | ZapMail/emailer.py:93-94 | with a non-empty Cc list, `msg['Cc']` among the code's headers is the `", "`-joined list |
| Guarantees.NoCcAmongStandard | ZapMail/emailer.py:93-94 | with an empty Cc list, no header the code sets is called Cc |
| Guarantees.CcHeaderShown | ZapMail/emailer.py:93-101 | `msg['Cc']` is the joined Cc list when that is non-empty, and otherwise whatever the custom headers say |
| Guarantees.NoBccHeader | ZapMail/emailer.py:89-101 | the code never sets Bcc: `msg['Bcc']` comes from the custom headers or is absent |
| Guarantees.EnvelopeMatchesHeaders | ZapMail/emailer.py:152 | the envelope is the addresses of the To header, then those of the Cc list, then Bcc, with no deduplication |
| Guarantees.BccOnlyInEnvelope | ZapMail/emailer.py:152 | changing Bcc leaves the document untouched and changes only the tail of the envelope |
| Guarantees.BodyFirst | ZapMail/emailer.py:104-108 | the first child is the alternative part: plain text first, and a second HTML child exactly when an HTML body is given |
| Guarantees.AttachmentsSorted | ZapMail/emailer.py:111-127 | the attachment parts are those of the readable paths, in order; the errors name the unreadable paths, in order |
| Guarantees.InlineImagesSorted | ZapMail/emailer.py:130-146 | the image parts are those of the readable entries, in order; the errors name the unreadable paths, in order |
| Guarantees.ChildCount | ZapMail/emailer.py:108-146 | the message has 1 + (readable assets) children and the log has one entry per unreadable asset |
| Guarantees.ReadablePartition | ZapMail/emailer.py:111-127 | every path is either readable or unreadable |
| Wrappers.OksErrsPartition | ZapMail/emailer.py:111-146 | each asset either yields a part or a log entry, never both and never neither |
| Wrappers.OksErrsPrefix | ZapMail/emailer.py:111-146 | one more loop iteration adds its part, or its log entry, at the end |
| Guarantees.AttachmentShape | ZapMail/emailer.py:112-127 | an attachment yields a part exactly when its file is readable. The part carries the file's bytes, the guessed type or application/octet-stream, and `attachment; filename=<basename>`. Otherwise the path is logged. |
| Guarantees.InlineShape | ZapMail/emailer.py:131-146 | an inline image yields a part exactly when its file is readable. The part carries the bytes, the guessed type or image/png, `Content-ID: <cid>` and `inline`. Otherwise the path is logged. |

## Left out

- The SMTP-over-TLS session (`SMTP_SSL`, `login`, `send_message`) is an oracle in `World`. It decides success from the submission: server, port, credentials, document and envelope. Partial acceptance by the server is not modelled. The oracle is consulted only for a non-empty envelope; smtplib's refusal of an empty one is part of `SendEmail` itself.
- ZapMail.Emailer.SendEmail: `ssl.create_default_context()` and both `print` calls are assumed not to raise. In the code, `create_default_context` runs outside the `try`, so an exception from it leaves `send_email` after the asset errors are logged, and nothing is returned. The success `print` runs inside the `try`, so an exception from it, such as an encoding error on the emoji, sends an accepted message down the failure branch. There the failure `print` can raise in turn, and then the exception leaves `send_email` before `logger.error` runs.
- `formatdate` and `make_msgid` are values in `World`, so the uniqueness of Message-IDs across calls is not modelled.
- `mimetypes.guess_type` is an uninterpreted function from path to optional type string.
- File reads are a map from readable paths to their bytes. A read either gives the whole file or fails, and the cause of a failure is not modelled.
- Base64 transfer encoding and wire serialisation are not modelled. The headers the email library adds on its own are not modelled either: Content-Type, MIME-Version and Content-Transfer-Encoding.
- The text of log messages and of printed lines, including exception details, is not modelled. A log entry records its kind and path; a printed line records success with the To value, or failure.
- Header names compare under ASCII lower-casing. Python's full Unicode `lower()` on non-ASCII header names is not modelled.
- Recipient lists whose elements are not strings are not modelled, because the code would raise an exception on them.
- `Logger` and `Console` stand for `logging.getLogger(__name__)` and standard output. In the code, every emailer built without a logger shares the one module-wide logger that `logging.getLogger(__name__)` returns. In the model, each such emailer gets its own new `Logger`, so two default emailers log to separate objects. Sharing appears only when the caller passes the same `Logger` to both.
- build/lib/pyemailer/emailer.py is not part of this model: it is an older build copy. setup.py is not part of it either: it is packaging metadata.
