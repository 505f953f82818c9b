/**
 * The MIME document the send pathway builds: headers, leaf parts and multipart
 * containers, the `msg[name]` lookup, and the MIME-type resolution that turns a
 * guessed type string into a (main type, subtype) pair.
 */
module Mime {
  import opened Wrappers
  import opened Text

  newtype byte = x: int | 0 <= x < 256

  /** One header line: `name: value`. */
  datatype Header = Header(name: string, value: string)

  /**
   * The payload of a leaf part: the text of a `MIMEText`, or the raw bytes read
   * from a file for a `MIMEBase` part (its base64 transfer encoding is not modelled).
   */
  datatype Payload = TextBody(body: string) | FileBytes(data: seq<byte>)

  /**
   * A MIME part. A leaf carries its content type, its payload and the headers the
   * code adds to it; a multipart container carries its subtype ("related",
   * "alternative"), its headers and its children in attachment order.
   */
  datatype Part =
    | Leaf(mainType: string, subType: string, payload: Payload, headers: seq<Header>)
    | Multipart(subType: string, headers: seq<Header>, children: seq<Part>)

  /** The position of the first header called `name` (ignoring ASCII case), or `|headers|` if there is none. */
  function FirstIndex(headers: seq<Header>, name: string): (k: nat)
    ensures k <= |headers|
    ensures k < |headers| ==> SameName(headers[k].name, name)
    ensures forall j :: 0 <= j < k ==> !SameName(headers[j].name, name)
  {
    if headers == [] then 0
    else if SameName(headers[0].name, name) then 0
    else 1 + FirstIndex(headers[1..], name)
  }

  /** `msg[name]`: the value of the first header called `name`, or None. */
  function Lookup(headers: seq<Header>, name: string): Option<string>
  {
    var k := FirstIndex(headers, name);
    if k < |headers| then Some(headers[k].value) else None
  }

  /** Headers added after a matching one never change what a lookup returns. */
  lemma {:induction false} LookupPrefix(headers: seq<Header>, more: seq<Header>, name: string)
    requires FirstIndex(headers, name) < |headers|
    ensures FirstIndex(headers + more, name) == FirstIndex(headers, name)
    ensures Lookup(headers + more, name) == Lookup(headers, name)
  {
    assert (headers + more)[0] == headers[0];
    if !SameName(headers[0].name, name) {
      assert (headers + more)[1..] == headers[1..] + more;
      LookupPrefix(headers[1..], more, name);
    }
  }

  /** When no header of `headers` matches, a lookup in `headers + more` falls through to `more`. */
  lemma {:induction false} LookupSkip(headers: seq<Header>, more: seq<Header>, name: string)
    requires FirstIndex(headers, name) == |headers|
    ensures FirstIndex(headers + more, name) == |headers| + FirstIndex(more, name)
    ensures Lookup(headers + more, name) == Lookup(more, name)
  {
    if headers == [] {
      assert headers + more == more;
    } else {
      var joined := headers + more;
      assert joined[0] == headers[0];
      assert !SameName(headers[0].name, name);
      assert FirstIndex(headers[1..], name) == |headers| - 1;
      assert joined[1..] == headers[1..] + more;
      LookupSkip(headers[1..], more, name);
      assert FirstIndex(joined, name) == 1 + FirstIndex(joined[1..], name);
      var k := FirstIndex(more, name);
      if k < |more| {
        assert joined[|headers| + k] == more[k];
      }
    }
  }

  /** A guessed type is used when it holds exactly one '/', as `split("/")` giving two pieces demands. */
  predicate UsesGuess(guess: Option<string>)
  {
    guess.Some? && Count(guess.value, '/') == 1
  }

  /**
   * The `(main_type, sub_type)` the code settles on: the two halves of the guessed
   * type when `split("/")` yields exactly two pieces, the fallback otherwise
   * (no guess, an empty guess, or a guess with no '/' or several).
   */
  function ResolveType(guess: Option<string>, fallback: (string, string)): (r: (string, string))
    ensures UsesGuess(guess) ==> r.0 + "/" + r.1 == guess.value && '/' !in r.0 && '/' !in r.1
    ensures !UsesGuess(guess) ==> r == fallback
  {
    if guess.Some? && guess.value != "" then
      var pieces := Split(guess.value, '/');
      SplitLength(guess.value, '/');
      if |pieces| == 2 then
        JoinSplit(guess.value, '/');
        assert Join(pieces, "/") == pieces[0] + "/" + Join(pieces[1..], "/");
        (pieces[0], pieces[1])
      else fallback
    else fallback
  }

  /**
   * A multipart container under construction (`MIMEMultipart(subtype)`): headers
   * and children are appended one at a time.
   */
  class Message {
    const subType: string
    var headers: seq<Header>
    var parts: seq<Part>

    constructor (subType: string)
      ensures this.subType == subType && headers == [] && parts == []
    {
      this.subType := subType;
      headers := [];
      parts := [];
    }

    /** `msg[name] = value`: appends a header; an existing one of that name is kept, not replaced. */
    method SetItem(name: string, value: string)
      modifies this
      ensures headers == old(headers) + [Header(name, value)]
      ensures parts == old(parts)
    {
      headers := headers + [Header(name, value)];
    }

    /** `msg.attach(part)`: appends a child. */
    method Attach(part: Part)
      modifies this
      ensures parts == old(parts) + [part]
      ensures headers == old(headers)
    {
      parts := parts + [part];
    }

    /** The finished document as a value. */
    function AsPart(): Part
      reads this
    {
      Multipart(subType, headers, parts)
    }
  }
}
