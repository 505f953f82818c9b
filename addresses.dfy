/**
 * Recipient normalisation: the `normalize` helper of `send_email`, applied to
 * the To, Cc and Bcc arguments. A string, or each string of a list, is split on
 * commas; every fragment is stripped of surrounding whitespace, and blank
 * fragments are dropped. Order and duplicates are kept.
 */
module Addresses {
  import opened Text

  /** A recipient argument: absent (`None`), one string, or a list of strings. */
  datatype AddressField = Absent | One(s: string) | Many(items: seq<string>)

  /** Python falsiness of the argument: `None`, `""` or `[]`. */
  predicate IsFalsy(v: AddressField)
  {
    match v
    case Absent => true
    case One(s) => |s| == 0
    case Many(xs) => |xs| == 0
  }

  /** One normalised address: non-empty, no surrounding whitespace, no comma. */
  predicate WellFormed(a: string)
  {
    a != "" && IsStripped(a) && ',' !in a
  }

  predicate AllWellFormed(xs: seq<string>)
  {
    forall k :: 0 <= k < |xs| ==> WellFormed(xs[k])
  }

  /** What one fragment contributes: its stripped form, or nothing when that is blank. */
  function Kept(f: string): seq<string>
  {
    if Strip(f) == "" then [] else [Strip(f)]
  }

  /** `[f.strip() for f in frags if f.strip()]` */
  function Clean(frags: seq<string>): seq<string>
  {
    if frags == [] then [] else Kept(frags[0]) + Clean(frags[1..])
  }

  /** The addresses one string holds: its comma-separated fragments, stripped, blanks dropped. */
  function SplitAddresses(s: string): seq<string>
  {
    Clean(Split(s, ','))
  }

  /** The addresses of a list, accumulated element after element as the source's loop does. */
  function Flatten(xs: seq<string>): seq<string>
  {
    if xs == [] then [] else Flatten(xs[..|xs| - 1]) + SplitAddresses(xs[|xs| - 1])
  }

  /** The specification of `normalize`. */
  function Normalize(v: AddressField): seq<string>
  {
    if IsFalsy(v) then []
    else match v
      case Absent => []
      case One(s) => SplitAddresses(s)
      case Many(xs) => Flatten(xs)
  }

  /**
   * `normalize(val)`: the falsy test, the comprehension for a single string, and
   * the `result +=` loop over a list.
   */
  method NormalizeAddresses(v: AddressField) returns (r: seq<string>)
    ensures r == Normalize(v)
  {
    NormalizeFalsy(v);
    if IsFalsy(v) {
      return [];
    }
    if v.One? {
      return SplitAddresses(v.s);
    }
    r := FlattenLoop(v.items);
  }

  /** The `result +=` loop of `normalize` over a list argument. */
  method FlattenLoop(xs: seq<string>) returns (r: seq<string>)
    ensures r == Flatten(xs)
  {
    r := [];
    for i := 0 to |xs|
      invariant r == Flatten(xs[..i])
    {
      FlattenStep(xs, i);
      r := r + SplitAddresses(xs[i]);
    }
    assert xs[..|xs|] == xs;
  }

  /** One more element of the list adds its own addresses at the end. */
  lemma FlattenStep(xs: seq<string>, i: nat)
    requires i < |xs|
    ensures Flatten(xs[..i + 1]) == Flatten(xs[..i]) + SplitAddresses(xs[i])
  {
    assert xs[..i + 1][..i] == xs[..i];
  }

  lemma {:induction false} CleanWellFormed(frags: seq<string>)
    requires forall k :: 0 <= k < |frags| ==> ',' !in frags[k]
    ensures AllWellFormed(Clean(frags))
  {
    if frags != [] {
      CleanWellFormed(frags[1..]);
      StripKeeps(frags[0], ',');
      AppendWellFormed(Kept(frags[0]), Clean(frags[1..]));
    }
  }

  lemma {:induction false} CleanAppend(a: seq<string>, b: seq<string>)
    ensures Clean(a + b) == Clean(a) + Clean(b)
  {
    if a == [] {
      assert a + b == b;
    } else {
      assert (a + b)[1..] == a[1..] + b && (a + b)[0] == a[0];
      CleanAppend(a[1..], b);
    }
  }

  lemma AppendWellFormed(xs: seq<string>, ys: seq<string>)
    requires AllWellFormed(xs) && AllWellFormed(ys)
    ensures AllWellFormed(xs + ys)
  {
    forall k | 0 <= k < |xs + ys| ensures WellFormed((xs + ys)[k]) {
      if k < |xs| { assert (xs + ys)[k] == xs[k]; } else { assert (xs + ys)[k] == ys[k - |xs|]; }
    }
  }

  lemma {:induction false} FlattenWellFormed(xs: seq<string>)
    ensures AllWellFormed(Flatten(xs))
  {
    if xs != [] {
      FlattenWellFormed(xs[..|xs| - 1]);
      CleanWellFormed(Split(xs[|xs| - 1], ','));
      AppendWellFormed(Flatten(xs[..|xs| - 1]), SplitAddresses(xs[|xs| - 1]));
    }
  }

  /** Every address `normalize` returns is non-empty, stripped and free of commas. */
  lemma NormalizeWellFormed(v: AddressField)
    ensures AllWellFormed(Normalize(v))
  {
    match v
    case Absent =>
    case One(s) => CleanWellFormed(Split(s, ','));
    case Many(xs) => FlattenWellFormed(xs);
  }

  /** The falsy shortcut agrees with the general path: no addresses come out of `None`, `""` or `[]`. */
  lemma NormalizeFalsy(v: AddressField)
    ensures IsFalsy(v) ==> Normalize(v) == []
    ensures v.One? ==> Normalize(v) == SplitAddresses(v.s)
    ensures v.Many? ==> Normalize(v) == Flatten(v.items)
  {
    BlankHasNoAddresses();
  }

  /** Flattening a concatenation concatenates the flattenings: order and duplicates survive. */
  lemma {:induction false} FlattenAppend(xs: seq<string>, ys: seq<string>)
    ensures Flatten(xs + ys) == Flatten(xs) + Flatten(ys)
  {
    if ys != [] {
      var last := ys[|ys| - 1];
      assert (xs + ys)[..|xs + ys| - 1] == xs + ys[..|ys| - 1];
      FlattenAppend(xs, ys[..|ys| - 1]);
    } else {
      assert xs + ys == xs;
    }
  }

  /** A list normalises to the in-order concatenation of what each element normalises to. */
  lemma NormalizeManyCons(x: string, xs: seq<string>)
    ensures Normalize(Many([x] + xs)) == Normalize(One(x)) + Normalize(Many(xs))
  {
    FlattenAppend([x], xs);
    FlattenSingle(x);
    NormalizeMany([x] + xs);
    NormalizeMany(xs);
    if x == "" {
      BlankHasNoAddresses();
      assert Normalize(One(x)) == [];
    } else {
      assert Normalize(One(x)) == SplitAddresses(x);
    }
  }

  /** A list argument normalises to the addresses of its elements, the empty list included. */
  lemma NormalizeMany(xs: seq<string>)
    ensures Normalize(Many(xs)) == Flatten(xs)
  {
    if xs == [] {
      assert IsFalsy(Many(xs));
    }
  }

  lemma FlattenSingle(s: string)
    ensures Flatten([s]) == SplitAddresses(s)
  {
    assert [s][..0] == [];
  }

  lemma BlankHasNoAddresses()
    ensures SplitAddresses("") == []
  {
    assert Split("", ',') == [""];
    assert Clean([""]) == Kept("") + Clean([]);
  }

  /** A single string normalises the same as the one-element list holding it. */
  lemma NormalizeOneAsMany(s: string)
    ensures Normalize(One(s)) == Normalize(Many([s]))
  {
    FlattenSingle(s);
    assert Normalize(Many([s])) == Flatten([s]);
    if s == "" {
      BlankHasNoAddresses();
    } else {
      assert Normalize(One(s)) == SplitAddresses(s);
    }
  }

  lemma AddressesOfWellFormed(a: string)
    requires WellFormed(a)
    ensures SplitAddresses(a) == [a]
  {
    SplitNoSep(a, ',');
    StripFixed(a);
    assert Clean([a]) == Kept(a) + Clean([]);
  }

  lemma {:induction false} FlattenWellFormedList(xs: seq<string>)
    requires AllWellFormed(xs)
    ensures Flatten(xs) == xs
  {
    if xs != [] {
      var init, last := xs[..|xs| - 1], xs[|xs| - 1];
      assert AllWellFormed(init) by {
        forall k | 0 <= k < |init| ensures WellFormed(init[k]) {
          assert init[k] == xs[k];
        }
      }
      FlattenWellFormedList(init);
      AddressesOfWellFormed(last);
      assert Flatten(xs) == Flatten(init) + SplitAddresses(last);
      assert xs == init + [last];
    }
  }

  /** Normalising an already normalised list changes nothing. */
  lemma NormalizeIdempotent(v: AddressField)
    ensures Normalize(Many(Normalize(v))) == Normalize(v)
  {
    NormalizeWellFormed(v);
    FlattenWellFormedList(Normalize(v));
  }

  /** A comma-separated string holds the addresses of the list of its pieces, in the same order. */
  lemma {:induction false} CommaJoinIsList(xs: seq<string>)
    ensures SplitAddresses(Join(xs, [','])) == Flatten(xs)
  {
    if xs == [] {
      BlankHasNoAddresses();
    } else if |xs| == 1 {
      FlattenSingle(xs[0]);
    } else {
      CommaJoinIsList(xs[1..]);
      var rest := Join(xs[1..], [',']);
      assert Join(xs, [',']) == xs[0] + [','] + rest;
      SplitAddressesAppend(xs[0], rest);
      FlattenCons(xs);
    }
  }

  /** A non-empty list accumulates its head's addresses, then those of its tail. */
  lemma FlattenCons(xs: seq<string>)
    requires xs != []
    ensures Flatten(xs) == SplitAddresses(xs[0]) + Flatten(xs[1..])
  {
    FlattenAppend([xs[0]], xs[1..]);
    FlattenSingle(xs[0]);
    assert [xs[0]] + xs[1..] == xs;
  }

  /** The addresses on either side of a comma are read independently, left side first. */
  lemma SplitAddressesAppend(a: string, b: string)
    ensures SplitAddresses(a + [','] + b) == SplitAddresses(a) + SplitAddresses(b)
  {
    SplitAppend(a, b, ',');
    CleanAppend(Split(a, ','), Split(b, ','));
  }

  /** Passing `"a,b,c"` or `["a", "b", "c"]` to `normalize` gives the same addresses. */
  lemma NormalizeCommaString(xs: seq<string>)
    ensures Normalize(One(Join(xs, [',']))) == Normalize(Many(xs))
  {
    var joined := Join(xs, [',']);
    CommaJoinIsList(xs);
    NormalizeMany(xs);
    NormalizeFalsy(One(joined));
    if joined == "" {
      BlankHasNoAddresses();
    }
  }

  lemma CleanSpaceHead(fs: seq<string>)
    requires |fs| >= 1
    ensures Clean([[' '] + fs[0]] + fs[1..]) == Clean(fs)
  {
    StripLeadingSpace(' ', fs[0]);
  }

  /**
   * The header value `", ".join(addresses)` reads back, through the same
   * normalisation, as exactly the addresses it was made from.
   */
  lemma {:induction false} JoinedRoundTrip(xs: seq<string>)
    requires AllWellFormed(xs)
    ensures SplitAddresses(Join(xs, ", ")) == xs
  {
    if |xs| == 0 {
      BlankHasNoAddresses();
    } else if |xs| == 1 {
      AddressesOfWellFormed(xs[0]);
    } else {
      JoinedRoundTrip(xs[1..]);
      assert Join(xs, ", ") == xs[0] + ", " + Join(xs[1..], ", ");
      AddressThenRest(xs[0], Join(xs[1..], ", "));
      assert [xs[0]] + xs[1..] == xs;
    }
  }

  /** A well-formed address followed by ", " reads back as that address, then whatever follows. */
  lemma AddressThenRest(a: string, j: string)
    requires WellFormed(a)
    ensures SplitAddresses(a + ", " + j) == [a] + SplitAddresses(j)
  {
    assert a + ", " + j == a + [','] + ([' '] + j);
    SplitAppend(a, [' '] + j, ',');
    SplitNoSep(a, ',');
    var rest := Split(j, ',');
    assert ([' '] + j)[1..] == j;
    assert Split([' '] + j, ',') == [[' '] + rest[0]] + rest[1..];
    CleanSpaceHead(rest);
    CleanAppend([a], Split([' '] + j, ','));
    StripFixed(a);
    assert Clean([a]) == Kept(a) + Clean([]);
  }
}
