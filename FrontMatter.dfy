/**
  The front-matter split of `parseLesson`: a document that starts with `---`
  is cut by `strings.SplitN(text, "---", 3)` into an empty part, the metadata
  and the rest, which becomes the body once trimmed.
 */
module FrontMatter {
  import opened Wrappers
  import opened Text

  const Delimiter: string := "---"

  /** `sep` does not start anywhere in `s`. */
  predicate NoOccurrence(s: string, sep: string)
  {
    forall j :: 0 <= j < |s| ==> !OccursAt(s, sep, j)
  }

  /**
    In `part + sep` the first occurrence of `sep` is the appended one: this is
    what a part that `SplitN` cut off in front of a separator satisfies.
   */
  predicate EndsAtFirstSeparator(part: string, sep: string)
  {
    forall j :: 0 <= j < |part| ==> !OccursAt(part + sep, sep, j)
  }

  /** The inverse of splitting: the parts with `sep` between each two. */
  function Join(parts: seq<string>, sep: string): string
    decreases |parts|
  {
    if parts == [] then ""
    else if |parts| == 1 then parts[0]
    else parts[0] + sep + Join(parts[1..], sep)
  }

  /**
    `strings.SplitN(s, sep, n)` for a non-empty separator and `n > 0`: at most
    `n` parts, cut at the leftmost occurrences of `sep`, the last part holding
    the unsplit rest.
   */
  function SplitN(s: string, sep: string, n: nat): (parts: seq<string>)
    requires |sep| > 0 && n > 0
    ensures 1 <= |parts| <= n
    ensures Join(parts, sep) == s
    ensures forall k :: 0 <= k < |parts| - 1 ==> EndsAtFirstSeparator(parts[k], sep)
    ensures |parts| < n ==> NoOccurrence(parts[|parts| - 1], sep)
    decreases n
  {
    if n == 1 then [s]
    else match IndexOf(s, sep)
      case None => [s]
      case Some(i) =>
        var rest := SplitN(s[i + |sep|..], sep, n - 1);
        FirstSeparator(s, sep, i);
        assert s == s[..i] + sep + s[i + |sep|..];
        assert ([s[..i]] + rest)[1..] == rest;
        [s[..i]] + rest
  }

  /** The part in front of the first occurrence ends at it. */
  lemma FirstSeparator(s: string, sep: string, i: nat)
    requires OccursAt(s, sep, i) && forall j :: 0 <= j < i ==> !OccursAt(s, sep, j)
    ensures EndsAtFirstSeparator(s[..i], sep)
  {
    var pre := s[..i] + sep;
    assert pre == s[..i + |sep|];
    forall j | 0 <= j < i ensures !OccursAt(pre, sep, j) {
      assert !OccursAt(s, sep, j);
      if j + |sep| <= |pre| {
        assert pre[j..j + |sep|] == s[j..j + |sep|];
      }
    }
  }

  /**
    The split a document gets in `parseLesson`: metadata text and raw body
    when the document starts with `---` and `SplitN` yields three parts.
   */
  function SplitFrontMatter(text: string): (r: Option<(string, string)>)
    ensures r.Some? ==> text == Delimiter + r.value.0 + Delimiter + r.value.1
    ensures r.Some? ==> EndsAtFirstSeparator(r.value.0, Delimiter)
    ensures r.None? <==> !HasPrefix(text, Delimiter) || NoOccurrence(text[|Delimiter|..], Delimiter)
  {
    if !HasPrefix(text, Delimiter) then None
    else
      var parts := SplitN(text, Delimiter, 3);
      ThreeParts(text);
      if |parts| >= 3 then Some((parts[1], parts[2])) else None
  }

  /**
    After the opening `---`, `SplitN` finds a third part exactly when
    another `---` follows, and the parts then rebuild the text.
   */
  lemma ThreeParts(text: string)
    requires HasPrefix(text, Delimiter)
    ensures var parts := SplitN(text, Delimiter, 3);
            (|parts| >= 3 <==> !NoOccurrence(text[|Delimiter|..], Delimiter)) &&
            (|parts| >= 3 ==> text == Delimiter + parts[1] + Delimiter + parts[2] &&
                              EndsAtFirstSeparator(parts[1], Delimiter))
  {
    var parts := SplitN(text, Delimiter, 3);
    FirstPartEmpty(text, parts);
    var rest := text[|Delimiter|..];
    assert text == Delimiter + rest;
    if |parts| >= 3 {
      assert Join(parts[1..], Delimiter) == parts[1] + Delimiter + parts[2];
      assert rest == parts[1] + Delimiter + parts[2];
      assert rest[|parts[1]|..|parts[1]| + |Delimiter|] == Delimiter;
      assert OccursAt(rest, Delimiter, |parts[1]|);
    } else {
      assert parts[1..] == [rest];
    }
  }

  /** Splitting a text that opens with the separator cuts first right there. */
  lemma FirstPartEmpty(text: string, parts: seq<string>)
    requires HasPrefix(text, Delimiter) && parts == SplitN(text, Delimiter, 3)
    ensures |parts| >= 2 && parts[0] == []
    ensures parts[1..] == SplitN(text[|Delimiter|..], Delimiter, 2)
  {
    assert OccursAt(text, Delimiter, 0);
    assert IndexOf(text, Delimiter) == Some(0);
  }

  /**
    A document built as `---`, metadata, `---`, body splits back into that
    metadata and body, as long as the metadata does not itself end the
    front matter early.
   */
  lemma SplitFrontMatterRoundTrip(metadata: string, body: string)
    requires EndsAtFirstSeparator(metadata, Delimiter)
    ensures SplitFrontMatter(Delimiter + metadata + Delimiter + body) == Some((metadata, body))
  {
    var text := Delimiter + metadata + Delimiter + body;
    var rest := text[|Delimiter|..];
    assert rest == metadata + Delimiter + body;
    assert OccursAt(rest, Delimiter, |metadata|);
    forall j | 0 <= j < |metadata| ensures !OccursAt(rest, Delimiter, j) {
      assert (metadata + Delimiter)[j..] == rest[j..|metadata| + 3];
      assert !OccursAt(metadata + Delimiter, Delimiter, j);
      if j + 3 <= |rest| {
        assert rest[j..j + 3] == (metadata + Delimiter)[j..j + 3];
      }
    }
    var r := SplitFrontMatter(text);
    assert !NoOccurrence(rest, Delimiter);
    assert r.Some?;
    SplitUnique(r.value.0, r.value.1, metadata, body);
  }

  /** `text` is `---m---b` with `m` running up to the first closing `---`. */
  predicate FrontMatterParts(text: string, m: string, b: string)
  {
    text == Delimiter + m + Delimiter + b && EndsAtFirstSeparator(m, Delimiter)
  }

  /** Parts of that shape are the ones the split finds. */
  lemma SplitOfParts(text: string)
    ensures forall m, b :: FrontMatterParts(text, m, b) ==> SplitFrontMatter(text) == Some((m, b))
  {
    forall m, b | FrontMatterParts(text, m, b) ensures SplitFrontMatter(text) == Some((m, b)) {
      SplitFrontMatterRoundTrip(m, b);
    }
  }

  /** Two front-matter layouts of one document that both end at the first separator agree. */
  lemma SplitUnique(m1: string, b1: string, m2: string, b2: string)
    requires Delimiter + m1 + Delimiter + b1 == Delimiter + m2 + Delimiter + b2
    requires EndsAtFirstSeparator(m1, Delimiter) && EndsAtFirstSeparator(m2, Delimiter)
    ensures m1 == m2 && b1 == b2
  {
    var rest := m1 + Delimiter + b1;
    assert rest == (Delimiter + m1 + Delimiter + b1)[3..];
    assert rest == m2 + Delimiter + b2 by {
      assert (Delimiter + m2 + Delimiter + b2)[3..] == m2 + Delimiter + b2;
    }
    if |m1| < |m2| {
      assert rest[|m1|..|m1| + 3] == Delimiter;
      assert (m2 + Delimiter)[|m1|..|m1| + 3] == rest[|m1|..|m1| + 3];
      assert OccursAt(m2 + Delimiter, Delimiter, |m1|);
    } else if |m2| < |m1| {
      assert rest[|m2|..|m2| + 3] == Delimiter;
      assert (m1 + Delimiter)[|m2|..|m2| + 3] == rest[|m2|..|m2| + 3];
      assert OccursAt(m1 + Delimiter, Delimiter, |m2|);
    }
    assert m1 == rest[..|m1|] && m2 == rest[..|m2|];
    assert b1 == rest[|m1| + 3..] && b2 == rest[|m2| + 3..];
  }

  /** A document that does not start with `---` has no front matter. */
  lemma NoFrontMatterWithoutPrefix(text: string)
    requires !HasPrefix(text, Delimiter)
    ensures SplitFrontMatter(text) == None
  {
  }
}
