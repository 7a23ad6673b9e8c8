/** The identifier normalization applied to voucher and token numbers:
    `String(raw).trim().split(/[\s\r\n]+/)[0]`. */
module Identifier {
  import opened Text

  function NormalizeId(raw: string): string {
    FirstToken(Trim(raw))
  }

  /** The normalized identifier is the first white-space delimited token of
      the trimmed text: free of white space, a prefix of the trimmed text that
      ends at its end or at white space, and empty exactly when the text is
      all white space. */
  lemma NormalizeIdIsFirstToken(raw: string)
    ensures var r := NormalizeId(raw);
      && NoSpace(r) && IsTrimmed(r)
      && |r| <= |Trim(raw)| && r == Trim(raw)[..|r|]
      && (|r| == |Trim(raw)| || IsSpace(Trim(raw)[|r|]))
      && (r == "" <==> AllSpace(raw))
  {
    TrimSpec(raw);
  }

  /** A normalized identifier is its own normal form. */
  lemma NormalizeIdIdempotent(raw: string)
    ensures NormalizeId(NormalizeId(raw)) == NormalizeId(raw)
  {
    var r := NormalizeId(raw);
    NormalizeIdIsFirstToken(raw);
    TrimSpec(r);
  }

  /** Surrounding blanks and a trailing line break are dropped. */
  lemma NormalizeIdTrimsExample()
    ensures NormalizeId(" V1234 \n") == "V1234"
    ensures NormalizeId("") == ""
  {
    assert SkipSpaces(" V1234 \n", 0) == 1;
    assert TrailingStart(" V1234 \n", 8) == 6;
    assert Trim(" V1234 \n") == "V1234";
  }

  /** Only the first white-space delimited token is kept. */
  lemma NormalizeIdFirstTokenExample()
    ensures NormalizeId("V12 34") == "V12"
  {
    assert Trim("V12 34") == "V12 34";
    assert FirstToken("V12 34") == "V12";
  }
}
