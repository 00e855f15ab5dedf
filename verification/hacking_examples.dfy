/** Worked cases of the single-quote check. */
module HackingExamples {
  import opened Wrappers
  import opened HackingChecks

  /** Single quotes in code are reported at the first one. */
  lemma QuoteInCode()
    ensures Scan("x = 'a'") == Some(4)
  {
  }

  /** Inside a `"..."` string they are not. */
  lemma QuoteInString()
    ensures Scan("x = \"it's\"") == None
  {
  }

  /** A backslash-escaped `"` does not close the string. */
  lemma QuoteAfterEscape()
    ensures Scan("s = \"\\\"'\"") == None
  {
  }

  /** Nothing after a comment counts. */
  lemma QuoteInComment()
    ensures Scan("x = 1  # it's") == None
  {
  }

  /** A `"""` region is skipped; the quote after it is found. */
  lemma QuoteAfterTriple()
    ensures Scan("\"\"\"it's\"\"\" + 'b'") == Some(13)
  {
  }
}
