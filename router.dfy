/** The routing decision of the query loop (main.py): every raw input line is
    classified into one intent before anything is done with it. */
module Router {
  import opened Text

  /** The word that ends the session, compared with the lower-cased line. */
  const EXIT_COMMAND := "exit"

  /** The prefix that sends a line to the arXiv tool instead of the documents. */
  const ARXIV_PREFIX := "arxiv"

  /** The four things a line can ask for. */
  datatype Intent =
    | Exit                    // leave the loop
    | ArxivEmpty              // the arXiv prefix with nothing but whitespace after it
    | Arxiv(term: string)     // an arXiv search for `term`
    | Local(query: string)    // a question for the document QA chain

  /** Classifies one input line. The exit test is an exact match on the
      lower-cased line; the arXiv test is a prefix test on it; the search term
      is the ORIGINAL line after its first five characters, stripped. */
  function Route(line: string): Intent
  {
    var lowered := Lower(line);
    if lowered == EXIT_COMMAND then Exit
    else if StartsWith(lowered, ARXIV_PREFIX) then
      var term := Strip(line[|ARXIV_PREFIX|..]);
      if term == [] then ArxivEmpty else Arxiv(term)
    else Local(line)
  }

  /** Both directions of the branch choice, stated on the lower-cased line. */
  lemma RouteBranches(line: string)
    ensures Route(line) == Exit <==> Lower(line) == EXIT_COMMAND
    ensures Route(line).Arxiv? || Route(line) == ArxivEmpty <==> StartsWith(Lower(line), ARXIV_PREFIX)
    ensures Route(line).Local? <==>
      Lower(line) != EXIT_COMMAND && !StartsWith(Lower(line), ARXIV_PREFIX)
  {
    if StartsWith(Lower(line), ARXIV_PREFIX) {
      assert Lower(line)[0] == 'a';
      assert Lower(line) != EXIT_COMMAND;
    }
  }

  /** Which branch a line takes depends only on its lower-cased form: changing
      the case of any letter never moves a line to another branch. */
  lemma RouteIgnoresCase(a: string, b: string)
    requires Lower(a) == Lower(b)
    ensures Route(a) == Exit <==> Route(b) == Exit
    ensures Route(a) == ArxivEmpty <==> Route(b) == ArxivEmpty
    ensures Route(a).Arxiv? <==> Route(b).Arxiv?
    ensures Route(a).Local? <==> Route(b).Local?
  {
    var n := |ARXIV_PREFIX|;
    if |a| >= n {
      LowerSlice(a, n);
      LowerSlice(b, n);
      LowerKeepsBlankness(a[n..]);
      LowerKeepsBlankness(b[n..]);
    }
  }

  /** Every line that is neither the exit word nor an arXiv request is a
      question for the documents, passed on unmodified. */
  lemma RouteToDocuments(line: string)
    requires Lower(line) != EXIT_COMMAND && !StartsWith(Lower(line), ARXIV_PREFIX)
    ensures Route(line) == Local(line)
  {
  }

  /** A line routed to the document chain is passed on whole. */
  lemma LocalKeepsLine(line: string)
    ensures Route(line).Local? ==> Route(line) == Local(line)
  {
  }

  /** The exit word, in any letter case, ends the session. */
  lemma ExitInAnyCase(word: string)
    requires Lower(word) == EXIT_COMMAND
    ensures Route(word) == Exit
  {
  }

  /** The exit test does not trim: the exit word with whitespace on either
      side is an ordinary question, passed whole to the documents. */
  lemma PaddedExitIsLocal(pre: string, word: string, post: string)
    requires Lower(word) == EXIT_COMMAND
    requires AllSpace(pre) && AllSpace(post) && |pre| + |post| > 0
    ensures Route(pre + word + post) == Local(pre + word + post)
  {
    var line := pre + word + post;
    assert |Lower(line)| != |EXIT_COMMAND|;
    var c := if pre == [] then word[0] else pre[0];
    assert line[0] == c;
    assert Lower(line)[0] != 'a' by {
      if pre == [] { assert LowerChar(word[0]) == Lower(word)[0] == 'e'; }
    }
    RouteToDocuments(line);
  }

  /** The search term is recovered exactly, in its original case, from the
      prefix in any case followed by the term with any whitespace around it. */
  lemma ArxivTermRecovered(prefix: string, pre: string, term: string, post: string)
    requires Lower(prefix) == ARXIV_PREFIX
    requires AllSpace(pre) && AllSpace(post)
    requires term != [] && !IsSpace(term[0]) && !IsSpace(term[|term| - 1])
    ensures Route(prefix + pre + term + post) == Arxiv(term)
  {
    var line := prefix + pre + term + post;
    var rest := pre + term + post;
    assert line == prefix + rest;
    LowerAppend(prefix, rest);
    assert Lower(line)[..5] == ARXIV_PREFIX;
    assert line[5..] == rest;
    StripUnique(pre, term, post);
  }

  /** The search term is never empty and never begins or ends with
      whitespace. */
  lemma ArxivTermNonBlank(line: string)
    requires Route(line).Arxiv?
    ensures var t := Route(line).term;
      t != [] && !IsSpace(t[0]) && !IsSpace(t[|t| - 1])
  {
    assert Route(line) == Arxiv(Strip(line[|ARXIV_PREFIX|..]));
  }

  /** The search term is what is left of the line after the five prefix
      characters, stripped: by `Strip`'s contract, a verbatim piece of the
      line in its original case, with only whitespace around it. */
  lemma ArxivTermShape(line: string, term: string)
    requires Route(line) == Arxiv(term)
    ensures |ARXIV_PREFIX| <= |line| && term == Strip(line[|ARXIV_PREFIX|..])
  {
  }

  /** The prefix followed only by whitespace (or nothing) asks for a search
      term instead of searching. */
  lemma ArxivBlankTerm(prefix: string, pad: string)
    requires Lower(prefix) == ARXIV_PREFIX
    requires AllSpace(pad)
    ensures Route(prefix + pad) == ArxivEmpty
  {
    var line := prefix + pad;
    LowerAppend(prefix, pad);
    assert Lower(line)[..5] == ARXIV_PREFIX;
    assert line[5..] == pad;
  }

  /** Conversely, a line that asks for a term is the prefix in some case
      followed only by whitespace. */
  lemma ArxivBlankTermOnlyIf(line: string)
    requires Route(line) == ArxivEmpty
    ensures |ARXIV_PREFIX| <= |line| && Lower(line[..|ARXIV_PREFIX|]) == ARXIV_PREFIX
    ensures AllSpace(line[|ARXIV_PREFIX|..])
  {
    LowerSlice(line, |ARXIV_PREFIX|);
  }

  /** Exit examples: any letter case exits, surrounding whitespace does not. */
  lemma ExitExamples()
    ensures Route("EXIT") == Exit && Route("Exit") == Exit
    ensures Route(" exit") == Local(" exit") && Route("exit ") == Local("exit ")
  {
    ExitInAnyCase("EXIT");
    ExitInAnyCase("Exit");
    assert " exit" == " " + "exit" + "";
    PaddedExitIsLocal(" ", "exit", "");
    assert "exit " == "" + "exit" + " ";
    PaddedExitIsLocal("", "exit", " ");
  }

  /** A term after the prefix and a space is searched for as it is. */
  lemma ArxivSearchExample()
    ensures Route("arxiv quantum computing") == Arxiv("quantum computing")
  {
    assert "arxiv quantum computing" == "arxiv" + " " + "quantum computing" + "";
    ArxivTermRecovered("arxiv", " ", "quantum computing", "");
  }

  /** The prefix is recognised in any case; the term keeps its own. */
  lemma ArxivUpperCaseExample()
    ensures Route("ARXIV x") == Arxiv("x")
  {
    assert "ARXIV x" == "ARXIV" + " " + "x" + "";
    ArxivTermRecovered("ARXIV", " ", "x", "");
  }

  /** No space is needed after the prefix: the rest of the word is the term. */
  lemma ArxivGluedExample()
    ensures Route("arxivfoo") == Arxiv("foo")
  {
    assert "arxivfoo" == "arxiv" + "" + "foo" + "";
    ArxivTermRecovered("arxiv", "", "foo", "");
  }

  /** The bare prefix, with or without trailing blanks, has an empty term. */
  lemma ArxivBlankExample()
    ensures Route("arxiv") == ArxivEmpty && Route("arxiv   ") == ArxivEmpty
  {
    assert "arxiv" == "arxiv" + "";
    ArxivBlankTerm("arxiv", "");
    assert "arxiv   " == "arxiv" + "   ";
    ArxivBlankTerm("arxiv", "   ");
  }

  /** A plain question goes to the documents unchanged. */
  lemma LocalExample()
    ensures Route("What is the refund policy?") == Local("What is the refund policy?")
  {
    var q := "What is the refund policy?";
    assert Lower(q)[0] == LowerChar('W') == 'w';
    RouteToDocuments(q);
  }
}
