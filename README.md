# Document & arXiv Q&A agent: query router and loop

This project models the query side of a small retrieval question-answering
agent (`main.py`). After setup, the agent reads console lines one at a time and
routes each one:

- the word `exit`, in any letter case, ends the session;
- a line that starts with `arxiv`, in any case, is an arXiv search for the
  rest of the line, stripped of surrounding whitespace. If nothing is left,
  the agent asks for a search term instead of searching;
- every other line is a question for the document QA chain.

Each answer is printed. An `Exception` raised while handling a line is printed
as an error, and the loop goes on.

The model has three modules:

- `Text` (`text.dfy`) models the Python string operations the router uses:
  - `str.lower()` as `Lower`, restricted to ASCII letters;
  - `str.isspace()` of one character as `IsSpace`, using CPython's whitespace set;
  - `str.startswith` as `StartsWith`;
  - `str.strip()` with no argument as `Strip`, with its defining property
    (`StripUnique`).
- `Router` (`router.dfy`) holds the pure classifier `Route(line)` and its four
  intents `Exit`, `ArxivEmpty`, `Arxiv(term)` and `Local(query)`, plus lemmas
  for each branch, case insensitivity, term recovery and the routing examples.
- `Agent` (`agent.dfy`) holds the loop and the setup guards:
  - `InteractiveLoop` is the `while True` loop as a method over a finite
    sequence of input lines. It is proved equal to the recursive
    specification `Run`, applied to the intents of the lines (`Intents(lines)`).
  - `RunAgent` is `main()`: the API-key guard, the embedding-model load, the
    index guard, the index and component loads, then the loop.
  - The lemmas about `Run` cover these properties:
    - which lines reach which capability;
    - that the arXiv tool never gets a blank term;
    - that errors never end the session;
    - that nothing after the exit word is read;
    - that the replies of the capabilities never steer the loop.

The document QA chain and the arXiv tool are parameters `string -> Reply`. A
reply is either a text (`Ok`) or the message of the exception the call raised
(`Failed`). Console output is the list of `Output`s the loop produces.
`Printed` gives the text each `print` writes, without its trailing newline.

Two consequences of the tests in main.py:

- The arXiv test is applied to the lower-cased line (main.py:61). So `ARXIV x`
  and `arxivfoo` are arXiv searches, with the terms `x` and `foo`.
- The exit test is an exact match with no trimming (main.py:56). So ` exit`
  and `exit ` are document questions.

## Model

| member | source | states |
|---|---|---|
| Text.IsSpace | main.py:64 | the code points CPython's `str.isspace()` accepts, which `strip()` removes; it is the whitespace of every `Strip` clause below |
| Text.StartsWith | main.py:61 | `s.startswith(prefix)`: the prefix fits in `s` and equals its front; `RouteBranches` states the arXiv test with it |
| Text.Lower | main.py:56 | lower-casing keeps the length and maps each character by itself (ASCII letters only) |
| Text.LeadingSpaces | main.py:64 | counts exactly the whitespace run at the front: all counted characters are whitespace, the next one is not |
| Text.TrailingSpaces | main.py:64 | counts exactly the whitespace run at the back: all counted characters are whitespace, the one before is not |
| Text.Strip | main.py:64 | `strip()` yields a contiguous piece of the input with no whitespace at either end, only whitespace around it, and is empty exactly when the input is all whitespace |
| Text.StripUnique | main.py:64 | whitespace + core + whitespace strips to exactly the core whenever the core has no whitespace at its ends: `strip` is determined by its contract |
| Text.StripIdempotent | main.py:64 | stripping twice is stripping once |
| Text.LowerKeepsBlankness | main.py:61-65 | lower-casing never changes whether the text after the prefix is blank, so the empty-term test does not depend on case |
| Router.Route | main.py:56-73 | the classifier of one line; it carries no contract of its own, and its meaning is stated by `RouteBranches` (both directions of each branch), `ArxivTermShape` and `ArxivTermRecovered` (the term), and `ArxivBlankTerm` with `ArxivBlankTermOnlyIf` (the blank term) |
| Router.RouteBranches | main.py:56-73 | a line exits iff its lower-cased form is `exit`; it takes the arXiv branch iff its lower-cased form starts with `arxiv`; it goes to the documents iff neither |
| Router.RouteIgnoresCase | main.py:56-65 | two lines with the same lower-cased form take the same branch |
| Router.RouteToDocuments | main.py:69-73 | a line that is neither the exit word nor an arXiv request goes to the documents unmodified |
| Router.LocalKeepsLine | main.py:72 | the query given to the document chain is always the whole line |
| Router.ExitInAnyCase | main.py:56-58 | the exit word in any letter case is an exit |
| Router.PaddedExitIsLocal | main.py:56-73 | the exit word with whitespace on either side is not an exit but a whole-line document question |
| Router.ArxivTermRecovered | main.py:61-68 | prefix in any case + whitespace + term + whitespace yields exactly that term, in its original case |
| Router.ArxivTermNonBlank | main.py:64-68 | a search term is never empty and never begins or ends with whitespace |
| Router.ArxivTermShape | main.py:64 | the search term is the original line without its first five characters, stripped |
| Router.ArxivBlankTerm | main.py:61-66 | the prefix in any case followed only by whitespace asks for a term |
| Router.ArxivBlankTermOnlyIf | main.py:61-66 | conversely, a line that asks for a term is the prefix in some case followed only by whitespace |
| Router.ExitExamples | main.py:56-58 | `EXIT` and `Exit` exit; ` exit` and `exit ` are document questions |
| Router.ArxivSearchExample | main.py:61-68 | `arxiv quantum computing` searches for `quantum computing` |
| Router.ArxivUpperCaseExample | main.py:61-68 | `ARXIV x` searches for `x` |
| Router.ArxivGluedExample | main.py:61-68 | `arxivfoo` searches for `foo` |
| Router.ArxivBlankExample | main.py:64-66 | `arxiv` and `arxiv   ` ask for a term |
| Router.LocalExample | main.py:69-73 | `What is the refund policy?` goes to the documents unchanged |
| Agent.Respond | main.py:56-73 | read backwards: the farewell answers exactly the exit word, the term prompt exactly a blank search, and an answer or error report is exactly the reply of the capability the line was routed to |
| Agent.Printed | main.py:57-78 | the console text of each output (the farewell, `[Agent]: ` with the response, or the error line), without `print`'s trailing newline; its properties are stated by `PrintedForms` |
| Agent.PrintedForms | main.py:66-78 | the term prompt is printed as an agent response with the fixed text, and an error line never reads as an agent response |
| Agent.Run | main.py:53-78 | a session reads at most all its lines, answers each line it reads, and reads every line unless it exits |
| Agent.InteractiveLoop | main.py:53-78 | the loop, routing each line as it reads it, produces exactly the session `Run(Intents(lines))` |
| Agent.RunAnswersEachLine | main.py:56-75 | the j-th output answers the j-th line: farewell, term prompt, or the capability's text or error |
| Agent.RunCallsAreRequests | main.py:61-73 | the calls made are exactly those the lines read ask for, in input order, each once |
| Agent.RepliesDoNotSteer | main.py:54-78 | what the capabilities reply, failures included, changes neither how many lines are read, nor whether the session exits, nor which calls are made |
| Agent.NothingAfterExit | main.py:56-58 | after the exit word, any further input leaves the session unchanged |
| Agent.ExitIsLastLineRead | main.py:53-58 | a line read is the exit word iff the session exited and it is the last line read |
| Agent.ExitEndsSession | main.py:56-58 | the first exit line is the last one read, gets the farewell, and the session equals the one over the input cut after it |
| Agent.OnlyExitEndsSession | main.py:53-78 | a line that is not the exit word is always followed by reading the next line, if there is one |
| Agent.ErrorDoesNotEndSession | main.py:77-78 | a line answered with an error report is followed by reading the next line, if there is one |
| Agent.CallsComeFromIntents | main.py:61-73 | every search and every question asked of a capability comes from a routed input line |
| Agent.SearchTermsAreNeverBlank | main.py:64-68 | the arXiv tool is only ever called with a non-empty term with no whitespace at either end |
| Agent.DocumentQueriesAreWholeLines | main.py:69-73 | the document chain is only ever asked whole input lines that route to it |
| Agent.FailureThenExit | main.py:53-78 | a failing question followed by `exit` in any case prints the error, then the farewell, and never reads the third line |
| Agent.RunAgent | main.py:12-45 | setup stops, in this order, on an unset or empty key, a failed embedding-model load, a missing index directory, or a failed index/LLM/chain/tool load; the loop runs exactly when every step succeeds and then produces `Run(Intents(lines))` |

## Left out

- `ingest.py` is not part of this model. It only chains filesystem calls, a
  PDF loader, a text splitter, an embedding model and a vector index, none of
  whose code is available. As written, it deletes any existing index
  (ingest.py:19-21) before it checks for empty input (ingest.py:26-28). So
  empty input leaves no index at all, not an unchanged one.
- The setup internals are foreign calls and are not modelled: loading `.env`,
  the embedding model, the vector store, the language model, the QA chain and
  the arXiv tool. Only their outcome enters the model: whether the key is
  set, whether each load succeeds, whether the index path exists, and the
  two capabilities as parameters.
- Capability determinism: the two capabilities are functions, so within one
  session the same question always gets the same reply or the same failure.
  The real chain calls a remote language model at a non-zero temperature and
  both capabilities go over the network, so repeated questions can get
  different replies. No lemma here depends on that: `RepliesDoNotSteer`
  holds for any two pairs of capabilities.
- Interrupts: the `except` at main.py:77 catches only `Exception`. A
  `KeyboardInterrupt` (Ctrl-C, also the only way out of a hung call) or any
  other `BaseException` ends the program with a traceback. The model has
  only replies that succeed or fail with an `Exception`.
- The progress banners (main.py:20, 27, 32, 47-50, 62, 70) and the input
  prompt are cosmetic and are not part of `Output`.
- End of input: in the program, `EOFError` from `input()` is caught by the
  `except` and the loop spins forever. The model reads a finite sequence and
  stops when it is exhausted. It does not claim the program ends on end of
  input.
- Text.Lower: only the ASCII letters are lower-cased. Full Unicode lower-casing
  can change a string's length, which would shift the five-character slice
  against the lower-cased prefix test.
- Capability failures: any exception raised while handling a line is one `Failed`
  reply of the capability. This includes the chain's answer lacking a
  `result` field, and the capability's text is taken to be that field.
  Exception types and messages beyond their text are not modelled.
- The exception-to-text conversion (`{e}`) is part of the capability's
  `Failed` reply and not modelled separately.
- Floating point settings (the temperature, embedding normalisation) and the
  model names do not affect routing and are left out.
