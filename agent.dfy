/** The query agent of main.py: the setup guards and the interactive loop that
    reads lines, routes each one, calls the document QA chain or the arXiv
    tool, and reports answers and errors until the exit word arrives.

    Console input becomes a finite sequence of lines; console output becomes a
    sequence of `Output`s; the two external capabilities are parameters that
    return either a text or the message of the exception they raised. */
module Agent {
  import opened Text
  import opened Router

  /** What one external call gives back. */
  datatype Reply = Ok(text: string) | Failed(error: string)

  /** What the loop prints in answer to one line (progress banners aside);
      `Printed` gives the exact text. */
  datatype Output =
    | Farewell                   // the exit message
    | AskForTerm                 // the agent's fixed request for a search term
    | Answer(text: string)       // the agent's response
    | ErrorReport(error: string) // the message of a caught exception

  /** One call into an external capability. */
  datatype Call = AskDocuments(query: string) | SearchArxiv(term: string)

  /** What the session did: everything printed, every external call made, how
      many input lines were read, and whether it ended on the exit word. */
  datatype Transcript = Transcript(outputs: seq<Output>, calls: seq<Call>, consumed: nat, exited: bool)

  /** Why setup stops the program before the loop starts. */
  datatype SetupError =
    | MissingApiKey      // the key is unset or empty
    | EmbeddingsFailed   // loading the embedding model raised
    | MissingIndex       // the index directory does not exist
    | LoadFailed         // loading the index or building the LLM, chain or tool raised

  /** The program's outcome: stopped during setup, or ran the loop. */
  datatype Session = SetupFailed(error: SetupError) | Ran(transcript: Transcript)

  const EMPTY_TERM_PROMPT := "Please provide a search term after 'arxiv'."
  const AGENT_TAG := "\n[Agent]: "
  const ERROR_TAG := "\U{1F534} An error occurred: "

  /** The console text of an output. */
  function Printed(out: Output): string {
    match out
    case Farewell => "Exiting..."
    case AskForTerm => AGENT_TAG + EMPTY_TERM_PROMPT
    case Answer(text) => AGENT_TAG + text
    case ErrorReport(error) => ERROR_TAG + error
  }

  /** The request for a term is printed exactly as an agent response whose
      text is the fixed prompt, and an error report never looks like an agent
      response: a failing line gets the error line instead of an answer. */
  lemma PrintedForms(text: string, error: string)
    ensures Printed(AskForTerm) == Printed(Answer(EMPTY_TERM_PROMPT))
    ensures Printed(ErrorReport(error)) != Printed(Answer(text))
  {
    assert Printed(ErrorReport(error))[0] != Printed(Answer(text))[0];
  }

  /** The external calls a line leads to; its intent alone decides them. */
  function Requests(intent: Intent): seq<Call> {
    match intent
    case Exit => []
    case ArxivEmpty => []
    case Arxiv(term) => [SearchArxiv(term)]
    case Local(query) => [AskDocuments(query)]
  }

  /** A reply becomes an answer, an exception an inline error report. */
  function Report(reply: Reply): Output {
    match reply
    case Ok(text) => Answer(text)
    case Failed(error) => ErrorReport(error)
  }

  /** What is printed for one routed line. Read backwards: the farewell only
      ever answers the exit word, the term prompt only a blank search, and an
      answer or an error report only the reply of the capability the line
      was routed to. */
  function Respond(intent: Intent, docQA: string -> Reply, arxiv: string -> Reply): (out: Output)
    ensures out == Farewell <==> intent == Exit
    ensures out == AskForTerm <==> intent == ArxivEmpty
    ensures out.Answer? ==>
      (intent.Arxiv? && arxiv(intent.term) == Ok(out.text)) || (intent.Local? && docQA(intent.query) == Ok(out.text))
    ensures out.ErrorReport? ==>
      (intent.Arxiv? && arxiv(intent.term) == Failed(out.error)) || (intent.Local? && docQA(intent.query) == Failed(out.error))
  {
    match intent
    case Exit => Farewell
    case ArxivEmpty => AskForTerm
    case Arxiv(term) => Report(arxiv(term))
    case Local(query) => Report(docQA(query))
  }

  /** The intent of every input line, in order. */
  function Intents(lines: seq<string>): seq<Intent> {
    seq(|lines|, i requires 0 <= i < |lines| => Route(lines[i]))
  }

  /** The whole session, one routed line at a time: `intents` are the routes
      of the input lines (`Intents(lines)`). It stops right after the first
      exit line, having answered every line it read. */
  function Run(intents: seq<Intent>, docQA: string -> Reply, arxiv: string -> Reply): (t: Transcript)
    ensures t.consumed <= |intents| && |t.outputs| == t.consumed
    ensures !t.exited ==> t.consumed == |intents|
    decreases |intents|
  {
    if intents == [] then Transcript([], [], 0, false)
    else
      var out := Respond(intents[0], docQA, arxiv);
      if intents[0] == Exit then Transcript([out], [], 1, true)
      else
        var rest := Run(intents[1..], docQA, arxiv);
        Transcript([out] + rest.outputs, Requests(intents[0]) + rest.calls, 1 + rest.consumed, rest.exited)
  }

  /** A finished part of the session followed by the rest of it. */
  function Then(done: Transcript, rest: Transcript): Transcript {
    Transcript(done.outputs + rest.outputs, done.calls + rest.calls, done.consumed + rest.consumed, rest.exited)
  }

  /** Moving one answered line from the rest of a session to its finished part. */
  lemma ThenShift(outputs: seq<Output>, calls: seq<Call>, i: nat, out: Output, requests: seq<Call>, rest: Transcript)
    ensures Then(Transcript(outputs + [out], calls + requests, i + 1, false), rest)
         == Then(Transcript(outputs, calls, i, false), Then(Transcript([out], requests, 1, false), rest))
  {
    assert outputs + [out] + rest.outputs == outputs + ([out] + rest.outputs);
    assert calls + requests + rest.calls == calls + (requests + rest.calls);
  }

  /** One step of `Run` on the suffix that starts at intent `i`. */
  lemma RunAt(intents: seq<Intent>, i: nat, docQA: string -> Reply, arxiv: string -> Reply)
    requires i < |intents|
    ensures Run(intents[i..], docQA, arxiv) ==
        if intents[i] == Exit then Transcript([Farewell], [], 1, true)
        else Then(Transcript([Respond(intents[i], docQA, arxiv)], Requests(intents[i]), 1, false),
                  Run(intents[i + 1..], docQA, arxiv))
  {
    assert intents[i..][0] == intents[i] && intents[i..][1..] == intents[i + 1..];
  }

  /** The `while True` loop of main.py over a finite input: read a line, exit on
      the exit word, otherwise route it, call the capability it asks for, and
      print the response, or the error if the call failed, and go on. */
  method InteractiveLoop(lines: seq<string>, docQA: string -> Reply, arxiv: string -> Reply)
    returns (t: Transcript)
    ensures t == Run(Intents(lines), docQA, arxiv)
  {
    ghost var intents := Intents(lines);
    var outputs: seq<Output> := [];
    var calls: seq<Call> := [];
    var exited := false;
    var i := 0;
    assert intents[i..] == intents;
    while i < |lines|
      invariant 0 <= i <= |lines|
      invariant Then(Transcript(outputs, calls, i, false), Run(intents[i..], docQA, arxiv)) == Run(intents, docQA, arxiv)
    {
      var userQuery := lines[i];
      ghost var intent := Route(userQuery);
      ghost var doneOutputs, doneCalls := outputs, calls;
      assert intents[i] == intent;
      RunAt(intents, i, docQA, arxiv);
      i := i + 1;
      if Lower(userQuery) == EXIT_COMMAND {
        assert intent == Exit;
        outputs := outputs + [Farewell];
        exited := true;
        break;
      }
      var output: Output;
      if StartsWith(Lower(userQuery), ARXIV_PREFIX) {
        var searchTerm := Strip(userQuery[|ARXIV_PREFIX|..]);
        if searchTerm == [] {
          assert intent == ArxivEmpty;
          output := AskForTerm;
        } else {
          assert intent == Arxiv(searchTerm);
          calls := calls + [SearchArxiv(searchTerm)];
          output := Report(arxiv(searchTerm));
        }
      } else {
        assert intent == Local(userQuery);
        calls := calls + [AskDocuments(userQuery)];
        output := Report(docQA(userQuery));
      }
      outputs := outputs + [output];
      assert outputs == doneOutputs + [Respond(intent, docQA, arxiv)];
      assert calls == doneCalls + Requests(intent);
      ThenShift(doneOutputs, doneCalls, i - 1, Respond(intent, docQA, arxiv), Requests(intent),
                Run(intents[i..], docQA, arxiv));
    }
    assert i == |lines| ==> intents[i..] == [];
    t := Transcript(outputs, calls, i, exited);
  }

  /** The calls asked for by a run of intents, in order. */
  function AllRequests(intents: seq<Intent>): seq<Call> {
    if intents == [] then [] else Requests(intents[0]) + AllRequests(intents[1..])
  }

  /** Every line read is answered, in order, with exactly what its intent
      calls for: the farewell, the prompt for a term, or the capability's
      text or error. */
  lemma {:induction false} RunAnswersEachLine(intents: seq<Intent>, docQA: string -> Reply, arxiv: string -> Reply, j: nat)
    requires j < Run(intents, docQA, arxiv).consumed
    ensures Run(intents, docQA, arxiv).outputs[j] == Respond(intents[j], docQA, arxiv)
  {
    if j > 0 {
      RunAnswersEachLine(intents[1..], docQA, arxiv, j - 1);
    }
  }

  /** The capabilities are called exactly once for each line read that needs
      them, in input order, and never otherwise. */
  lemma {:induction false} RunCallsAreRequests(intents: seq<Intent>, docQA: string -> Reply, arxiv: string -> Reply)
    ensures Run(intents, docQA, arxiv).calls == AllRequests(intents[..Run(intents, docQA, arxiv).consumed])
  {
    if intents != [] {
      var t := Run(intents, docQA, arxiv);
      var read := intents[..t.consumed];
      assert read[0] == intents[0];
      if intents[0] == Exit {
        assert read[1..] == [];
      } else {
        RunCallsAreRequests(intents[1..], docQA, arxiv);
        assert read[1..] == intents[1..][..t.consumed - 1];
      }
    }
  }

  /** What the capabilities reply, failures included, never decides how many
      lines are read, whether the session exits, or which calls are made. */
  lemma {:induction false} RepliesDoNotSteer(intents: seq<Intent>, docQA: string -> Reply, arxiv: string -> Reply,
                                             docQA': string -> Reply, arxiv': string -> Reply)
    ensures Run(intents, docQA, arxiv).consumed == Run(intents, docQA', arxiv').consumed
    ensures Run(intents, docQA, arxiv).exited == Run(intents, docQA', arxiv').exited
    ensures Run(intents, docQA, arxiv).calls == Run(intents, docQA', arxiv').calls
  {
    if intents != [] {
      RepliesDoNotSteer(intents[1..], docQA, arxiv, docQA', arxiv');
    }
  }

  /** Once the exit word is read, nothing that follows it is read, answered
      or searched for. */
  lemma {:induction false} NothingAfterExit(intents: seq<Intent>, more: seq<Intent>, docQA: string -> Reply, arxiv: string -> Reply)
    requires Run(intents, docQA, arxiv).exited
    ensures Run(intents + more, docQA, arxiv) == Run(intents, docQA, arxiv)
  {
    assert (intents + more)[0] == intents[0];
    if intents[0] != Exit {
      assert (intents + more)[1..] == intents[1..] + more;
      NothingAfterExit(intents[1..], more, docQA, arxiv);
    }
  }

  /** The session exits exactly when the last line it read is the exit word,
      and no line read before that one is. */
  lemma {:induction false} ExitIsLastLineRead(intents: seq<Intent>, j: nat, docQA: string -> Reply, arxiv: string -> Reply)
    requires j < Run(intents, docQA, arxiv).consumed
    ensures intents[j] == Exit <==> Run(intents, docQA, arxiv).exited && j == Run(intents, docQA, arxiv).consumed - 1
  {
    if j > 0 {
      ExitIsLastLineRead(intents[1..], j - 1, docQA, arxiv);
    }
  }

  /** The first exit line ends the session: everything before it is answered,
      it gets the farewell, and the session is the same as if the input had
      ended there. */
  lemma {:induction false} ExitEndsSession(intents: seq<Intent>, k: nat, docQA: string -> Reply, arxiv: string -> Reply)
    requires k < |intents| && intents[k] == Exit
    requires forall j :: 0 <= j < k ==> intents[j] != Exit
    ensures Run(intents, docQA, arxiv).consumed == k + 1 && Run(intents, docQA, arxiv).exited
    ensures Run(intents, docQA, arxiv).outputs[k] == Farewell
    ensures Run(intents, docQA, arxiv) == Run(intents[..k + 1], docQA, arxiv)
  {
    var head := intents[..k + 1];
    assert head[0] == intents[0];
    if k > 0 {
      assert intents[0] != Exit;
      ExitEndsSession(intents[1..], k - 1, docQA, arxiv);
      assert head[1..] == intents[1..][..k];
    }
  }

  /** A line that is not the exit word never ends the session: if another line
      follows it, that line is read too. */
  lemma {:induction false} OnlyExitEndsSession(intents: seq<Intent>, j: nat, docQA: string -> Reply, arxiv: string -> Reply)
    requires j + 1 < |intents| && j < Run(intents, docQA, arxiv).consumed
    requires intents[j] != Exit
    ensures j + 1 < Run(intents, docQA, arxiv).consumed
  {
    if j > 0 {
      ExitIsLastLineRead(intents, 0, docQA, arxiv);
      OnlyExitEndsSession(intents[1..], j - 1, docQA, arxiv);
    }
  }

  /** A failing call is reported inline and the session goes on to the next
      line. */
  lemma ErrorDoesNotEndSession(intents: seq<Intent>, j: nat, docQA: string -> Reply, arxiv: string -> Reply)
    requires j + 1 < |intents| && j < Run(intents, docQA, arxiv).consumed
    requires Run(intents, docQA, arxiv).outputs[j].ErrorReport?
    ensures j + 1 < Run(intents, docQA, arxiv).consumed
  {
    RunAnswersEachLine(intents, docQA, arxiv, j);
    OnlyExitEndsSession(intents, j, docQA, arxiv);
  }

  /** Every call made was asked for by one of the intents. */
  lemma {:induction false} CallsComeFromIntents(intents: seq<Intent>, docQA: string -> Reply, arxiv: string -> Reply)
    ensures forall c :: c in Run(intents, docQA, arxiv).calls ==>
      (c.SearchArxiv? ==> Arxiv(c.term) in intents) && (c.AskDocuments? ==> Local(c.query) in intents)
  {
    if intents != [] && intents[0] != Exit {
      CallsComeFromIntents(intents[1..], docQA, arxiv);
    }
  }

  /** The arXiv tool is only ever asked for a non-empty term with no
      whitespace at either end. */
  lemma SearchTermsAreNeverBlank(lines: seq<string>, docQA: string -> Reply, arxiv: string -> Reply)
    ensures forall c :: c in Run(Intents(lines), docQA, arxiv).calls && c.SearchArxiv? ==>
      c.term != [] && !IsSpace(c.term[0]) && !IsSpace(c.term[|c.term| - 1])
  {
    var intents := Intents(lines);
    CallsComeFromIntents(intents, docQA, arxiv);
    forall i | 0 <= i < |lines| && intents[i].Arxiv?
      ensures intents[i].term != [] && !IsSpace(intents[i].term[0]) && !IsSpace(intents[i].term[|intents[i].term| - 1])
    {
      ArxivTermNonBlank(lines[i]);
    }
  }

  /** The document chain is only ever asked whole, unmodified input lines, and
      only lines that are neither the exit word nor an arXiv request. */
  lemma DocumentQueriesAreWholeLines(lines: seq<string>, docQA: string -> Reply, arxiv: string -> Reply)
    ensures forall c :: c in Run(Intents(lines), docQA, arxiv).calls && c.AskDocuments? ==>
      c.query in lines && Route(c.query) == Local(c.query)
  {
    var intents := Intents(lines);
    CallsComeFromIntents(intents, docQA, arxiv);
    forall i | 0 <= i < |lines| && intents[i].Local?
      ensures intents[i] == Local(lines[i])
    {
      LocalKeepsLine(lines[i]);
    }
  }

  /** A question whose chain call fails, then the exit word in any case: the
      error is printed, the loop reads on and exits, and the line after the
      exit word is never read. */
  lemma FailureThenExit(question: string, word: string, later: string, docQA: string -> Reply, arxiv: string -> Reply)
    requires Route(question).Local? && docQA(question).Failed?
    requires Lower(word) == EXIT_COMMAND
    ensures Run(Intents([question, word, later]), docQA, arxiv)
         == Transcript([ErrorReport(docQA(question).error), Farewell], [AskDocuments(question)], 2, true)
  {
    ExitInAnyCase(word);
    var intents := Intents([question, word, later]);
    assert intents == [Route(question), Exit, Route(later)];
    assert intents[1..] == [Exit, Route(later)];
  }

  datatype Option<T> = None | Some(value: T)

  /** `not os.getenv(...)`: an unset variable and an empty one are both missing. */
  predicate HasValue(setting: Option<string>) {
    setting.Some? && setting.value != []
  }

  /** main(): the API key is checked first; then the embedding model is
      loaded, the index directory is checked, and the index, the language
      model, the QA chain and the arXiv tool are built. Each foreign load is
      given by whether it succeeds; an uncaught failure stops the program
      before the loop. Only when every step succeeds does the loop read any
      input. */
  method RunAgent(apiKey: Option<string>, embeddingsLoad: bool, indexExists: bool, componentsLoad: bool,
                  lines: seq<string>, docQA: string -> Reply, arxiv: string -> Reply)
    returns (s: Session)
    ensures !HasValue(apiKey) ==> s == SetupFailed(MissingApiKey)
    ensures HasValue(apiKey) && !embeddingsLoad ==> s == SetupFailed(EmbeddingsFailed)
    ensures HasValue(apiKey) && embeddingsLoad && !indexExists ==> s == SetupFailed(MissingIndex)
    ensures HasValue(apiKey) && embeddingsLoad && indexExists && !componentsLoad ==> s == SetupFailed(LoadFailed)
    ensures s.Ran? <==> HasValue(apiKey) && embeddingsLoad && indexExists && componentsLoad
    ensures s.Ran? ==> s.transcript == Run(Intents(lines), docQA, arxiv)
  {
    if !HasValue(apiKey) {
      return SetupFailed(MissingApiKey);
    }
    if !embeddingsLoad {
      return SetupFailed(EmbeddingsFailed);
    }
    if !indexExists {
      return SetupFailed(MissingIndex);
    }
    if !componentsLoad {
      return SetupFailed(LoadFailed);
    }
    var t := InteractiveLoop(lines, docQA, arxiv);
    return Ran(t);
  }
}
