/**
 * The evaluation driver `run_with_cross_validation`: for every fold, build the
 * training list from the documents, then walk the test rows, send each
 * selected row through the retrieval-augmented pipeline, normalize the answer
 * and record it.
 *
 * The pipeline (embeddings, vector store, retrieval and the language model) is
 * the opaque function `rag` from the fold's training list and the question to
 * the answer text. The test file is given as its parsed rows; the output file
 * is returned as `toOutput` instead of being written.
 */
module Driver {
  import opened Outcomes
  import opened Text
  import opened Normalizer
  import opened Folds

  /** A test row: a bare string (JSON list of strings) or a record (CSV row or JSON object). */
  datatype Row = Plain(text: string) | Structured(fields: map<string, string>)

  /** An output entry: the record with its "Classification" set, or the pair [text, classification]. */
  datatype OutRecord = Classified(fields: map<string, string>) | Pair(text: string, classification: string)

  /** The `responses` dictionary {"ACCEPT": accept, "REJECT": reject}. */
  datatype Tally = Tally(accept: nat, reject: nat)

  /** What the run has accumulated, and the human input not yet read. */
  datatype RunState = RunState(toOutput: seq<OutRecord>, responses: Tally, human: seq<string>)

  /** The inputs of one run: the scheme, the documents, the test rows and the injected functions. */
  datatype Config = Config(
    scheme: Scheme,
    documents: seq<string>,
    rows: seq<Row>,
    ignore: set<string>,
    toPromptText: Row -> string,
    rag: (seq<string>, string) -> string)

  /** OUTER_RANGE, fixed from the size of the documents before any fold runs. */
  function Outer(c: Config): nat
  {
    OuterRange(c.scheme, |c.documents|)
  }

  predicate SupportedFile(filename: string)
  {
    EndsWith(filename, ".csv") || EndsWith(filename, ".json")
  }

  /** The row's prompt text is an ignored prompt. */
  predicate IgnoredRow(ignore: set<string>, row: Row)
  {
    match row
    case Plain(text) => text in ignore
    case Structured(fields) => "Prompts" in fields && fields["Prompts"] in ignore
  }

  /** The ignore test of a row; a record without "Prompts" raises a KeyError. */
  function IgnoreCheck(ignore: set<string>, row: Row): Result<bool>
  {
    if row.Structured? && "Prompts" !in row.fields then Err(MissingPromptsField)
    else Ok(IgnoredRow(ignore, row))
  }

  /** The output entry for a row classified as v. */
  function Classify(row: Row, v: Verdict): OutRecord
  {
    match row
    case Plain(text) => Pair(text, v.Name())
    case Structured(fields) => Classified(fields["Classification" := v.Name()])
  }

  /** `responses[output] += 1`. */
  function Counted(t: Tally, v: Verdict): Tally
  {
    match v
    case Accept => t.(accept := t.accept + 1)
    case Reject => t.(reject := t.reject + 1)
  }

  /** Test row j of fold i: skipped, or classified and recorded. */
  function StepRow(c: Config, i: nat, training: seq<string>, j: nat, st: RunState): Result<RunState>
    requires i < Outer(c) && j < |c.rows|
  {
    match IgnoreCheck(c.ignore, c.rows[j])
    case Err(e) => Err(e)
    case Ok(ignored) =>
      if !ignored && (Tested(c.scheme, Outer(c), |c.rows|, i, j) || DisabledFlag(c.scheme)) then
        match Normalize(c.rag(training, c.toPromptText(c.rows[j])), st.human)
        case Err(e) => Err(e)
        case Ok((v, used)) =>
          Ok(RunState(st.toOutput + [Classify(c.rows[j], v)], Counted(st.responses, v), st.human[used..]))
      else Ok(st)
  }

  /** The test rows of fold i from row j on. */
  function WalkRows(c: Config, i: nat, training: seq<string>, j: nat, st: RunState): Result<RunState>
    requires i < Outer(c) && j <= |c.rows|
    decreases |c.rows| - j
  {
    if j == |c.rows| then Ok(st)
    else
      match StepRow(c, i, training, j, st)
      case Err(e) => Err(e)
      case Ok(st') => WalkRows(c, i, training, j + 1, st')
  }

  /**
   * The folds from i on, where n is the value the variable N holds when fold i
   * starts: the size of the documents before fold 0, the number of test rows
   * after, since each fold reassigns it once the test file is read.
   */
  function RunFolds(c: Config, i: nat, n: nat, st: RunState): Result<RunState>
    decreases Outer(c) - i
  {
    if i >= Outer(c) then Ok(st)
    else if |c.documents| > 0 && !DivisorOk(c.scheme, Outer(c), n) then Err(ZeroDivision)
    else
      match WalkRows(c, i, TrainingSplit(c.scheme, Outer(c), n, i, c.documents), 0, st)
      case Err(e) => Err(e)
      case Ok(st') => RunFolds(c, i + 1, |c.rows|, st')
  }

  /** A whole run: the extension check, then every fold from an empty tally. */
  function Run(filename: string, c: Config, human: seq<string>): Result<RunState>
  {
    if !SupportedFile(filename) then Err(UnsupportedFileType)
    else RunFolds(c, 0, |c.documents|, RunState([], Tally(0, 0), human))
  }

  /**
   * The training loop of fold i: the documents whose index the test
   * predicate, reading size n, does not select. The predicate divides by n
   * (and by the number of folds) as soon as there is a document to test.
   */
  method BuildTraining(scheme: Scheme, outerRange: nat, n: nat, i: nat, documents: seq<string>)
    returns (r: Result<seq<string>>)
    ensures r == if |documents| > 0 && !DivisorOk(scheme, outerRange, n) then Err(ZeroDivision)
      else Ok(TrainingSplit(scheme, outerRange, n, i, documents))
  {
    var training: seq<string> := [];
    for j := 0 to |documents|
      invariant j > 0 ==> DivisorOk(scheme, outerRange, n)
      invariant training == TrainingSplit(scheme, outerRange, n, i, documents[..j])
    {
      if !DivisorOk(scheme, outerRange, n) {
        return Err(ZeroDivision);
      }
      assert documents[..j + 1][..j] == documents[..j];
      if !Tested(scheme, outerRange, n, i, j) {
        training := training + [documents[j]];
      }
    }
    assert documents[..|documents|] == documents;
    return Ok(training);
  }

  /**
   * The test loop of fold i, where n is N after its reassignment to the number
   * of test rows: each row that is not ignored and is selected (or every such
   * row when cross-validation is disabled) is answered, normalized and recorded.
   */
  method EvaluateFold(c: Config, i: nat, n: nat, training: seq<string>, st: RunState)
    returns (r: Result<RunState>)
    requires i < Outer(c) && n == |c.rows|
    ensures r == WalkRows(c, i, training, 0, st)
  {
    var reader := c.rows;
    var disabledFlag := DisabledFlag(c.scheme);
    var toOutput, responses, remaining := st.toOutput, st.responses, st.human;
    for j := 0 to |reader|
      invariant WalkRows(c, i, training, 0, st) == WalkRows(c, i, training, j, RunState(toOutput, responses, remaining))
    {
      var prompt := reader[j];
      var ignored: bool;
      if prompt.Plain? {
        ignored := prompt.text in c.ignore;
      } else {
        if "Prompts" !in prompt.fields {
          return Err(MissingPromptsField);
        }
        ignored := prompt.fields["Prompts"] in c.ignore;
      }
      if !ignored && (Tested(c.scheme, Outer(c), n, i, j) || disabledFlag) {
        var rawOutput := c.rag(training, c.toPromptText(prompt));
        var output, used := LlmOutputToAcceptReject(rawOutput, remaining);
        if output.Err? {
          return Err(output.error);
        }
        if prompt.Structured? {
          toOutput := toOutput + [Classified(prompt.fields["Classification" := output.value.Name()])];
        } else {
          toOutput := toOutput + [Pair(prompt.text, output.value.Name())];
        }
        responses := Counted(responses, output.value);
        remaining := remaining[used..];
      }
    }
    return Ok(RunState(toOutput, responses, remaining));
  }

  /**
   * `run_with_cross_validation`. N is a mutable local: the test predicate
   * reads it at each call, and the test loop reassigns it to the number of
   * test rows, which is what every later fold's training split then sees.
   * The scheme defaults to SimpleFifths.
   */
  method RunWithCrossValidation(
    filename: string,
    toPromptText: Row -> string,
    documents: seq<string>,
    ignore: set<string>,
    rag: (seq<string>, string) -> string,
    rows: seq<Row>,
    human: seq<string>,
    scheme: Scheme := SimpleFifths)
    returns (r: Result<RunState>)
    ensures r == Run(filename, Config(scheme, documents, rows, ignore, toPromptText, rag), human)
  {
    var c := Config(scheme, documents, rows, ignore, toPromptText, rag);
    var N: nat := |documents|;
    if !(EndsWith(filename, ".csv") || EndsWith(filename, ".json")) {
      return Err(UnsupportedFileType);
    }
    var outerRange := OuterRange(scheme, N);
    var st := RunState([], Tally(0, 0), human);
    for i := 0 to outerRange
      invariant Run(filename, c, human) == RunFolds(c, i, N, st)
    {
      var training := BuildTraining(scheme, outerRange, N, i, documents);
      if training.Err? {
        return Err(training.error);
      }
      N := |rows|;
      var fold := EvaluateFold(c, i, N, training.value, st);
      if fold.Err? {
        return fold;
      }
      st := fold.value;
    }
    return Ok(st);
  }
}
