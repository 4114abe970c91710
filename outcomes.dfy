/** Optional values, results, and the errors of the evaluation harness that this model represents. */
module Outcomes {

  datatype Option<+T> = None | Some(value: T)

  /**
   * The exceptions this model represents. Exceptions raised by the pipeline or
   * by `to_prompt_text` are not among them: both are total functions here.
   */
  datatype Error =
    | UnsupportedFileType   // ValueError: the test file ends in neither .csv nor .json
    | ZeroDivision          // ZeroDivisionError: a fold predicate divided by a size of zero
    | MissingPromptsField   // KeyError: a structured test row has no "Prompts" field
    | EndOfInput            // EOFError: the human input ran out before a valid token

  datatype Result<+T> = Ok(value: T) | Err(error: Error)
}
